# Safe-Data-Cloak redactor, modelled in Dafny

This project models the core of the Safe-Data-Cloak redactor (`redactor.py`).
The redactor reads a text, asks several detectors for character spans to hide,
unions the spans, reconciles overlaps and replaces each kept span with one
`█` per character. Along the way it counts, per category, how much it
redacted.

The model covers:

- the statistics record (`RedactionStats`) and its `to_dict` report;
- `redact_text` and `redact_email`;
- the bookkeeping of the four entity/pattern detectors (`redact_names`,
  `redact_dates`, `redact_phones`, `redact_addresses`);
- the line walk of `redact_concepts`;
- the detector pipeline, span reconciliation and redaction applier of
  `redact_document`;
- `validate_args`.

The external matchers are oracles. The tagger's entities, the regular
expressions' matches, the parsed postal addresses and the semantic sentence
matcher arrive as inputs (`Redactor.Detections`). Only the code around them
is modelled.

Modules, one per file:

| module | file | models |
|---|---|---|
| `Wrappers` | wrappers.dfy | `Option` |
| `Text` | text.dfy | `isalpha`, `isspace`/`strip`, `lower`, `in`, `find`, `split('\n')` and its inverse `join` |
| `Spans` | spans.dfy | span tuples, `'█' * n`, `redact_text`, `sorted` on tuples, the pointwise meaning of a redaction |
| `Stats` | stats.dfy | `RedactionStats`, the concept dictionary, `to_dict` |
| `Email` | email.dfy | `redact_email` |
| `Detectors` | detectors.dfy | `redact_names`, `redact_dates`, `redact_phones`, `redact_addresses` |
| `Concepts` | concepts.dfy | `redact_concepts` |
| `Reconcile` | reconcile.dfy | the sort / `last_end` walk / rebuild loop of `redact_document` |
| `Redactor` | redactor.dfy | `validate_args`, the detector calls of `redact_document`, the whole document step |

Each loop-based operation has a reference definition, and the loop is proved
to equal it:

- `Walk` against `Mask(text, Plan(spans))`;
- `ScanLines` against `ConceptSpans` and `Credit`;
- each detector against its set comprehension and counting function.

The reference definitions are in turn related to one another by lemmas.
Examples are the first-wins and no-trimming lemmas, the email round-trip
lemmas, and the `split`/`join` round trip.

## Model

| member | source | states |
|---|---|---|
| Text.IsAlpha | redactor.py:128 | `c.isalpha()`, for ASCII letters only: true exactly for `a`-`z` and `A`-`Z` |
| Text.IsSpace | redactor.py:269-274 | `c.isspace()`, the test `strip` removes by: exactly the code points CPython classifies as whitespace |
| Text.Contains | redactor.py:277 | Python's `pat in hay`: some index of `hay` starts an occurrence of `pat` |
| Text.Blank | redactor.py:269-274 | `not s.strip()`: true exactly when every character is one CPython treats as whitespace, so the empty string is blank |
| Text.Lower | redactor.py:275-277 | `s.lower()`, for ASCII letters only: same length, and each character is lowered on its own, so an upper-case ASCII letter becomes its lower-case form and every other character is kept |
| Text.Find | redactor.py:250 | `text.find(a)`: never below -1; -1 exactly when `a` does not occur; otherwise an index where it occurs, with no earlier occurrence. An empty needle gives 0, as in Python |
| Text.FindChar | redactor.py:126 | the first `@` (the split point of `split('@', 1)`), or the length when there is none; no earlier `@` |
| Text.Split | redactor.py:273 | `split('\n')` gives at least one piece, no piece holds a line feed, and joining the pieces with line feeds gives the text back |
| Text.SplitJoin | redactor.py:273 | splitting a join of line-feed-free pieces gives the same pieces back, the other half of the round trip |
| Spans.Blocks | redactor.py:147 | `'█' * n` has length `n` (none when `n` is not positive), and every character is the block character |
| Spans.RedactText | redactor.py:104-113 | the result has the input's length and consists only of block characters |
| Spans.Lt | redactor.py:328 | Python's `<` on `(start, end)` tuples, the order `sorted` uses: the smaller start first, and on equal starts the smaller end |
| Spans.LeastExists | redactor.py:328 | every non-empty span set has a least element in tuple order, which `sorted` puts first |
| Spans.SortSpans | redactor.py:328 | `sorted(set)` is strictly ascending in tuple order and holds exactly the set's elements, each once |
| Spans.Mask | redactor.py:329-339 | every character of the redacted text is either the original character or a block character, and the length is kept |
| Stats.Init | redactor.py:17-27 | a fresh record has every counter at zero and no concepts |
| Stats.Get | redactor.py:279 | `d.get(c, 0)`: the count stored under the first entry with key `c`, or 0 when `c` is not a key |
| Stats.Sum | redactor.py:35 | `sum(d.values())`: the sum of every entry's count |
| Stats.Total | redactor.py:35 | the total `to_dict` reports: the four scalar counters plus the sum of the concept counts |
| Stats.Bump | redactor.py:279 | `d[c] = d.get(c, 0) + 1`: `c` goes up by one, every other count is unchanged, and the total grows by one. Keys stay unique and gain `c`; old keys keep their place and a new key goes last |
| Stats.GetAtMostSum | redactor.py:35 | each concept's count is at most the sum of all concept counts |
| Stats.ToDict | redactor.py:29-44 | the reported total is the four counters plus all concept counts, and is stored back. Every other field is reported unchanged, and no concept count exceeds the total |
| Stats.ToDictIdempotent | redactor.py:35-44 | calling `to_dict` twice with nothing in between gives the same state and report |
| Stats.ToDictIgnoresStoredTotal | redactor.py:35 | the total is recomputed, so a stale stored total never shows in the report |
| Email.MaskLetters | redactor.py:128 | the masked local part has the local part's length, with each ASCII letter replaced by the block character and every other character kept |
| Email.RedactEmail | redactor.py:115-129 | without `@` the address is returned unchanged. Otherwise the length is kept, everything from the first `@` on is kept, and each character before it is blanked if it is a letter and kept if not |
| Email.RedactEmailChanges | redactor.py:123-129 | redaction changes the address exactly when it has an `@` and a letter before the first one |
| Email.RedactEmailIdempotent | redactor.py:123-129 | redacting an already redacted address changes nothing |
| Email.RedactEmailNoAt | redactor.py:123-124 | any string without `@` comes back unchanged |
| Email.RedactEmailNoAtExamples | redactor.py:123-124 | two instances: `"not.an.email"` and the empty string come back unchanged |
| Email.RedactEmailSplit | redactor.py:126-129 | for a local part without `@`, the result is the local part with its letters masked, then `@`, then the domain |
| Email.RedactEmailDottedName | redactor.py:126-129 | `john.smith@company.com` becomes `████.█████@company.com` |
| Email.RedactEmailKeepsDigits | redactor.py:126-129 | `test.user123@domain.com` becomes `████.████123@domain.com` |
| Detectors.RedactNames | redactor.py:131-168 | the spans are the PERSON entities plus the email matches that redaction changes; the name count grows by exactly that many, duplicates included |
| Detectors.PersonNames | redactor.py:141-153 | one span and one count per PERSON entity, and the running `shift` stays 0 because a blanked name keeps its length |
| Detectors.EmailNames | redactor.py:155-166 | a match is recorded and counted only when redaction changes it; `shift` stays 0, so every span is the match itself in the text's offsets |
| Detectors.RedactDates | redactor.py:170-192 | the spans are the DATE entities plus the pattern matches; the count grows by one per entity and one per match |
| Detectors.LabelSpansBound | redactor.py:182-185 | the number of distinct entity spans never exceeds the number of entities counted |
| Detectors.ElemsBound | redactor.py:188-190 | the number of distinct match spans never exceeds the number of matches counted |
| Detectors.DatesCountBound | redactor.py:170-192 | the date count never falls below the number of distinct date spans |
| Detectors.DatesDoubleCount | redactor.py:182-190 | a date found by both the tagger and the pattern yields one span but two counts |
| Detectors.RedactPhones | redactor.py:194-206 | the spans are the phone matches; the count grows by one per match |
| Detectors.HasIndicator | redactor.py:228 | the lower-cased context holds one of `street`, `st`, `ave`, `road`, `floor` or `suite` as a substring |
| Detectors.Window | redactor.py:223-224 | the context window contains the candidate, stays inside the text, and reaches exactly 30 characters on a side unless clamped at that end of the text |
| Detectors.FoundAt | redactor.py:249-252 | a parsed address gives a span exactly when it occurs verbatim: the first occurrence, of the address's length |
| Detectors.RedactAddresses | redactor.py:208-256 | the spans are the union of the three candidate kinds below; the count grows by each kind's count |
| Detectors.KeywordMatches | redactor.py:220-230 | a pattern match is kept and counted exactly when its clamped context, lower-cased, contains one of the six indicator words |
| Detectors.CorroboratedPlaces | redactor.py:233-243 | a GPE/LOC/FAC entity is kept and counted exactly when an address pattern matches its context |
| Detectors.ParsedAddresses | redactor.py:246-254 | each parsed address found in the text adds the span of its first occurrence and one count; one not found adds nothing |
| Reconcile.Accept | redactor.py:332-337 | the spans the cursor walk accepts come from the sorted list, start at or after the cursor, and are pairwise disjoint in order |
| Reconcile.AcceptDropped | redactor.py:333-334 | a span the walk drops starts before the cursor, or inside a span it accepted that comes before it in tuple order |
| Reconcile.Plan | redactor.py:328-337 | the redaction plan holds only candidate spans, in order and pairwise disjoint |
| Reconcile.Walk | redactor.py:329-339 | the `last_end` loop produces exactly the reference masking of the plan |
| Reconcile.ApplySpans | redactor.py:328-339 | for spans inside the text, the output has the text's length and equals the reference masking of the plan |
| Reconcile.PlanDropsOnlyOverlaps | redactor.py:332-334 | first wins with no trimming: a candidate left out of the plan starts inside a span the plan keeps, and that kept span comes before it in tuple order |
| Reconcile.EmptySpansIdentity | redactor.py:328-339 | with no spans the plan is empty and the text comes back unchanged |
| Reconcile.DisjointSpansAllKept | redactor.py:332-337 | when no two candidates overlap, every candidate is kept |
| Reconcile.AcceptKeepsDisjoint | redactor.py:332-337 | the walk keeps an already ascending, disjoint list whole |
| Reconcile.OverlapFirstWins | redactor.py:328-337 | of `(0,5)` and `(3,8)` only `(0,5)` is redacted: characters 0-4 are blanked and 5-7 stay as they were |
| Reconcile.SharedStartShorterWins | redactor.py:328-337 | of `(0,2)` and `(0,5)`, which share a start, the shorter `(0,2)` sorts first and wins: characters 0-1 are blanked and 2-4 stay as they were |
| Reconcile.DetectedStartRedacted | redactor.py:332-336 | the first character of every non-empty candidate is blanked, whether the plan keeps the candidate or drops it |
| Reconcile.OutsideSpansUnchanged | redactor.py:328-339 | a character that no detected span covers comes through unchanged, because the plan only keeps detected spans |
| Reconcile.MaskIdempotent | redactor.py:335-336 | applying the same plan to already redacted text changes nothing more |
| Concepts.FirstHit | redactor.py:277-278 | the credited concept is the first listed one whose lower-cased form occurs in the lower-cased line; none exactly when no concept occurs |
| Concepts.MatchLine | redactor.py:274-291 | a blank line never matches. An exact hit credits the first concept hit; only without one does the semantic matcher decide, and its choice is a listed concept |
| Concepts.CreditLine | redactor.py:274-293 | a line is redacted exactly when it matches, and then the credited concept's count goes up by one |
| Concepts.LineAt | redactor.py:273-294 | at `current_pos` the walk's line is a whole line of the text, and the next line starts after one more character |
| Concepts.ScanStep | redactor.py:280-294 | one iteration adds the current line to the redacted lines exactly when it matches |
| Concepts.CreditStep | redactor.py:277-291 | each further line adds its own credit to the reference concept dictionary |
| Concepts.ScanLines | redactor.py:272-294 | the walk redacts exactly the whole lines that match, and leaves the dictionary equal to the line-by-line reference credit. Keys stay unique and the concept total grows by one per redacted line |
| Concepts.BlankLines | redactor.py:269-270 | every line of a blank text is blank |
| Concepts.RedactConcepts | redactor.py:258-296 | a blank text or empty concept list yields nothing and changes nothing. Otherwise it redacts exactly the matching lines, each a whole non-blank line bounded by line feeds or the text's ends. The dictionary gets the reference credit, and only it changes |
| Redactor.ValidateArgs | redactor.py:372-388 | the options are valid exactly when some flag is set or a non-empty concept list is given |
| Redactor.CategorySpans | redactor.py:312-326 | the union of every enabled category's candidates lies inside the text |
| Redactor.LabelSpansFit | redactor.py:182-184 | entity spans lie inside the text |
| Redactor.ElemsFit | redactor.py:188-189 | pattern-match spans lie inside the text |
| Redactor.ConceptSpansFit | redactor.py:280 | redacted concept lines lie inside the text |
| Redactor.Collect | redactor.py:312-326 | the enabled detectors run in order; the union is the reference candidate set and each counter grows by its category's reference count |
| Redactor.NamesIf | redactor.py:313-314 | names are redacted and counted only when asked for |
| Redactor.DatesIf | redactor.py:316-317 | dates are redacted and counted only when asked for |
| Redactor.PhonesIf | redactor.py:319-320 | phones are redacted and counted only when asked for |
| Redactor.AddressesIf | redactor.py:322-323 | addresses are redacted and counted only when asked for |
| Redactor.ConceptsIf | redactor.py:325-326 | concepts are redacted only for a non-empty list, and the concept total grows by one per redacted line |
| Redactor.RedactDocument | redactor.py:298-342 | the output is the reference masking of the reconciled candidates: same length, each character kept or blanked, every character outside all candidates kept, the first character of each non-empty candidate blanked. With no option it is the text itself. Counters grow by the categories' counts and one more file is counted |

## Left out

- Reading and writing files, `glob`, `argparse`, JSON output to a file or stream, logging, and the batch loop of `main` (redactor.py:345-370, 391-445). These are I/O. `RedactDocument` takes the file's text as a parameter and returns the redacted text.
- The spaCy tagger: entities are an input sequence of `(label, start, end)`.
- The phone, date, address and email regular expressions (redactor.py:61-97, 155): their matches are input span lists. For addresses, the matches of all patterns are concatenated in pattern order, as the nested loop visits them. "Some address pattern matches this context" is an input predicate.
- `pyap.parse`: the parsed addresses for US, CA and GB are one input list of strings, in that order; only the `find` logic is modelled.
- The sentence-embedding model, cosine similarity, the 0.45 threshold and the exception handler (redactor.py:282-293). These are floating point and a foreign model. They become an oracle that returns either nothing or the index of a listed concept. A missing model, an error and a score at or below the threshold are all "nothing".
- The input spans are assumed to lie inside the text and to have `start <= end`, as the tagger and regex engines guarantee. The address candidates need no such assumption: out-of-range pattern matches are not accepted, and the `find` offsets are in range by construction.
- Text.Lower: lowers ASCII letters only, so a non-ASCII capital such as `É` is kept where Python gives `é`. A user-supplied concept `Émile` is therefore not an exact hit on the line `émile` in `Concepts.FirstHit` (redactor.py:277), so `Concepts.MatchLine` leaves that line to the semantic oracle. The address-indicator test is unaffected, because its six words are ASCII.
- Text.IsAlpha: recognises ASCII letters only. Inside the pipeline this is exact, because the email pattern (redactor.py:155) admits only ASCII characters in a local part. A direct call of `redact_email` on a local part with other Unicode letters would blank those letters in Python and keep them in the model.
- Spans.RedactText fixes `redact_chars` to its default `'█'`; no caller passes another (redactor.py:336).
- Redactor.RedactDocument: the oracles never fail. In `redactor.py` an exception from a foreign call partway through a document, such as `pyap.parse` (redactor.py:247), leaves the counters raised so far in place, skips `files_processed += 1` (redactor.py:340), and is logged by `main` (redactor.py:423-425). The model always completes the document and always counts the file, so counts left behind by such an exception are not modelled.
- spaCy runs once per document, and its entity list is shared by the three detectors that read it. The model passes that same list to each of them.
- `setup.py` and the test suite are not part of this model. The two email test vectors are stated as `Email.RedactEmailDottedName` and `Email.RedactEmailKeepsDigits`. The other tests depend on the loaded models.
- Spans may be empty (`start == end`): a parsed empty address or an empty entity gives a span that redacts nothing. The model allows this.
- A possible disagreement between the working copy's offsets and the original text's offsets in `redact_names` does not arise: both replacements keep the length, and the model proves that `shift` stays 0.
