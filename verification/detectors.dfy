/**
  The category detectors `redact_names`, `redact_dates`, `redact_phones`
  and `redact_addresses`. The tagger, the regular expressions and the
  postal-address parser are oracles: their results arrive as entity lists,
  match lists and candidate strings, and only the span and counter
  bookkeeping around them is modelled.
 */
module Detectors {
  import opened Text
  import opened Spans
  import opened Stats
  import opened Email
  import opened Wrappers

  /** One entity from the tagger: `(label_, start_char, end_char)`. */
  datatype Entity = Entity(tag: string, start: nat, end: nat)

  /** The tagger's offsets lie inside the text. */
  predicate EntitiesFit(ents: seq<Entity>, n: nat) {
    forall i :: 0 <= i < |ents| ==> ents[i].start <= ents[i].end <= n
  }

  /** A matcher's `(match.start(), match.end())` pairs lie inside the text. */
  predicate MatchesFit(ms: seq<Span>, n: nat) {
    forall i :: 0 <= i < |ms| ==> ms[i].start <= ms[i].end <= n
  }

  function Elems(ms: seq<Span>): set<Span> {
    set m | m in ms
  }

  /** The spans of the entities whose label is one of `labels`. */
  function LabelSpans(ents: seq<Entity>, labels: set<string>): set<Span> {
    set e | e in ents && e.tag in labels :: Span(e.start, e.end)
  }

  /** How many entities carry one of `labels`, duplicates included. */
  function CountLabel(ents: seq<Entity>, labels: set<string>): nat {
    if ents == [] then 0
    else CountLabel(ents[..|ents| - 1], labels) + (if ents[|ents| - 1].tag in labels then 1 else 0)
  }

  lemma LabelSpansSnoc(ents: seq<Entity>, e: Entity, labels: set<string>)
    ensures LabelSpans(ents + [e], labels) == LabelSpans(ents, labels) + (if e.tag in labels then {Span(e.start, e.end)} else {})
    ensures CountLabel(ents + [e], labels) == CountLabel(ents, labels) + (if e.tag in labels then 1 else 0)
  {
    assert (ents + [e])[..|ents|] == ents;
  }

  lemma ElemsSnoc(ms: seq<Span>, m: Span)
    ensures Elems(ms + [m]) == Elems(ms) + {m}
  {
  }

  // ---------------------------------------------------------------- names

  const Person: set<string> := {"PERSON"}

  /** The matched address holds a letter before its first `@`, so redaction changes it. */
  predicate EmailChanges(text: string, m: Span)
    requires m.start <= m.end <= |text|
  {
    var e := text[m.start..m.end];
    '@' in e && exists i :: 0 <= i < |LocalPart(e)| && IsAlpha(LocalPart(e)[i])
  }

  /** The email matches redaction changes. */
  function ChangedEmails(text: string, ms: seq<Span>): set<Span> {
    set m | m in ms && m.start <= m.end <= |text| && EmailChanges(text, m)
  }

  function CountChanged(text: string, ms: seq<Span>): nat {
    if ms == [] then 0
    else
      var m := ms[|ms| - 1];
      CountChanged(text, ms[..|ms| - 1]) + (if m.start <= m.end <= |text| && EmailChanges(text, m) then 1 else 0)
  }

  lemma ChangedEmailsSnoc(text: string, ms: seq<Span>, m: Span)
    requires m.start <= m.end <= |text|
    ensures ChangedEmails(text, ms + [m]) == ChangedEmails(text, ms) + (if EmailChanges(text, m) then {m} else {})
    ensures CountChanged(text, ms + [m]) == CountChanged(text, ms) + (if EmailChanges(text, m) then 1 else 0)
  {
    assert (ms + [m])[..|ms|] == ms;
  }

  /**
    `redact_names`: one span per PERSON entity and one per email match that
    redaction changes, each counted as a name. The `shift` that `redactor.py`
    keeps stays 0, because both replacements preserve length, so every span
    is in the text's own offsets.
   */
  method RedactNames(text: string, ents: seq<Entity>, emails: seq<Span>, stats: Stats)
    returns (spans: set<Span>, stats': Stats)
    requires EntitiesFit(ents, |text|)
    requires MatchesFit(emails, |text|)
    ensures spans == LabelSpans(ents, Person) + ChangedEmails(text, emails)
    ensures stats' == stats.(names := stats.names + CountLabel(ents, Person) + CountChanged(text, emails))
  {
    var persons, n1, redacted, shift := PersonNames(text, ents);
    var changed, n2 := EmailNames(text, emails, redacted, shift);
    spans := persons + changed;
    stats' := stats.(names := stats.names + n1 + n2);
  }

  /**
    The PERSON loop of `redact_names`: each name is blanked in the working
    copy, which keeps its length, so the running shift stays 0.
   */
  method PersonNames(text: string, ents: seq<Entity>)
    returns (spans: set<Span>, count: nat, redacted: string, shift: int)
    requires EntitiesFit(ents, |text|)
    ensures spans == LabelSpans(ents, Person) && count == CountLabel(ents, Person)
    ensures shift == 0 && |redacted| == |text|
  {
    spans, count := {}, 0;
    redacted := text;
    shift := 0;
    for i := 0 to |ents|
      invariant shift == 0 && |redacted| == |text|
      invariant spans == LabelSpans(ents[..i], Person) && count == CountLabel(ents[..i], Person)
    {
      var ent := ents[i];
      assert ents[..i + 1] == ents[..i] + [ent];
      LabelSpansSnoc(ents[..i], ent, Person);
      if ent.tag == "PERSON" {
        var redactedName := Blocks(ent.end - ent.start);
        var start, end := ent.start + shift, ent.end + shift;
        redacted := redacted[..start] + redactedName + redacted[end..];
        shift := shift + |redactedName| - (ent.end - ent.start);
        spans := spans + {Span(start, start + |redactedName|)};
        count := count + 1;
      }
    }
    assert ents[..|ents|] == ents;
  }

  /**
    The email loop of `redact_names`: a match is recorded only when
    redaction changes it; the replacement keeps its length, so the shift
    carried over from the PERSON loop stays 0 and each span is the match.
   */
  method EmailNames(text: string, emails: seq<Span>, redacted0: string, shift0: int)
    returns (spans: set<Span>, count: nat)
    requires MatchesFit(emails, |text|)
    requires shift0 == 0 && |redacted0| == |text|
    ensures spans == ChangedEmails(text, emails) && count == CountChanged(text, emails)
  {
    spans, count := {}, 0;
    var redacted, shift := redacted0, shift0;
    for i := 0 to |emails|
      invariant shift == 0 && |redacted| == |text|
      invariant spans == ChangedEmails(text, emails[..i]) && count == CountChanged(text, emails[..i])
    {
      var m := emails[i];
      assert emails[..i + 1] == emails[..i] + [m];
      ChangedEmailsSnoc(text, emails[..i], m);
      var original := text[m.start..m.end];
      var redactedEmail := RedactEmail(original);
      var start, end := m.start + shift, m.end + shift;
      RedactEmailChanges(original);
      assert EmailChanges(text, m) <==> original != redactedEmail;
      if original != redactedEmail {
        assert Span(start, start + |redactedEmail|) == m;
        redacted := redacted[..start] + redactedEmail + redacted[end..];
        shift := shift + |redactedEmail| - |original|;
        spans := spans + {Span(start, start + |redactedEmail|)};
        count := count + 1;
      }
    }
    assert emails[..|emails|] == emails;
  }

  // ---------------------------------------------------------------- dates and phones

  const Date: set<string> := {"DATE"}

  /**
    `redact_dates`: the DATE entities' spans together with the date
    pattern's matches; every entity and every match is counted, so the same
    text found by both is counted twice but redacted once.
   */
  method RedactDates(text: string, ents: seq<Entity>, matches: seq<Span>, stats: Stats)
    returns (spans: set<Span>, stats': Stats)
    ensures spans == LabelSpans(ents, Date) + Elems(matches)
    ensures stats' == stats.(dates := stats.dates + CountLabel(ents, Date) + |matches|)
  {
    spans := {};
    stats' := stats;
    for i := 0 to |ents|
      invariant spans == LabelSpans(ents[..i], Date)
      invariant stats' == stats.(dates := stats.dates + CountLabel(ents[..i], Date))
    {
      assert ents[..i + 1] == ents[..i] + [ents[i]];
      LabelSpansSnoc(ents[..i], ents[i], Date);
      if ents[i].tag == "DATE" {
        spans := spans + {Span(ents[i].start, ents[i].end)};
        stats' := stats'.(dates := stats'.dates + 1);
      }
    }
    assert ents[..|ents|] == ents;
    ghost var entitySpans := spans;
    for i := 0 to |matches|
      invariant spans == entitySpans + Elems(matches[..i])
      invariant stats' == stats.(dates := stats.dates + CountLabel(ents, Date) + i)
    {
      assert matches[..i + 1] == matches[..i] + [matches[i]];
      ElemsSnoc(matches[..i], matches[i]);
      spans := spans + {matches[i]};
      stats' := stats'.(dates := stats'.dates + 1);
    }
    assert matches[..|matches|] == matches;
  }

  /** Each entity of the labels adds at most one new span, so the count bounds the span set. */
  lemma {:induction false} LabelSpansBound(ents: seq<Entity>, labels: set<string>)
    ensures |LabelSpans(ents, labels)| <= CountLabel(ents, labels)
    decreases |ents|
  {
    if ents != [] {
      var init, e := ents[..|ents| - 1], ents[|ents| - 1];
      assert ents == init + [e];
      LabelSpansSnoc(init, e, labels);
      LabelSpansBound(init, labels);
    }
  }

  lemma {:induction false} ElemsBound(ms: seq<Span>)
    ensures |Elems(ms)| <= |ms|
    decreases |ms|
  {
    if ms != [] {
      var init, m := ms[..|ms| - 1], ms[|ms| - 1];
      assert ms == init + [m];
      ElemsSnoc(init, m);
      ElemsBound(init);
    }
  }

  /** The date count never falls below the number of distinct date spans. */
  lemma DatesCountBound(ents: seq<Entity>, matches: seq<Span>)
    ensures |LabelSpans(ents, Date) + Elems(matches)| <= CountLabel(ents, Date) + |matches|
  {
    LabelSpansBound(ents, Date);
    ElemsBound(matches);
  }

  /** A date found by both the tagger and the pattern is redacted once but counted twice. */
  lemma DatesDoubleCount(e: Entity)
    requires e.tag == "DATE"
    ensures LabelSpans([e], Date) + Elems([Span(e.start, e.end)]) == {Span(e.start, e.end)}
    ensures CountLabel([e], Date) + |[Span(e.start, e.end)]| == 2
  {
    LabelSpansSnoc([], e, Date);
    ElemsSnoc([], Span(e.start, e.end));
    assert [] + [e] == [e];
    assert [] + [Span(e.start, e.end)] == [Span(e.start, e.end)];
  }

  /** `redact_phones`: the phone pattern's matches, one count per match. */
  method RedactPhones(text: string, matches: seq<Span>, stats: Stats)
    returns (spans: set<Span>, stats': Stats)
    ensures spans == Elems(matches)
    ensures stats' == stats.(phones := stats.phones + |matches|)
  {
    spans := {};
    stats' := stats;
    for i := 0 to |matches|
      invariant spans == Elems(matches[..i])
      invariant stats' == stats.(phones := stats.phones + i)
    {
      assert matches[..i + 1] == matches[..i] + [matches[i]];
      ElemsSnoc(matches[..i], matches[i]);
      spans := spans + {matches[i]};
      stats' := stats'.(phones := stats'.phones + 1);
    }
    assert matches[..|matches|] == matches;
  }

  // ---------------------------------------------------------------- addresses

  /** `redactor.py`'s address-indicator words, tested as substrings of the lower-cased context. */
  const Indicators: seq<string> := ["street", "st", "ave", "road", "floor", "suite"]

  /** `any(ind in context.lower() for ind in indicators)`. */
  predicate HasIndicator(context: string) {
    exists k :: 0 <= k < |Indicators| && Contains(Lower(context), Indicators[k])
  }

  /**
    The context window `[max(0, start - 30), min(len(text), end + 30))`:
    thirty characters on each side, clamped to the text.
   */
  function Window(n: nat, start: nat, end: nat): (w: (nat, nat))
    requires start <= end <= n
    ensures w.0 <= start <= end <= w.1 <= n
    ensures start - w.0 <= 30 && (w.0 > 0 ==> start - w.0 == 30)
    ensures w.1 - end <= 30 && (w.1 < n ==> w.1 - end == 30)
  {
    (if start >= 30 then start - 30 else 0, if end + 30 <= n then end + 30 else n)
  }

  function Context(text: string, start: nat, end: nat): string
    requires start <= end <= |text|
  {
    var w := Window(|text|, start, end);
    text[w.0..w.1]
  }

  /** Pattern matches whose context window holds an indicator word. */
  function KeywordSpans(text: string, ms: seq<Span>): set<Span> {
    set m | m in ms && m.start <= m.end <= |text| && HasIndicator(Context(text, m.start, m.end))
  }

  function CountKeyword(text: string, ms: seq<Span>): nat {
    if ms == [] then 0
    else
      var m := ms[|ms| - 1];
      CountKeyword(text, ms[..|ms| - 1])
        + (if m.start <= m.end <= |text| && HasIndicator(Context(text, m.start, m.end)) then 1 else 0)
  }

  lemma KeywordSpansSnoc(text: string, ms: seq<Span>, m: Span)
    requires m.start <= m.end <= |text|
    ensures KeywordSpans(text, ms + [m]) ==
              KeywordSpans(text, ms) + (if HasIndicator(Context(text, m.start, m.end)) then {m} else {})
    ensures CountKeyword(text, ms + [m]) ==
              CountKeyword(text, ms) + (if HasIndicator(Context(text, m.start, m.end)) then 1 else 0)
  {
    assert (ms + [m])[..|ms|] == ms;
  }

  const Place: set<string> := {"GPE", "LOC", "FAC"}

  /** A place entity counts when some address pattern matches its context window. */
  predicate Corroborated(text: string, e: Entity, addressLike: string -> bool) {
    e.tag in Place && e.start <= e.end <= |text| && addressLike(Context(text, e.start, e.end))
  }

  function PlaceSpans(text: string, ents: seq<Entity>, addressLike: string -> bool): set<Span> {
    set e | e in ents && Corroborated(text, e, addressLike) :: Span(e.start, e.end)
  }

  function CountPlaces(text: string, ents: seq<Entity>, addressLike: string -> bool): nat {
    if ents == [] then 0
    else
      CountPlaces(text, ents[..|ents| - 1], addressLike)
        + (if Corroborated(text, ents[|ents| - 1], addressLike) then 1 else 0)
  }

  lemma PlaceSpansSnoc(text: string, ents: seq<Entity>, e: Entity, addressLike: string -> bool)
    ensures PlaceSpans(text, ents + [e], addressLike) ==
              PlaceSpans(text, ents, addressLike) + (if Corroborated(text, e, addressLike) then {Span(e.start, e.end)} else {})
    ensures CountPlaces(text, ents + [e], addressLike) ==
              CountPlaces(text, ents, addressLike) + (if Corroborated(text, e, addressLike) then 1 else 0)
  {
    assert (ents + [e])[..|ents|] == ents;
  }

  /** The span of the first verbatim occurrence of a parsed address, when there is one. */
  function FoundAt(text: string, a: string): (r: Option<Span>)
    ensures r.Some? <==> Contains(text, a)
    ensures r.Some? ==> r.value.end == r.value.start + |a| <= |text| && text[r.value.start..r.value.end] == a
    ensures r.Some? ==> forall j :: 0 <= j < r.value.start ==> !OccursAt(text, a, j)
  {
    var start := Find(text, a);
    var end := start + |a|;
    if start != -1 then Some(Span(start, end)) else None
  }

  function FoundSpans(text: string, parsed: seq<string>): set<Span> {
    set a | a in parsed && FoundAt(text, a).Some? :: FoundAt(text, a).value
  }

  function CountFound(text: string, parsed: seq<string>): nat {
    if parsed == [] then 0
    else
      CountFound(text, parsed[..|parsed| - 1])
        + (if FoundAt(text, parsed[|parsed| - 1]).Some? then 1 else 0)
  }

  lemma FoundSpansSnoc(text: string, parsed: seq<string>, a: string)
    ensures FoundSpans(text, parsed + [a]) ==
              FoundSpans(text, parsed) + (if FoundAt(text, a).Some? then {FoundAt(text, a).value} else {})
    ensures CountFound(text, parsed + [a]) == CountFound(text, parsed) + (if FoundAt(text, a).Some? then 1 else 0)
  {
    assert (parsed + [a])[..|parsed|] == parsed;
  }

  /**
    `redact_addresses`: pattern matches with an indicator word nearby,
    place entities an address pattern corroborates, and the first verbatim
    occurrence of each parsed address; a parsed address not found in the
    text is dropped. Every accepted candidate is counted.
   */
  method RedactAddresses(text: string, matches: seq<Span>, ents: seq<Entity>,
                         addressLike: string -> bool, parsed: seq<string>, stats: Stats)
    returns (spans: set<Span>, stats': Stats)
    ensures spans == KeywordSpans(text, matches) + PlaceSpans(text, ents, addressLike) + FoundSpans(text, parsed)
    ensures stats' == stats.(addresses := stats.addresses + CountKeyword(text, matches)
                               + CountPlaces(text, ents, addressLike) + CountFound(text, parsed))
  {
    var keyword, n1 := KeywordMatches(text, matches);
    var places, n2 := CorroboratedPlaces(text, ents, addressLike);
    var found, n3 := ParsedAddresses(text, parsed);
    spans := keyword + places + found;
    stats' := stats.(addresses := stats.addresses + n1 + n2 + n3);
  }

  /** The first loop of `redact_addresses`: pattern matches with an indicator word in their context. */
  method KeywordMatches(text: string, matches: seq<Span>) returns (spans: set<Span>, count: nat)
    ensures spans == KeywordSpans(text, matches) && count == CountKeyword(text, matches)
  {
    spans, count := {}, 0;
    for i := 0 to |matches|
      invariant spans == KeywordSpans(text, matches[..i]) && count == CountKeyword(text, matches[..i])
    {
      var m := matches[i];
      assert matches[..i + 1] == matches[..i] + [m];
      assert (matches[..i] + [m])[..i] == matches[..i];
      if m.start <= m.end <= |text| {
        KeywordSpansSnoc(text, matches[..i], m);
        var context := Context(text, m.start, m.end);
        if HasIndicator(context) {
          spans := spans + {m};
          count := count + 1;
        }
      }
    }
    assert matches[..|matches|] == matches;
  }

  /** The second loop: place entities an address pattern corroborates. */
  method CorroboratedPlaces(text: string, ents: seq<Entity>, addressLike: string -> bool)
    returns (spans: set<Span>, count: nat)
    ensures spans == PlaceSpans(text, ents, addressLike) && count == CountPlaces(text, ents, addressLike)
  {
    spans, count := {}, 0;
    for i := 0 to |ents|
      invariant spans == PlaceSpans(text, ents[..i], addressLike) && count == CountPlaces(text, ents[..i], addressLike)
    {
      var ent := ents[i];
      assert ents[..i + 1] == ents[..i] + [ent];
      PlaceSpansSnoc(text, ents[..i], ent, addressLike);
      if ent.tag in Place && ent.start <= ent.end <= |text| {
        var context := Context(text, ent.start, ent.end);
        if addressLike(context) {
          spans := spans + {Span(ent.start, ent.end)};
          count := count + 1;
        }
      }
    }
    assert ents[..|ents|] == ents;
  }

  /** The third loop: the first verbatim occurrence of each parsed address; one not found is dropped. */
  method ParsedAddresses(text: string, parsed: seq<string>) returns (spans: set<Span>, count: nat)
    ensures spans == FoundSpans(text, parsed) && count == CountFound(text, parsed)
  {
    spans, count := {}, 0;
    for i := 0 to |parsed|
      invariant spans == FoundSpans(text, parsed[..i]) && count == CountFound(text, parsed[..i])
    {
      var a := parsed[i];
      assert parsed[..i + 1] == parsed[..i] + [a];
      FoundSpansSnoc(text, parsed[..i], a);
      var start := Find(text, a);
      var end := start + |a|;
      assert FoundAt(text, a).Some? <==> start != -1;
      if start != -1 {
        assert FoundAt(text, a).value == Span(start, end);
        spans := spans + {Span(start, end)};
        count := count + 1;
      }
    }
    assert parsed[..|parsed|] == parsed;
  }
}
