/**
  `validate_args` and `Redactor.redact_document`: the enabled detectors run
  in a fixed order (names, dates, phones, addresses, concepts), each adding
  its spans to one set and its counts to the shared statistics; the set is
  then reconciled and applied, and the file is counted as processed.
 */
module Redactor {
  import opened Wrappers
  import opened Text
  import opened Spans
  import opened Stats
  import opened Detectors
  import opened Concepts
  import opened Reconcile

  /**
    The redaction options of the command line. `--concept` may be repeated,
    so it is absent (`None`) when never given and a list otherwise.
   */
  datatype Args = Args(names: bool, dates: bool, phones: bool, address: bool, concept: Option<seq<string>>)

  /** The concepts to redact; an absent `--concept` means none. */
  function ConceptList(a: Args): seq<string> {
    if a.concept.Some? then a.concept.value else []
  }

  /** `validate_args`: at least one redaction option must be asked for. */
  function ValidateArgs(a: Args): (ok: bool)
    ensures ok <==> a.names || a.dates || a.phones || a.address || ConceptList(a) != []
  {
    var redactionOptions := [a.names, a.dates, a.phones, a.address];
    assert a.names == redactionOptions[0] && a.dates == redactionOptions[1];
    assert a.phones == redactionOptions[2] && a.address == redactionOptions[3];
    !(!(exists k :: 0 <= k < |redactionOptions| && redactionOptions[k]) && !(a.concept.Some? && a.concept.value != []))
  }

  /**
    What the external matchers report for one document: the tagger's
    entities, the matches of the email, date, phone and address patterns,
    whether some address pattern matches a given context, the parsed
    addresses (for the US, Canada and Britain in turn), and the semantic
    matcher.
   */
  datatype Detections = Detections(
    ents: seq<Entity>,
    emails: seq<Span>,
    dateMatches: seq<Span>,
    phoneMatches: seq<Span>,
    addressMatches: seq<Span>,
    addressLike: string -> bool,
    parsed: seq<string>,
    semantic: Semantic)

  /** The matchers' offsets lie inside the text and the semantic matcher picks a listed concept. */
  ghost predicate DetectionsFit(text: string, flags: Args, d: Detections) {
    && EntitiesFit(d.ents, |text|)
    && MatchesFit(d.emails, |text|)
    && MatchesFit(d.dateMatches, |text|)
    && MatchesFit(d.phoneMatches, |text|)
    && SemanticFits(d.semantic, ConceptList(flags))
  }

  function NameSpans(text: string, flags: Args, d: Detections): set<Span> {
    if flags.names then LabelSpans(d.ents, Person) + ChangedEmails(text, d.emails) else {}
  }

  function DateSpans(flags: Args, d: Detections): set<Span> {
    if flags.dates then LabelSpans(d.ents, Date) + Elems(d.dateMatches) else {}
  }

  function PhoneSpans(flags: Args, d: Detections): set<Span> {
    if flags.phones then Elems(d.phoneMatches) else {}
  }

  function AddressSpans(text: string, flags: Args, d: Detections): set<Span> {
    if flags.address then
      KeywordSpans(text, d.addressMatches) + PlaceSpans(text, d.ents, d.addressLike) + FoundSpans(text, d.parsed)
    else {}
  }

  ghost function LineSpans(text: string, flags: Args, d: Detections): set<Span>
    requires SemanticFits(d.semantic, ConceptList(flags))
  {
    if ConceptList(flags) != [] then ConceptSpans(text, ConceptList(flags), d.semantic) else {}
  }

  /**
    The reference candidate set: the union of what every enabled category
    reports. Every candidate lies inside the text.
   */
  ghost function CategorySpans(text: string, flags: Args, d: Detections): (s: set<Span>)
    requires DetectionsFit(text, flags, d)
    ensures WellFormed(s, |text|)
  {
    LabelSpansFit(d.ents, Person, |text|);
    LabelSpansFit(d.ents, Date, |text|);
    ElemsFit(d.dateMatches, |text|);
    ElemsFit(d.phoneMatches, |text|);
    ConceptSpansFit(text, ConceptList(flags), d.semantic);
    NameSpans(text, flags, d) + DateSpans(flags, d) + PhoneSpans(flags, d)
      + AddressSpans(text, flags, d) + LineSpans(text, flags, d)
  }

  lemma LabelSpansFit(ents: seq<Entity>, labels: set<string>, n: nat)
    requires EntitiesFit(ents, n)
    ensures WellFormed(LabelSpans(ents, labels), n)
  {
    forall x | x in LabelSpans(ents, labels) ensures x.start <= x.end <= n {
      var e :| e in ents && e.tag in labels && x == Span(e.start, e.end);
    }
  }

  lemma ElemsFit(ms: seq<Span>, n: nat)
    requires MatchesFit(ms, n)
    ensures WellFormed(Elems(ms), n)
  {
    forall x | x in Elems(ms) ensures x.start <= x.end <= n {
      var i :| 0 <= i < |ms| && ms[i] == x;
    }
  }

  lemma ConceptSpansFit(text: string, concepts: seq<string>, semantic: Semantic)
    requires SemanticFits(semantic, concepts)
    ensures WellFormed(ConceptSpans(text, concepts, semantic), |text|)
  {
    ConceptSpansMembers(text, concepts, semantic);
  }

  /**
    `redact_document` on the text of one file. The output is the reference
    masking of the reconciled candidate set: same length as the text, each
    character either kept or blanked, every character outside all candidates
    kept, and at least the first character of every non-empty candidate
    blanked. With no option asked for, the text
    comes back unchanged. Each category adds its own counts, the concept
    counts grow by one per redacted line, and one more file is counted.
   */
  method RedactDocument(text: string, flags: Args, d: Detections, stats: Stats) returns (out: string, stats': Stats)
    requires DetectionsFit(text, flags, d)
    ensures out == Mask(text, Plan(CategorySpans(text, flags, d)))
    ensures |out| == |text|
    ensures forall j :: 0 <= j < |text| ==> out[j] == Block || out[j] == text[j]
    ensures forall x :: x in CategorySpans(text, flags, d) && x.start < x.end ==> out[x.start] == Block
    ensures forall j :: 0 <= j < |text| && !InSomeSpan(CategorySpans(text, flags, d), j) ==> out[j] == text[j]
    ensures !ValidateArgs(flags) ==> out == text
    ensures stats'.names == stats.names + NameCount(text, flags, d)
    ensures stats'.dates == stats.dates + DateCount(flags, d)
    ensures stats'.phones == stats.phones + PhoneCount(flags, d)
    ensures stats'.addresses == stats.addresses + AddressCount(text, flags, d)
    ensures stats'.concepts == ConceptCredit(stats.concepts, text, flags, d)
    ensures stats'.filesProcessed == stats.filesProcessed + 1 && stats'.totalWords == stats.totalWords
    ensures Sum(stats'.concepts) == Sum(stats.concepts) + |LineSpans(text, flags, d)|
    ensures DistinctKeys(stats.concepts) ==> DistinctKeys(stats'.concepts)
  {
    var spans, st := Collect(text, flags, d, stats);
    out := ApplySpans(text, spans);
    stats' := st.(filesProcessed := st.filesProcessed + 1);
    forall x | x in spans && x.start < x.end ensures out[x.start] == Block {
      DetectedStartRedacted(text, spans, x);
    }
    forall j | 0 <= j < |text| && !InSomeSpan(spans, j) ensures out[j] == text[j] {
      OutsideSpansUnchanged(text, spans, j);
    }
    if !ValidateArgs(flags) {
      EmptySpansIdentity(text);
    }
  }

  /** One per PERSON entity and one per email match that redaction changes. */
  function NameCount(text: string, flags: Args, d: Detections): nat {
    if flags.names then CountLabel(d.ents, Person) + CountChanged(text, d.emails) else 0
  }

  /** One per DATE entity and one per date-pattern match, duplicates included. */
  function DateCount(flags: Args, d: Detections): nat {
    if flags.dates then CountLabel(d.ents, Date) + |d.dateMatches| else 0
  }

  function PhoneCount(flags: Args, d: Detections): nat {
    if flags.phones then |d.phoneMatches| else 0
  }

  /** One per accepted pattern match, corroborated place and parsed address found in the text. */
  function AddressCount(text: string, flags: Args, d: Detections): nat {
    if flags.address
    then CountKeyword(text, d.addressMatches) + CountPlaces(text, d.ents, d.addressLike) + CountFound(text, d.parsed)
    else 0
  }

  /** The concept dictionary after the concept pass; a blank text is skipped whole. */
  function ConceptCredit(counts: Counts, text: string, flags: Args, d: Detections): Counts
    requires SemanticFits(d.semantic, ConceptList(flags))
  {
    var concepts := ConceptList(flags);
    if concepts != [] && !Blank(text) then Credit(counts, Split(text), concepts, d.semantic) else counts
  }

  /** The detector calls of `redact_document`, each adding to one span set. */
  method Collect(text: string, flags: Args, d: Detections, stats: Stats) returns (spans: set<Span>, st: Stats)
    requires DetectionsFit(text, flags, d)
    ensures spans == CategorySpans(text, flags, d)
    ensures st.names == stats.names + NameCount(text, flags, d)
    ensures st.dates == stats.dates + DateCount(flags, d)
    ensures st.phones == stats.phones + PhoneCount(flags, d)
    ensures st.addresses == stats.addresses + AddressCount(text, flags, d)
    ensures st.concepts == ConceptCredit(stats.concepts, text, flags, d)
    ensures st.filesProcessed == stats.filesProcessed && st.totalWords == stats.totalWords
    ensures Sum(st.concepts) == Sum(stats.concepts) + |LineSpans(text, flags, d)|
    ensures DistinctKeys(stats.concepts) ==> DistinctKeys(st.concepts)
  {
    var names, dates, phones, addresses, lines;
    var s1, s2, s3, s4;
    names, s1 := NamesIf(text, flags, d, stats);
    dates, s2 := DatesIf(text, flags, d, s1);
    phones, s3 := PhonesIf(text, flags, d, s2);
    addresses, s4 := AddressesIf(text, flags, d, s3);
    lines, st := ConceptsIf(text, flags, d, s4);
    spans := names + dates + phones + addresses + lines;
  }

  /** `if flags.names: ...` */
  method NamesIf(text: string, flags: Args, d: Detections, stats: Stats) returns (spans: set<Span>, st: Stats)
    requires DetectionsFit(text, flags, d)
    ensures spans == NameSpans(text, flags, d)
    ensures st == stats.(names := stats.names + NameCount(text, flags, d))
  {
    spans, st := {}, stats;
    if flags.names {
      spans, st := RedactNames(text, d.ents, d.emails, stats);
    }
  }

  /** `if flags.dates: ...` */
  method DatesIf(text: string, flags: Args, d: Detections, stats: Stats) returns (spans: set<Span>, st: Stats)
    requires DetectionsFit(text, flags, d)
    ensures spans == DateSpans(flags, d)
    ensures st == stats.(dates := stats.dates + DateCount(flags, d))
  {
    spans, st := {}, stats;
    if flags.dates {
      spans, st := RedactDates(text, d.ents, d.dateMatches, stats);
    }
  }

  /** `if flags.phones: ...` */
  method PhonesIf(text: string, flags: Args, d: Detections, stats: Stats) returns (spans: set<Span>, st: Stats)
    requires DetectionsFit(text, flags, d)
    ensures spans == PhoneSpans(flags, d)
    ensures st == stats.(phones := stats.phones + PhoneCount(flags, d))
  {
    spans, st := {}, stats;
    if flags.phones {
      spans, st := RedactPhones(text, d.phoneMatches, stats);
    }
  }

  /** `if flags.address: ...` */
  method AddressesIf(text: string, flags: Args, d: Detections, stats: Stats) returns (spans: set<Span>, st: Stats)
    requires DetectionsFit(text, flags, d)
    ensures spans == AddressSpans(text, flags, d)
    ensures st == stats.(addresses := stats.addresses + AddressCount(text, flags, d))
  {
    spans, st := {}, stats;
    if flags.address {
      spans, st := RedactAddresses(text, d.addressMatches, d.ents, d.addressLike, d.parsed, stats);
    }
  }

  /** `if flags.concept: ...`: an absent or empty concept list is skipped. */
  method ConceptsIf(text: string, flags: Args, d: Detections, stats: Stats) returns (spans: set<Span>, st: Stats)
    requires DetectionsFit(text, flags, d)
    ensures spans == LineSpans(text, flags, d)
    ensures st == stats.(concepts := ConceptCredit(stats.concepts, text, flags, d))
    ensures Sum(st.concepts) == Sum(stats.concepts) + |spans|
    ensures DistinctKeys(stats.concepts) ==> DistinctKeys(st.concepts)
  {
    spans, st := {}, stats;
    if flags.concept.Some? && flags.concept.value != [] {
      spans, st := RedactConcepts(text, flags.concept.value, d.semantic, stats);
    }
  }
}
