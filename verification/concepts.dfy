/**
  `Redactor.redact_concepts`: the text is split on line feeds and walked
  with a running offset; every non-blank line that contains a concept
  (case-insensitively; the first listed concept is credited) or that the
  semantic matcher accepts is redacted whole.
 */
module Concepts {
  import opened Wrappers
  import opened Text
  import opened Spans
  import opened Stats

  /**
    The semantic matcher as an oracle: given the lower-cased line, `None`
    (no sentence model, an embedding error, or best similarity not above
    the threshold) or `Some(i)`, the index of the best-scoring concept.
   */
  type Semantic = string -> Option<nat>

  /** `argmax` over the concept list always lands inside it. */
  ghost predicate SemanticFits(semantic: Semantic, concepts: seq<string>) {
    forall l :: semantic(l).Some? ==> semantic(l).value < |concepts|
  }

  /** Concept `i`, lower-cased, occurs in the lower-cased line. */
  predicate ExactAt(lineLower: string, concepts: seq<string>, i: nat)
    requires i < |concepts|
  {
    Contains(lineLower, Lower(concepts[i]))
  }

  /** `next(c for c in concepts if c.lower() in line_lower)`, as an index. */
  function FirstHit(lineLower: string, concepts: seq<string>): (r: Option<nat>)
    ensures r.Some? ==> r.value < |concepts| && ExactAt(lineLower, concepts, r.value)
    ensures r.Some? ==> forall j :: 0 <= j < r.value ==> !ExactAt(lineLower, concepts, j)
    ensures r.None? <==> forall j :: 0 <= j < |concepts| ==> !ExactAt(lineLower, concepts, j)
  {
    FirstHitFrom(lineLower, concepts, 0)
  }

  function FirstHitFrom(lineLower: string, concepts: seq<string>, i: nat): (r: Option<nat>)
    requires i <= |concepts|
    ensures r.Some? ==> i <= r.value < |concepts| && ExactAt(lineLower, concepts, r.value)
    ensures r.Some? ==> forall j :: i <= j < r.value ==> !ExactAt(lineLower, concepts, j)
    ensures r.None? <==> forall j :: i <= j < |concepts| ==> !ExactAt(lineLower, concepts, j)
    decreases |concepts| - i
  {
    if i == |concepts| then None
    else if ExactAt(lineLower, concepts, i) then Some(i)
    else FirstHitFrom(lineLower, concepts, i + 1)
  }

  /**
    The concept credited for one line, if any: never for a blank line;
    otherwise the first listed concept the line contains, and only when
    none is contained, the semantic matcher's choice.
   */
  function MatchLine(line: string, concepts: seq<string>, semantic: Semantic): (r: Option<nat>)
    requires SemanticFits(semantic, concepts)
    ensures r.Some? ==> !Blank(line) && r.value < |concepts|
    ensures !Blank(line) && (exists j :: 0 <= j < |concepts| && ExactAt(Lower(line), concepts, j)) ==>
              r.Some? && ExactAt(Lower(line), concepts, r.value) &&
              forall j :: 0 <= j < r.value ==> !ExactAt(Lower(line), concepts, j)
    ensures !Blank(line) && (forall j :: 0 <= j < |concepts| ==> !ExactAt(Lower(line), concepts, j)) ==>
              r == semantic(Lower(line))
  {
    if Blank(line) then None
    else
      match FirstHit(Lower(line), concepts)
      case Some(i) => Some(i)
      case None => semantic(Lower(line))
  }

  /** `[s, e)` is one whole line of `text`: bounded by the text's ends or by line feeds, with none inside. */
  predicate IsLine(text: string, s: nat, e: nat) {
    && s <= e <= |text|
    && (s == 0 || text[s - 1] == '\n')
    && (e == |text| || text[e] == '\n')
    && '\n' !in text[s..e]
  }

  /** The line `x` is redacted for these concepts. */
  predicate Redacted(text: string, concepts: seq<string>, semantic: Semantic, x: Span)
    requires SemanticFits(semantic, concepts)
  {
    IsLine(text, x.start, x.end) && MatchLine(text[x.start..x.end], concepts, semantic).Some?
  }

  /** The reference result: every whole line the concepts match. */
  ghost function ConceptSpans(text: string, concepts: seq<string>, semantic: Semantic): set<Span>
    requires SemanticFits(semantic, concepts)
  {
    set s: nat, e: nat | s <= e <= |text| && Redacted(text, concepts, semantic, Span(s, e)) :: Span(s, e)
  }

  lemma ConceptSpansMembers(text: string, concepts: seq<string>, semantic: Semantic)
    requires SemanticFits(semantic, concepts)
    ensures forall x :: x in ConceptSpans(text, concepts, semantic) <==> Redacted(text, concepts, semantic, x)
  {
    forall x | Redacted(text, concepts, semantic, x)
      ensures x in ConceptSpans(text, concepts, semantic)
    {
      assert Span(x.start, x.end) == x;
    }
  }

  /**
    Where the walk stands at line `i`: that line is the text from `pos` on
    up to the next line feed (or the end), and no other line starts in
    between.
   */
  lemma LineAt(text: string, lines: seq<string>, i: nat, pos: nat)
    requires i < |lines|
    requires forall l :: l in lines ==> '\n' !in l
    requires pos <= |text| && text[pos..] == Join(lines[i..])
    requires pos == 0 || text[pos - 1] == '\n'
    ensures pos + |lines[i]| <= |text| && text[pos..pos + |lines[i]|] == lines[i]
    ensures IsLine(text, pos, pos + |lines[i]|)
    ensures i + 1 < |lines| ==> text[pos + |lines[i]| + 1..] == Join(lines[i + 1..]) && text[pos + |lines[i]|] == '\n'
    ensures i + 1 == |lines| ==> pos + |lines[i]| == |text|
    ensures forall s: nat, e: nat :: IsLine(text, s, e) && pos <= s <= pos + |lines[i]| ==> s == pos && e == pos + |lines[i]|
  {
    var line := lines[i];
    var rest := text[pos..];
    assert '\n' !in line by { assert line in lines; }
    assert lines[i..][0] == line;
    if i + 1 < |lines| {
      assert lines[i..][1..] == lines[i + 1..];
      assert rest == line + "\n" + Join(lines[i + 1..]);
      assert rest[|line|] == '\n';
      assert text[pos + |line|] == rest[|line|];
      assert text[pos + |line| + 1..] == rest[|line| + 1..];
    } else {
      assert rest == line;
    }
    assert text[pos..pos + |line|] == rest[..|line|];
    forall s: nat, e: nat | IsLine(text, s, e) && pos <= s <= pos + |line|
      ensures s == pos && e == pos + |line|
    {
    }
  }

  /**
    The body of the walk for one line: a non-blank line containing a
    concept credits the first such concept in list order; failing that,
    the semantic matcher's choice is credited; a credited line is redacted.
   */
  method CreditLine(line: string, concepts: seq<string>, semantic: Semantic, counts: Counts)
    returns (matched: bool, counts': Counts)
    requires SemanticFits(semantic, concepts)
    ensures matched <==> MatchLine(line, concepts, semantic).Some?
    ensures matched ==> counts' == Bump(counts, concepts[MatchLine(line, concepts, semantic).value])
    ensures !matched ==> counts' == counts
  {
    matched, counts' := false, counts;
    if !Blank(line) {
      var lineLower := Lower(line);
      var hit := FirstHit(lineLower, concepts);
      if hit.Some? {
        var matchedConcept := concepts[hit.value];
        counts' := Bump(counts, matchedConcept);
        matched := true;
      } else {
        var choice := semantic(lineLower);
        if choice.Some? {
          var concept := concepts[choice.value];
          counts' := Bump(counts, concept);
          matched := true;
        }
      }
    }
  }

  /** One iteration of the walk extends the redacted lines by line `i` exactly when that line matches. */
  lemma ScanStep(text: string, concepts: seq<string>, semantic: Semantic,
                 lines: seq<string>, i: nat, pos: nat, spans: set<Span>)
    requires SemanticFits(semantic, concepts)
    requires i < |lines|
    requires forall l :: l in lines ==> '\n' !in l
    requires pos <= |text| && text[pos..] == Join(lines[i..])
    requires pos == 0 || text[pos - 1] == '\n'
    requires forall x :: x in spans <==> x.start < pos && Redacted(text, concepts, semantic, x)
    ensures Span(pos, pos + |lines[i]|) !in spans
    ensures var spans' := if MatchLine(lines[i], concepts, semantic).Some? then spans + {Span(pos, pos + |lines[i]|)} else spans;
            forall x :: x in spans' <==> x.start < pos + |lines[i]| + 1 && Redacted(text, concepts, semantic, x)
  {
    LineAt(text, lines, i, pos);
    var here := Span(pos, pos + |lines[i]|);
    assert text[here.start..here.end] == lines[i];
    assert Redacted(text, concepts, semantic, here) <==> MatchLine(lines[i], concepts, semantic).Some?;
  }

  /** A blank text has only blank lines. */
  lemma BlankLines(text: string, s: nat, e: nat)
    requires Blank(text) && s <= e <= |text|
    ensures Blank(text[s..e])
  {
    assert forall k :: 0 <= k < e - s ==> text[s..e][k] == text[s + k];
  }

  /**
    `redact_concepts`: nothing for a blank text or an empty concept list;
    otherwise exactly the whole lines the concepts match, each line
    crediting one concept, so the concept counts grow by the number of
    lines redacted.
   */
  method RedactConcepts(text: string, concepts: seq<string>, semantic: Semantic, stats: Stats)
    returns (spans: set<Span>, stats': Stats)
    requires SemanticFits(semantic, concepts)
    ensures Blank(text) || concepts == [] ==> spans == {} && stats' == stats
    ensures spans == ConceptSpans(text, concepts, semantic)
    ensures forall x :: x in spans ==> IsLine(text, x.start, x.end) && !Blank(text[x.start..x.end])
    ensures !Blank(text) && concepts != [] ==> stats' == stats.(concepts := Credit(stats.concepts, Split(text), concepts, semantic))
    ensures stats' == stats.(concepts := stats'.concepts)
    ensures Sum(stats'.concepts) == Sum(stats.concepts) + |spans|
    ensures DistinctKeys(stats.concepts) ==> DistinctKeys(stats'.concepts)
  {
    spans := {};
    stats' := stats;
    if Blank(text) || |concepts| == 0 {
      forall x | x in ConceptSpans(text, concepts, semantic) ensures false {
        if Blank(text) {
          BlankLines(text, x.start, x.end);
        }
      }
      return;
    }
    spans, stats' := ScanLines(text, concepts, semantic, stats);
    ConceptSpansMembers(text, concepts, semantic);
  }

  /**
    The reference concept dictionary: `counts` after crediting, line by
    line in order, the concept each matching line is credited to.
   */
  function Credit(counts: Counts, lines: seq<string>, concepts: seq<string>, semantic: Semantic): Counts
    requires SemanticFits(semantic, concepts)
    decreases |lines|
  {
    if lines == [] then counts
    else
      var before := Credit(counts, lines[..|lines| - 1], concepts, semantic);
      match MatchLine(lines[|lines| - 1], concepts, semantic)
      case None => before
      case Some(k) => Bump(before, concepts[k])
  }

  /**
    The state of the walk before line `i`, at offset `pos`: the redacted
    lines so far are exactly the matching lines that start before `pos`,
    and the concept counts have grown by one per redacted line.
   */
  ghost predicate ScanState(text: string, concepts: seq<string>, semantic: Semantic, lines: seq<string>,
                            i: nat, pos: nat, spans: set<Span>, counts0: Counts, counts: Counts)
  {
    && SemanticFits(semantic, concepts)
    && i <= |lines|
    && (forall l :: l in lines ==> '\n' !in l)
    && (i < |lines| ==> pos <= |text| && text[pos..] == Join(lines[i..]) && (pos == 0 || text[pos - 1] == '\n'))
    && (i == |lines| ==> pos == |text| + 1)
    && (forall x :: x in spans <==> x.start < pos && Redacted(text, concepts, semantic, x))
    && counts == Credit(counts0, lines[..i], concepts, semantic)
    && Sum(counts) == Sum(counts0) + |spans|
    && (DistinctKeys(counts0) ==> DistinctKeys(counts))
  }

  /** The redacted lines after one more line `[s, e)`, which is added when it matched. */
  function Extend(spans: set<Span>, matched: bool, s: nat, e: nat): set<Span> {
    if matched then spans + {Span(s, e)} else spans
  }

  /** One line of the walk preserves the walk's state. */
  lemma ScanAdvance(text: string, concepts: seq<string>, semantic: Semantic, lines: seq<string>,
                    i: nat, pos: nat, spans: set<Span>, counts0: Counts, counts: Counts,
                    matched: bool, counts': Counts, pos': nat)
    requires ScanState(text, concepts, semantic, lines, i, pos, spans, counts0, counts)
    requires i < |lines|
    requires matched <==> MatchLine(lines[i], concepts, semantic).Some?
    requires matched ==> counts' == Bump(counts, concepts[MatchLine(lines[i], concepts, semantic).value])
    requires !matched ==> counts' == counts
    requires pos' == pos + |lines[i]| + 1
    ensures ScanState(text, concepts, semantic, lines, i + 1, pos', Extend(spans, matched, pos, pos' - 1), counts0, counts')
  {
    LineAt(text, lines, i, pos);
    ScanStep(text, concepts, semantic, lines, i, pos, spans);
    CreditStep(counts0, lines, i, concepts, semantic);
    if i + 1 < |lines| {
      assert text[pos + |lines[i]| + 1..] == Join(lines[i + 1..]);
    }
  }

  /** Crediting one more line extends the reference dictionary by that line's credit. */
  lemma CreditStep(counts0: Counts, lines: seq<string>, i: nat, concepts: seq<string>, semantic: Semantic)
    requires SemanticFits(semantic, concepts) && i < |lines|
    ensures Credit(counts0, lines[..i + 1], concepts, semantic) ==
              match MatchLine(lines[i], concepts, semantic)
              case None => Credit(counts0, lines[..i], concepts, semantic)
              case Some(k) => Bump(Credit(counts0, lines[..i], concepts, semantic), concepts[k])
  {
    assert lines[..i + 1][..i] == lines[..i];
  }

  /** The `for line in text.split('\n')` walk of `redact_concepts`, with its running `current_pos`. */
  method ScanLines(text: string, concepts: seq<string>, semantic: Semantic, stats: Stats)
    returns (spans: set<Span>, stats': Stats)
    requires SemanticFits(semantic, concepts)
    ensures spans == ConceptSpans(text, concepts, semantic)
    ensures stats' == stats.(concepts := Credit(stats.concepts, Split(text), concepts, semantic))
    ensures Sum(stats'.concepts) == Sum(stats.concepts) + |spans|
    ensures DistinctKeys(stats.concepts) ==> DistinctKeys(stats'.concepts)
  {
    spans := {};
    var counts := stats.concepts;
    var lines := Split(text);
    var currentPos: nat := 0;
    ScanStart(text, concepts, semantic, stats.concepts);
    for i := 0 to |lines|
      invariant ScanState(text, concepts, semantic, lines, i, currentPos, spans, stats.concepts, counts)
    {
      spans, currentPos, counts := ScanLine(text, concepts, semantic, lines, i, currentPos, spans, stats.concepts, counts);
    }
    ScanDone(text, concepts, semantic, lines, currentPos, spans, stats.concepts, counts);
    stats' := stats.(concepts := counts);
  }

  /** The walk starts at the first line, offset 0, with nothing redacted and nothing credited. */
  lemma ScanStart(text: string, concepts: seq<string>, semantic: Semantic, counts0: Counts)
    requires SemanticFits(semantic, concepts)
    ensures ScanState(text, concepts, semantic, Split(text), 0, 0, {}, counts0, counts0)
  {
    var lines := Split(text);
    assert lines[0..] == lines;
  }

  /** At the end of the walk every matching line has been seen and every line credited. */
  lemma ScanDone(text: string, concepts: seq<string>, semantic: Semantic, lines: seq<string>,
                 pos: nat, spans: set<Span>, counts0: Counts, counts: Counts)
    requires ScanState(text, concepts, semantic, lines, |lines|, pos, spans, counts0, counts)
    ensures spans == ConceptSpans(text, concepts, semantic)
    ensures counts == Credit(counts0, lines, concepts, semantic)
    ensures Sum(counts) == Sum(counts0) + |spans|
    ensures DistinctKeys(counts0) ==> DistinctKeys(counts)
  {
    ConceptSpansMembers(text, concepts, semantic);
    assert forall x :: Redacted(text, concepts, semantic, x) ==> x.start < pos;
    assert lines[..|lines|] == lines;
  }

  /** The body of the walk for line `i`: credit the line, record its span if it matched, step past its line feed. */
  method ScanLine(text: string, concepts: seq<string>, semantic: Semantic, lines: seq<string>,
                  i: nat, pos: nat, spans: set<Span>, counts0: Counts, counts: Counts)
    returns (spans': set<Span>, pos': nat, counts': Counts)
    requires ScanState(text, concepts, semantic, lines, i, pos, spans, counts0, counts)
    requires i < |lines|
    ensures ScanState(text, concepts, semantic, lines, i + 1, pos', spans', counts0, counts')
  {
    var line := lines[i];
    var matched;
    matched, counts' := CreditLine(line, concepts, semantic, counts);
    pos' := pos + |line| + 1;
    spans' := Extend(spans, matched, pos, pos' - 1);
    ScanAdvance(text, concepts, semantic, lines, i, pos, spans, counts0, counts, matched, counts', pos');
  }
}
