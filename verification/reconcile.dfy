/**
  The span reconciler and the redaction applier at the end of
  `Redactor.redact_document`: the span union is sorted, walked with a
  `last_end` cursor that drops every span starting before it (first wins,
  no trimming), and the text is rebuilt from verbatim gaps and block runs.
 */
module Reconcile {
  import opened Spans

  /** Every span of the sequence has `start <= end`. */
  predicate Ordered(ss: seq<Span>) {
    forall i :: 0 <= i < |ss| ==> ss[i].start <= ss[i].end
  }

  /**
    The spans the walk over the sorted list `ss` accepts when the cursor
    stands at `lastEnd`: each is taken from `ss`, none starts before the
    cursor, and they are ascending and pairwise disjoint.
   */
  function Accept(ss: seq<Span>, lastEnd: nat): (r: seq<Span>)
    requires Ascending(ss) && Ordered(ss)
    ensures forall i :: 0 <= i < |r| ==> r[i] in ss && lastEnd <= r[i].start <= r[i].end
    ensures forall i, j :: 0 <= i < j < |r| ==> r[i].end <= r[j].start
    decreases |ss|
  {
    if ss == [] then []
    else if ss[0].start < lastEnd then
      Accept(ss[1..], lastEnd)
    else
      [ss[0]] + Accept(ss[1..], ss[0].end)
  }

  /**
    Some span of `plan` that comes before `x` in tuple order covers the
    start of `x`: the span that won over `x`.
   */
  predicate WonBy(plan: seq<Span>, x: Span) {
    exists k :: 0 <= k < |plan| && Lt(plan[k], x) && plan[k].start <= x.start < plan[k].end
  }

  /**
    No trimming, first wins: a span the walk drops starts before the cursor
    or inside a span the walk accepted earlier in tuple order.
   */
  lemma {:induction false} AcceptDropped(ss: seq<Span>, lastEnd: nat, x: Span)
    requires Ascending(ss) && Ordered(ss)
    requires x in ss && x !in Accept(ss, lastEnd)
    ensures x.start < lastEnd || Covered(Accept(ss, lastEnd), x.start)
    ensures x.start < lastEnd || WonBy(Accept(ss, lastEnd), x)
    decreases |ss|
  {
    var r := Accept(ss, lastEnd);
    if x == ss[0] {
      assert ss[0].start < lastEnd;
    } else {
      assert x in ss[1..];
      if ss[0].start < lastEnd {
        AcceptDropped(ss[1..], lastEnd, x);
      } else {
        var rest := Accept(ss[1..], ss[0].end);
        assert r == [ss[0]] + rest;
        assert x !in rest;
        AcceptDropped(ss[1..], ss[0].end, x);
        if x.start < ss[0].end {
          var j :| 0 <= j < |ss| && ss[j] == x;
          assert j > 0;
          assert Lt(ss[0], x);
          assert r[0].start <= x.start < r[0].end;
        } else {
          var k :| 0 <= k < |rest| && Lt(rest[k], x) && rest[k].start <= x.start < rest[k].end;
          assert r[k + 1] == rest[k];
        }
      }
    }
  }

  /** The redaction plan: the spans the walk over `sorted(spans)` keeps. */
  function Plan(spans: set<Span>): (plan: seq<Span>)
    requires forall x :: x in spans ==> x.start <= x.end
    ensures forall i :: 0 <= i < |plan| ==> plan[i] in spans && plan[i].start <= plan[i].end
    ensures forall i, j :: 0 <= i < j < |plan| ==> plan[i].end <= plan[j].start
  {
    var sorted := SortSpans(spans);
    assert forall i :: 0 <= i < |sorted| ==> sorted[i] in spans;
    Accept(sorted, 0)
  }

  /** `out` is a prefix of the masked text: it agrees with `Mask(text, plan)` on its whole length. */
  predicate Agrees(out: string, text: string, plan: seq<Span>) {
    |out| <= |text| &&
    forall j :: 0 <= j < |out| ==> out[j] == if Covered(plan, j) then Block else text[j]
  }

  /** One accepting step of the walk: copy the gap verbatim, then blank the span. */
  lemma AcceptStep(out: string, text: string, acc: seq<Span>, x: Span)
    requires Agrees(out, text, acc)
    requires forall k :: 0 <= k < |acc| ==> acc[k].end <= |out|
    requires |out| <= x.start <= x.end <= |text|
    ensures Agrees(out + text[|out|..x.start] + RedactText(text[x.start..x.end]), text, acc + [x])
  {
    var gap := text[|out|..x.start];
    var run := RedactText(text[x.start..x.end]);
    var acc' := acc + [x];
    var out' := out + gap + run;
    forall j | 0 <= j < |out'|
      ensures out'[j] == if Covered(acc', j) then Block else text[j]
    {
      if j < |out| {
        assert out'[j] == out[j];
        if Covered(acc', j) {
          var k :| 0 <= k < |acc'| && acc'[k].start <= j < acc'[k].end;
          assert k < |acc| && acc[k] == acc'[k];
        }
        if Covered(acc, j) {
          var k :| 0 <= k < |acc| && acc[k].start <= j < acc[k].end;
          assert acc'[k] == acc[k];
        }
      } else if j < x.start {
        assert out'[j] == text[j];
        forall k | 0 <= k < |acc'| ensures !(acc'[k].start <= j < acc'[k].end) {
          if k < |acc| {
            assert acc'[k] == acc[k];
          }
        }
      } else {
        assert out'[j] == Block;
        assert acc'[|acc|] == x;
        assert acc'[|acc|].start <= j < acc'[|acc|].end;
      }
    }
  }

  /** The closing `text[last_end:]` completes the masked text. */
  lemma CopyTail(out: string, text: string, acc: seq<Span>)
    requires Agrees(out, text, acc)
    requires forall k :: 0 <= k < |acc| ==> acc[k].end <= |out|
    ensures out + text[|out|..] == Mask(text, acc)
  {
    var r := out + text[|out|..];
    forall j | 0 <= j < |text|
      ensures r[j] == Mask(text, acc)[j]
    {
      if j >= |out| {
        assert !Covered(acc, j);
      }
    }
  }

  /** The walk, entered at position `i` of the sorted list, either skips `ss[i]` or accepts it. */
  lemma AcceptAt(ss: seq<Span>, i: nat, lastEnd: nat)
    requires Ascending(ss) && Ordered(ss) && i < |ss|
    ensures Ascending(ss[i..]) && Ordered(ss[i..]) && Ascending(ss[i + 1..]) && Ordered(ss[i + 1..])
    ensures Accept(ss[i..], lastEnd) ==
              if ss[i].start < lastEnd then Accept(ss[i + 1..], lastEnd)
              else [ss[i]] + Accept(ss[i + 1..], ss[i].end)
  {
    assert ss[i..][1..] == ss[i + 1..];
  }

  /**
    The loop of `redact_document` that applies the plan. Its result is the
    reference `Mask` of the plan: same length as the text, block characters
    exactly where an accepted span lies, the original text everywhere else.
   */
  method ApplySpans(text: string, spans: set<Span>) returns (out: string)
    requires WellFormed(spans, |text|)
    ensures |out| == |text|
    ensures out == Mask(text, Plan(spans))
  {
    var sorted := SortSpans(spans);
    assert forall i :: 0 <= i < |sorted| ==> sorted[i] in spans;
    out := Walk(text, sorted);
    assert Plan(spans) == Accept(sorted, 0);
  }

  /** The `for start, end in spans_to_redact` walk with its `last_end` cursor. */
  method Walk(text: string, sorted: seq<Span>) returns (out: string)
    requires Ascending(sorted) && Ordered(sorted)
    requires forall i :: 0 <= i < |sorted| ==> sorted[i].end <= |text|
    ensures out == Mask(text, Accept(sorted, 0))
  {
    out := "";
    var lastEnd: nat := 0;
    ghost var acc: seq<Span> := [];
    assert sorted[0..] == sorted;
    var i := 0;
    while i < |sorted|
      invariant 0 <= i <= |sorted|
      invariant |out| == lastEnd <= |text|
      invariant acc + Accept(sorted[i..], lastEnd) == Accept(sorted, 0)
      invariant forall k :: 0 <= k < |acc| ==> acc[k].end <= lastEnd
      invariant Agrees(out, text, acc)
    {
      var start, end := sorted[i].start, sorted[i].end;
      AcceptAt(sorted, i, lastEnd);
      if start < lastEnd {
        i := i + 1;
        continue;
      }
      AcceptStep(out, text, acc, sorted[i]);
      out := out + text[lastEnd..start];
      out := out + RedactText(text[start..end]);
      lastEnd := end;
      acc := acc + [sorted[i]];
      i := i + 1;
    }
    assert sorted[i..] == [];
    assert acc + [] == acc;
    assert acc == Accept(sorted, 0);
    CopyTail(out, text, acc);
    out := out + text[lastEnd..];
  }

  /**
    First wins: a span left out of the plan is not trimmed but dropped
    whole, and its start lies inside a span the plan keeps that comes
    before it in tuple order.
   */
  lemma PlanDropsOnlyOverlaps(spans: set<Span>, x: Span)
    requires forall y :: y in spans ==> y.start <= y.end
    requires x in spans && x !in Plan(spans)
    ensures Covered(Plan(spans), x.start)
    ensures WonBy(Plan(spans), x)
  {
    var sorted := SortSpans(spans);
    assert Plan(spans) == Accept(sorted, 0);
    assert forall i :: 0 <= i < |sorted| ==> sorted[i] in spans;
    AcceptDropped(sorted, 0, x);
  }

  /** With no spans at all the text comes back unchanged. */
  lemma EmptySpansIdentity(text: string)
    ensures Plan({}) == []
    ensures Mask(text, Plan({})) == text
  {
    assert SortSpans({}) == [];
  }

  /** Spans that do not overlap one another are all kept by the plan. */
  lemma DisjointSpansAllKept(spans: set<Span>)
    requires forall x :: x in spans ==> x.start <= x.end
    requires forall x, y :: x in spans && y in spans && x != y ==> x.end <= y.start || y.end <= x.start
    ensures forall x :: x in spans ==> x in Plan(spans)
  {
    var sorted := SortSpans(spans);
    assert forall i :: 0 <= i < |sorted| ==> sorted[i] in spans;
    AcceptKeepsDisjoint(sorted, 0);
  }

  lemma {:induction false} AcceptKeepsDisjoint(ss: seq<Span>, lastEnd: nat)
    requires Ascending(ss) && Ordered(ss)
    requires forall i, j :: 0 <= i < j < |ss| ==> ss[i].end <= ss[j].start
    requires forall i :: 0 <= i < |ss| ==> lastEnd <= ss[i].start
    ensures Accept(ss, lastEnd) == ss
    decreases |ss|
  {
    if ss != [] {
      AcceptKeepsDisjoint(ss[1..], ss[0].end);
    }
  }

  /**
    First wins, without trimming: of `(0, 5)` and `(3, 8)` only `(0, 5)` is
    redacted, and characters 5 to 7 stay in the clear.
   */
  lemma OverlapFirstWins(text: string)
    requires |text| >= 8
    ensures Plan({Span(0, 5), Span(3, 8)}) == [Span(0, 5)]
    ensures forall j :: 5 <= j < 8 ==> Mask(text, Plan({Span(0, 5), Span(3, 8)}))[j] == text[j]
    ensures forall j :: 0 <= j < 5 ==> Mask(text, Plan({Span(0, 5), Span(3, 8)}))[j] == Block
  {
    var s := {Span(0, 5), Span(3, 8)};
    var sorted := SortSpans(s);
    assert Span(0, 5) in sorted && Span(3, 8) in sorted;
    assert |sorted| == 2;
    assert sorted[0] in s && sorted[1] in s;
    assert Lt(sorted[0], sorted[1]);
    assert sorted == [Span(0, 5), Span(3, 8)];
    assert sorted[1..] == [Span(3, 8)];
    assert Accept([Span(3, 8)], 5) == [] by {
      assert [Span(3, 8)][1..] == [];
    }
    assert Accept(sorted, 0) == [Span(0, 5)];
    var plan := [Span(0, 5)];
    forall j | 5 <= j < 8 ensures !Covered(plan, j) { }
    forall j | 0 <= j < 5 ensures Covered(plan, j) {
      assert plan[0].start <= j < plan[0].end;
    }
  }

  /**
    The tuple-order tie-break: of `(0, 2)` and `(0, 5)`, which share a
    start, the shorter `(0, 2)` comes first and wins, so characters 2 to 4
    stay in the clear.
   */
  lemma SharedStartShorterWins(text: string)
    requires |text| >= 5
    ensures Plan({Span(0, 2), Span(0, 5)}) == [Span(0, 2)]
    ensures forall j :: 2 <= j < 5 ==> Mask(text, Plan({Span(0, 2), Span(0, 5)}))[j] == text[j]
    ensures forall j :: 0 <= j < 2 ==> Mask(text, Plan({Span(0, 2), Span(0, 5)}))[j] == Block
  {
    var s := {Span(0, 2), Span(0, 5)};
    var sorted := SortSpans(s);
    assert Span(0, 2) in sorted && Span(0, 5) in sorted;
    assert |sorted| == 2;
    assert sorted[0] in s && sorted[1] in s;
    assert Lt(sorted[0], sorted[1]);
    assert sorted == [Span(0, 2), Span(0, 5)];
    assert sorted[1..] == [Span(0, 5)];
    assert Accept([Span(0, 5)], 2) == [] by {
      assert [Span(0, 5)][1..] == [];
    }
    assert Accept(sorted, 0) == [Span(0, 2)];
    var plan := [Span(0, 2)];
    forall j | 2 <= j < 5 ensures !Covered(plan, j) { }
    forall j | 0 <= j < 2 ensures Covered(plan, j) {
      assert plan[0].start <= j < plan[0].end;
    }
  }

  /**
    Every detected span that is not empty has at least its first character
    redacted: either the plan keeps it, or it was dropped because a kept
    span already covers its start.
   */
  lemma DetectedStartRedacted(text: string, spans: set<Span>, x: Span)
    requires WellFormed(spans, |text|)
    requires x in spans && x.start < x.end
    ensures Mask(text, Plan(spans))[x.start] == Block
  {
    StartCovered(spans, x);
  }

  lemma StartCovered(spans: set<Span>, x: Span)
    requires forall y :: y in spans ==> y.start <= y.end
    requires x in spans && x.start < x.end
    ensures Covered(Plan(spans), x.start)
  {
    var plan := Plan(spans);
    if x in plan {
      var k :| 0 <= k < |plan| && plan[k] == x;
      assert plan[k].start <= x.start < plan[k].end;
    } else {
      PlanDropsOnlyOverlaps(spans, x);
    }
  }

  /** Applying the same plan to already redacted text changes nothing more. */
  lemma MaskIdempotent(text: string, plan: seq<Span>)
    ensures Mask(Mask(text, plan), plan) == Mask(text, plan)
  {
    var once := Mask(text, plan);
    forall j | 0 <= j < |text| ensures Mask(once, plan)[j] == once[j] { }
  }

  /** Locality: a character that no detected span covers comes through unchanged. */
  lemma OutsideSpansUnchanged(text: string, spans: set<Span>, j: nat)
    requires WellFormed(spans, |text|)
    requires j < |text| && !InSomeSpan(spans, j)
    ensures Mask(text, Plan(spans))[j] == text[j]
  {
  }
}
