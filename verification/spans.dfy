/**
  Character spans, the redaction block character, Python's lexicographic
  order on `(start, end)` tuples, `sorted` of a set of spans, and the
  pointwise reference meaning of "redact these spans of this text".
 */
module Spans {

  /** A half-open character range `[start, end)`, `redactor.py`'s `(start, end)` tuple. */
  datatype Span = Span(start: nat, end: nat)

  /** The redaction character. */
  const Block: char := '\U{2588}'

  /** Every span lies inside a text of length `n`. */
  predicate WellFormed(spans: set<Span>, n: nat) {
    forall x :: x in spans ==> x.start <= x.end <= n
  }

  /** Python's `'█' * n`: empty when `n` is not positive. */
  function Blocks(n: int): (r: string)
    ensures |r| == if n <= 0 then 0 else n
    ensures forall i :: 0 <= i < |r| ==> r[i] == Block
  {
    if n <= 0 then [] else seq(n, _ => Block)
  }

  /** `Redactor.redact_text`: one block character per character of `t`. */
  function RedactText(t: string): (r: string)
    ensures |r| == |t|
    ensures forall i :: 0 <= i < |r| ==> r[i] == Block
  {
    Blocks(|t|)
  }

  /** Python's `<` on `(start, end)` tuples. */
  predicate Lt(a: Span, b: Span) {
    a.start < b.start || (a.start == b.start && a.end < b.end)
  }

  predicate Le(a: Span, b: Span) {
    a == b || Lt(a, b)
  }

  /** Strictly ascending in tuple order, hence also free of duplicates. */
  predicate Ascending(ss: seq<Span>) {
    forall i, j :: 0 <= i < j < |ss| ==> Lt(ss[i], ss[j])
  }

  predicate IsLeast(m: Span, s: set<Span>) {
    m in s && forall y :: y in s ==> Le(m, y)
  }

  lemma {:induction false} LeastExists(s: set<Span>)
    requires s != {}
    ensures exists m :: IsLeast(m, s)
    decreases s
  {
    var x :| x in s;
    if s == {x} {
      assert IsLeast(x, s);
    } else {
      LeastExists(s - {x});
      var m :| IsLeast(m, s - {x});
      if Lt(x, m) {
        forall y | y in s ensures Le(x, y) {
          if y != x {
            assert Le(m, y);
          }
        }
        assert IsLeast(x, s);
      } else {
        assert IsLeast(m, s);
      }
    }
  }

  /** Python's `sorted(spans)` for a set of spans. */
  function SortSpans(s: set<Span>): (r: seq<Span>)
    ensures Ascending(r)
    ensures forall x :: x in r <==> x in s
    ensures |r| == |s|
    decreases s
  {
    if s == {} then []
    else
      LeastExists(s);
      var m :| IsLeast(m, s);
      var rest := SortSpans(s - {m});
      assert forall j :: 0 <= j < |rest| ==> rest[j] in s - {m};
      [m] + rest
  }

  /** Some span of the set covers index `j`. */
  predicate InSomeSpan(spans: set<Span>, j: int) {
    exists x :: x in spans && x.start <= j < x.end
  }

  /** Some span of `plan` covers index `j`. */
  predicate Covered(plan: seq<Span>, j: int) {
    exists k :: 0 <= k < |plan| && plan[k].start <= j < plan[k].end
  }

  /**
    The reference meaning of applying a redaction plan: each index a plan
    span covers holds the block character, every other index keeps the text.
   */
  function Mask(text: string, plan: seq<Span>): (r: string)
    ensures |r| == |text|
    ensures forall j :: 0 <= j < |text| ==> r[j] == Block || r[j] == text[j]
  {
    seq(|text|, j requires 0 <= j < |text| => if Covered(plan, j) then Block else text[j])
  }
}
