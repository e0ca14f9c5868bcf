/**
  The string primitives the redactor relies on: Python's character classes
  (`isalpha`, `isspace`), `lower`, substring containment and `find`, and
  `split('\n')` together with its inverse `'\n'.join`.
 */
module Text {

  /** `c.isalpha()`, for the ASCII letters. */
  predicate IsAlpha(c: char) {
    'a' <= c <= 'z' || 'A' <= c <= 'Z'
  }

  /** `c.isspace()`: exactly the code points CPython classifies as whitespace. */
  predicate IsSpace(c: char) {
    || '\t' <= c <= '\r'
    || '\U{1C}' <= c <= '\U{1F}'
    || c == ' '
    || c == '\U{85}'
    || c == '\U{A0}'
    || c == '\U{1680}'
    || '\U{2000}' <= c <= '\U{200A}'
    || c == '\U{2028}'
    || c == '\U{2029}'
    || c == '\U{202F}'
    || c == '\U{205F}'
    || c == '\U{3000}'
  }

  /** `not s.strip()`: stripping leaves nothing exactly when every character is whitespace. */
  predicate Blank(s: string) {
    forall i :: 0 <= i < |s| ==> IsSpace(s[i])
  }

  /** `c.lower()`, for the ASCII letters. */
  function LowerChar(c: char): (r: char)
    ensures 'A' <= c <= 'Z' ==> 'a' <= r <= 'z' && r as int == c as int + 32
    ensures !('A' <= c <= 'Z') ==> r == c
  {
    if 'A' <= c <= 'Z' then (c as int + 32) as char else c
  }

  /** `s.lower()`, for the ASCII letters. */
  function Lower(s: string): (r: string)
    ensures |r| == |s|
    ensures forall i :: 0 <= i < |s| ==> r[i] == LowerChar(s[i])
  {
    seq(|s|, i requires 0 <= i < |s| => LowerChar(s[i]))
  }

  /** `pat` occurs in `hay` starting at index `i`. */
  predicate OccursAt(hay: string, pat: string, i: nat) {
    i + |pat| <= |hay| && hay[i..i + |pat|] == pat
  }

  /** Python's `pat in hay`. */
  predicate Contains(hay: string, pat: string) {
    exists i | 0 <= i <= |hay| :: OccursAt(hay, pat, i)
  }

  /** Python's `hay.find(pat)`: the first index where `pat` occurs, or -1. */
  function Find(hay: string, pat: string): (r: int)
    ensures r >= -1
    ensures r == -1 <==> !Contains(hay, pat)
    ensures r >= 0 ==> OccursAt(hay, pat, r)
    ensures r >= 0 ==> forall j :: 0 <= j < r ==> !OccursAt(hay, pat, j)
  {
    FindFrom(hay, pat, 0)
  }

  function FindFrom(hay: string, pat: string, i: nat): (r: int)
    requires i <= |hay|
    ensures r == -1 || (i <= r && OccursAt(hay, pat, r))
    ensures r == -1 ==> forall j :: i <= j <= |hay| ==> !OccursAt(hay, pat, j)
    ensures r >= 0 ==> forall j :: i <= j < r ==> !OccursAt(hay, pat, j)
    decreases |hay| - i
  {
    if i + |pat| > |hay| then -1
    else if hay[i..i + |pat|] == pat then i
    else FindFrom(hay, pat, i + 1)
  }

  /** The index of the first `c` in `s`, or `|s|` when there is none. */
  function FindChar(s: string, c: char): (k: nat)
    ensures k <= |s|
    ensures k < |s| ==> s[k] == c
    ensures k == |s| <==> c !in s
    ensures forall j :: 0 <= j < k ==> s[j] != c
  {
    if |s| == 0 then 0
    else if s[0] == c then 0
    else 1 + FindChar(s[1..], c)
  }

  /** Python's `'\n'.join(lines)`. */
  function Join(lines: seq<string>): string
    requires |lines| >= 1
  {
    if |lines| == 1 then lines[0] else lines[0] + "\n" + Join(lines[1..])
  }

  /** Python's `s.split('\n')`: always at least one piece, none holding a line feed. */
  function Split(s: string): (lines: seq<string>)
    ensures |lines| >= 1
    ensures forall l :: l in lines ==> '\n' !in l
    ensures Join(lines) == s
    decreases |s|
  {
    var k := FindChar(s, '\n');
    if k == |s| then [s]
    else
      var rest := Split(s[k + 1..]);
      assert s == s[..k] + "\n" + s[k + 1..];
      [s[..k]] + rest
  }

  /** The other half of the round trip: splitting a join of line-feed-free pieces gives the pieces back. */
  lemma {:induction false} SplitJoin(lines: seq<string>)
    requires |lines| >= 1
    requires forall l :: l in lines ==> '\n' !in l
    ensures Split(Join(lines)) == lines
    decreases |lines|
  {
    var s := Join(lines);
    if |lines| == 1 {
      assert FindChar(s, '\n') == |s|;
    } else {
      var head := lines[0];
      var tail := Join(lines[1..]);
      assert s == head + "\n" + tail;
      assert '\n' !in head by { assert head in lines; }
      assert s[|head|] == '\n';
      assert forall j :: 0 <= j < |head| ==> s[j] == head[j];
      assert FindChar(s, '\n') == |head|;
      assert s[..|head|] == head;
      assert s[|head| + 1..] == tail;
      forall l | l in lines[1..] ensures '\n' !in l {
        assert l in lines;
      }
      SplitJoin(lines[1..]);
      assert lines == [head] + lines[1..];
    }
  }
}
