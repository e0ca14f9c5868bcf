/**
  `RedactionStats`: the batch-wide counters, the concept dictionary (an
  insertion-ordered association list, as a Python dict is), and `to_dict`,
  which recomputes the total from the counters every time it is called.
 */
module Stats {

  /** A concept dictionary: `(concept, count)` entries in insertion order. */
  type Counts = seq<(string, nat)>

  datatype Stats = Stats(
    names: nat,
    dates: nat,
    phones: nat,
    addresses: nat,
    concepts: Counts,
    filesProcessed: nat,
    totalWords: nat)

  /** The JSON object `to_dict` returns. */
  datatype Report = Report(
    filesProcessed: nat,
    totalWordsRedacted: nat,
    namesRedacted: nat,
    datesRedacted: nat,
    phonesRedacted: nat,
    addressesRedacted: nat,
    conceptsRedacted: Counts)

  /** `RedactionStats.__init__`: every counter at zero, no concepts. */
  function Init(): (s: Stats)
    ensures s.concepts == [] && s.names + s.dates + s.phones + s.addresses + s.filesProcessed + s.totalWords == 0
  {
    Stats(0, 0, 0, 0, [], 0, 0)
  }

  /** The dictionary's key set. */
  function Keys(cs: Counts): set<string> {
    if cs == [] then {} else {cs[0].0} + Keys(cs[1..])
  }

  /** Dictionary keys are unique. */
  predicate DistinctKeys(cs: Counts) {
    cs == [] || (cs[0].0 !in Keys(cs[1..]) && DistinctKeys(cs[1..]))
  }

  /** `d.get(c, 0)`. */
  function Get(cs: Counts, c: string): nat {
    if cs == [] then 0
    else if cs[0].0 == c then cs[0].1
    else Get(cs[1..], c)
  }

  /** `sum(d.values())`. */
  function Sum(cs: Counts): nat {
    if cs == [] then 0 else cs[0].1 + Sum(cs[1..])
  }

  /**
    `d[c] = d.get(c, 0) + 1`: the count of `c` goes up by one, every other
    count is untouched, the keys stay unique and gain `c`, existing keys
    keep their place and a new key goes at the end.
   */
  function Bump(cs: Counts, c: string): (r: Counts)
    ensures Get(r, c) == Get(cs, c) + 1
    ensures forall d :: d != c ==> Get(r, d) == Get(cs, d)
    ensures Sum(r) == Sum(cs) + 1
    ensures Keys(r) == Keys(cs) + {c}
    ensures DistinctKeys(cs) ==> DistinctKeys(r)
    ensures |r| == if c in Keys(cs) then |cs| else |cs| + 1
    ensures forall i :: 0 <= i < |cs| ==> r[i].0 == cs[i].0
    ensures c !in Keys(cs) ==> r[|cs|] == (c, 1)
  {
    if cs == [] then [(c, 1)]
    else if cs[0].0 == c then
      var r := [(c, cs[0].1 + 1)] + cs[1..];
      assert r[1..] == cs[1..];
      r
    else
      var rest := Bump(cs[1..], c);
      var r := [cs[0]] + rest;
      assert r[1..] == rest;
      r
  }

  /** Each concept's count is part of the concept total. */
  lemma {:induction false} GetAtMostSum(cs: Counts, c: string)
    ensures Get(cs, c) <= Sum(cs)
    decreases |cs|
  {
    if cs != [] && cs[0].0 != c {
      GetAtMostSum(cs[1..], c);
    }
  }

  /** The total `to_dict` reports: the four scalar counters plus every concept count. */
  function Total(s: Stats): nat {
    s.names + s.dates + s.phones + s.addresses + Sum(s.concepts)
  }

  /**
    `to_dict`: stores the recomputed total in the accumulator and reports
    every counter as it stands; the concept dictionary is reported as is.
   */
  function ToDict(s: Stats): (r: (Stats, Report))
    ensures r.1.totalWordsRedacted == Total(s)
    ensures r.0 == s.(totalWords := Total(s))
    ensures r.1.filesProcessed == s.filesProcessed && r.1.namesRedacted == s.names
    ensures r.1.datesRedacted == s.dates && r.1.phonesRedacted == s.phones
    ensures r.1.addressesRedacted == s.addresses && r.1.conceptsRedacted == s.concepts
    ensures forall c :: Get(r.1.conceptsRedacted, c) <= r.1.totalWordsRedacted
  {
    var total := s.names + s.dates + s.phones + s.addresses + Sum(s.concepts);
    forall c ensures Get(s.concepts, c) <= total {
      GetAtMostSum(s.concepts, c);
    }
    (s.(totalWords := total),
     Report(s.filesProcessed, total, s.names, s.dates, s.phones, s.addresses, s.concepts))
  }

  /** Serialising twice with nothing processed in between gives the same report and state. */
  lemma ToDictIdempotent(s: Stats)
    ensures ToDict(ToDict(s).0) == ToDict(s)
  {
  }

  /** The total is recomputed, never accumulated: a stale stored total has no influence. */
  lemma ToDictIgnoresStoredTotal(s: Stats, stale: nat)
    ensures ToDict(s.(totalWords := stale)).1 == ToDict(s).1
  {
  }
}
