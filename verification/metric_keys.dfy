/** Series identity in the metric gate (fn0/fn0/src/metric_gate.rs:177-197). */
module MetricKeys {
  import opened TextOrder

  const NAME_END: char := '\U{1F}'
  const PAIR_END: char := '\U{1E}'

  /** `label_pairs`: the attributes of a point, sorted. */
  function LabelPairs(attributes: seq<Pair>): seq<Pair> {
    Sort(attributes)
  }

  function PairsKey(pairs: seq<Pair>): string {
    if pairs == [] then "" else pairs[0].0 + ['='] + pairs[0].1 + [PAIR_END] + PairsKey(pairs[1..])
  }

  function SeriesKey(name: string, pairs: seq<Pair>): string {
    name + [NAME_END] + PairsKey(pairs)
  }

  /** `series_key` as the loop that appends to one buffer. */
  method BuildSeriesKey(name: string, pairs: seq<Pair>) returns (key: string)
    ensures key == SeriesKey(name, pairs)
  {
    key := name + [NAME_END];
    for i := 0 to |pairs|
      invariant key + PairsKey(pairs[i..]) == SeriesKey(name, pairs)
    {
      assert pairs[i..][1..] == pairs[i + 1..];
      key := key + pairs[i].0;
      key := key + ['='];
      key := key + pairs[i].1;
      key := key + [PAIR_END];
    }
  }

  /** The separators occur only where the format puts them. */
  predicate PlainName(name: string) {
    NAME_END !in name
  }

  predicate PlainPairs(pairs: seq<Pair>) {
    forall i :: 0 <= i < |pairs| ==> '=' !in pairs[i].0 && PAIR_END !in pairs[i].1
  }

  /** The text before the first separator and the text after it are determined. */
  lemma {:induction false} SplitUnique(a: string, b: string, c: string, d: string, separator: char)
    requires separator !in a && separator !in c && a + [separator] + b == c + [separator] + d
    ensures a == c && b == d
  {
    var left, right := a + [separator] + b, c + [separator] + d;
    assert left[|a|] == separator && right[|c|] == separator;
    assert a == left[..|a|] && c == right[..|c|];
    assert b == left[|a| + 1..] && d == right[|c| + 1..];
  }

  lemma {:induction false} PairsKeyInjective(p: seq<Pair>, q: seq<Pair>)
    requires PlainPairs(p) && PlainPairs(q) && PairsKey(p) == PairsKey(q)
    ensures p == q
  {
    if p == [] || q == [] {
      assert |p| > 0 ==> |PairsKey(p)| > 0;
      assert |q| > 0 ==> |PairsKey(q)| > 0;
    } else {
      var restP, restQ := PairsKey(p[1..]), PairsKey(q[1..]);
      var tailP, tailQ := p[0].1 + [PAIR_END] + restP, q[0].1 + [PAIR_END] + restQ;
      assert PairsKey(p) == p[0].0 + ['='] + tailP;
      assert PairsKey(q) == q[0].0 + ['='] + tailQ;
      SplitUnique(p[0].0, tailP, q[0].0, tailQ, '=');
      SplitUnique(p[0].1, restP, q[0].1, restQ, PAIR_END);
      PairsKeyInjective(p[1..], q[1..]);
      assert p == [p[0]] + p[1..] && q == [q[0]] + q[1..];
    }
  }

  /** Two series with plain names and pairs have the same key only if they are the same series. */
  lemma SeriesKeyInjective(name: string, pairs: seq<Pair>, name': string, pairs': seq<Pair>)
    requires PlainName(name) && PlainName(name') && PlainPairs(pairs) && PlainPairs(pairs')
    requires SeriesKey(name, pairs) == SeriesKey(name', pairs')
    ensures name == name' && pairs == pairs'
  {
    SplitUnique(name, PairsKey(pairs), name', PairsKey(pairs'), NAME_END);
    PairsKeyInjective(pairs, pairs');
  }

  /** The order in which a point lists its attributes does not matter. */
  lemma SeriesKeyIgnoresOrder(name: string, attributes: seq<Pair>, permuted: seq<Pair>)
    requires multiset(attributes) == multiset(permuted)
    ensures SeriesKey(name, LabelPairs(attributes)) == SeriesKey(name, LabelPairs(permuted))
  {
    SortForgetsOrder(attributes, permuted);
  }

  /** Plain points have the same key exactly when they are the same series. */
  lemma SameSeriesIff(name: string, attributes: seq<Pair>, name': string, attributes': seq<Pair>)
    requires PlainName(name) && PlainName(name') && PlainPairs(attributes) && PlainPairs(attributes')
    ensures SeriesKey(name, LabelPairs(attributes)) == SeriesKey(name', LabelPairs(attributes'))
            <==> name == name' && multiset(attributes) == multiset(attributes')
  {
    SortSorts(attributes);
    SortSorts(attributes');
    if name == name' && multiset(attributes) == multiset(attributes') {
      SeriesKeyIgnoresOrder(name, attributes, attributes');
    }
    if SeriesKey(name, LabelPairs(attributes)) == SeriesKey(name', LabelPairs(attributes')) {
      SortKeepsPlain(attributes);
      SortKeepsPlain(attributes');
      SeriesKeyInjective(name, LabelPairs(attributes), name', LabelPairs(attributes'));
    }
  }

  lemma SortKeepsPlain(attributes: seq<Pair>)
    requires PlainPairs(attributes)
    ensures PlainPairs(LabelPairs(attributes))
  {
    SortSorts(attributes);
    var sorted := LabelPairs(attributes);
    forall i | 0 <= i < |sorted| ensures '=' !in sorted[i].0 && PAIR_END !in sorted[i].1 {
      assert sorted[i] in multiset(sorted);
      assert sorted[i] in attributes;
    }
  }
}
