/** The order Rust compares strings and pairs of strings in, and sorting by it. */
module TextOrder {

  predicate Leq(a: string, b: string) {
    a == [] || (b != [] && (a[0] < b[0] || (a[0] == b[0] && Leq(a[1..], b[1..]))))
  }

  lemma {:induction false} LeqReflexive(a: string)
    ensures Leq(a, a)
  {
    if a != [] {
      LeqReflexive(a[1..]);
    }
  }

  lemma {:induction false} LeqTotal(a: string, b: string)
    ensures Leq(a, b) || Leq(b, a)
  {
    if a != [] && b != [] {
      LeqTotal(a[1..], b[1..]);
    }
  }

  lemma {:induction false} LeqAntisymmetric(a: string, b: string)
    requires Leq(a, b) && Leq(b, a)
    ensures a == b
  {
    if a != [] {
      LeqAntisymmetric(a[1..], b[1..]);
      assert a == [a[0]] + a[1..] && b == [b[0]] + b[1..];
    }
  }

  lemma {:induction false} LeqTransitive(a: string, b: string, c: string)
    requires Leq(a, b) && Leq(b, c)
    ensures Leq(a, c)
  {
    if a != [] && a[0] == b[0] == c[0] {
      LeqTransitive(a[1..], b[1..], c[1..]);
    }
  }

  /**
   Strings compare as Rust compares them: a prefix comes first, and otherwise the first
   character in which the two differ decides.
   */
  lemma {:induction false} LeqIsLexicographic(a: string, b: string)
    ensures Leq(a, b) <==>
            a <= b || exists i :: 0 <= i < |a| && i < |b| && a[..i] == b[..i] && a[i] < b[i]
  {
    if a == [] || b == [] {
      return;
    }
    LeqIsLexicographic(a[1..], b[1..]);
    if a[0] < b[0] {
      assert a[..0] == b[..0];
    }
    if a[0] == b[0] {
      assert a == [a[0]] + a[1..] && b == [b[0]] + b[1..];
      if i :| 0 <= i < |a[1..]| && i < |b[1..]| && a[1..][..i] == b[1..][..i] && a[1..][i] < b[1..][i] {
        assert a[..i + 1] == [a[0]] + a[1..][..i] == b[..i + 1];
        assert a[i + 1] < b[i + 1];
      }
    }
    if i :| 0 <= i < |a| && i < |b| && a[..i] == b[..i] && a[i] < b[i] {
      if i > 0 {
        assert a[0] == a[..i][0] == b[..i][0] == b[0];
        assert a[1..][..i - 1] == a[..i][1..] == b[..i][1..] == b[1..][..i - 1];
        assert a[1..][i - 1] < b[1..][i - 1];
      }
    }
  }

  type Pair = (string, string)

  predicate PairLeq(a: Pair, b: Pair) {
    if a.0 == b.0 then Leq(a.1, b.1) else Leq(a.0, b.0)
  }

  lemma PairTotal(a: Pair, b: Pair)
    ensures PairLeq(a, b) || PairLeq(b, a)
  {
    LeqTotal(a.0, b.0);
    LeqTotal(a.1, b.1);
  }

  lemma PairAntisymmetric(a: Pair, b: Pair)
    requires PairLeq(a, b) && PairLeq(b, a)
    ensures a == b
  {
    if a.0 == b.0 {
      LeqAntisymmetric(a.1, b.1);
    } else {
      LeqAntisymmetric(a.0, b.0);
    }
  }

  lemma PairTransitive(a: Pair, b: Pair, c: Pair)
    requires PairLeq(a, b) && PairLeq(b, c)
    ensures PairLeq(a, c)
  {
    if a.0 == b.0 == c.0 {
      LeqTransitive(a.1, b.1, c.1);
    } else {
      if a.0 == b.0 || b.0 == c.0 {
      } else {
        LeqTransitive(a.0, b.0, c.0);
        if a.0 == c.0 {
          LeqAntisymmetric(a.0, b.0);
        }
      }
    }
  }

  // ---- Sorting -----------------------------------------------------------------

  ghost predicate Sorted(pairs: seq<Pair>) {
    forall i, j :: 0 <= i < j < |pairs| ==> PairLeq(pairs[i], pairs[j])
  }

  function Insert(pair: Pair, pairs: seq<Pair>): seq<Pair> {
    if pairs == [] || PairLeq(pair, pairs[0]) then [pair] + pairs
    else [pairs[0]] + Insert(pair, pairs[1..])
  }

  function Sort(pairs: seq<Pair>): seq<Pair> {
    if pairs == [] then [] else Insert(pairs[0], Sort(pairs[1..]))
  }

  lemma {:induction false} InsertCounts(pair: Pair, pairs: seq<Pair>)
    ensures multiset(Insert(pair, pairs)) == multiset(pairs) + multiset{pair}
  {
    if pairs != [] && !PairLeq(pair, pairs[0]) {
      InsertCounts(pair, pairs[1..]);
      assert pairs == [pairs[0]] + pairs[1..];
    }
  }

  lemma {:induction false} InsertSorts(pair: Pair, pairs: seq<Pair>)
    requires Sorted(pairs)
    ensures Sorted(Insert(pair, pairs))
  {
    if pairs == [] {
    } else if PairLeq(pair, pairs[0]) {
      forall i | 0 <= i < |pairs| ensures PairLeq(pair, pairs[i]) {
        if i > 0 {
          PairTransitive(pair, pairs[0], pairs[i]);
        }
      }
    } else {
      InsertSorts(pair, pairs[1..]);
      InsertCounts(pair, pairs[1..]);
      var rest := Insert(pair, pairs[1..]);
      PairTotal(pair, pairs[0]);
      forall i | 0 <= i < |rest| ensures PairLeq(pairs[0], rest[i]) {
        assert rest[i] in multiset(rest);
        assert rest[i] in pairs[1..] || rest[i] == pair;
      }
    }
  }

  lemma {:induction false} SortSorts(pairs: seq<Pair>)
    ensures Sorted(Sort(pairs))
    ensures multiset(Sort(pairs)) == multiset(pairs)
  {
    if pairs != [] {
      SortSorts(pairs[1..]);
      InsertSorts(pairs[0], Sort(pairs[1..]));
      InsertCounts(pairs[0], Sort(pairs[1..]));
      assert pairs == [pairs[0]] + pairs[1..];
    }
  }

  /** A sorted sequence is determined by its elements. */
  lemma {:induction false} SortedUnique(a: seq<Pair>, b: seq<Pair>)
    requires Sorted(a) && Sorted(b) && multiset(a) == multiset(b)
    ensures a == b
  {
    if a == [] {
      assert |multiset(b)| == 0;
    } else {
      assert |multiset(a)| == |a| && |multiset(b)| == |b|;
      SortedHeads(a, b);
      assert a == [a[0]] + a[1..] && b == [b[0]] + b[1..];
      assert multiset(a[1..]) == multiset(a) - multiset{a[0]};
      assert multiset(b[1..]) == multiset(b) - multiset{b[0]};
      SortedUnique(a[1..], b[1..]);
    }
  }

  lemma SortedHeads(a: seq<Pair>, b: seq<Pair>)
    requires a != [] && b != [] && Sorted(a) && Sorted(b) && multiset(a) == multiset(b)
    ensures a[0] == b[0]
  {
    assert a[0] in multiset(b) && b[0] in multiset(a);
    var i :| 0 <= i < |b| && b[i] == a[0];
    var j :| 0 <= j < |a| && a[j] == b[0];
    PairTotal(a[0], a[0]);
    PairTotal(b[0], b[0]);
    PairAntisymmetric(a[0], b[0]);
  }

  /** Sorting forgets the order of its input. */
  lemma SortForgetsOrder(a: seq<Pair>, b: seq<Pair>)
    requires multiset(a) == multiset(b)
    ensures Sort(a) == Sort(b)
  {
    SortSorts(a);
    SortSorts(b);
    SortedUnique(Sort(a), Sort(b));
  }
}
