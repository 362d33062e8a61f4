/** Facts about sets and sequences that several modules use. */
module Collections {
  lemma {:induction false} SubsetSize<T>(a: set<T>, b: set<T>)
    requires a <= b
    ensures |a| <= |b|
    decreases a
  {
    if a != {} {
      var x :| x in a;
      SubsetSize(a - {x}, b - {x});
    }
  }

  lemma TwoOccurrences<T>(s: seq<T>, i: nat, j: nat)
    requires i < j < |s| && s[i] == s[j]
    ensures multiset(s)[s[i]] >= 2
  {
    assert s == s[..j] + s[j..];
    assert s[..j][i] in multiset(s[..j]) && s[j..][0] in multiset(s[j..]);
  }

  /** No two elements have the same key. */
  ghost predicate DistinctBy<T, K>(s: seq<T>, key: T -> K) {
    forall i, j :: 0 <= i < j < |s| ==> key(s[i]) != key(s[j])
  }

  lemma {:induction false} OneOccurrence<T, K>(s: seq<T>, key: T -> K, x: T)
    requires DistinctBy(s, key)
    ensures multiset(s)[x] <= 1
  {
    if s != [] {
      assert s == [s[0]] + s[1..];
      OneOccurrence(s[1..], key, x);
      if x == s[0] {
        assert x !in s[1..];
      }
    }
  }

  lemma PermutedStaysDistinct<T, K>(s: seq<T>, permuted: seq<T>, key: T -> K)
    requires DistinctBy(s, key) && multiset(s) == multiset(permuted)
    ensures DistinctBy(permuted, key)
  {
    forall i, j | 0 <= i < j < |permuted| ensures key(permuted[i]) != key(permuted[j]) {
      var a, b := permuted[i], permuted[j];
      assert a in multiset(permuted) && b in multiset(permuted);
      assert a in s && b in s;
      if a == b {
        TwoOccurrences(permuted, i, j);
        OneOccurrence(s, key, a);
        assert false;
      }
    }
  }

  lemma Regroup<T>(a: seq<T>, b: seq<T>, c: seq<T>)
    ensures a + (b + c) == (a + b) + c
  {
  }

  lemma NothingAdded<T>(a: seq<T>, b: seq<T>)
    requires b == []
    ensures a + b == a
  {
  }

  lemma TakeOneMore<T>(s: seq<T>, i: nat)
    requires i < |s|
    ensures s[..i + 1] == s[..i] + [s[i]]
  {
  }

  /** Induction, for a property given as a function value. */
  lemma {:induction false} StepByStep(reached: nat -> bool, n: nat)
    requires reached(0) && forall k: nat :: reached(k) ==> reached(k + 1)
    ensures reached(n)
  {
    if n > 0 {
      StepByStep(reached, n - 1);
      assert reached(n - 1 + 1);
    }
  }
}
