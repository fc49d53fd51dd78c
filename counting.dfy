/**
 Counting helpers shared by the feedback evaluator and the code generator:
 occurrence counts in a sequence, the distinct values of a sequence, and the
 facts that connect them with Dafny's built-in multisets.
 */
module Counting {

  /** Number of occurrences of `v` in `s`. */
  function Count(s: seq<int>, v: int): (n: nat)
    ensures n <= |s|
  {
    if s == [] then 0 else (if s[0] == v then 1 else 0) + Count(s[1..], v)
  }

  lemma {:induction false} CountIsMultiplicity(s: seq<int>, v: int)
    ensures Count(s, v) == multiset(s)[v]
  {
    if s != [] {
      assert s == [s[0]] + s[1..];
      CountIsMultiplicity(s[1..], v);
    }
  }

  /** The distinct values of `s`, each once, in order of their last occurrence. */
  function Distinct(s: seq<int>): (d: seq<int>)
    ensures forall v :: v in d <==> v in s
    ensures NoDuplicates(d)
  {
    if s == [] then []
    else if s[0] in s[1..] then Distinct(s[1..])
    else [s[0]] + Distinct(s[1..])
  }

  predicate NoDuplicates(s: seq<int>)
  {
    forall i, j :: 0 <= i < j < |s| ==> s[i] != s[j]
  }

  /** Sum of `m[k]` over the keys `keys`. */
  ghost function SumOver(m: multiset<int>, keys: seq<int>): int
  {
    if keys == [] then 0 else m[keys[0]] + SumOver(m, keys[1..])
  }

  lemma {:induction false} SumOverAgree(m1: multiset<int>, m2: multiset<int>, keys: seq<int>)
    requires forall i :: 0 <= i < |keys| ==> m1[keys[i]] == m2[keys[i]]
    ensures SumOver(m1, keys) == SumOver(m2, keys)
  {
    if keys != [] {
      SumOverAgree(m1, m2, keys[1..]);
    }
  }

  /** A multiset's size splits into the multiplicity of one value and the rest. */
  lemma {:induction false} CardinalitySplit(m: multiset<int>, k: int)
    ensures |m| == m[k] + |m[k := 0]|
    decreases m[k]
  {
    if m[k] == 0 {
      assert m[k := 0] == m;
    } else {
      var m' := m - multiset{k};
      assert m == m' + multiset{k};
      assert m'[k := 0] == m[k := 0];
      CardinalitySplit(m', k);
    }
  }

  /** The size of a multiset is the sum of its multiplicities over any
      duplicate-free list of keys that covers it. */
  lemma {:induction false} CardinalityIsSumOver(m: multiset<int>, keys: seq<int>)
    requires NoDuplicates(keys)
    requires forall x :: x in m ==> x in keys
    ensures |m| == SumOver(m, keys)
  {
    if keys == [] {
      forall x ensures m[x] == 0 {
        assert x !in keys;
      }
      assert m == multiset{};
    } else {
      var k := keys[0];
      var rest := m[k := 0];
      CardinalitySplit(m, k);
      forall x | x in rest ensures x in keys[1..] {
        assert x != k && x in keys;
        var i :| 0 <= i < |keys| && keys[i] == x;
        assert i != 0;
        assert keys[1..][i - 1] == x;
      }
      assert NoDuplicates(keys[1..]) by {
        forall i, j | 0 <= i < j < |keys[1..]| ensures keys[1..][i] != keys[1..][j] {
          assert keys[1..][i] == keys[i + 1] && keys[1..][j] == keys[j + 1];
        }
      }
      CardinalityIsSumOver(rest, keys[1..]);
      forall i | 0 <= i < |keys[1..]| ensures rest[keys[1..][i]] == m[keys[1..][i]] {
        assert keys[1..][i] == keys[i + 1] != k;
      }
      SumOverAgree(rest, m, keys[1..]);
    }
  }

  /** A sub-multiset is no larger. */
  lemma SubMultisetCardinality(a: multiset<int>, b: multiset<int>)
    requires a <= b
    ensures |a| <= |b|
  {
    assert b == a + (b - a);
  }
}
