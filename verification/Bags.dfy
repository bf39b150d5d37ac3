// Counting over the process table: the multiset of keys its entries carry.
module Bags {

  function Bag<T, K(==)>(s: seq<T>, key: T -> multiset<K>): multiset<K> {
    if s == [] then multiset{} else Bag(s[..|s| - 1], key) + key(s[|s| - 1])
  }

  lemma {:induction false} BagUpdate<T, K>(s: seq<T>, key: T -> multiset<K>, i: nat, x: T)
    requires i < |s|
    ensures key(s[i]) <= Bag(s, key)
    ensures Bag(s[i := x], key) == Bag(s, key) - key(s[i]) + key(x)
  {
    var n := |s| - 1;
    if i == n {
      assert s[i := x][..n] == s[..n];
    } else {
      BagUpdate(s[..n], key, i, x);
      assert s[i := x][..n] == s[..n][i := x];
      assert s[..n][i] == s[i];
    }
  }

  // The multiplicity of k, pointwise.
  lemma BagAt<T, K>(s: seq<T>, key: T -> multiset<K>, i: nat, x: T, k: K)
    requires i < |s|
    ensures Bag(s[i := x], key)[k] + key(s[i])[k] == Bag(s, key)[k] + key(x)[k]
    ensures Bag(s, key)[k] >= key(s[i])[k]
  {
    BagUpdate(s, key, i, x);
  }

  lemma BagKeep<T, K>(s: seq<T>, key: T -> multiset<K>, i: nat, x: T)
    requires i < |s| && key(x) == key(s[i])
    ensures Bag(s[i := x], key) == Bag(s, key)
  {
    BagUpdate(s, key, i, x);
  }

  // A key that occurs is carried by some entry.
  lemma {:induction false} BagWitness<T, K>(s: seq<T>, key: T -> multiset<K>, k: K) returns (i: nat)
    requires Bag(s, key)[k] > 0
    ensures i < |s| && key(s[i])[k] > 0
  {
    var n := |s| - 1;
    if key(s[n])[k] > 0 {
      i := n;
    } else {
      i := BagWitness(s[..n], key, k);
    }
  }

  lemma {:induction false} BagNone<T, K>(s: seq<T>, key: T -> multiset<K>, k: K)
    requires forall i | 0 <= i < |s| :: key(s[i])[k] == 0
    ensures Bag(s, key)[k] == 0
  {
    if s != [] { BagNone(s[..|s| - 1], key, k); }
  }

  // Changing entries without changing how often k occurs in any of them.
  lemma {:induction false} BagSame<T, K>(s: seq<T>, t: seq<T>, key: T -> multiset<K>, k: K)
    requires |s| == |t| && forall i | 0 <= i < |s| :: key(s[i])[k] == key(t[i])[k]
    ensures Bag(s, key)[k] == Bag(t, key)[k]
  {
    if s != [] { BagSame(s[..|s| - 1], t[..|t| - 1], key, k); }
  }
}
