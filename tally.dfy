/**
 * Counters as the engine keeps them (a `defaultdict(int)` bumped by one per
 * event) and the multiset of events they count.
 */
module Tally {

  /** `f` applied to each element of `s`, results concatenated in order. */
  function FlatMap<A, B>(s: seq<A>, f: A -> seq<B>): seq<B>
    decreases |s|
  {
    if s == [] then [] else FlatMap(s[..|s| - 1], f) + f(s[|s| - 1])
  }

  lemma {:induction false} FlatMapAppend<A, B>(a: seq<A>, b: seq<A>, f: A -> seq<B>)
    ensures FlatMap(a + b, f) == FlatMap(a, f) + FlatMap(b, f)
    decreases |b|
  {
    if b == [] {
      assert a + b == a;
    } else {
      var init := b[..|b| - 1];
      assert (a + b)[..|a + b| - 1] == a + init;
      assert (a + b)[|a + b| - 1] == b[|b| - 1];
      FlatMapAppend(a, init, f);
    }
  }

  /** An element of the output came from some element of the input. */
  lemma {:induction false} FlatMapMember<A, B>(s: seq<A>, f: A -> seq<B>, x: B)
    ensures x in FlatMap(s, f) <==> exists i :: 0 <= i < |s| && x in f(s[i])
    decreases |s|
  {
    if s != [] {
      var n := |s| - 1;
      FlatMapMember(s[..n], f, x);
      if x in FlatMap(s[..n], f) {
        var i :| 0 <= i < n && x in f(s[..n][i]);
        assert s[i] == s[..n][i];
      }
      if exists i :: 0 <= i < |s| && x in f(s[i]) {
        var i :| 0 <= i < |s| && x in f(s[i]);
        if i < n {
          assert s[..n][i] == s[i];
        }
      }
    }
  }

  lemma MultisetRemove<A>(t: seq<A>, j: nat)
    requires j < |t|
    ensures multiset(t[..j] + t[j + 1..]) == multiset(t) - multiset{t[j]}
  {
    assert t == t[..j] + [t[j]] + t[j + 1..];
  }

  /** Taking element `j` out of the input takes its image out of the output. */
  lemma FlatMapRemove<A, B>(t: seq<A>, j: nat, f: A -> seq<B>)
    requires j < |t|
    ensures multiset(FlatMap(t, f)) == multiset(FlatMap(t[..j] + t[j + 1..], f)) + multiset(f(t[j]))
  {
    var left, right := t[..j], t[j + 1..];
    assert t == left + [t[j]] + right;
    FlatMapAppend(left + [t[j]], right, f);
    FlatMapAppend(left, [t[j]], f);
    FlatMapAppend(left, right, f);
    assert FlatMap([t[j]], f) == f(t[j]) by {
      assert [t[j]][..0] == [];
    }
  }

  /** The multiset of what `FlatMap` produces depends only on the multiset of
      its input: reordering the input reorders the output. */
  lemma {:induction false} FlatMapPermutation<A, B>(s: seq<A>, t: seq<A>, f: A -> seq<B>)
    requires multiset(s) == multiset(t)
    ensures multiset(FlatMap(s, f)) == multiset(FlatMap(t, f))
    decreases |s|
  {
    if s == [] {
      assert |t| == |multiset(t)| == 0;
    } else {
      var n := |s| - 1;
      var x := s[n];
      assert s == s[..n] + [x];
      assert x in multiset(t);
      var j :| 0 <= j < |t| && t[j] == x;
      var rest := t[..j] + t[j + 1..];
      MultisetRemove(t, j);
      assert multiset(s) == multiset(s[..n]) + multiset{x};
      FlatMapPermutation(s[..n], rest, f);
      FlatMapRemove(t, j, f);
    }
  }

  /** The count of `k`, zero when absent, as a `defaultdict(int)` reads it. */
  function Get<K>(m: map<K, nat>, k: K): nat {
    if k in m then m[k] else 0
  }

  /** `m[k] += 1` on a `defaultdict(int)`: `k` gains one, every other count
      is kept, and `k` is present afterwards. */
  function Increment<K>(m: map<K, nat>, k: K): (r: map<K, nat>)
    ensures r.Keys == m.Keys + {k}
    ensures Get(r, k) == Get(m, k) + 1
    ensures forall j :: j in m && j != k ==> r[j] == m[j]
  {
    m[k := Get(m, k) + 1]
  }

  /** The counter that holds each element of `bag` with its multiplicity. */
  function Counts<K>(bag: multiset<K>): map<K, nat> {
    map k | k in bag :: bag[k]
  }

  /** Counting one more event is incrementing its key. */
  lemma CountsAdd<K>(bag: multiset<K>, k: K)
    ensures Counts(bag + multiset{k}) == Increment(Counts(bag), k)
  {
    var lhs, rhs := Counts(bag + multiset{k}), Increment(Counts(bag), k);
    assert lhs.Keys == rhs.Keys;
    forall j | j in lhs
      ensures lhs[j] == rhs[j]
    {
      assert Get(rhs, j) == rhs[j];
    }
  }

  /** Logging one more event is incrementing its key. */
  lemma CountsSnoc<K>(log: seq<K>, k: K)
    ensures Counts(multiset(log + [k])) == Increment(Counts(multiset(log)), k)
  {
    assert multiset(log + [k]) == multiset(log) + multiset{k};
    CountsAdd(multiset(log), k);
  }

  /** The sum of all counts. */
  ghost function Total<K>(m: map<K, nat>): nat
    decreases |m|
  {
    if m == map[] then 0
    else
      var k :| k in m;
      m[k] + Total(m - {k})
  }

  lemma {:induction false} TotalRemove<K>(m: map<K, nat>, k: K)
    requires k in m
    ensures Total(m) == m[k] + Total(m - {k})
    decreases |m|
  {
    var j :| j in m && Total(m) == m[j] + Total(m - {j});
    if j != k {
      TotalRemove(m - {j}, k);
      TotalRemove(m - {k}, j);
      assert (m - {j}) - {k} == (m - {k}) - {j};
    }
  }

  /** Incrementing one key raises the total by exactly one. */
  lemma TotalIncrement<K>(m: map<K, nat>, k: K)
    ensures Total(Increment(m, k)) == Total(m) + 1
  {
    var r := Increment(m, k);
    TotalRemove(r, k);
    assert r - {k} == m - {k};
    if k in m {
      TotalRemove(m, k);
    } else {
      assert m - {k} == m;
    }
  }

  /** The counts of a multiset add up to its size. */
  lemma {:induction false} TotalCounts<K>(bag: multiset<K>)
    ensures Total(Counts(bag)) == |bag|
    decreases |bag|
  {
    if bag == multiset{} {
      assert Counts(bag) == map[];
    } else {
      var k :| k in bag;
      var rest := bag - multiset{k};
      assert bag == rest + multiset{k};
      TotalCounts(rest);
      CountsAdd(rest, k);
      TotalIncrement(Counts(rest), k);
    }
  }
}
