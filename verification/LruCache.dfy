/** A bounded least-recently-used cache as a value: entries are most recent first, and
    `cap == 0` means unbounded. */
module LruCache {
  import opened Common

  datatype Lru<K, V> = Lru(cap: nat, entries: seq<(K, V)>)

  ghost predicate DistinctKeys<K, V>(es: seq<(K, V)>) {
    forall i, j :: 0 <= i < j < |es| ==> es[i].0 != es[j].0
  }

  ghost predicate ValidLru<K, V>(c: Lru<K, V>) {
    DistinctKeys(c.entries) && (c.cap == 0 || |c.entries| <= c.cap)
  }

  function Find<K(==), V>(es: seq<(K, V)>, k: K): Option<V> {
    if es == [] then None
    else if es[0].0 == k then Some(es[0].1)
    else Find(es[1..], k)
  }

  function Without<K(==), V>(es: seq<(K, V)>, k: K): seq<(K, V)> {
    if es == [] then []
    else if es[0].0 == k then es[1..]
    else [es[0]] + Without(es[1..], k)
  }

  function Peek<K(==), V>(c: Lru<K, V>, k: K): Option<V> {
    Find(c.entries, k)
  }

  function Pop<K(==), V>(c: Lru<K, V>, k: K): (Lru<K, V>, Option<V>) {
    (c.(entries := Without(c.entries, k)), Peek(c, k))
  }

  /** Inserts at the front. The second component is the replaced pair when the key was
      present, else the evicted pair when the cache was full. */
  function Push<K(==), V>(c: Lru<K, V>, k: K, v: V): (Lru<K, V>, Option<(K, V)>) {
    var prior := Peek(c, k);
    if prior.Some? then
      (c.(entries := [(k, v)] + Without(c.entries, k)), Some((k, prior.value)))
    else if c.cap > 0 && |c.entries| >= c.cap then
      var n := |c.entries| - 1;
      (c.(entries := [(k, v)] + c.entries[..n]), Some(c.entries[n]))
    else
      (c.(entries := [(k, v)] + c.entries), None)
  }

  lemma {:induction false} FindIff<K, V>(es: seq<(K, V)>, k: K)
    ensures Find(es, k).Some? <==> exists i :: 0 <= i < |es| && es[i].0 == k
  {
    if es != [] && es[0].0 != k {
      FindIff(es[1..], k);
      if i :| 0 <= i < |es| && es[i].0 == k {
        assert es[1..][i - 1].0 == k;
      }
    }
  }

  lemma {:induction false} FindAt<K, V>(es: seq<(K, V)>, i: nat)
    requires DistinctKeys(es) && i < |es|
    ensures Find(es, es[i].0) == Some(es[i].1)
  {
    if i > 0 {
      FindAt(es[1..], i - 1);
    }
  }

  lemma {:induction false} FindWithout<K, V>(es: seq<(K, V)>, k: K, x: K)
    requires DistinctKeys(es)
    ensures Find(Without(es, k), x) == if x == k then None else Find(es, x)
    ensures DistinctKeys(Without(es, k)) && |Without(es, k)| <= |es|
    ensures forall j :: 0 <= j < |Without(es, k)| ==> Without(es, k)[j] in es
  {
    if es != [] {
      FindIff(es[1..], k);
      if es[0].0 != k {
        FindWithout(es[1..], k, x);
      }
    }
  }

  lemma {:induction false} FindDropLast<K, V>(es: seq<(K, V)>, x: K)
    requires DistinctKeys(es) && es != []
    ensures Find(es[..|es| - 1], x) == if x == es[|es| - 1].0 then None else Find(es, x)
  {
    var n := |es| - 1;
    if n > 0 {
      assert es[..n][1..] == es[1..][..n - 1];
      if es[0].0 != x {
        FindDropLast(es[1..], x);
      }
    }
  }

  lemma {:induction false} FindPrefix<K, V>(es: seq<(K, V)>, k: nat)
    requires DistinctKeys(es) && k < |es|
    ensures forall x :: Find(es[..k + 1], x) == if x == es[k].0 then Some(es[k].1) else Find(es[..k], x)
    ensures Find(es[..k], es[k].0) == None
  {
    FindAt(es[..k + 1], k);
    forall x ensures Find(es[..k + 1], x) == if x == es[k].0 then Some(es[k].1) else Find(es[..k], x) {
      FindDropLast(es[..k + 1], x);
      assert es[..k + 1][..k] == es[..k];
    }
    FindIff(es[..k], es[k].0);
  }

  lemma {:induction false} DistinctKeysCount<K, V>(es: seq<(K, V)>)
    requires DistinctKeys(es)
    ensures |set e | e in es :: e.0| == |es|
  {
    if es != [] {
      var n := |es| - 1;
      DistinctKeysCount(es[..n]);
      var ks := set e | e in es[..n] :: e.0;
      assert es == es[..n] + [es[n]];
      assert (set e | e in es :: e.0) == ks + {es[n].0};
      assert es[n].0 !in ks;
    }
  }

  /** Removal takes exactly the named key. */
  lemma {:induction false} PopSpec<K, V>(c: Lru<K, V>, k: K, x: K)
    requires ValidLru(c)
    ensures ValidLru(Pop(c, k).0)
    ensures Peek(Pop(c, k).0, x) == if x == k then None else Peek(c, x)
  {
    FindWithout(c.entries, k, x);
  }

  /** Pushing a new key puts it before all others, whose order stays, and drops at most one of them: the
      last, which is reported. */
  lemma {:induction false} PushSpec<K, V>(c: Lru<K, V>, k: K, v: V, x: K)
    requires ValidLru(c) && Peek(c, k) == None
    ensures var (d, ev) := Push(c, k, v);
            && ValidLru(d)
            && d.entries[..1] == [(k, v)] && d.entries[1..] <= c.entries
            && (ev.Some? ==> d.entries[1..] + [ev.value] == c.entries)
            && (ev.Some? ==> ev.value.0 != k && Peek(c, ev.value.0) == Some(ev.value.1))
            && (ev.Some? <==> c.cap > 0 && |c.entries| == c.cap)
            && Peek(d, x) == if x == k then Some(v)
                             else if ev.Some? && x == ev.value.0 then None
                             else Peek(c, x)
  {
    FindIff(c.entries, k);
    var es := c.entries;
    var (d, ev) := Push(c, k, v);
    assert d.entries[1..] == if ev.Some? then es[..|es| - 1] else es;
    if ev.Some? {
      FindAt(es, |es| - 1);
      FindDropLast(es, x);
    }
  }
}
