/**
 * Python's `dict`: a key → value table that remembers the order in which keys
 * were first inserted. Assigning to an existing key replaces its value and keeps
 * its position; assigning to a new key appends it.
 */
module Dicts {
  import opened Wrappers
  import opened Seqs

  datatype Dict<K(==, !new), V> = Dict(keys: seq<K>, entries: map<K, V>)
  {
    /** Keys are unique and are exactly the keys of the entries. */
    ghost predicate Valid() {
      Distinct(keys) && forall k :: k in entries <==> k in keys
    }

    /** `d.get(k)`. */
    function Get(k: K): Option<V> {
      if k in entries then Some(entries[k]) else None
    }

    /** `d[k] = v`: an existing key keeps its position, a new key goes last. */
    function Put(k: K, v: V): Dict<K, V> {
      Dict(if k in entries then keys else keys + [k], entries[k := v])
    }
  }

  /** `d[k] = v` keeps the dict well formed; afterwards `k` maps to `v` and every other key keeps its value. */
  lemma PutValid<K(!new), V>(d: Dict<K, V>, k: K, v: V)
    requires d.Valid()
    ensures d.Put(k, v).Valid()
    ensures d.Put(k, v).Get(k) == Some(v)
    ensures forall k' :: k' != k ==> d.Put(k, v).Get(k') == d.Get(k')
  {
  }

  /** `{}`. */
  function Empty<K(==, !new), V>(): (d: Dict<K, V>)
    ensures d.Valid() && d.keys == [] && forall k :: d.Get(k) == None
  {
    Dict([], map[])
  }

  /** Performs the writes `w` in order, starting from `d`. */
  function PutAll<K(==, !new), V>(d: Dict<K, V>, w: seq<(K, V)>): Dict<K, V> {
    if w == [] then d
    else
      var last := w[|w| - 1];
      PutAll(d, w[..|w| - 1]).Put(last.0, last.1)
  }

  /** Any sequence of writes keeps the dict well formed. */
  lemma {:induction false} PutAllValid<K(!new), V>(d: Dict<K, V>, w: seq<(K, V)>)
    requires d.Valid()
    ensures PutAll(d, w).Valid()
  {
    if w != [] {
      PutAllValid(d, w[..|w| - 1]);
      PutValid(PutAll(d, w[..|w| - 1]), w[|w| - 1].0, w[|w| - 1].1);
    }
  }

  /** Writing `w + [e]` is writing `w` and then `e`. */
  lemma {:induction false} PutAllSnoc<K(!new), V>(d: Dict<K, V>, w: seq<(K, V)>, e: (K, V))
    ensures PutAll(d, w + [e]) == PutAll(d, w).Put(e.0, e.1)
  {
    assert (w + [e])[..|w|] == w;
  }

  /** Writing `a + b` is writing `a` and then `b`. */
  lemma {:induction false} PutAllAppend<K(!new), V>(d: Dict<K, V>, a: seq<(K, V)>, b: seq<(K, V)>)
    ensures PutAll(d, a + b) == PutAll(PutAll(d, a), b)
  {
    if b == [] {
      assert a + b == a;
    } else {
      var front, e := b[..|b| - 1], b[|b| - 1];
      assert b == front + [e];
      assert a + b == (a + front) + [e];
      calc {
        PutAll(d, a + b);
        PutAll(d, (a + front) + [e]);
        { PutAllSnoc(d, a + front, e); }
        PutAll(d, a + front).Put(e.0, e.1);
        { PutAllAppend(d, a, front); }
        PutAll(PutAll(d, a), front).Put(e.0, e.1);
        { PutAllSnoc(PutAll(d, a), front, e); }
        PutAll(PutAll(d, a), front + [e]);
      }
    }
  }

  /** The value of the last write to `k` in `w`, if `w` writes `k` at all. */
  function LastWrite<K(==, !new), V>(w: seq<(K, V)>, k: K): Option<V> {
    if w == [] then None
    else if w[|w| - 1].0 == k then Some(w[|w| - 1].1)
    else LastWrite(w[..|w| - 1], k)
  }

  /** Last write wins: after the writes, `k` holds its last written value, or its old one if none. */
  lemma {:induction false} LastWriteWins<K(!new), V>(d: Dict<K, V>, w: seq<(K, V)>, k: K)
    ensures PutAll(d, w).Get(k) == if LastWrite(w, k).Some? then LastWrite(w, k) else d.Get(k)
  {
    if w != [] {
      LastWriteWins(d, w[..|w| - 1], k);
    }
  }

  /** A write to another key does not change the last write to `k`. */
  lemma {:induction false} LastWriteSkip<K(!new), V>(w: seq<(K, V)>, e: (K, V), k: K)
    requires e.0 != k
    ensures LastWrite(w + [e], k) == LastWrite(w, k)
  {
    assert (w + [e])[..|w|] == w;
  }

  /** The last write to `k` is the one at index `i` when no later write touches `k`. */
  lemma {:induction false} LastWriteAt<K(!new), V>(w: seq<(K, V)>, i: nat)
    requires i < |w|
    requires forall j :: i < j < |w| ==> w[j].0 != w[i].0
    ensures LastWrite(w, w[i].0) == Some(w[i].1)
  {
    if i < |w| - 1 {
      LastWriteAt(w[..|w| - 1], i);
    }
  }

  /** The keys written by `w`, in write order (with repeats). */
  function Labels<K, V>(w: seq<(K, V)>): (ks: seq<K>)
    ensures |ks| == |w| && forall i :: 0 <= i < |w| ==> ks[i] == w[i].0
  {
    seq(|w|, i requires 0 <= i < |w| => w[i].0)
  }

  /** `ks` with every repeat dropped, each key kept at its first occurrence. */
  function FirstSeen<K(==, !new)>(ks: seq<K>): (r: seq<K>)
    ensures Distinct(r)
    ensures forall k :: k in r <==> k in ks
  {
    if ks == [] then []
    else
      var front := FirstSeen(ks[..|ks| - 1]);
      var k := ks[|ks| - 1];
      assert ks == ks[..|ks| - 1] + [k];
      if k in front then front else front + [k]
  }

  /** Starting from `{}`, the dict's key order is the order in which `w` first writes each key. */
  lemma {:induction false} PutAllKeys<K(!new), V>(w: seq<(K, V)>)
    ensures PutAll(Empty(), w).keys == FirstSeen(Labels(w))
  {
    if w != [] {
      var front := w[..|w| - 1];
      PutAllKeys(front);
      PutAllValid(Empty(), front);
      assert Labels(w)[..|w| - 1] == Labels(front);
    }
  }

  /** Writes to pairwise different keys: every key keeps its own value, in write order. */
  lemma {:induction false} PutAllDistinct<K(!new), V>(w: seq<(K, V)>)
    requires Distinct(Labels(w))
    ensures PutAll(Empty(), w).keys == Labels(w)
    ensures forall i :: 0 <= i < |w| ==> PutAll(Empty(), w).Get(w[i].0) == Some(w[i].1)
  {
    DistinctKeys(w);
    forall i | 0 <= i < |w|
      ensures PutAll(Empty(), w).Get(w[i].0) == Some(w[i].1)
    {
      DistinctLast(w, i);
    }
  }

  /** Writes to pairwise different keys list the keys in write order. */
  lemma {:induction false} DistinctKeys<K(!new), V>(w: seq<(K, V)>)
    requires Distinct(Labels(w))
    ensures PutAll(Empty(), w).keys == Labels(w)
  {
    PutAllKeys(w);
    FirstSeenDistinct(Labels(w));
  }

  /** With pairwise different keys, write `i` is the last write to its key. */
  lemma {:induction false} DistinctLast<K(!new), V>(w: seq<(K, V)>, i: nat)
    requires Distinct(Labels(w)) && i < |w|
    ensures PutAll(Empty(), w).Get(w[i].0) == Some(w[i].1)
  {
    var ks := Labels(w);
    forall j | i < j < |w| ensures w[j].0 != w[i].0 {
      assert ks[i] != ks[j];
    }
    LastWriteAt(w, i);
    LastWriteWins(Empty(), w, w[i].0);
  }

  /** Dropping repeats from a sequence without repeats changes nothing. */
  lemma {:induction false} FirstSeenDistinct<K(!new)>(ks: seq<K>)
    requires Distinct(ks)
    ensures FirstSeen(ks) == ks
  {
    if ks != [] {
      FirstSeenDistinct(ks[..|ks| - 1]);
    }
  }
}
