/** The bucketed hash map and the direct-mapped cache of the utility library.
    Keys are naturals whose hash (`operator()`) is the key itself, as for the
    gate-id key and the unsigned simulation values the circuit code uses. */
module HashMapModel {

  datatype Option<T> = None | Some(value: T)

  /** Number of entries held in a sequence of buckets. */
  function TotalLen<D>(bs: seq<seq<(nat, D)>>): nat
  {
    if bs == [] then 0 else TotalLen(bs[..|bs| - 1]) + |bs[|bs| - 1]|
  }

  /** Replacing one bucket changes the total by the difference of the two lengths. */
  lemma {:induction false} TotalLenUpdate<D>(bs: seq<seq<(nat, D)>>, i: nat, b: seq<(nat, D)>)
    requires i < |bs|
    ensures TotalLen(bs[i := b]) == TotalLen(bs) - |bs[i]| + |b|
  {
    var n := |bs| - 1;
    if i == n {
      assert bs[i := b][..n] == bs[..n];
    } else {
      assert bs[i := b][..n] == bs[..n][i := b];
      TotalLenUpdate(bs[..n], i, b);
    }
  }

  /** The total is zero exactly when every bucket is empty. */
  lemma {:induction false} TotalLenZero<D>(bs: seq<seq<(nat, D)>>)
    ensures TotalLen(bs) == 0 <==> forall i :: 0 <= i < |bs| ==> bs[i] == []
  {
    if bs != [] {
      var n := |bs| - 1;
      TotalLenZero(bs[..n]);
      assert forall i :: 0 <= i < n ==> bs[..n][i] == bs[i];
    }
  }

  /** Some entry of bucket `s` has key `k`. */
  predicate HasKey<D>(s: seq<(nat, D)>, k: nat)
  {
    exists j :: 0 <= j < |s| && s[j].0 == k
  }

  lemma HasKeyAfterErase<D>(s: seq<(nat, D)>, i: nat, k: nat)
    requires i < |s| && HasKey(s, k) && s[i].0 != k
    ensures HasKey(s[..i] + s[i + 1..], k)
  {
    var j :| 0 <= j < |s| && s[j].0 == k;
    var t := s[..i] + s[i + 1..];
    if j < i {
      assert t[j] == s[j];
    } else {
      assert t[j - 1] == s[j];
    }
  }

  /** Every entry sits in bucket key % numBuckets. */
  ghost predicate Placed<D>(bs: seq<seq<(nat, D)>>)
  {
    forall b, j :: 0 <= b < |bs| && 0 <= j < |bs[b]| ==> bs[b][j].0 % |bs| == b
  }

  /** No key occurs twice in one bucket. */
  ghost predicate DistinctKeys<D>(bs: seq<seq<(nat, D)>>)
  {
    forall b, i, j :: 0 <= b < |bs| && 0 <= i < j < |bs[b]| ==> bs[b][i].0 != bs[b][j].0
  }

  /** Every entry is an entry of `m`. */
  ghost predicate Sound<D>(bs: seq<seq<(nat, D)>>, m: map<nat, D>)
  {
    forall b, j :: 0 <= b < |bs| && 0 <= j < |bs[b]| ==> bs[b][j].0 in m && m[bs[b][j].0] == bs[b][j].1
  }

  /** Every key of `m` is found in its own bucket. */
  ghost predicate Complete<D>(bs: seq<seq<(nat, D)>>, m: map<nat, D>)
    requires |bs| > 0
  {
    forall k :: k in m ==> HasKey(bs[k % |bs|], k)
  }

  /** The bucket invariant on values: `bs` is a bucket array representing `m`. */
  ghost predicate Wf<D>(bs: seq<seq<(nat, D)>>, m: map<nat, D>)
  {
    && |bs| > 0
    && Placed(bs)
    && DistinctKeys(bs)
    && Sound(bs, m)
    && Complete(bs, m)
    && |m| == TotalLen(bs)
  }

  lemma WfEmpty<D>(bs: seq<seq<(nat, D)>>)
    requires |bs| > 0 && forall i :: 0 <= i < |bs| ==> bs[i] == []
    ensures Wf(bs, map[])
  {
    TotalLenZero(bs);
  }

  /** Overwriting the data of the entry keyed `k` is an update of `m` at `k`. */
  lemma WfOverwrite<D>(bs: seq<seq<(nat, D)>>, m: map<nat, D>, k: nat, i: nat, d: D)
    requires Wf(bs, m)
    requires i < |bs[k % |bs|]| && bs[k % |bs|][i].0 == k
    ensures k in m
    ensures Wf(bs[k % |bs| := bs[k % |bs|][i := (k, d)]], m[k := d])
  {
    var b := k % |bs|;
    var bs': seq<seq<(nat, D)>> := bs[b := bs[b][i := (k, d)]];
    TotalLenUpdate(bs, b, bs[b][i := (k, d)]);
    forall k' | k' in m[k := d] ensures HasKey(bs'[k' % |bs'|], k') {
      if k' == k {
        assert bs'[b][i].0 == k;
      } else {
        var j :| 0 <= j < |bs[k' % |bs|]| && bs[k' % |bs|][j].0 == k';
        assert bs'[k' % |bs'|][j].0 == k';
      }
    }
  }

  /** Appending a fresh key to its bucket is an insertion into `m`. */
  lemma WfAppend<D>(bs: seq<seq<(nat, D)>>, m: map<nat, D>, k: nat, d: D)
    requires Wf(bs, m) && k !in m
    ensures Wf(bs[k % |bs| := bs[k % |bs|] + [(k, d)]], m[k := d])
    ensures |m[k := d]| == |m| + 1
  {
    var b := k % |bs|;
    var bs': seq<seq<(nat, D)>> := bs[b := bs[b] + [(k, d)]];
    TotalLenUpdate(bs, b, bs[b] + [(k, d)]);
    forall k' | k' in m[k := d] ensures HasKey(bs'[k' % |bs'|], k') {
      if k' == k {
        assert bs'[b][|bs[b]|].0 == k;
      } else {
        var j :| 0 <= j < |bs[k' % |bs|]| && bs[k' % |bs|][j].0 == k';
        assert bs'[k' % |bs'|][j].0 == k';
      }
    }
  }

  /** Index arithmetic of `vector::erase` at position `i`. */
  lemma EraseAt<T>(s: seq<T>, i: nat)
    requires i < |s|
    ensures |s[..i] + s[i + 1..]| == |s| - 1
    ensures forall j :: 0 <= j < i ==> (s[..i] + s[i + 1..])[j] == s[j]
    ensures forall j :: i < j < |s| ==> (s[..i] + s[i + 1..])[j - 1] == s[j]
  {
  }

  /** Erasing the entry keyed `k` removes `k` from `m`. */
  lemma WfErase<D>(bs: seq<seq<(nat, D)>>, m: map<nat, D>, k: nat, i: nat)
    requires Wf(bs, m)
    requires i < |bs[k % |bs|]| && bs[k % |bs|][i].0 == k
    ensures k in m
    ensures Wf(bs[k % |bs| := bs[k % |bs|][..i] + bs[k % |bs|][i + 1..]], m - {k})
    ensures |m - {k}| == |m| - 1
  {
    var b := k % |bs|;
    var rest: seq<(nat, D)> := bs[b][..i] + bs[b][i + 1..];
    var bs': seq<seq<(nat, D)>> := bs[b := rest];
    var m' := m - {k};
    TotalLenUpdate(bs, b, rest);
    EraseAt(bs[b], i);
    assert m'.Keys == m.Keys - {k};
    ErasePlaced(bs, b, i);
    EraseDistinct(bs, b, i);
    EraseSound(bs, m, k, i);
    assert Complete(bs', m') by {
      forall k' | k' in m' ensures HasKey(bs'[k' % |bs'|], k') {
        if k' % |bs| == b {
          HasKeyAfterErase(bs[b], i, k');
        }
      }
    }
  }

  lemma ErasePlaced<D>(bs: seq<seq<(nat, D)>>, b: nat, i: nat)
    requires Placed(bs) && b < |bs| && i < |bs[b]|
    ensures Placed(bs[b := bs[b][..i] + bs[b][i + 1..]])
  {
    EraseAt(bs[b], i);
  }

  lemma EraseDistinct<D>(bs: seq<seq<(nat, D)>>, b: nat, i: nat)
    requires DistinctKeys(bs) && b < |bs| && i < |bs[b]|
    ensures DistinctKeys(bs[b := bs[b][..i] + bs[b][i + 1..]])
  {
    var rest := bs[b][..i] + bs[b][i + 1..];
    EraseAt(bs[b], i);
    forall j1, j2 | 0 <= j1 < j2 < |rest| ensures rest[j1].0 != rest[j2].0 {
      var o1 := if j1 < i then j1 else j1 + 1;
      var o2 := if j2 < i then j2 else j2 + 1;
      assert rest[j1] == bs[b][o1] && rest[j2] == bs[b][o2];
    }
  }

  lemma EraseSound<D>(bs: seq<seq<(nat, D)>>, m: map<nat, D>, k: nat, i: nat)
    requires |bs| > 0 && Sound(bs, m) && DistinctKeys(bs) && Placed(bs)
    requires i < |bs[k % |bs|]| && bs[k % |bs|][i].0 == k
    ensures Sound(bs[k % |bs| := bs[k % |bs|][..i] + bs[k % |bs|][i + 1..]], m - {k})
  {
    var b := k % |bs|;
    var rest := bs[b][..i] + bs[b][i + 1..];
    EraseAt(bs[b], i);
    forall j | 0 <= j < |rest| ensures rest[j].0 in m - {k} && (m - {k})[rest[j].0] == rest[j].1 {
      var o := if j < i then j else j + 1;
      assert rest[j] == bs[b][o];
      assert bs[b][o].0 != bs[b][i].0;
    }
  }

  /** A full scan of bucket k % |bs| that meets no key `k` proves `k` absent. */
  lemma WfMiss<D>(bs: seq<seq<(nat, D)>>, m: map<nat, D>, k: nat)
    requires Wf(bs, m)
    requires forall j :: 0 <= j < |bs[k % |bs|]| ==> bs[k % |bs|][j].0 != k
    ensures k !in m
  {
  }

  /** An entry met in a bucket is an entry of `m`. */
  lemma WfHit<D>(bs: seq<seq<(nat, D)>>, m: map<nat, D>, b: nat, j: nat)
    requires Wf(bs, m)
    requires b < |bs| && j < |bs[b]|
    ensures bs[b][j].0 in m && m[bs[b][j].0] == bs[b][j].1
  {
  }

  /** `HashMap<HashKey, HashData>`: an array of buckets of (key, data) pairs.
      `M` is the abstract dictionary the buckets represent. */
  class HashMap<D> {
    var buckets: array<seq<(nat, D)>>
    ghost var M: map<nat, D>

    ghost predicate Valid()
      reads this, buckets
    {
      Wf(buckets[..], M)
    }

    constructor (b: nat)
      requires b > 0
      ensures Valid() && fresh(buckets)
      ensures buckets.Length == b && M == map[]
    {
      buckets := new seq<(nat, D)>[b](_ => []);
      M := map[];
      new;
      WfEmpty(buckets[..]);
    }

    /** `init(b)`: discard the old buckets and start with `b` empty ones. */
    method Init(b: nat)
      requires b > 0
      modifies this
      ensures Valid() && fresh(buckets)
      ensures buckets.Length == b && M == map[]
    {
      buckets := new seq<(nat, D)>[b](_ => []);
      M := map[];
      WfEmpty(buckets[..]);
    }

    function NumBuckets(): nat
      reads this
    {
      buckets.Length
    }

    /** `bucketNum(k)`: the bucket a key belongs to. */
    function BucketNum(k: nat): (b: nat)
      reads this
      requires buckets.Length > 0
      ensures b < buckets.Length && b == k % buckets.Length
    {
      k % buckets.Length
    }

    /** `clear()`: empties every bucket and keeps the number of buckets. */
    method Clear()
      requires Valid()
      modifies this, buckets
      ensures Valid() && buckets == old(buckets)
      ensures M == map[]
    {
      var i := 0;
      while i < buckets.Length
        invariant 0 <= i <= buckets.Length && buckets == old(buckets)
        invariant forall j :: 0 <= j < i ==> buckets[j] == []
      {
        buckets[i] := [];
        i := i + 1;
      }
      M := map[];
      assert forall j :: 0 <= j < |buckets[..]| ==> buckets[..][j] == [];
      WfEmpty(buckets[..]);
    }

    /** `empty()`: true exactly when the map holds no entry. */
    method Empty() returns (r: bool)
      requires Valid()
      ensures r <==> M == map[]
    {
      TotalLenZero(buckets[..]);
      var i := 0;
      while i < buckets.Length
        invariant 0 <= i <= buckets.Length
        invariant forall j :: 0 <= j < i ==> buckets[j] == []
      {
        if buckets[i] != [] {
          assert buckets[..][i] != [];
          return false;
        }
        i := i + 1;
      }
      assert forall j :: 0 <= j < |buckets[..]| ==> buckets[..][j] == [];
      return true;
    }

    /** `size()`: the number of entries, summed over the buckets. */
    method Size() returns (s: nat)
      requires Valid()
      ensures s == |M| && s == TotalLen(buckets[..])
    {
      s := 0;
      var i := 0;
      while i < buckets.Length
        invariant 0 <= i <= buckets.Length
        invariant s == TotalLen(buckets[..i])
      {
        assert buckets[..i + 1][..i] == buckets[..i];
        s := s + |buckets[i]|;
        i := i + 1;
      }
      assert buckets[..i] == buckets[..];
    }

    /** `check(k)`: is some entry of bucket k % numBuckets keyed `k`? */
    method Check(k: nat) returns (r: bool)
      requires Valid()
      ensures r <==> k in M
    {
      var bucket := buckets[BucketNum(k)];
      var i := 0;
      while i < |bucket|
        invariant 0 <= i <= |bucket|
        invariant forall j :: 0 <= j < i ==> bucket[j].0 != k
      {
        if bucket[i].0 == k {
          WfHit(buckets[..], M, BucketNum(k), i);
          return true;
        }
        i := i + 1;
      }
      WfMiss(buckets[..], M, k);
      return false;
    }

    /** `query(k, d)`: on a hit, the stored data replaces `d`; on a miss `d` is kept. */
    method Query(k: nat, d: D) returns (found: bool, d': D)
      requires Valid()
      ensures found <==> k in M
      ensures d' == if found then M[k] else d
    {
      var bucket := buckets[BucketNum(k)];
      var i := 0;
      while i < |bucket|
        invariant 0 <= i <= |bucket|
        invariant forall j :: 0 <= j < i ==> bucket[j].0 != k
      {
        if bucket[i].0 == k {
          WfHit(buckets[..], M, BucketNum(k), i);
          return true, bucket[i].1;
        }
        i := i + 1;
      }
      WfMiss(buckets[..], M, k);
      return false, d;
    }

    /** `update(k, d)`: overwrite the data of an existing key (true), or append a new entry (false). */
    method Update(k: nat, d: D) returns (existed: bool)
      requires Valid()
      modifies this, buckets
      ensures Valid() && buckets == old(buckets)
      ensures existed <==> k in old(M)
      ensures M == old(M)[k := d]
      ensures |M| == if existed then old(|M|) else old(|M|) + 1
    {
      var num := BucketNum(k);
      var bucket := buckets[num];
      var i := 0;
      while i < |bucket|
        invariant 0 <= i <= |bucket|
        invariant forall j :: 0 <= j < i ==> bucket[j].0 != k
      {
        if bucket[i].0 == k {
          WfOverwrite(buckets[..], M, k, i, d);
          buckets[num] := bucket[i := (k, d)];
          M := M[k := d];
          return true;
        }
        i := i + 1;
      }
      WfMiss(buckets[..], M, k);
      WfAppend(buckets[..], M, k, d);
      buckets[num] := bucket + [(k, d)];
      M := M[k := d];
      return false;
    }

    /** `insert(k, d)`: refuse an existing key, otherwise append the entry. */
    method Insert(k: nat, d: D) returns (inserted: bool)
      requires Valid()
      modifies this, buckets
      ensures Valid() && buckets == old(buckets)
      ensures inserted <==> k !in old(M)
      ensures M == if inserted then old(M)[k := d] else old(M)
      ensures !inserted ==> buckets[..] == old(buckets[..])
      ensures |M| == if inserted then old(|M|) + 1 else old(|M|)
    {
      var present := Check(k);
      if present {
        return false;
      }
      var num := BucketNum(k);
      var bucket := buckets[num];
      WfAppend(buckets[..], M, k, d);
      buckets[num] := bucket + [(k, d)];
      M := M[k := d];
      return true;
    }

    /** `remove(k)`: erase the entry keyed `k`, if there is one. */
    method Remove(k: nat) returns (removed: bool)
      requires Valid()
      modifies this, buckets
      ensures Valid() && buckets == old(buckets)
      ensures removed <==> k in old(M)
      ensures M == old(M) - {k}
      ensures !removed ==> buckets[..] == old(buckets[..])
      ensures |M| == if removed then old(|M|) - 1 else old(|M|)
    {
      var num := BucketNum(k);
      var bucket := buckets[num];
      var i := 0;
      while i < |bucket|
        invariant 0 <= i <= |bucket|
        invariant forall j :: 0 <= j < i ==> bucket[j].0 != k
      {
        if bucket[i].0 == k {
          WfErase(buckets[..], M, k, i);
          buckets[num] := bucket[..i] + bucket[i + 1..];
          M := M - {k};
          return true;
        }
        i := i + 1;
      }
      WfMiss(buckets[..], M, k);
      assert M - {k} == M;
      return false;
    }
  }

  /** `Cache<CacheKey, CacheData>`: one (key, data) slot per `k % size`. */
  class Cache<D> {
    var slots: array<(nat, D)>

    ghost predicate Valid()
      reads this
    {
      slots.Length > 0
    }

    /** `Cache(s)`: `init(s)` on a new cache.  `d0` is the default `CacheData()`. */
    constructor (s: nat, d0: D)
      requires s > 0
      ensures Valid() && fresh(slots) && slots.Length == s
      ensures forall i :: 0 <= i < s ==> slots[i] == (0, d0)
      ensures forall k: nat :: Lookup(k) == if k == 0 then Some(d0) else None
    {
      slots := new (nat, D)[s](_ => (0, d0));
    }

    /** `init(s)`: a fresh array of `s` default-constructed slots, each holding the
        key `0` and the default data `d0`; so a read of key 0 hits at once and
        every other key misses. */
    method Init(s: nat, d0: D)
      requires s > 0
      modifies this
      ensures Valid() && fresh(slots) && slots.Length == s
      ensures forall i :: 0 <= i < s ==> slots[i] == (0, d0)
      ensures forall k: nat :: Lookup(k) == if k == 0 then Some(d0) else None
    {
      slots := new (nat, D)[s](_ => (0, d0));
    }

    function Size(): nat
      reads this
    {
      slots.Length
    }

    /** What a read of `k` would find. */
    ghost function Lookup(k: nat): Option<D>
      reads this, slots
      requires Valid()
    {
      var slot := slots[k % slots.Length];
      if slot.0 == k then Some(slot.1) else None
    }

    /** `read(k, d)`: a hit copies the slot's data into `d`; a miss keeps `d`. */
    method Read(k: nat, d: D) returns (hit: bool, d': D)
      requires Valid()
      ensures hit <==> Lookup(k).Some?
      ensures d' == if hit then Lookup(k).value else d
    {
      var i := k % slots.Length;
      if k == slots[i].0 {
        return true, slots[i].1;
      }
      return false, d;
    }

    /** `write(k, d)`: overwrite slot `k % size` and nothing else. */
    method Write(k: nat, d: D)
      requires Valid()
      modifies slots
      ensures slots[..] == old(slots[..])[k % slots.Length := (k, d)]
      ensures Lookup(k) == Some(d)
      ensures forall k': nat :: k' % slots.Length != k % slots.Length ==> Lookup(k') == old(Lookup(k'))
    {
      var i := k % slots.Length;
      slots[i] := (k, d);
    }
  }
}
