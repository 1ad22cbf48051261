/** The vector operations the circuit code leans on: find-first, `erase` of the
    first match, and `::sort` (a library call, modelled as insertion sort on
    values, whose result is the unique sorted permutation for a key that tells
    the elements apart). */
module Lists {

  predicate NoDup<T(==)>(s: seq<T>)
  {
    forall i, j :: 0 <= i < j < |s| ==> s[i] != s[j]
  }

  /** Without duplicates, every element occurs once. */
  lemma {:induction false} NoDupCount<T>(s: seq<T>, x: T)
    requires NoDup(s)
    ensures multiset(s)[x] == if x in s then 1 else 0
  {
    if s != [] {
      assert s == [s[0]] + s[1..];
      assert NoDup(s[1..]);
      NoDupCount(s[1..], x);
      assert s[0] !in s[1..];
    }
  }

  /** A sequence whose multiset has no element twice has no duplicates. */
  lemma {:induction false} CountNoDup<T>(s: seq<T>)
    requires forall x :: multiset(s)[x] <= 1
    ensures NoDup(s)
  {
    forall i, j | 0 <= i < j < |s| ensures s[i] != s[j] {
      var x := s[i];
      assert s == s[..i] + [s[i]] + s[i + 1..j] + [s[j]] + s[j + 1..];
      assert multiset(s)[x] >= multiset([s[i]])[x] + multiset([s[j]])[x];
    }
  }

  ghost predicate SortedBy<T>(s: seq<T>, key: T -> int)
  {
    forall i, j :: 0 <= i < j < |s| ==> key(s[i]) <= key(s[j])
  }

  /** One step of insertion sort. */
  function InsertBy<T>(x: T, s: seq<T>, key: T -> int): (r: seq<T>)
    requires SortedBy(s, key)
    ensures SortedBy(r, key)
    ensures multiset(r) == multiset(s) + multiset{x}
    ensures |r| == |s| + 1
  {
    if s == [] then [x]
    else if key(x) <= key(s[0]) then [x] + s
    else
      var t := InsertBy(x, s[1..], key);
      HeadBelow(x, s, t, key);
      ConsSorted(s[0], t, key);
      assert s == [s[0]] + s[1..];
      assert multiset([s[0]] + t) == multiset{s[0]} + multiset(t);
      [s[0]] + t
  }

  /** Every element of `t`, a permutation of the tail of sorted `s` plus an element
      whose key exceeds the head's, has a key no smaller than the head's. */
  lemma HeadBelow<T>(x: T, s: seq<T>, t: seq<T>, key: T -> int)
    requires SortedBy(s, key) && s != [] && key(s[0]) < key(x)
    requires multiset(t) == multiset(s[1..]) + multiset{x}
    ensures forall k :: 0 <= k < |t| ==> key(s[0]) <= key(t[k])
  {
    forall k | 0 <= k < |t| ensures key(s[0]) <= key(t[k]) {
      var y := t[k];
      assert y in multiset(t);
      if y != x {
        assert y in multiset(s[1..]);
        var j :| 0 <= j < |s[1..]| && s[1..][j] == y;
        assert s[j + 1] == y;
      }
    }
  }

  /** A sorted sequence stays sorted under a head no greater than any of its keys. */
  lemma ConsSorted<T>(h: T, t: seq<T>, key: T -> int)
    requires SortedBy(t, key)
    requires forall k :: 0 <= k < |t| ==> key(h) <= key(t[k])
    ensures SortedBy([h] + t, key)
  {
    var r := [h] + t;
    forall i, j | 0 <= i < j < |r| ensures key(r[i]) <= key(r[j]) {
      assert r[j] == t[j - 1];
      if i > 0 {
        assert r[i] == t[i - 1];
      }
    }
  }

  /** `::sort`: the sorted permutation of `s`. */
  function SortBy<T>(s: seq<T>, key: T -> int): (r: seq<T>)
    ensures SortedBy(r, key)
    ensures multiset(r) == multiset(s)
    ensures |r| == |s|
  {
    if s == [] then []
    else
      assert s == s[..|s| - 1] + [s[|s| - 1]];
      InsertBy(s[|s| - 1], SortBy(s[..|s| - 1], key), key)
  }

  /** Index of the first element equal to `p`, or |s| when there is none. */
  function IndexOf<T(==)>(s: seq<T>, p: T): (i: nat)
    ensures i <= |s|
    ensures i < |s| ==> s[i] == p
    ensures forall j :: 0 <= j < i ==> s[j] != p
    ensures i == |s| <==> p !in s
  {
    if s == [] then 0
    else if s[0] == p then 0
    else 1 + IndexOf(s[1..], p)
  }

  /** `erase` of the first element equal to `p`; nothing when there is none. */
  function DelFirst<T(==)>(s: seq<T>, p: T): (r: seq<T>)
  {
    var i := IndexOf(s, p);
    if i == |s| then s else s[..i] + s[i + 1..]
  }

  /** Removing one element: its count drops by one, every other count stays. */
  lemma DelFirstCounts<T>(s: seq<T>, p: T)
    ensures p !in s ==> DelFirst(s, p) == s
    ensures p in s ==> multiset(DelFirst(s, p)) == multiset(s) - multiset{p}
    ensures p in s ==> |DelFirst(s, p)| == |s| - 1
  {
    var i := IndexOf(s, p);
    if i < |s| {
      assert s == s[..i] + [s[i]] + s[i + 1..];
    }
  }

  /** On a list without duplicates, erasing `p` removes exactly `p`. */
  lemma DelFirstNoDup<T>(s: seq<T>, p: T)
    requires NoDup(s)
    ensures NoDup(DelFirst(s, p))
    ensures forall q :: q in DelFirst(s, p) <==> q in s && q != p
  {
    DelFirstCounts(s, p);
    var r := DelFirst(s, p);
    forall x ensures multiset(r)[x] <= 1 {
      NoDupCount(s, x);
    }
    CountNoDup(r);
    forall q ensures q in r <==> q in s && q != p {
      NoDupCount(s, q);
      assert q in r <==> multiset(r)[q] > 0;
      assert q in s <==> multiset(s)[q] > 0;
    }
  }

  /** Membership after erasing `p`, with or without duplicates. */
  lemma DelFirstIn<T>(s: seq<T>, p: T, q: T)
    ensures q in DelFirst(s, p) ==> q in s
    ensures q in s && q != p ==> q in DelFirst(s, p)
  {
    DelFirstCounts(s, p);
    assert q in DelFirst(s, p) <==> multiset(DelFirst(s, p))[q] > 0;
    assert q in s <==> multiset(s)[q] > 0;
  }

  /** The first element equal to `from` becomes `to`, or is erased when `from == to`. */
  function ChangeFirst<T(==)>(s: seq<T>, from: T, to: T): (r: seq<T>)
  {
    var i := IndexOf(s, from);
    if i == |s| then s
    else if from == to then s[..i] + s[i + 1..]
    else s[i := to]
  }

  /** Only the first `from` is touched: when `from != to`, `to` is then present and the
      other positions keep their elements. */
  lemma ChangeFirstEffect<T>(s: seq<T>, from: T, to: T)
    ensures from !in s ==> ChangeFirst(s, from, to) == s
    ensures from in s && from != to ==>
      var i := IndexOf(s, from);
      && |ChangeFirst(s, from, to)| == |s|
      && ChangeFirst(s, from, to)[i] == to
      && (forall j :: 0 <= j < |s| && j != i ==> ChangeFirst(s, from, to)[j] == s[j])
    ensures from in s && from == to ==> ChangeFirst(s, from, to) == DelFirst(s, from)
  {
  }

  /** Any element other than `from` that was present stays present. */
  lemma ChangeFirstKeeps<T>(s: seq<T>, from: T, to: T, q: T)
    requires q in s && q != from
    ensures q in ChangeFirst(s, from, to)
  {
    var i := IndexOf(s, from);
    if i < |s| {
      var j :| 0 <= j < |s| && s[j] == q;
      assert j != i;
      if from == to {
        if j < i { assert (s[..i] + s[i + 1..])[j] == q; }
        else { assert (s[..i] + s[i + 1..])[j - 1] == q; }
      } else {
        assert s[i := to][j] == q;
      }
    }
  }

  /** Whatever is present afterwards was present before, or is `to`. */
  lemma ChangeFirstFrom<T>(s: seq<T>, from: T, to: T, q: T)
    requires q in ChangeFirst(s, from, to)
    ensures q in s || q == to
  {
    var i := IndexOf(s, from);
    if i < |s| {
      if from == to {
        var a, b := s[..i], s[i + 1..];
        assert ChangeFirst(s, from, to) == a + b;
        assert q in a || q in b;
      } else {
        var r := s[i := to];
        assert ChangeFirst(s, from, to) == r;
        var j :| 0 <= j < |r| && r[j] == q;
        if j != i {
          assert s[j] == q;
        }
      }
    }
  }
}
