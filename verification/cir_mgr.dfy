/** The circuit manager `CirMgr`: the gate table, the id lists kept beside it, and
    the passes that maintain them (removal, merging, sweeping, structural hashing,
    list rebuilding), with circuit construction from tokenised AAG records and
    record generation for writing. */
module Cir {
  import opened Lists
  import opened CirGate
  import opened Topology
  import opened HashMapModel
  import opened Build
  import Sim

  /** The manager's fields, as one value. */
  datatype State = State(
    gateList: Net,
    symbolList: map<nat, string>,
    fecList: seq<seq<nat>>,
    M: nat, I: nat, L: nat, O: nat, A: nat,
    piList: seq<nat>, poList: seq<nat>, aigList: seq<nat>,
    floatingList: seq<nat>, unUsedList: seq<nat>)

  /** `_A` counts the entries of `_AigList`. */
  predicate Counted(s: State)
  {
    s.A == |s.aigList|
  }

  /** The order `::sort` puts an id list in. */
  function IdKey(x: nat): int
  {
    x
  }

  // ---------------------------------------------------------------------------
  // The unused and floating lists

  /** The ids of `ids`, in order, whose gate exists and has an empty fanout. */
  function UnusedIds(net: Net, ids: seq<nat>): seq<nat>
    decreases |ids|
  {
    if ids == [] then []
    else
      var x := ids[|ids| - 1];
      UnusedIds(net, ids[..|ids| - 1]) + (if x in net && UnUsed(net[x]) then [x] else [])
  }

  /** The ids of `ids`, in order, whose gate exists and has a floating fanin. */
  function FloatingIds(net: Net, ids: seq<nat>): seq<nat>
    decreases |ids|
  {
    if ids == [] then []
    else
      var x := ids[|ids| - 1];
      FloatingIds(net, ids[..|ids| - 1]) + (if x in net && HasFloat(net[x]) then [x] else [])
  }

  lemma {:induction false} UnusedIdsMembers(net: Net, ids: seq<nat>)
    ensures forall x :: x in UnusedIds(net, ids) <==> x in ids && x in net && UnUsed(net[x])
    decreases |ids|
  {
    if ids != [] {
      var ids' := ids[..|ids| - 1];
      assert ids == ids' + [ids[|ids| - 1]];
      UnusedIdsMembers(net, ids');
    }
  }

  lemma {:induction false} FloatingIdsMembers(net: Net, ids: seq<nat>)
    ensures forall x :: x in FloatingIds(net, ids) <==> x in ids && x in net && HasFloat(net[x])
    decreases |ids|
  {
    if ids != [] {
      var ids' := ids[..|ids| - 1];
      assert ids == ids' + [ids[|ids| - 1]];
      FloatingIdsMembers(net, ids');
    }
  }

  /** `setUnUsedList(AigOnly)`: unused PIs (unless `aigOnly`) and unused AIGs are
      appended, then the whole list is sorted. */
  function WithUnused(s: State, aigOnly: bool): State
  {
    var pis: seq<nat> := if aigOnly then [] else UnusedIds(s.gateList, s.piList);
    s.(unUsedList := SortBy(s.unUsedList + pis + UnusedIds(s.gateList, s.aigList), IdKey))
  }

  /** `setFloatingList(AigOnly)`: AIGs with a floating fanin, then (unless `aigOnly`)
      such POs, are appended, then the whole list is sorted. */
  function WithFloating(s: State, aigOnly: bool): State
  {
    var pos: seq<nat> := if aigOnly then [] else FloatingIds(s.gateList, s.poList);
    s.(floatingList := SortBy(s.floatingList + FloatingIds(s.gateList, s.aigList) + pos, IdKey))
  }

  /** Both lists rebuilt from empty, as at the end of `sweep`: nothing else changes. */
  lemma RebuiltLists(s: State)
    ensures var r := WithFloating(WithUnused(s.(unUsedList := []), false).(floatingList := []), false);
      && r == s.(unUsedList := r.unUsedList, floatingList := r.floatingList)
      && r.unUsedList == SortBy(UnusedIds(s.gateList, s.piList) + UnusedIds(s.gateList, s.aigList), IdKey)
      && r.floatingList == SortBy(FloatingIds(s.gateList, s.aigList) + FloatingIds(s.gateList, s.poList), IdKey)
  {
    assert [] + UnusedIds(s.gateList, s.piList) == UnusedIds(s.gateList, s.piList);
    assert [] + FloatingIds(s.gateList, s.aigList) == FloatingIds(s.gateList, s.aigList);
  }

  /** The unused list afterwards is sorted, keeps what it held, and gains exactly the
      unused PIs (unless `aigOnly`) and unused AIGs; nothing else changes. */
  lemma WithUnusedEffect(s: State, aigOnly: bool)
    ensures var r := WithUnused(s, aigOnly);
      && r == s.(unUsedList := r.unUsedList)
      && SortedBy(r.unUsedList, IdKey)
      && forall x :: x in r.unUsedList <==>
           x in s.unUsedList
           || (x in s.gateList && UnUsed(s.gateList[x]) && (x in s.aigList || (!aigOnly && x in s.piList)))
  {
    var net := s.gateList;
    UnusedIdsMembers(net, s.piList);
    UnusedIdsMembers(net, s.aigList);
    var pis: seq<nat> := if aigOnly then [] else UnusedIds(net, s.piList);
    var all: seq<nat> := s.unUsedList + pis + UnusedIds(net, s.aigList);
    var r := SortBy(all, IdKey);
    forall x ensures x in r <==> x in all {
      assert x in r <==> multiset(r)[x] > 0;
      assert x in all <==> multiset(all)[x] > 0;
    }
  }

  /** The floating list afterwards is sorted, keeps what it held, and gains exactly the
      AIGs (and, unless `aigOnly`, the POs) with a floating fanin; nothing else changes. */
  lemma WithFloatingEffect(s: State, aigOnly: bool)
    ensures var r := WithFloating(s, aigOnly);
      && r == s.(floatingList := r.floatingList)
      && SortedBy(r.floatingList, IdKey)
      && forall x :: x in r.floatingList <==>
           x in s.floatingList
           || (x in s.gateList && HasFloat(s.gateList[x]) && (x in s.aigList || (!aigOnly && x in s.poList)))
  {
    var net := s.gateList;
    FloatingIdsMembers(net, s.poList);
    FloatingIdsMembers(net, s.aigList);
    var pos: seq<nat> := if aigOnly then [] else FloatingIds(net, s.poList);
    var all: seq<nat> := s.floatingList + FloatingIds(net, s.aigList) + pos;
    var r := SortBy(all, IdKey);
    forall x ensures x in r <==> x in all {
      assert x in r <==> multiset(r)[x] > 0;
      assert x in all <==> multiset(all)[x] > 0;
    }
  }

  /** One loop of `setUnUsedList`: each listed gate with an empty fanout is pushed
      onto `list`. */
  method AppendUnused(net: Net, ids: seq<nat>, list: seq<nat>) returns (r: seq<nat>)
    ensures r == list + UnusedIds(net, ids)
  {
    r := list;
    var i := 0;
    while i < |ids|
      invariant 0 <= i <= |ids|
      invariant r == list + UnusedIds(net, ids[..i])
    {
      assert ids[..i + 1][..i] == ids[..i];
      var x := ids[i];
      if x in net && UnUsed(net[x]) {
        r := r + [x];
      }
      i := i + 1;
    }
    assert ids[..i] == ids;
  }

  /** One loop of `setFloatingList`: each listed gate with a floating fanin is pushed
      onto `list`. */
  method AppendFloating(net: Net, ids: seq<nat>, list: seq<nat>) returns (r: seq<nat>)
    ensures r == list + FloatingIds(net, ids)
  {
    r := list;
    var i := 0;
    while i < |ids|
      invariant 0 <= i <= |ids|
      invariant r == list + FloatingIds(net, ids[..i])
    {
      assert ids[..i + 1][..i] == ids[..i];
      var x := ids[i];
      if x in net {
        var b := Floating(net[x]);
        if b {
          r := r + [x];
        }
      }
      i := i + 1;
    }
    assert ids[..i] == ids;
  }

  // ---------------------------------------------------------------------------
  // Removing and merging gates

  /** `removeFromAigList(id)`: the first occurrence of `id` is erased and `_A` drops by
      one; without an occurrence nothing changes. */
  function Unlisted(s: State, id: nat): (r: State)
    requires Counted(s)
  {
    if id in s.aigList then s.(aigList := DelFirst(s.aigList, id), A := s.A - 1) else s
  }

  /** `freeGate(id)`: the gate leaves `_AigList` and the gate table. */
  function Freed(s: State, id: nat): State
    requires Counted(s)
  {
    Unlisted(s, id).(gateList := s.gateList - {id})
  }

  /** `removeFromAigList` keeps `_A` equal to the list's length and removes one
      occurrence of `id` exactly when there is one. */
  lemma UnlistedEffect(s: State, id: nat)
    requires Counted(s)
    ensures Counted(Unlisted(s, id))
    ensures Unlisted(s, id) == s.(aigList := Unlisted(s, id).aigList, A := Unlisted(s, id).A)
    ensures multiset(Unlisted(s, id).aigList) == multiset(s.aigList) - multiset{id}
    ensures Unlisted(s, id).A == if id in s.aigList then s.A - 1 else s.A
  {
    DelFirstCounts(s.aigList, id);
    if id !in s.aigList {
      assert multiset(s.aigList)[id] == 0;
    }
  }

  /** `removeGate(id)`: refused for a missing gate or one that is not an AIG;
      otherwise the gate is detached from its children (`clearFanin`) and freed. */
  function Removed(s: State, id: nat): (bool, State)
    requires Counted(s)
  {
    if id !in s.gateList || s.gateList[id].kind != Aig then (false, s)
    else
      var net := ClearSteps(s.gateList, id, s.gateList[id].fanin);
      (true, Freed(s.(gateList := net), id))
  }

  /** A refused removal changes nothing; a successful one drops exactly gate `id` from
      the table, changes only fanout lists of the other gates, and keeps `_A` counting
      `_AigList`. */
  lemma RemovedEffect(s: State, id: nat)
    requires Counted(s)
    ensures Removed(s, id).0 <==> id in s.gateList && s.gateList[id].kind == Aig
    ensures !Removed(s, id).0 ==> Removed(s, id).1 == s
    ensures Counted(Removed(s, id).1)
    ensures Removed(s, id).0 ==>
      var r := Removed(s, id).1;
      && r.gateList.Keys == s.gateList.Keys - {id}
      && |r.gateList.Keys| == |s.gateList.Keys| - 1
      && (forall x :: x in r.gateList ==> r.gateList[x] == s.gateList[x].(fanout := r.gateList[x].fanout))
  {
    if id in s.gateList && s.gateList[id].kind == Aig {
      var net := ClearSteps(s.gateList, id, s.gateList[id].fanin);
      UnlistedEffect(s.(gateList := net), id);
      ClearStepsFanins(s.gateList, id, s.gateList[id].fanin);
    }
  }

  /** `clearFanin` changes fanout lists only. */
  lemma {:induction false} ClearStepsFanins(net: Net, me: nat, fi: seq<Edge>)
    ensures SameFanins(net, ClearSteps(net, me, fi))
    decreases |fi|
  {
    if fi != [] {
      ClearStepsFanins(net, me, fi[..|fi| - 1]);
    }
  }

  /** On a table without duplicate fanout entries, `removeGate` only shrinks fanout
      lists: a remaining gate keeps its kind, and an unused one stays unused. */
  lemma RemovedShrinks(s: State, id: nat)
    requires Counted(s) && FanoutsNoDup(s.gateList)
    ensures var r := Removed(s, id).1.gateList;
      forall x :: x in r ==> (x in s.gateList && r[x].kind == s.gateList[x].kind &&
        (UnUsed(s.gateList[x]) ==> UnUsed(r[x])))
  {
    if id in s.gateList && s.gateList[id].kind == Aig {
      var net := s.gateList;
      var fi := net[id].fanin;
      ClearStepsEffect(net, id, fi);
      var n := ClearSteps(net, id, fi);
      var r := Removed(s, id).1.gateList;
      forall x | x in r ensures x in net && r[x].kind == net[x].kind && (UnUsed(net[x]) ==> UnUsed(r[x])) {
        assert r[x] == n[x];
        if UnUsed(net[x]) && r[x].fanout != [] {
          DetachedAt(net, n, id, fi, x, r[x].fanout[0]);
        }
      }
    }
  }

  /** Removing an unused AIG from a consistent table leaves it consistent. */
  lemma RemovedConsistent(s: State, id: nat)
    requires Counted(s) && Consistent(s.gateList)
    requires id in s.gateList ==> UnUsed(s.gateList[id])
    ensures Consistent(Removed(s, id).1.gateList)
  {
    if id in s.gateList && s.gateList[id].kind == Aig {
      RemoveUnusedKeepsConsistent(s.gateList, id);
    }
  }

  /** `mergeGate(from, to)` on two gates: refused when they are the same gate;
      otherwise `from` is merged into `to` and freed. */
  function MergedGate(s: State, from: nat, to: nat): (bool, State)
    requires Counted(s) && from in s.gateList && to in s.gateList
  {
    if from == to then (false, s)
    else (true, Freed(s.(gateList := Merged(s.gateList, from, to, true)), from))
  }

  /** `mergeGate(idfrom, idto)` as written: refused only when an id is missing, then
      `mergeInto` as written and `freeGate`, even when the two ids are equal. */
  function MergedByIdAsWritten(s: State, from: nat, to: nat): (bool, State)
    requires Counted(s)
  {
    if from !in s.gateList || to !in s.gateList then (false, s)
    else (true, Freed(s.(gateList := Merged(s.gateList, from, to, false)), from))
  }

  /** `mergeGate(idfrom, idto)` with the refusal of a self-merge that the gate-pointer
      overload makes. */
  function MergedById(s: State, from: nat, to: nat): (bool, State)
    requires Counted(s)
  {
    if from !in s.gateList || to !in s.gateList then (false, s)
    else MergedGate(s, from, to)
  }

  /** A self-merge or a missing gate is refused and changes nothing.  A successful merge
      removes `from` from the table, keeps `to`, and on a consistent table leaves no
      gate with a live fanin into `from`. */
  lemma MergedGateEffect(s: State, from: nat, to: nat)
    requires Counted(s)
    ensures !MergedById(s, from, to).0 ==> MergedById(s, from, to).1 == s
    ensures MergedById(s, from, to).0 <==> from in s.gateList && to in s.gateList && from != to
    ensures Counted(MergedById(s, from, to).1)
    ensures MergedById(s, from, to).0 ==>
      var r := MergedById(s, from, to).1.gateList;
      && r.Keys == s.gateList.Keys - {from}
      && (Consistent(s.gateList) ==> forall x, e :: x in r && e in r[x].fanin ==> !(e.Live? && e.id == from))
  {
    if from in s.gateList && to in s.gateList && from != to {
      var net := Merged(s.gateList, from, to, true);
      UnlistedEffect(s.(gateList := net), from);
      if Consistent(s.gateList) {
        MergedLeavesNoEdgeToMe(s.gateList, from, to);
      }
    }
  }

  /** As written, `mergeGate(1, 1)` on a table where PI 1 feeds both inputs of AND gate
      3 reports success, deletes gate 1, and leaves gate 3 with a single fanin, an edge
      to the deleted gate. */
  lemma SelfMergeStrandsReferrer(s: State)
    requires Counted(s) && s.gateList == TwinNet()
    ensures Consistent(s.gateList)
    ensures var r := MergedByIdAsWritten(s, 1, 1);
      && r.0 && 1 !in r.1.gateList
      && r.1.gateList[3].fanin == [Live(1, false)]
  {
    TwinNetConsistent();
    SelfMergeTwin();
  }

  // ---------------------------------------------------------------------------
  // Sweeping

  /** Every listed gate that is an AIG of the table has an empty fanout. */
  ghost predicate UnusedSound(net: Net, list: seq<nat>)
  {
    forall x :: x in list && x in net && net[x].kind == Aig ==> UnUsed(net[x])
  }

  /** Every unused AIG of `_AigList` is listed. */
  ghost predicate Covers(net: Net, aigs: seq<nat>, list: seq<nat>)
  {
    forall x :: x in aigs && x in net && net[x].kind == Aig && UnUsed(net[x]) ==> x in list
  }

  /** No AIG of `_AigList` left in the table is unused. */
  ghost predicate NoUnusedAig(net: Net, aigs: seq<nat>)
  {
    forall x :: x in aigs && x in net && net[x].kind == Aig ==> !UnUsed(net[x])
  }

  /** No listed gate is an AIG of the table, so `removeGate` refuses each of them. */
  ghost predicate NoneRemovable(net: Net, list: seq<nat>)
  {
    forall x :: x in list ==> !(x in net && net[x].kind == Aig)
  }

  /** The fields sweeping and hashing leave alone. */
  ghost predicate SameFrame(a: State, b: State)
  {
    && a.symbolList == b.symbolList && a.fecList == b.fecList
    && a.M == b.M && a.I == b.I && a.L == b.L && a.O == b.O
    && a.piList == b.piList && a.poList == b.poList
  }

  /** `s` is `o` after some removals: the frame and the floating list are as they
      were, gates only leave the table, only AIGs leave it, and kinds stay. */
  ghost predicate Shrunk(o: State, s: State)
  {
    && Counted(s) && SameFrame(o, s) && s.floatingList == o.floatingList
    && s.gateList.Keys <= o.gateList.Keys
    && (forall x :: x in o.gateList && x !in s.gateList ==> o.gateList[x].kind == Aig)
    && (forall x :: x in s.gateList ==> s.gateList[x].kind == o.gateList[x].kind)
  }

  /** One more `removeGate` keeps the table shrunk, and a successful one makes it smaller. */
  lemma ShrunkRemoved(o: State, s: State, x: nat, list: seq<nat>)
    requires Shrunk(o, s)
    ensures Shrunk(o, Removed(s, x).1.(unUsedList := list))
    ensures Removed(s, x).0 ==> |Removed(s, x).1.gateList.Keys| < |s.gateList.Keys|
  {
    RemovedEffect(s, x);
  }

  /** Removing the listed unused AIG `list[i]` from a consistent table keeps it
      consistent, and every other listed AIG unused. */
  lemma SoundRemoved(s: State, i: nat)
    requires Counted(s) && i < |s.unUsedList|
    requires Consistent(s.gateList) && UnusedSound(s.gateList, s.unUsedList)
    ensures var r := Removed(s, s.unUsedList[i]).1.gateList;
      && Consistent(r)
      && UnusedSound(r, s.unUsedList)
      && UnusedSound(r, s.unUsedList[..i] + s.unUsedList[i + 1..])
  {
    var x := s.unUsedList[i];
    RemovedEffect(s, x);
    if x in s.gateList && s.gateList[x].kind == Aig {
      RemovedConsistent(s, x);
    }
    RemovedShrinks(s, x);
    var rest := s.unUsedList[..i] + s.unUsedList[i + 1..];
    assert forall y :: y in rest ==> y in s.unUsedList;
  }

  /** One step of a sweep pass at index `i`: `removeGate` on the listed gate, which
      on success is erased from the list. */
  function PassStep(s: State, i: nat): (bool, State)
    requires Counted(s) && i < |s.unUsedList|
  {
    var (ok, r) := Removed(s, s.unUsedList[i]);
    (ok, if ok then r.(unUsedList := s.unUsedList[..i] + s.unUsedList[i + 1..]) else r)
  }

  /** What a sweep pass keeps, `i` entries into the list of `s`, having started at `o`. */
  ghost predicate PassInv(o: State, s: State, i: nat, removed: bool, sound: bool)
  {
    && i <= |s.unUsedList| && Shrunk(o, s)
    && (removed ==> |s.gateList.Keys| < |o.gateList.Keys|)
    && (!removed ==> s == o && NoneRemovable(s.gateList, s.unUsedList[..i]))
    && (sound ==> Consistent(s.gateList) && UnusedSound(s.gateList, s.unUsedList))
  }

  /** A step keeps the pass invariant: a refusal moves past the entry, a removal erases
      it and shrinks the table. */
  lemma PassStepKeeps(o: State, s: State, i: nat, removed: bool, sound: bool)
    requires PassInv(o, s, i, removed, sound) && i < |s.unUsedList|
    ensures var (ok, r) := PassStep(s, i);
      && (ok ==> |r.unUsedList| == |s.unUsedList| - 1 && PassInv(o, r, i, true, sound))
      && (!ok ==> r == s && PassInv(o, r, i + 1, removed, sound))
  {
    var x := s.unUsedList[i];
    var rest := s.unUsedList[..i] + s.unUsedList[i + 1..];
    ShrunkRemoved(o, s, x, rest);
    ShrunkRemoved(o, s, x, s.unUsedList);
    RemovedEffect(s, x);
    if sound {
      SoundRemoved(s, i);
    }
    if !Removed(s, x).0 {
      assert s.unUsedList[..i + 1] == s.unUsedList[..i] + [x];
    }
  }

  /** Appending the unused AIGs of `_AigList` makes the list cover them, and appends
      only unused gates. */
  lemma AppendedCovers(s: State)
    requires UnusedSound(s.gateList, s.unUsedList)
    ensures Covers(s.gateList, s.aigList, WithUnused(s, true).unUsedList)
    ensures UnusedSound(s.gateList, WithUnused(s, true).unUsedList)
  {
    WithUnusedEffect(s, true);
  }

  /** A pass that removed nothing, over a list covering the unused AIGs, shows there
      are none left. */
  lemma ClearPassNoUnused(net: Net, aigs: seq<nat>, list: seq<nat>)
    requires Covers(net, aigs, list) && NoneRemovable(net, list)
    ensures NoUnusedAig(net, aigs)
  {
  }

  // ---------------------------------------------------------------------------
  // Structural hashing

  /** The triangular numbers 0, 1, 3, 6, ... */
  function Tri(n: nat): nat
  {
    if n == 0 then 0 else Tri(n - 1) + n
  }

  lemma {:induction false} TriGrows(n: nat, m: nat)
    requires n < m
    ensures Tri(n) + n < Tri(m)
    decreases m
  {
    if n + 1 < m {
      TriGrows(n, m - 1);
    }
  }

  /** The strash key of two fanin literals: their Cantor pairing. */
  function StrashKey(a: nat, b: nat): nat
  {
    Tri(a + b) + b
  }

  /** Two gates share a key exactly when their fanin literals agree, in order. */
  lemma StrashKeyInjective(a: nat, b: nat, c: nat, d: nat)
    ensures StrashKey(a, b) == StrashKey(c, d) <==> a == c && b == d
  {
    if a + b < c + d {
      TriGrows(a + b, c + d);
    } else if c + d < a + b {
      TriGrows(c + d, a + b);
    }
  }

  /** The literal of fanin `i`, read as 0 when the gate has no such fanin. */
  function InputLiteral(g: Gate, i: nat): nat
  {
    if i < |g.fanin| then FaninLiteral(g, i) else 0
  }

  /** `getStrashKey()`: the key of a gate's two fanin literals. */
  function GateKey(g: Gate): nat
  {
    StrashKey(InputLiteral(g, 0), InputLiteral(g, 1))
  }

  /** One iteration of `strash` on gate `x`, with strash map `m`: a gate that is
      not an AIG of the table is passed over; an AIG whose key is taken is merged into
      that key's representative; otherwise it becomes the representative. */
  function HashStep(t: State, m: map<nat, nat>, x: nat): (r: (State, map<nat, nat>))
    requires Counted(t)
    ensures Counted(r.0)
  {
    if x !in t.gateList || t.gateList[x].kind != Aig then (t, m)
    else
      var k := GateKey(t.gateList[x]);
      if k in m then
        MergedGateEffect(t, x, m[k]);
        (MergedById(t, x, m[k]).1, m)
      else (t, m[k := x])
  }

  /** `strash` along `dfs`: the state reached and the map from key to representative. */
  function Hashed(s: State, dfs: seq<nat>): (r: (State, map<nat, nat>))
    requires Counted(s)
    ensures Counted(r.0)
    decreases |dfs|
  {
    if dfs == [] then (s, map[])
    else
      var p := Hashed(s, dfs[..|dfs| - 1]);
      HashStep(p.0, p.1, dfs[|dfs| - 1])
  }

  /** `t` and `m` are what `strash` reached from `s` after the ids `done`: only AIGs
      of `done` have left the table, the other gates keep their kinds, each
      representative is a surviving AIG of `done`, and an AIG of `done` survives
      exactly when it is a representative. */
  ghost predicate Reps(s: State, t: State, m: map<nat, nat>, done: seq<nat>)
  {
    && SameFrame(s, t) && t.unUsedList == s.unUsedList && t.floatingList == s.floatingList
    && FanoutsNoDup(t.gateList)
    && t.gateList.Keys <= s.gateList.Keys
    && (forall x :: x in t.gateList ==> t.gateList[x].kind == s.gateList[x].kind)
    && (forall x :: x in s.gateList && x !in t.gateList ==> x in done && s.gateList[x].kind == Aig)
    && (forall k :: k in m ==> m[k] in done && m[k] in t.gateList && t.gateList[m[k]].kind == Aig)
    && (forall x :: x in done && x in s.gateList && s.gateList[x].kind == Aig ==>
          (x in t.gateList <==> x in m.Values))
  }

  /** One more iteration, on an id not met before, keeps `Reps`. */
  lemma HashStepReps(s: State, t: State, m: map<nat, nat>, done: seq<nat>, x: nat)
    requires Counted(t) && Reps(s, t, m, done) && x !in done
    ensures Reps(s, HashStep(t, m, x).0, HashStep(t, m, x).1, done + [x])
  {
    if x in t.gateList && t.gateList[x].kind == Aig {
      var k := GateKey(t.gateList[x]);
      if k in m {
        HashStepMerge(s, t, m, done, x, m[k]);
      } else {
        HashStepFresh(s, t, m, done, x, k);
      }
    } else {
      assert forall y :: y in done + [x] <==> y in done || y == x;
    }
  }

  /** The AIG `x` merges into the representative `h` of its key. */
  lemma HashStepMerge(s: State, t: State, m: map<nat, nat>, done: seq<nat>, x: nat, h: nat)
    requires Counted(t) && Reps(s, t, m, done) && x !in done
    requires x in t.gateList && t.gateList[x].kind == Aig && h in m.Values
    ensures Reps(s, MergedById(t, x, h).1, m, done + [x])
  {
    assert forall y :: y in done + [x] <==> y in done || y == x;
    var j :| j in m && m[j] == h;
    assert h in done && h != x;
    MergedGateEffect(t, x, h);
    MergedShape(t.gateList, x, h, true);
    UnlistedEffect(t.(gateList := Merged(t.gateList, x, h, true)), x);
  }

  /** The AIG `x` becomes the representative of its fresh key `k`. */
  lemma HashStepFresh(s: State, t: State, m: map<nat, nat>, done: seq<nat>, x: nat, k: nat)
    requires Counted(t) && Reps(s, t, m, done) && x !in done
    requires x in t.gateList && t.gateList[x].kind == Aig && k !in m
    ensures Reps(s, t, m[k := x], done + [x])
  {
    assert forall y :: y in done + [x] <==> y in done || y == x;
    var m2 := m[k := x];
    forall v ensures v in m2.Values <==> v in m.Values || v == x {
      if v in m.Values {
        var j :| j in m && m[j] == v;
        assert m2[j] == v;
      }
      if v in m2.Values {
        var j :| j in m2 && m2[j] == v;
        if j != k {
          assert m[j] == v;
        }
      }
      if v == x {
        assert m2[k] == x;
      }
    }
  }

  /** What `strash` guarantees on a table without duplicate fanout entries, for a
      DFS list without repeats: `Reps` over the whole list. */
  lemma {:induction false} HashedReps(s: State, dfs: seq<nat>)
    requires Counted(s) && FanoutsNoDup(s.gateList) && NoDup(dfs)
    ensures Reps(s, Hashed(s, dfs).0, Hashed(s, dfs).1, dfs)
    decreases |dfs|
  {
    if dfs != [] {
      var pre := dfs[..|dfs| - 1];
      var x := dfs[|dfs| - 1];
      assert NoDup(pre);
      assert x !in pre;
      assert dfs == pre + [x];
      HashedReps(s, pre);
      var p := Hashed(s, pre);
      HashStepReps(s, p.0, p.1, pre, x);
    }
  }

  /** The `i`-th id of `dfs` is, when `strash` reaches it, an AIG of the table whose
      strash key is `k`. */
  ghost predicate TakesKey(s: State, dfs: seq<nat>, i: nat, k: nat)
    requires Counted(s) && i < |dfs|
  {
    var t := Hashed(s, dfs[..i]).0;
    dfs[i] in t.gateList && t.gateList[dfs[i]].kind == Aig && GateKey(t.gateList[dfs[i]]) == k
  }

  /** No id before position `i` of `dfs` took the key `k`. */
  ghost predicate FirstTaker(s: State, dfs: seq<nat>, i: nat, k: nat)
    requires Counted(s) && i <= |dfs|
  {
    forall j :: 0 <= j < i ==> !TakesKey(s, dfs, j, k)
  }

  /** `strash` after `i + 1` ids is one more iteration after `i` ids. */
  lemma HashedNext(s: State, dfs: seq<nat>, i: nat)
    requires Counted(s) && i < |dfs|
    ensures Hashed(s, dfs[..i + 1]) == HashStep(Hashed(s, dfs[..i]).0, Hashed(s, dfs[..i]).1, dfs[i])
  {
    assert dfs[..i + 1][..i] == dfs[..i];
  }

  /** An entry of the strash map, once made, is never changed: the map after `i` ids
      is a submap of the map after `n >= i` ids. */
  lemma {:induction false} HashedGrows(s: State, dfs: seq<nat>, i: nat, n: nat)
    requires Counted(s) && i <= n <= |dfs|
    ensures forall k :: k in Hashed(s, dfs[..i]).1 ==>
      k in Hashed(s, dfs[..n]).1 && Hashed(s, dfs[..n]).1[k] == Hashed(s, dfs[..i]).1[k]
    decreases n - i
  {
    if i < n {
      HashedGrows(s, dfs, i + 1, n);
      HashedNext(s, dfs, i);
    }
  }

  /** After the first `n` ids, the strash map has an entry for exactly the keys taken
      so far, and each entry names the first id that took its key. */
  lemma {:induction false} HashedKeys(s: State, dfs: seq<nat>, n: nat)
    requires Counted(s) && n <= |dfs|
    ensures forall k :: k in Hashed(s, dfs[..n]).1 <==> exists j :: 0 <= j < n && TakesKey(s, dfs, j, k)
    ensures forall k :: k in Hashed(s, dfs[..n]).1 ==>
      exists j :: 0 <= j < n && dfs[j] == Hashed(s, dfs[..n]).1[k] &&
        TakesKey(s, dfs, j, k) && FirstTaker(s, dfs, j, k)
  {
    if n > 0 {
      var i := n - 1;
      HashedKeys(s, dfs, i);
      HashedNext(s, dfs, i);
      var p := Hashed(s, dfs[..i]);
      var x := dfs[i];
      var m := Hashed(s, dfs[..n]).1;
      if x in p.0.gateList && p.0.gateList[x].kind == Aig {
        var kx := GateKey(p.0.gateList[x]);
        assert TakesKey(s, dfs, i, kx);
        assert forall k :: TakesKey(s, dfs, i, k) ==> k == kx;
        if kx !in p.1 {
          assert m == p.1[kx := x];
          assert FirstTaker(s, dfs, i, kx);
        } else {
          assert m == p.1;
        }
      } else {
        assert m == p.1;
        assert forall k :: !TakesKey(s, dfs, i, k);
      }
    }
  }

  /** What `strash` does with each AIG it reaches: its key, as it stands when it is
      reached, gets an entry in the final strash map; the AIG is that key's
      representative exactly when no earlier id took the key, and is then kept;
      otherwise that iteration merges it into the representative, the first AIG met
      with the same key.  Every entry of the map is such a first AIG. */
  lemma StrashRepresentatives(s: State, dfs: seq<nat>)
    requires Counted(s) && NoDup(dfs)
    ensures forall k :: k in Hashed(s, dfs).1 <==> exists i :: 0 <= i < |dfs| && TakesKey(s, dfs, i, k)
    ensures forall k :: k in Hashed(s, dfs).1 ==>
      exists i :: 0 <= i < |dfs| && dfs[i] == Hashed(s, dfs).1[k] &&
        TakesKey(s, dfs, i, k) && FirstTaker(s, dfs, i, k)
    ensures forall i, k :: 0 <= i < |dfs| && TakesKey(s, dfs, i, k) ==>
      k in Hashed(s, dfs).1 && (Hashed(s, dfs).1[k] == dfs[i] <==> FirstTaker(s, dfs, i, k))
    ensures forall i, k :: 0 <= i < |dfs| && TakesKey(s, dfs, i, k) && FirstTaker(s, dfs, i, k) ==>
      Hashed(s, dfs[..i + 1]).0 == Hashed(s, dfs[..i]).0
    ensures forall i, k :: 0 <= i < |dfs| && TakesKey(s, dfs, i, k) && !FirstTaker(s, dfs, i, k) ==>
      k in Hashed(s, dfs).1 &&
      Hashed(s, dfs[..i + 1]).0 == MergedById(Hashed(s, dfs[..i]).0, dfs[i], Hashed(s, dfs).1[k]).1
  {
    assert dfs[..|dfs|] == dfs;
    HashedKeys(s, dfs, |dfs|);
    forall i, k | 0 <= i < |dfs| && TakesKey(s, dfs, i, k)
      ensures k in Hashed(s, dfs).1 && (Hashed(s, dfs).1[k] == dfs[i] <==> FirstTaker(s, dfs, i, k))
      ensures FirstTaker(s, dfs, i, k) ==> Hashed(s, dfs[..i + 1]).0 == Hashed(s, dfs[..i]).0
      ensures !FirstTaker(s, dfs, i, k) ==>
        Hashed(s, dfs[..i + 1]).0 == MergedById(Hashed(s, dfs[..i]).0, dfs[i], Hashed(s, dfs).1[k]).1
    {
      TakerStep(s, dfs, i, k);
    }
  }

  /** The iteration on the `i`-th id, which takes key `k`. */
  lemma TakerStep(s: State, dfs: seq<nat>, i: nat, k: nat)
    requires Counted(s) && NoDup(dfs) && i < |dfs| && TakesKey(s, dfs, i, k)
    ensures k in Hashed(s, dfs).1 && (Hashed(s, dfs).1[k] == dfs[i] <==> FirstTaker(s, dfs, i, k))
    ensures FirstTaker(s, dfs, i, k) ==> Hashed(s, dfs[..i + 1]).0 == Hashed(s, dfs[..i]).0
    ensures !FirstTaker(s, dfs, i, k) ==>
      Hashed(s, dfs[..i + 1]).0 == MergedById(Hashed(s, dfs[..i]).0, dfs[i], Hashed(s, dfs).1[k]).1
  {
    assert dfs[..|dfs|] == dfs;
    var p := Hashed(s, dfs[..i]);
    HashedNext(s, dfs, i);
    HashedKeys(s, dfs, i);
    HashedGrows(s, dfs, i + 1, |dfs|);
    assert GateKey(p.0.gateList[dfs[i]]) == k;
    if k in p.1 {
      var j :| 0 <= j < i && dfs[j] == p.1[k] && TakesKey(s, dfs, j, k) && FirstTaker(s, dfs, j, k);
      assert dfs[j] != dfs[i];
      assert !FirstTaker(s, dfs, i, k);
    } else {
      assert FirstTaker(s, dfs, i, k);
    }
  }

  /** The loop invariant of `strash`: after the first `i` ids of `dfs`, the manager and
      the strash map are what `Hashed` gives, and each representative is a gate of
      the table met so far. */
  ghost predicate StrashedSoFar(o: State, s: State, m: map<nat, nat>, dfs: seq<nat>, i: nat)
    requires Counted(o)
  {
    && i <= |dfs| && (s, m) == Hashed(o, dfs[..i])
    && forall k :: k in m ==> m[k] in s.gateList && m[k] in dfs[..i]
  }

  // ---------------------------------------------------------------------------
  // Reading a circuit

  /** `readCircuit` on a tokenised description: the header counts, the three id lists,
      the linked table, both lists built (floating first, then unused) and the
      symbols attached. */
  function Read(aag: Aag): (s: State)
    requires WellFormed(aag)
    ensures Counted(s)
  {
    var s0 := State(Linking(aag), map[], [], aag.m, aag.i, aag.l, aag.o, aag.a,
                    PIIds(aag), POIds(aag), AigIds(aag), [], []);
    var s1 := WithUnused(WithFloating(s0, false), false);
    s1.(symbolList := Named(map[], PIIds(aag), POIds(aag), aag.symbols))
  }

  /** The manager `readCircuit` leaves: a consistent table with the constant at id 0,
      every fanin resolved (live when it names an existing gate, floating otherwise),
      the id lists in line order, and the floating and unused lists holding exactly the
      listed gates with a fanin naming a missing gate, and with an empty fanout. */
  lemma ReadCircuitEffect(aag: Aag)
    requires WellFormed(aag)
    ensures var s := Read(aag);
      && Consistent(s.gateList) && 0 in s.gateList
      && (forall x :: x in s.gateList ==> ResolvedAt(s.gateList, x))
      && s.piList == PIIds(aag) && s.poList == POIds(aag) && s.aigList == AigIds(aag)
      && s.M == aag.m && s.I == aag.i && s.L == aag.l && s.O == aag.o && s.A == aag.a
      && SortedBy(s.floatingList, IdKey) && SortedBy(s.unUsedList, IdKey)
      && (forall x :: x in s.floatingList <==> ((x in s.aigList || x in s.poList) && x in s.gateList &&
            exists i :: 0 <= i < |s.gateList[x].fanin| && Literal(s.gateList[x].fanin[i]) / 2 !in s.gateList))
      && (forall x :: x in s.unUsedList <==> ((x in s.piList || x in s.aigList) && x in s.gateList &&
            UnUsed(s.gateList[x])))
  {
    BuiltFacts(aag);
    LinkingResolves(aag);
    var s0 := State(Linking(aag), map[], [], aag.m, aag.i, aag.l, aag.o, aag.a,
                    PIIds(aag), POIds(aag), AigIds(aag), [], []);
    WithFloatingEffect(s0, false);
    WithUnusedEffect(WithFloating(s0, false), false);
    forall x | x in Linking(aag)
      ensures HasFloat(Linking(aag)[x]) <==>
        exists i :: 0 <= i < |Linking(aag)[x].fanin| && Literal(Linking(aag)[x].fanin[i]) / 2 !in Linking(aag)
    {
      LinkedFloating(aag, x);
    }
  }

  /** The gate of each line that is the last to use its id keeps its kind, id, line
      number and fanin literals: an input line gives a PI, an output line a PO reading
      its literal, an AND line an AIG reading `rhs0` then `rhs1`. */
  lemma ReadPlacesGates(aag: Aag, k: nat)
    requires WellFormed(aag) && LastWriter(Creations(aag), k)
    ensures var x := Creations(aag)[k].0; var net := Read(aag).gateList; var i, o := aag.i, aag.o;
      && x in net && net[x].id == x && net[x].line == k + 2
      && (k < i ==> x == aag.inputs[k] / 2 && net[x].kind == PI)
      && (i <= k < i + o ==> x == aag.m + k - i + 1 && net[x].kind == PO && Lits(net[x]) == [aag.outputs[k - i]])
      && (i + o <= k ==>
            var r := aag.ands[k - i - o];
            x == r.lhs / 2 && net[x].kind == Aig && Lits(net[x]) == [r.rhs0, r.rhs1])
  {
    ReadTable(aag);
    LinkedEntry(aag, k);
  }

  lemma ReadTable(aag: Aag)
    requires WellFormed(aag)
    ensures var s := Read(aag);
      && s.gateList == Linking(aag) && s.piList == PIIds(aag) && s.poList == POIds(aag) && s.aigList == AigIds(aag)
      && s.M == aag.m && s.I == aag.i && s.L == aag.l && s.O == aag.o
  {
    var s0 := State(Linking(aag), map[], [], aag.m, aag.i, aag.l, aag.o, aag.a,
                    PIIds(aag), POIds(aag), AigIds(aag), [], []);
    WithFloatingEffect(s0, false);
    WithUnusedEffect(WithFloating(s0, false), false);
  }

  /** Symbol lines name gates by position: after reading, gate `_PIList[k]` carries the
      name of the last `i k` line (and likewise for outputs), unless a later line for
      the other list names the same gate; no other gate has a name. */
  lemma ReadNames(aag: Aag)
    requires WellFormed(aag)
    ensures var s := Read(aag);
      && (forall x :: x in s.symbolList <==> exists k :: NamesAt(s.piList, s.poList, aag.symbols, k, x))
      && (forall k, x :: (NamesAt(s.piList, s.poList, aag.symbols, k, x) &&
            forall j :: k < j < |aag.symbols| ==> !NamesAt(s.piList, s.poList, aag.symbols, j, x)) ==>
            x in s.symbolList && s.symbolList[x] == aag.symbols[k].name)
  {
    NamedBy(map[], PIIds(aag), POIds(aag), aag.symbols);
  }

  // ---------------------------------------------------------------------------
  // Writing a circuit

  /** What `writeAag` reads without checking: each listed AIG exists and, when used,
      has two fanins; each listed PO exists and has a fanin. */
  ghost predicate WriteReady(s: State)
  {
    && (forall x :: x in s.aigList ==> x in s.gateList && (!UnUsed(s.gateList[x]) ==> |s.gateList[x].fanin| >= 2))
    && (forall x :: x in s.poList ==> x in s.gateList && |s.gateList[x].fanin| >= 1)
  }

  /** `DFSAigList`: the ids of `ids`, in order, whose gate has a non-empty fanout. */
  function UsedIds(net: Net, ids: seq<nat>): seq<nat>
    requires forall x :: x in ids ==> x in net
    decreases |ids|
  {
    if ids == [] then []
    else
      var x := ids[|ids| - 1];
      UsedIds(net, ids[..|ids| - 1]) + (if !UnUsed(net[x]) then [x] else [])
  }

  /** The used ids are exactly the listed gates with a fanout, each as often as it is listed. */
  lemma {:induction false} UsedIdsMembers(net: Net, ids: seq<nat>)
    requires forall x :: x in ids ==> x in net
    ensures forall x :: x in UsedIds(net, ids) <==> x in ids && !UnUsed(net[x])
    ensures NoDup(ids) ==> NoDup(UsedIds(net, ids))
    decreases |ids|
  {
    if ids != [] {
      var ids' := ids[..|ids| - 1];
      assert ids == ids' + [ids[|ids| - 1]];
      UsedIdsMembers(net, ids');
      if NoDup(ids) {
        assert NoDup(ids');
      }
    }
  }

  /** The AND line of a gate: twice its id, then its two fanin literals. */
  function AndLine(g: Gate): AndRec
    requires |g.fanin| >= 2
  {
    AndRec(2 * g.id, FaninLiteral(g, 0), FaninLiteral(g, 1))
  }

  /** The symbol lines of one list: `<head><position> <name>` for each gate of `ids`
      with a non-empty name. */
  function SymLines(syms: map<nat, string>, ids: seq<nat>, head: char): seq<SymRec>
    decreases |ids|
  {
    if ids == [] then []
    else
      var n := |ids| - 1;
      var name := if ids[n] in syms then syms[ids[n]] else "";
      SymLines(syms, ids[..n], head) + (if name != "" then [SymRec(head, n, name)] else [])
  }

  /** A symbol line is written for position `k` exactly when gate `ids[k]` has a
      non-empty name, with that name; the lines go in position order. */
  lemma {:induction false} SymLinesMembers(syms: map<nat, string>, ids: seq<nat>, head: char)
    ensures forall r :: r in SymLines(syms, ids, head) <==>
      (r.head == head && r.pos < |ids| && ids[r.pos] in syms && syms[ids[r.pos]] == r.name && r.name != "")
    ensures forall j, k :: 0 <= j < k < |SymLines(syms, ids, head)| ==>
      SymLines(syms, ids, head)[j].pos < SymLines(syms, ids, head)[k].pos
    decreases |ids|
  {
    if ids != [] {
      var n := |ids| - 1;
      var pre := ids[..n];
      SymLinesMembers(syms, pre, head);
      var t := SymLines(syms, pre, head);
      var name := if ids[n] in syms then syms[ids[n]] else "";
      var last: seq<SymRec> := if name != "" then [SymRec(head, n, name)] else [];
      assert SymLines(syms, ids, head) == t + last;
      forall r ensures r in t + last <==>
        (r.head == head && r.pos < |ids| && ids[r.pos] in syms && syms[ids[r.pos]] == r.name && r.name != "")
      {
        if r.pos < n {
          assert ids[r.pos] == pre[r.pos];
        }
      }
      forall j, k | 0 <= j < k < |t + last| ensures (t + last)[j].pos < (t + last)[k].pos {
        if k >= |t| {
          assert t[j] in t;
        }
      }
    }
  }

  /** The records `writeAag` produces: the header with the count of used AIGs, one
      line `2 * id` per PI, the fanin literal of each PO, an AND line for each used
      AIG in `_AigList` order, then the input and the output symbols. */
  function Written(s: State): (out: Aag)
    requires WriteReady(s)
  {
    var used := UsedIds(s.gateList, s.aigList);
    UsedIdsMembers(s.gateList, s.aigList);
    Aag(s.M, s.I, s.L, s.O, |used|,
        seq(|s.piList|, k requires 0 <= k < |s.piList| => 2 * s.piList[k]),
        seq(|s.poList|, k requires 0 <= k < |s.poList| => FaninLiteral(s.gateList[s.poList[k]], 0)),
        seq(|used|, k requires 0 <= k < |used| => AndLine(s.gateList[used[k]])),
        SymLines(s.symbolList, s.piList, 'i') + SymLines(s.symbolList, s.poList, 'o'))
  }

  /** The written header counts match the records it writes when `_I` and `_O` match
      their lists; exactly the used listed AIGs get an AND line; every symbol line
      names a position that exists. */
  lemma WrittenShape(s: State)
    requires WriteReady(s)
    ensures var out := Written(s);
      && out.m == s.M && out.l == s.L && out.i == s.I && out.o == s.O
      && |out.inputs| == |s.piList| && |out.outputs| == |s.poList| && |out.ands| == out.a
      && |UsedIds(s.gateList, s.aigList)| == out.a
      && (forall x :: x in UsedIds(s.gateList, s.aigList) <==> x in s.aigList && !UnUsed(s.gateList[x]))
      && (forall k :: 0 <= k < out.a ==> out.ands[k] == AndLine(s.gateList[UsedIds(s.gateList, s.aigList)[k]]))
      && (s.I == |s.piList| && s.O == |s.poList| ==> WellFormed(out))
  {
    var used := UsedIds(s.gateList, s.aigList);
    UsedIdsMembers(s.gateList, s.aigList);
    SymLinesMembers(s.symbolList, s.piList, 'i');
    SymLinesMembers(s.symbolList, s.poList, 'o');
    var out := Written(s);
    if s.I == |s.piList| && s.O == |s.poList| {
      forall k | 0 <= k < |out.symbols| && out.symbols[k].head == 'i' ensures out.symbols[k].pos < out.i {
        var r := out.symbols[k];
        assert r in SymLines(s.symbolList, s.piList, 'i') || r in SymLines(s.symbolList, s.poList, 'o');
      }
      forall k | 0 <= k < |out.symbols| && out.symbols[k].head == 'o' ensures out.symbols[k].pos < out.o {
        var r := out.symbols[k];
        assert r in SymLines(s.symbolList, s.piList, 'i') || r in SymLines(s.symbolList, s.poList, 'o');
      }
    }
  }

  /** A circuit just read can be written. */
  lemma ReadIsWriteReady(aag: Aag)
    requires WellFormed(aag)
    ensures WriteReady(Read(aag))
  {
    ReadTable(aag);
    ListedKinds(aag);
    ReadyByKinds(Read(aag));
  }

  lemma ReadyByKinds(s: State)
    requires Shaped(s.gateList)
    requires forall x :: x in s.aigList ==> x in s.gateList && s.gateList[x].kind == Aig
    requires forall x :: x in s.poList ==> x in s.gateList && s.gateList[x].kind in {PO, Aig}
    ensures WriteReady(s)
  {
  }

  /** Writing a circuit just read gives back its header and its even input literals. */
  lemma WriteAfterReadHeader(aag: Aag)
    requires WellFormed(aag)
    ensures WriteReady(Read(aag))
    ensures var out := Written(Read(aag));
      && out.m == aag.m && out.i == aag.i && out.l == aag.l && out.o == aag.o
      && (forall k :: 0 <= k < aag.i && aag.inputs[k] % 2 == 0 ==> out.inputs[k] == aag.inputs[k])
  {
    ReadIsWriteReady(aag);
    ReadTable(aag);
    var s := Read(aag);
    WrittenHeader(s, aag);
  }

  lemma WrittenHeader(s: State, aag: Aag)
    requires WellFormed(aag) && WriteReady(s)
    requires s.piList == PIIds(aag) && s.M == aag.m && s.I == aag.i && s.L == aag.l && s.O == aag.o
    ensures var out := Written(s);
      && out.m == aag.m && out.i == aag.i && out.l == aag.l && out.o == aag.o
      && (forall k :: 0 <= k < aag.i && aag.inputs[k] % 2 == 0 ==> out.inputs[k] == aag.inputs[k])
  {
  }

  /** Writing a circuit just read gives back the literal of each output line that no
      later AND line overrode. */
  lemma WriteAfterReadOutputs(aag: Aag)
    requires WellFormed(aag)
    ensures WriteReady(Read(aag))
    ensures |Written(Read(aag)).outputs| == aag.o
    ensures forall k :: 0 <= k < aag.o && LastWriter(Creations(aag), aag.i + k) ==>
      Written(Read(aag)).outputs[k] == aag.outputs[k]
  {
    ReadIsWriteReady(aag);
    ReadTable(aag);
    forall k | 0 <= k < aag.o && LastWriter(Creations(aag), aag.i + k)
      ensures Written(Read(aag)).outputs[k] == aag.outputs[k]
    {
      OutputWritten(aag, k);
    }
  }

  lemma OutputWritten(aag: Aag, k: nat)
    requires WellFormed(aag) && k < aag.o && LastWriter(Creations(aag), aag.i + k)
    ensures WriteReady(Read(aag))
    ensures k < |Written(Read(aag)).outputs| && Written(Read(aag)).outputs[k] == aag.outputs[k]
  {
    OutputLinked(aag, k);
    ReadIsWriteReady(aag);
    ReadTable(aag);
    WrittenOutput(Read(aag), aag, k);
  }

  lemma WrittenOutput(s: State, aag: Aag, k: nat)
    requires WellFormed(aag) && WriteReady(s) && s.poList == POIds(aag) && k < aag.o
    requires POIds(aag)[k] in s.gateList && Lits(s.gateList[POIds(aag)[k]]) == [aag.outputs[k]]
    ensures k < |Written(s).outputs| && Written(s).outputs[k] == aag.outputs[k]
  {
    var g := s.gateList[POIds(aag)[k]];
    assert FaninLiteral(g, 0) == Lits(g)[0];
  }

  /** Writing a circuit just read gives back the AND line of each gate that has a
      fanout, when no later line overrode it and its `lhs` is even. */
  lemma WriteAfterReadAnds(aag: Aag)
    requires WellFormed(aag)
    ensures WriteReady(Read(aag))
    ensures forall k :: (0 <= k < aag.a && LastWriter(Creations(aag), aag.i + aag.o + k) && aag.ands[k].lhs % 2 == 0 &&
      aag.ands[k].lhs / 2 in Read(aag).gateList && !UnUsed(Read(aag).gateList[aag.ands[k].lhs / 2])) ==>
        aag.ands[k] in Written(Read(aag)).ands
  {
    ReadIsWriteReady(aag);
    forall k | (0 <= k < aag.a && LastWriter(Creations(aag), aag.i + aag.o + k) && aag.ands[k].lhs % 2 == 0 &&
        aag.ands[k].lhs / 2 in Read(aag).gateList && !UnUsed(Read(aag).gateList[aag.ands[k].lhs / 2]))
      ensures aag.ands[k] in Written(Read(aag)).ands
    {
      AndWritten(aag, k);
    }
  }

  lemma AndWritten(aag: Aag, k: nat)
    requires WellFormed(aag) && k < aag.a && LastWriter(Creations(aag), aag.i + aag.o + k) && aag.ands[k].lhs % 2 == 0
    requires aag.ands[k].lhs / 2 in Read(aag).gateList && !UnUsed(Read(aag).gateList[aag.ands[k].lhs / 2])
    ensures WriteReady(Read(aag))
    ensures aag.ands[k] in Written(Read(aag)).ands
  {
    AndLinked(aag, k);
    ReadIsWriteReady(aag);
    ReadTable(aag);
    WrittenAnd(Read(aag), aag, k);
  }

  lemma WrittenAnd(s: State, aag: Aag, k: nat)
    requires WellFormed(aag) && WriteReady(s) && s.aigList == AigIds(aag) && k < aag.a
    requires var r := aag.ands[k]; var x := r.lhs / 2;
      && r.lhs % 2 == 0 && x in s.gateList && !UnUsed(s.gateList[x]) && AigIds(aag)[k] == x
      && s.gateList[x].id == x && Lits(s.gateList[x]) == [r.rhs0, r.rhs1]
    ensures aag.ands[k] in Written(s).ands
  {
    var r := aag.ands[k];
    var x := r.lhs / 2;
    var g := s.gateList[x];
    WrittenShape(s);
    var used := UsedIds(s.gateList, s.aigList);
    assert x in used;
    var j :| 0 <= j < |used| && used[j] == x;
    assert Written(s).ands[j] == AndLine(g);
    assert FaninLiteral(g, 0) == Lits(g)[0];
    assert FaninLiteral(g, 1) == Lits(g)[1];
  }

  // ---------------------------------------------------------------------------
  // The manager

  class CirMgr {
    var gateList: Net
    var symbolList: map<nat, string>
    var fecList: seq<seq<nat>>
    var M: nat
    var I: nat
    var L: nat
    var O: nat
    var A: nat
    var piList: seq<nat>
    var poList: seq<nat>
    var aigList: seq<nat>
    var floatingList: seq<nat>
    var unUsedList: seq<nat>

    /** The fields as one value. */
    ghost function View(): State
      reads this
    {
      State(gateList, symbolList, fecList, M, I, L, O, A, piList, poList, aigList, floatingList, unUsedList)
    }

    ghost predicate Valid()
      reads this
    {
      Counted(View())
    }

    /** `getSymb(id)`: the name recorded for gate `id`, or the empty string. */
    function GetSymb(id: nat): (name: string)
      reads this
      ensures id in symbolList ==> name == symbolList[id]
      ensures id !in symbolList ==> name == ""
    {
      if id in symbolList then symbolList[id] else ""
    }

    /** `removeFromAigList(id)`. */
    method RemoveFromAigList(id: nat) returns (found: bool)
      requires Valid()
      modifies this
      ensures Valid()
      ensures found <==> id in old(aigList)
      ensures View() == Unlisted(old(View()), id)
    {
      var i := 0;
      while i < |aigList|
        invariant 0 <= i <= |aigList|
        invariant forall j :: 0 <= j < i ==> aigList[j] != id
      {
        if aigList[i] == id {
          assert IndexOf(aigList, id) == i;
          aigList := aigList[..i] + aigList[i + 1..];
          A := A - 1;
          return true;
        }
        i := i + 1;
      }
      return false;
    }

    /** `freeGate(id, target)`: the gate leaves `_AigList` and the gate table. */
    method FreeGate(id: nat)
      requires Valid()
      modifies this
      ensures Valid()
      ensures View() == Freed(old(View()), id)
    {
      var _ := RemoveFromAigList(id);
      gateList := gateList - {id};
    }

    /** `removeGate(id)`. */
    method RemoveGate(id: nat) returns (ok: bool)
      requires Valid()
      modifies this
      ensures Valid()
      ensures (ok, View()) == Removed(old(View()), id)
    {
      if id !in gateList {
        return false;
      }
      if gateList[id].kind != Aig {
        return false;
      }
      gateList := ClearFanin(gateList, id);
      FreeGate(id);
      return true;
    }

    /** `mergeGate(CirGate* from, CirGate* to)`: both are gates of the table. */
    method MergeGate(from: nat, to: nat) returns (ok: bool)
      requires Valid() && from in gateList && to in gateList
      modifies this
      ensures Valid()
      ensures (ok, View()) == MergedGate(old(View()), from, to)
    {
      if from == to {
        return false;
      }
      gateList := MergeInto(gateList, from, to);
      FreeGate(from);
      return true;
    }

    /** `mergeGate(unsigned idfrom, unsigned idto)`, refusing a self-merge. */
    method MergeGateById(from: nat, to: nat) returns (ok: bool)
      requires Valid()
      modifies this
      ensures Valid()
      ensures (ok, View()) == MergedById(old(View()), from, to)
    {
      if !(from in gateList && to in gateList) {
        return false;
      }
      ok := MergeGate(from, to);
    }

    /** `setUnUsedList(AigOnly)`. */
    method SetUnUsedList(aigOnly: bool)
      modifies this
      ensures View() == WithUnused(old(View()), aigOnly)
    {
      var list := unUsedList;
      if !aigOnly {
        list := AppendUnused(gateList, piList, list);
      } else {
        assert list == unUsedList + [];
      }
      list := AppendUnused(gateList, aigList, list);
      unUsedList := SortBy(list, IdKey);
    }

    /** `setFloatingList(AigOnly)`. */
    method SetFloatingList(aigOnly: bool)
      modifies this
      ensures View() == WithFloating(old(View()), aigOnly)
    {
      var list := AppendFloating(gateList, aigList, floatingList);
      if !aigOnly {
        list := AppendFloating(gateList, poList, list);
      } else {
        assert list == list + [];
      }
      floatingList := SortBy(list, IdKey);
    }

    /** One pass of the inner loop of `sweep`: each listed gate is offered to
        `removeGate`; a removed one is erased from the list, and the pass moves on
        past a refused one. */
    method SweepPass() returns (removed: bool)
      requires Valid()
      modifies this
      ensures Shrunk(old(View()), View())
      ensures removed ==> |gateList.Keys| < |old(gateList).Keys|
      ensures !removed ==> View() == old(View()) && NoneRemovable(gateList, unUsedList)
      ensures old(Consistent(gateList) && UnusedSound(gateList, unUsedList)) ==>
        Consistent(gateList) && UnusedSound(gateList, unUsedList)
    {
      ghost var sound := Consistent(gateList) && UnusedSound(gateList, unUsedList);
      removed := false;
      var i := 0;
      while i < |unUsedList|
        invariant PassInv(old(View()), View(), i, removed, sound)
        decreases |unUsedList| - i
      {
        PassStepKeeps(old(View()), View(), i, removed, sound);
        var ok := TryRemoveAt(i);
        if ok {
          removed := true;
        } else {
          i := i + 1;
        }
      }
      assert unUsedList[..i] == unUsedList;
    }

    /** The body of the inner loop of `sweep` at index `i`. */
    method TryRemoveAt(i: nat) returns (ok: bool)
      requires Valid() && i < |unUsedList|
      modifies this
      ensures (ok, View()) == PassStep(old(View()), i)
    {
      var x := unUsedList[i];
      var rest := unUsedList[..i] + unUsedList[i + 1..];
      ok := RemoveGate(x);
      if ok {
        unUsedList := rest;
      }
    }

    /** One round of the outer loop of `sweep`: a pass, then the newly unused AIGs
        are appended to the list, which then covers every unused AIG. */
    method SweepRound() returns (clear: bool)
      requires Valid()
      modifies this
      ensures Shrunk(old(View()), View().(floatingList := old(floatingList)))
      ensures floatingList == old(floatingList)
      ensures clear ==> gateList == old(gateList) && aigList == old(aigList)
      ensures !clear ==> |gateList.Keys| < |old(gateList).Keys|
      ensures Covers(gateList, aigList, unUsedList)
      ensures clear && old(Covers(gateList, aigList, unUsedList)) ==> NoUnusedAig(gateList, aigList)
      ensures old(Consistent(gateList) && UnusedSound(gateList, unUsedList)) ==>
        Consistent(gateList) && UnusedSound(gateList, unUsedList)
    {
      ghost var cov := Covers(gateList, aigList, unUsedList);
      ghost var sound := Consistent(gateList) && UnusedSound(gateList, unUsedList);
      var removed := SweepPass();
      clear := !removed;
      if clear && cov {
        ClearPassNoUnused(gateList, aigList, unUsedList);
      }
      ghost var s1 := View();
      WithUnusedEffect(s1, true);
      if sound {
        AppendedCovers(s1);
      }
      SetUnUsedList(true);
    }

    /** `sweep()`: rounds repeat until a pass removes nothing; then both lists are
        rebuilt from scratch.  Only AIGs leave the table.  When the unused list covers
        the unused AIGs at the start, none is left at the end; when the table is
        consistent and the listed AIGs are unused, it stays consistent. */
    method Sweep()
      requires Valid()
      modifies this
      ensures Valid() && SameFrame(old(View()), View())
      ensures gateList.Keys <= old(gateList).Keys
      ensures forall x :: x in old(gateList) && x !in gateList ==> old(gateList)[x].kind == Aig
      ensures old(Covers(gateList, aigList, unUsedList)) ==> NoUnusedAig(gateList, aigList)
      ensures old(Consistent(gateList) && UnusedSound(gateList, unUsedList)) ==> Consistent(gateList)
      ensures unUsedList == SortBy(UnusedIds(gateList, piList) + UnusedIds(gateList, aigList), IdKey)
      ensures floatingList == SortBy(FloatingIds(gateList, aigList) + FloatingIds(gateList, poList), IdKey)
    {
      SweepRounds();
      ghost var s1 := View();
      unUsedList := [];
      assert View() == s1.(unUsedList := []);
      SetUnUsedList(false);
      ghost var s2 := View();
      floatingList := [];
      assert View() == s2.(floatingList := []);
      SetFloatingList(false);
      RebuiltLists(s1);
    }

    /** The outer loop of `sweep`: rounds until one removes nothing. */
    method SweepRounds()
      requires Valid()
      modifies this
      ensures Valid() && SameFrame(old(View()), View())
      ensures gateList.Keys <= old(gateList).Keys
      ensures forall x :: x in old(gateList) && x !in gateList ==> old(gateList)[x].kind == Aig
      ensures old(Covers(gateList, aigList, unUsedList)) ==> NoUnusedAig(gateList, aigList)
      ensures old(Consistent(gateList) && UnusedSound(gateList, unUsedList)) ==> Consistent(gateList)
    {
      ghost var covered := Covers(gateList, aigList, unUsedList);
      ghost var sound := Consistent(gateList) && UnusedSound(gateList, unUsedList);
      ghost var passes := 0;
      var clear := false;
      while !clear
        invariant Valid() && SameFrame(old(View()), View())
        invariant gateList.Keys <= old(gateList).Keys
        invariant forall x :: x in old(gateList) && x !in gateList ==> old(gateList)[x].kind == Aig
        invariant forall x :: x in gateList ==> gateList[x].kind == old(gateList)[x].kind
        invariant sound ==> Consistent(gateList) && UnusedSound(gateList, unUsedList)
        invariant passes > 0 ==> Covers(gateList, aigList, unUsedList)
        invariant !clear && covered && passes == 0 ==> Covers(gateList, aigList, unUsedList)
        invariant clear ==> (covered || passes > 1) ==> NoUnusedAig(gateList, aigList)
        decreases 2 * |gateList.Keys| + (if clear then 0 else 1)
      {
        clear := SweepRound();
        passes := passes + 1;
      }
    }

    /** The body of the loop of `strash` on gate `x`; `done` holds the gates met before. */
    method HashGate(strashMap: HashMap<nat>, x: nat, ghost done: seq<nat>)
      requires Valid() && strashMap.Valid() && x !in done
      requires forall k :: k in strashMap.M ==> strashMap.M[k] in gateList && strashMap.M[k] in done
      modifies this, strashMap, strashMap.buckets
      ensures strashMap.Valid() && strashMap.buckets == old(strashMap.buckets)
      ensures Valid() && (View(), strashMap.M) == HashStep(old(View()), old(strashMap.M), x)
      ensures forall k :: k in strashMap.M ==> strashMap.M[k] in gateList && strashMap.M[k] in done + [x]
    {
      if x in gateList && gateList[x].kind == Aig {
        var key := GateKey(gateList[x]);
        var found, host := strashMap.Query(key, 0);
        if found {
          var _ := MergeGate(x, host);
        } else {
          var _ := strashMap.Insert(key, x);
        }
      }
    }

    /** `strash()` over the DFS order `dfs`, with a strash map of `nb` buckets; the
        floating list is rebuilt afterwards. */
    method Strash(dfs: seq<nat>, nb: nat)
      requires Valid() && nb > 0 && NoDup(dfs)
      modifies this
      ensures View() == WithFloating(Hashed(old(View()), dfs).0.(floatingList := []), false)
    {
      var strashMap := new HashMap<nat>(nb);
      var i := 0;
      assert dfs[..0] == [];
      while i < |dfs|
        invariant fresh(strashMap) && fresh(strashMap.buckets) && strashMap.Valid()
        invariant Valid() && StrashedSoFar(old(View()), View(), strashMap.M, dfs, i)
      {
        StrashStep(strashMap, dfs, i, old(View()));
        i := i + 1;
      }
      assert dfs[..i] == dfs;
      floatingList := [];
      SetFloatingList(false);
    }

    /** The loop body of `strash` at position `i` of `dfs`. */
    method StrashStep(strashMap: HashMap<nat>, dfs: seq<nat>, i: nat, ghost o: State)
      requires Valid() && Counted(o) && strashMap.Valid() && NoDup(dfs) && i < |dfs|
      requires StrashedSoFar(o, View(), strashMap.M, dfs, i)
      modifies this, strashMap, strashMap.buckets
      ensures strashMap.Valid() && strashMap.buckets == old(strashMap.buckets)
      ensures Valid() && StrashedSoFar(o, View(), strashMap.M, dfs, i + 1)
    {
      assert dfs[..i + 1] == dfs[..i] + [dfs[i]];
      assert dfs[i] !in dfs[..i];
      HashGate(strashMap, dfs[i], dfs[..i]);
    }

    /** `divideFEC()` on the manager, in simulation epoch `epoch` with `nb` buckets per
        group map: `_FECList` is replaced by the split groups, the gates' memo fields
        may be filled in, and nothing else changes. */
    method DivideFEC(epoch: nat, ghost rank: map<nat, nat>, nb: nat)
      requires nb > 0 && Sim.AllInNet(gateList, fecList)
      requires Sim.Ranked(gateList, rank) && Sim.PIsMarked(gateList, epoch)
      requires Sim.MemoSound(gateList, rank, epoch) && Sim.AllDefinedIn(gateList, rank, fecList)
      modifies this
      ensures View() == old(View()).(gateList := gateList, fecList := fecList)
      ensures Sim.Agree(old(gateList), gateList, epoch) && Sim.MemoSound(gateList, rank, epoch)
      ensures forall g :: g in fecList ==> (|g| >= 2 &&
        exists i :: 0 <= i < |old(fecList)| && g[0] in old(fecList)[i] &&
          g == Sim.Class(old(gateList), rank, old(fecList)[i], Sim.Key(old(gateList), rank, g[0])))
      ensures forall i, x :: (0 <= i < |old(fecList)| && x in old(fecList)[i] &&
        |Sim.Class(old(gateList), rank, old(fecList)[i], Sim.Key(old(gateList), rank, x))| >= 2) ==>
          Sim.Class(old(gateList), rank, old(fecList)[i], Sim.Key(old(gateList), rank, x)) in fecList
    {
      var newList, r := Sim.DivideFEC(gateList, epoch, rank, fecList, nb);
      gateList := r;
      fecList := newList;
    }

    /** `writeAag`: the records of the circuit, built by the loops of the source. */
    method WriteAag() returns (out: Aag)
      requires WriteReady(View())
      ensures out == Written(View())
    {
      out := WriteRecords(State(gateList, symbolList, fecList, M, I, L, O, A,
                                piList, poList, aigList, floatingList, unUsedList));
    }

    /** `readCircuit` into a new manager. */
    constructor ReadCircuit(aag: Aag)
      requires WellFormed(aag)
      ensures View() == Read(aag)
    {
      var net, pis, pos, aigs := BuildTable(aag);
      gateList := net;
      symbolList := map[];
      fecList := [];
      M, I, L, O, A := aag.m, aag.i, aag.l, aag.o, aag.a;
      piList, poList, aigList := pis, pos, aigs;
      floatingList, unUsedList := [], [];
      new;
      ghost var s0 := View();
      assert s0 == State(Linking(aag), map[], [], aag.m, aag.i, aag.l, aag.o, aag.a,
                         PIIds(aag), POIds(aag), AigIds(aag), [], []);
      SetFloatingList(false);
      SetUnUsedList(false);
      assert View() == WithUnused(WithFloating(s0, false), false);
      symbolList := NameSymbols(map[], piList, poList, aag.symbols);
    }
  }

  /** The creation and linking loops of `readCircuit`. */
  method BuildTable(aag: Aag) returns (net: Net, pis: seq<nat>, pos: seq<nat>, aigs: seq<nat>)
    requires WellFormed(aag)
    ensures net == Linking(aag)
    ensures pis == PIIds(aag) && pos == POIds(aag) && aigs == AigIds(aag)
  {
    net, pis, pos, aigs := PlaceGates(aag);
    BuiltFacts(aag);
    net := LinkList(net, aigs);
    net := LinkList(net, pos);
  }

  /** The three creation loops of `readCircuit`: the constant, then one PI per input
      line, one PO per output line and one AIG per AND line, with their id lists. */
  method PlaceGates(aag: Aag) returns (net: Net, pis: seq<nat>, pos: seq<nat>, aigs: seq<nat>)
    requires WellFormed(aag)
    ensures net == Built(aag)
    ensures pis == PIIds(aag) && pos == POIds(aag) && aigs == AigIds(aag)
  {
    net, pis := PlaceInputs(aag);
    net, pos := PlaceOutputs(aag, net);
    net, aigs := PlaceAnds(aag, net);
    assert Creations(aag)[..aag.i + aag.o + aag.a] == Creations(aag);
  }

  /** The input loop: gate `c / 2` on line `k + 2` for the literal `c` of input `k`. */
  method PlaceInputs(aag: Aag) returns (net: Net, pis: seq<nat>)
    requires WellFormed(aag)
    ensures net == Stored(map[0 := NewConst()], Creations(aag)[..aag.i]) && pis == PIIds(aag)
  {
    ghost var es := Creations(aag);
    var net0 := map[0 := NewConst()];
    net, pis := net0, [];
    var line := 1;
    var k := 0;
    while k < aag.i
      invariant 0 <= k <= aag.i && line == k + 1
      invariant net == Stored(net0, es[..k]) && pis == PIIds(aag)[..k]
    {
      InputAt(aag, k);
      StoredSnoc(net0, es, k);
      var c := aag.inputs[k];
      line := line + 1;
      net := net[c / 2 := NewPI(c / 2, line)];
      pis := pis + [c / 2];
      k := k + 1;
    }
  }

  /** The output loop: gate `M + j` on line `I + j + 1` reading the literal of output `j` (from 1). */
  method PlaceOutputs(aag: Aag, net0: Net) returns (net: Net, pos: seq<nat>)
    requires WellFormed(aag) && net0 == Stored(map[0 := NewConst()], Creations(aag)[..aag.i])
    ensures net == Stored(map[0 := NewConst()], Creations(aag)[..aag.i + aag.o]) && pos == POIds(aag)
  {
    net, pos := net0, [];
    var line := aag.i + 1;
    var j := 1;
    while j <= aag.o
      invariant 1 <= j <= aag.o + 1 && line == aag.i + j
      invariant net == Stored(map[0 := NewConst()], Creations(aag)[..aag.i + j - 1])
      invariant pos == POIds(aag)[..j - 1]
    {
      line := line + 1;
      PlaceOutputStep(aag, j - 1, aag.m + j, line, net, pos);
      net := net[aag.m + j := NewPO(aag.m + j, line, aag.outputs[j - 1])];
      pos := pos + [aag.m + j];
      j := j + 1;
    }
    assert POIds(aag)[..aag.o] == POIds(aag);
  }

  /** The AND loop: gate `lhs / 2` on line `I + O + k + 2` reading `rhs0` and `rhs1`. */
  method PlaceAnds(aag: Aag, net0: Net) returns (net: Net, aigs: seq<nat>)
    requires WellFormed(aag) && net0 == Stored(map[0 := NewConst()], Creations(aag)[..aag.i + aag.o])
    ensures net == Stored(map[0 := NewConst()], Creations(aag)[..aag.i + aag.o + aag.a]) && aigs == AigIds(aag)
  {
    net, aigs := net0, [];
    var line := aag.i + aag.o + 1;
    var k := 0;
    assert AigIds(aag)[..0] == [];
    while k < aag.a
      invariant 0 <= k <= aag.a && line == |aag.inputs| + |aag.outputs| + k + 1
      invariant AndsPlaced(aag, k, net, aigs)
    {
      line := line + 1;
      net, aigs := PlaceAnd(aag, k, line, net, aigs);
      k := k + 1;
    }
    assert AigIds(aag)[..aag.a] == AigIds(aag);
  }

  /** One pass of the AND loop: AND line `k` becomes gate `lhs / 2` on line `line`,
      which is then listed. */
  method PlaceAnd(aag: Aag, k: nat, line: nat, net: Net, aigs: seq<nat>) returns (net': Net, aigs': seq<nat>)
    requires k < |aag.ands| && line == |aag.inputs| + |aag.outputs| + k + 2 && AndsPlaced(aag, k, net, aigs)
    ensures AndsPlaced(aag, k + 1, net', aigs')
  {
    var r := aag.ands[k];
    AndAt(aag, k);
    StoredSnoc(map[0 := NewConst()], Creations(aag), |aag.inputs| + |aag.outputs| + k);
    assert AigIds(aag)[..k + 1] == AigIds(aag)[..k] + [AigIds(aag)[k]];
    net' := net[r.lhs / 2 := NewAig(r.lhs / 2, line, r.rhs0, r.rhs1)];
    aigs' := aigs + [r.lhs / 2];
  }

  /** One linking loop of `readCircuit`: `connectLinks` on each listed gate. */
  method LinkList(net: Net, ids: seq<nat>) returns (r: Net)
    requires Shaped(net) && forall k :: 0 <= k < |ids| ==> ids[k] in net
    ensures r == LinkAll(net, ids)
  {
    r := net;
    var k := 0;
    while k < |ids|
      invariant 0 <= k <= |ids| && r == LinkAll(net, ids[..k])
    {
      LinkAllSnoc(net, ids, k);
      r := ConnectLinks(r, ids[k]);
      k := k + 1;
    }
    assert ids[..k] == ids;
  }

  /** The symbol loop of `readCircuit`. */
  method NameSymbols(syms: map<nat, string>, pis: seq<nat>, pos: seq<nat>, recs: seq<SymRec>)
    returns (r: map<nat, string>)
    ensures r == Named(syms, pis, pos, recs)
  {
    r := syms;
    var k := 0;
    while k < |recs|
      invariant 0 <= k <= |recs| && r == Named(syms, pis, pos, recs[..k])
    {
      assert recs[..k + 1][..k] == recs[..k];
      var rec := recs[k];
      if Aims(pis, pos, rec) {
        r := r[SymTarget(pis, pos, rec) := rec.name];
      }
      k := k + 1;
    }
    assert recs[..k] == recs;
  }

  /** The body of `writeAag` on the manager's state `s`. */
  method WriteRecords(s: State) returns (out: Aag)
    requires WriteReady(s)
    ensures out == Written(s)
  {
    var used := CollectUsed(s.gateList, s.aigList);
    UsedIdsMembers(s.gateList, s.aigList);
    var inputs := WriteInputs(s.piList);
    var outputs := WriteOutputs(s.gateList, s.poList);
    var ands := WriteAnds(s.gateList, used);
    var isyms := WriteSymbols(s.symbolList, s.piList, 'i');
    var osyms := WriteSymbols(s.symbolList, s.poList, 'o');
    out := Aag(s.M, s.I, s.L, s.O, |used|, inputs, outputs, ands, isyms + osyms);
  }

  /** The loop of `writeAag` that builds `DFSAigList`. */
  method CollectUsed(net: Net, ids: seq<nat>) returns (used: seq<nat>)
    requires forall x :: x in ids ==> x in net
    ensures used == UsedIds(net, ids)
  {
    used := [];
    var k := 0;
    while k < |ids|
      invariant 0 <= k <= |ids| && used == UsedIds(net, ids[..k])
    {
      assert ids[..k + 1][..k] == ids[..k];
      if !UnUsed(net[ids[k]]) {
        used := used + [ids[k]];
      }
      k := k + 1;
    }
    assert ids[..k] == ids;
  }

  /** The PI lines: `2 * id` for each PI. */
  method WriteInputs(pis: seq<nat>) returns (lines: seq<nat>)
    ensures lines == seq(|pis|, k requires 0 <= k < |pis| => 2 * pis[k])
  {
    lines := [];
    var k := 0;
    while k < |pis|
      invariant 0 <= k <= |pis| && |lines| == k
      invariant forall j :: 0 <= j < k ==> lines[j] == 2 * pis[j]
    {
      lines := lines + [2 * pis[k]];
      k := k + 1;
    }
  }

  /** The PO lines: the literal of each PO's fanin. */
  method WriteOutputs(net: Net, pos: seq<nat>) returns (lines: seq<nat>)
    requires forall x :: x in pos ==> x in net && |net[x].fanin| >= 1
    ensures lines == seq(|pos|, k requires 0 <= k < |pos| => FaninLiteral(net[pos[k]], 0))
  {
    lines := [];
    var k := 0;
    while k < |pos|
      invariant 0 <= k <= |pos| && |lines| == k
      invariant forall j :: 0 <= j < k ==> lines[j] == FaninLiteral(net[pos[j]], 0)
    {
      lines := lines + [FaninLiteral(net[pos[k]], 0)];
      k := k + 1;
    }
  }

  /** The AND lines of the gates of `used`. */
  method WriteAnds(net: Net, used: seq<nat>) returns (lines: seq<AndRec>)
    requires forall x :: x in used ==> x in net && |net[x].fanin| >= 2
    ensures lines == seq(|used|, k requires 0 <= k < |used| => AndLine(net[used[k]]))
  {
    lines := [];
    var k := 0;
    while k < |used|
      invariant 0 <= k <= |used| && |lines| == k
      invariant forall j :: 0 <= j < k ==> lines[j] == AndLine(net[used[j]])
    {
      var g := net[used[k]];
      lines := lines + [AndRec(2 * g.id, FaninLiteral(g, 0), FaninLiteral(g, 1))];
      k := k + 1;
    }
  }

  /** The symbol loop of `writeAag` over one list. */
  method WriteSymbols(syms: map<nat, string>, ids: seq<nat>, head: char) returns (lines: seq<SymRec>)
    ensures lines == SymLines(syms, ids, head)
  {
    lines := [];
    var k := 0;
    while k < |ids|
      invariant 0 <= k <= |ids| && lines == SymLines(syms, ids[..k], head)
    {
      assert ids[..k + 1][..k] == ids[..k];
      var name := if ids[k] in syms then syms[ids[k]] else "";
      if name != "" {
        lines := lines + [SymRec(head, k, name)];
      }
      k := k + 1;
    }
    assert ids[..k] == ids;
  }
}
