/** The edge mutators of `CirGate`: each gate's fanin and fanout vectors and the
    neighbour updates that keep them in step.  A gate table is a value (`Net`);
    an operation that reaches into neighbouring gates returns the new table. */
module Topology {
  import opened Lists
  import opened CirGate

  /** The order `::sort` puts a fanout list in: by packed word. */
  function Key(e: Edge): int
  {
    Word(e)
  }

  // ---------------------------------------------------------------------------
  // One gate's lists

  /** The fanout list after `addFanout(p)`. */
  function AddedFanout(fo: seq<Edge>, p: Edge): seq<Edge>
  {
    if p in fo then fo else SortBy(fo + [p], Key)
  }

  /** `addFanout` adds exactly `p`, and never a second copy. */
  lemma AddedFanoutFacts(fo: seq<Edge>, p: Edge)
    ensures p in AddedFanout(fo, p)
    ensures forall q :: q in AddedFanout(fo, p) <==> q in fo || q == p
    ensures NoDup(fo) ==> NoDup(AddedFanout(fo, p))
    ensures p !in fo ==> multiset(AddedFanout(fo, p)) == multiset(fo) + multiset{p}
  {
    if p !in fo {
      var r := AddedFanout(fo, p);
      assert multiset(r) == multiset(fo) + multiset{p};
      forall q ensures q in r <==> q in fo || q == p {
        assert q in r <==> multiset(r)[q] > 0;
        assert q in fo <==> multiset(fo)[q] > 0;
      }
      if NoDup(fo) {
        forall x ensures multiset(r)[x] <= 1 {
          NoDupCount(fo, x);
        }
        CountNoDup(r);
      }
    }
  }

  /** `addFanout(p)`: refuses an entry already present; otherwise appends it and
      sorts the list. */
  method AddFanout(fo: seq<Edge>, p: Edge) returns (added: bool, r: seq<Edge>)
    ensures added <==> p !in fo
    ensures !added ==> r == fo
    ensures added ==> SortedBy(r, Key) && multiset(r) == multiset(fo) + multiset{p}
    ensures r == AddedFanout(fo, p)
  {
    var i := 0;
    while i < |fo|
      invariant 0 <= i <= |fo|
      invariant p !in fo[..i]
    {
      if fo[i] == p {
        return false, fo;
      }
      i := i + 1;
    }
    assert fo[..i] == fo;
    r := SortBy(fo + [p], Key);
    added := true;
  }

  /** `delFanout(p)`: erases the first entry equal to `p`, if any. */
  method DelFanout(fo: seq<Edge>, p: Edge) returns (r: seq<Edge>)
    ensures p !in fo ==> r == fo
    ensures p in fo ==> multiset(r) == multiset(fo) - multiset{p}
    ensures r == DelFirst(fo, p)
  {
    var i := 0;
    while i < |fo|
      invariant 0 <= i <= |fo|
      invariant p !in fo[..i]
    {
      if fo[i] == p {
        assert IndexOf(fo, p) == i by {
          assert forall j :: 0 <= j < i ==> fo[j] != p by {
            assert forall j :: 0 <= j < i ==> fo[j] == fo[..i][j];
          }
        }
        DelFirstCounts(fo, p);
        return fo[..i] + fo[i + 1..];
      }
      i := i + 1;
    }
    assert fo[..i] == fo;
    r := fo;
  }

  /** `changeFanin(from, to)`: the first entry equal to `from` becomes `to`, or is
      erased when `from == to`. */
  method ChangeFanin(fi: seq<Edge>, from: Edge, to: Edge) returns (r: seq<Edge>)
    ensures from !in fi ==> r == fi
    ensures from in fi && from != to ==> |r| == |fi| && to in r
    ensures forall q :: q in fi && q != from ==> q in r
    ensures r == ChangeFirst(fi, from, to)
  {
    var i := 0;
    while i < |fi|
      invariant 0 <= i <= |fi|
      invariant from !in fi[..i]
    {
      if fi[i] == from {
        assert IndexOf(fi, from) == i by {
          assert forall j :: 0 <= j < i ==> fi[j] != from by {
            assert forall j :: 0 <= j < i ==> fi[j] == fi[..i][j];
          }
        }
        if from == to {
          r := fi[..i] + fi[i + 1..];
        } else {
          r := fi[i := to];
          assert r[i] == to;
        }
        forall q | q in fi && q != from ensures q in r {
          ChangeFirstKeeps(fi, from, to, q);
        }
        return;
      }
      i := i + 1;
    }
    assert fi[..i] == fi;
    r := fi;
  }

  /** `floating()`: some fanin is still an unresolved literal. */
  method Floating(g: Gate) returns (b: bool)
    ensures b <==> exists i :: 0 <= i < |g.fanin| && g.fanin[i].Float?
  {
    var i := 0;
    while i < |g.fanin|
      invariant 0 <= i <= |g.fanin|
      invariant forall j :: 0 <= j < i ==> !g.fanin[j].Float?
    {
      if g.fanin[i].Float? {
        return true;
      }
      i := i + 1;
    }
    return false;
  }

  /** The predicate `floating()` decides. */
  predicate HasFloat(g: Gate)
  {
    exists i :: 0 <= i < |g.fanin| && g.fanin[i].Float?
  }

  // ---------------------------------------------------------------------------
  // checkOpt

  /** `checkOpt()`: the local simplification an AND gate admits, tested in the
      source's order on the literals of its two fanins. */
  function CheckOpt(g: Gate): (o: Opt)
    requires |g.fanin| >= 2
    ensures o == X_0 <==> FaninLiteral(g, 0) == 0
    ensures o == X_1 <==> FaninLiteral(g, 0) == 1
    ensures o in {X_X, X_nX} <==> FaninLiteral(g, 0) >= 2 && FaninLiteral(g, 0) / 2 == FaninLiteral(g, 1) / 2
  {
    var l0 := FaninLiteral(g, 0);
    var l1 := FaninLiteral(g, 1);
    if l0 == 0 then X_0
    else if l0 == 1 then X_1
    else if l0 / 2 == l1 / 2 then (if l0 == l1 then X_X else X_nX)
    else X_Y
  }

  /** The value of literal `l` under an assignment of gate ids to Booleans. */
  function LitVal(v: nat -> bool, l: nat): bool
  {
    if l % 2 == 1 then !v(l / 2) else v(l / 2)
  }

  /** What each class means: under any assignment that gives the constant gate
      (id 0) the value false, the AND of the two fanin literals is FALSE for X_0
      and X_nX, equals the second literal for X_1, and the first for X_X. */
  lemma CheckOptSound(g: Gate, v: nat -> bool)
    requires |g.fanin| >= 2
    requires !v(0)
    ensures var l0, l1 := FaninLiteral(g, 0), FaninLiteral(g, 1);
      var out := LitVal(v, l0) && LitVal(v, l1);
      && (CheckOpt(g) == X_0 ==> !out)
      && (CheckOpt(g) == X_1 ==> out == LitVal(v, l1))
      && (CheckOpt(g) == X_X ==> out == LitVal(v, l0))
      && (CheckOpt(g) == X_nX ==> !out)
  {
    var l0, l1 := FaninLiteral(g, 0), FaninLiteral(g, 1);
    if CheckOpt(g) == X_nX {
      assert l0 / 2 == l1 / 2 && l0 != l1;
      assert l0 % 2 != l1 % 2;
    }
  }

  // ---------------------------------------------------------------------------
  // Neighbour updates on the gate table

  /** The ids a list of edges reaches through live edges. */
  function LiveIds(es: seq<Edge>): set<nat>
  {
    set e | e in es && e.Live? :: e.id
  }

  /** `net[id]->delFanout(p)`; a missing gate is left alone. */
  function DelFanoutAt(net: Net, id: nat, p: Edge): Net
  {
    if id in net then net[id := net[id].(fanout := DelFirst(net[id].fanout, p))] else net
  }

  /** `net[id]->addFanout(p)`. */
  function AddFanoutAt(net: Net, id: nat, p: Edge): Net
  {
    if id in net then net[id := net[id].(fanout := AddedFanout(net[id].fanout, p))] else net
  }

  /** `net[id]->changeFanin(from, to)`. */
  function ChangeFaninAt(net: Net, id: nat, from: Edge, to: Edge): Net
  {
    if id in net then net[id := net[id].(fanin := ChangeFirst(net[id].fanin, from, to))] else net
  }

  /** Only fanout lists differ between `a` and `b`. */
  ghost predicate SameFanins(a: Net, b: Net)
  {
    a.Keys == b.Keys && forall x :: x in a ==> b[x] == a[x].(fanout := b[x].fanout)
  }

  /** Only fanin and fanout lists differ between `a` and `b`. */
  ghost predicate SameGates(a: Net, b: Net)
  {
    a.Keys == b.Keys && forall x :: x in a ==> b[x] == a[x].(fanin := b[x].fanin, fanout := b[x].fanout)
  }

  ghost predicate FanoutsNoDup(net: Net)
  {
    forall x :: x in net ==> NoDup(net[x].fanout)
  }

  /** Every live fanin edge `x -> (c, s)` is registered as `(x, s)` in the fanout of `c`. */
  ghost predicate FaninsBacked(net: Net)
  {
    forall x, e :: x in net && e in net[x].fanin && e.Live? ==>
      e.id in net && Live(x, e.inv) in net[e.id].fanout
  }

  /** Every fanout entry `(x, s)` of `c` is a live edge to a gate `x` whose fanin holds `(c, s)`. */
  ghost predicate FanoutsBacked(net: Net)
  {
    forall c, e :: c in net && e in net[c].fanout ==>
      e.Live? && e.id in net && Live(c, e.inv) in net[e.id].fanin
  }

  /** Fanin/fanout consistency: the two directions of every edge agree, and no
      fanout list holds an entry twice. */
  ghost predicate Consistent(net: Net)
  {
    FaninsBacked(net) && FanoutsBacked(net) && FanoutsNoDup(net)
  }

  // ---------------------------------------------------------------------------
  // clearFanin

  /** `n` is `net` with exactly the fanout entries `(me, s)` of each fanin `(x, s)`
      in `fi` removed. */
  ghost predicate Detached(net: Net, n: Net, me: nat, fi: seq<Edge>)
  {
    forall x, q :: x in net && x in n ==>
      (q in n[x].fanout <==> q in net[x].fanout && !(q.Live? && q.id == me && Live(x, q.inv) in fi))
  }

  /** The table after `clearFanin` has visited the fanin edges `fi` of gate `me`. */
  function ClearSteps(net: Net, me: nat, fi: seq<Edge>): (r: Net)
    ensures r.Keys == net.Keys
    decreases |fi|
  {
    if fi == [] then net
    else
      var n := ClearSteps(net, me, fi[..|fi| - 1]);
      var e := fi[|fi| - 1];
      if e.Live? then DelFanoutAt(n, e.id, Live(me, e.inv)) else n
  }

  lemma DetachedAt(net: Net, n: Net, me: nat, fi: seq<Edge>, x: nat, q: Edge)
    requires Detached(net, n, me, fi)
    requires x in net && x in n
    ensures q in n[x].fanout <==> q in net[x].fanout && !(q.Live? && q.id == me && Live(x, q.inv) in fi)
  {
  }

  /** `clearFanin` changes fanout lists only, and removes from each fanout list
      exactly the entries `(me, s)` whose gate is a fanin `(x, s)` of `me`. */
  lemma ClearStepsEffect(net: Net, me: nat, fi: seq<Edge>)
    requires FanoutsNoDup(net)
    ensures SameFanins(net, ClearSteps(net, me, fi))
    ensures FanoutsNoDup(ClearSteps(net, me, fi))
    ensures Detached(net, ClearSteps(net, me, fi), me, fi)
  {
    var r := ClearPrefix(net, me, fi, |fi|);
    assert fi[..|fi|] == fi;
  }

  /** `ClearStepsEffect` for the first `n` fanin edges, by induction on `n`; `r` is
      the table they leave. */
  lemma {:induction false} ClearPrefix(net: Net, me: nat, fi: seq<Edge>, n: nat) returns (r: Net)
    requires FanoutsNoDup(net) && n <= |fi|
    ensures r == ClearSteps(net, me, fi[..n])
    ensures SameFanins(net, r) && FanoutsNoDup(r) && Detached(net, r, me, fi[..n])
  {
    if n == 0 {
      assert fi[..0] == [];
      r := net;
    } else {
      var p := ClearPrefix(net, me, fi, n - 1);
      var e := fi[n - 1];
      assert fi[..n][..n - 1] == fi[..n - 1];
      assert fi[..n] == fi[..n - 1] + [e];
      r := ClearStep(net, p, me, fi[..n - 1], e);
    }
  }

  /** One pass of the `clearFanin` loop, for the fanin edge `e` after `fi`. */
  lemma ClearStep(net: Net, p: Net, me: nat, fi: seq<Edge>, e: Edge) returns (r: Net)
    requires SameFanins(net, p) && FanoutsNoDup(p) && Detached(net, p, me, fi)
    ensures r == if e.Live? then DelFanoutAt(p, e.id, Live(me, e.inv)) else p
    ensures SameFanins(net, r) && FanoutsNoDup(r) && Detached(net, r, me, fi + [e])
  {
    r := if e.Live? then DelFanoutAt(p, e.id, Live(me, e.inv)) else p;
    if e.Live? && e.id in p {
      DelFirstNoDup(p[e.id].fanout, Live(me, e.inv));
    }
  }

  /** `clearFanin()`: detaches gate `me` from the fanout of each of its live fanin
      children; its own fanin list is left as it is. */
  method ClearFanin(net: Net, me: nat) returns (r: Net)
    requires me in net
    ensures r == ClearSteps(net, me, net[me].fanin)
    ensures FanoutsNoDup(net) ==> SameFanins(net, r) && FanoutsNoDup(r)
    ensures FanoutsNoDup(net) ==> forall x, s :: x in net && Live(x, s) in net[me].fanin ==>
      Live(me, s) !in r[x].fanout
  {
    var fi := net[me].fanin;
    r := net;
    var i := 0;
    while i < |fi|
      invariant 0 <= i <= |fi|
      invariant r == ClearSteps(net, me, fi[..i])
    {
      var e := fi[i];
      assert fi[..i + 1][..i] == fi[..i];
      if e.Live? && e.id in r {
        var fo := DelFanout(r[e.id].fanout, Live(me, e.inv));
        r := r[e.id := r[e.id].(fanout := fo)];
      }
      i := i + 1;
    }
    assert fi[..i] == fi;
    if FanoutsNoDup(net) {
      ClearStepsEffect(net, me, fi);
    }
  }

  /** Removing an unused gate after `clearFanin` (what `removeGate` does) keeps
      the table consistent. */
  lemma RemoveUnusedKeepsConsistent(net: Net, me: nat)
    requires Consistent(net)
    requires me in net && UnUsed(net[me])
    ensures Consistent(ClearSteps(net, me, net[me].fanin) - {me})
  {
    var fi := net[me].fanin;
    ClearStepsEffect(net, me, fi);
    var n := ClearSteps(net, me, fi);
    RemoveFaninsBacked(net, me, n);
    RemoveFanoutsBacked(net, me, n);
    var r := n - {me};
    forall x | x in r ensures NoDup(r[x].fanout) {
      assert r[x] == n[x];
    }
  }

  lemma RemoveFaninsBacked(net: Net, me: nat, n: Net)
    requires FaninsBacked(net)
    requires me in net && UnUsed(net[me])
    requires SameFanins(net, n)
    requires Detached(net, n, me, net[me].fanin)
    ensures FaninsBacked(n - {me})
  {
    var r := n - {me};
    forall x, e | x in r && e in r[x].fanin && e.Live?
      ensures e.id in r && Live(x, e.inv) in r[e.id].fanout
    {
      assert x in net && r[x] == n[x];
      assert e in net[x].fanin;
      assert Live(x, e.inv) in net[e.id].fanout;
      assert e.id != me;
    }
  }

  lemma RemoveFanoutsBacked(net: Net, me: nat, n: Net)
    requires FanoutsBacked(net)
    requires me in net
    requires SameFanins(net, n)
    requires Detached(net, n, me, net[me].fanin)
    ensures FanoutsBacked(n - {me})
  {
    var r := n - {me};
    forall c, e | c in r && e in r[c].fanout
      ensures e.Live? && e.id in r && Live(c, e.inv) in r[e.id].fanin
    {
      assert c in net && r[c] == n[c];
      DetachedAt(net, n, me, net[me].fanin, c, e);
      assert Live(c, e.inv) in net[e.id].fanin;
      assert e.id != me;
    }
  }

  // ---------------------------------------------------------------------------
  // mergeInto

  /** One iteration of the fanin loop of `mergeInto(host)`: the child `(c, s)`
      loses `(me, s)` from its fanout and gains `(host, s)`. */
  function MergeFaninStep(net: Net, me: nat, host: nat, e: Edge): Net
  {
    if e.Live? then AddFanoutAt(DelFanoutAt(net, e.id, Live(me, e.inv)), e.id, Live(host, e.inv)) else net
  }

  /** The fanin half of `mergeInto(host)` over the fanin edges `fi` of `me`. */
  function MergeFaninSteps(net: Net, me: nat, host: nat, fi: seq<Edge>): (r: Net)
    ensures r.Keys == net.Keys
    decreases |fi|
  {
    if fi == [] then net
    else MergeFaninStep(MergeFaninSteps(net, me, host, fi[..|fi| - 1]), me, host, fi[|fi| - 1])
  }

  /** `n` is `net` with each fanout entry `(me, s)` of a child `(x, s)` in `fi`
      replaced by `(host, s)`. */
  ghost predicate Rehosted(net: Net, n: Net, me: nat, host: nat, fi: seq<Edge>)
  {
    forall x :: x in net && x in n ==> RehostedGate(net[x], n[x], x, me, host, fi)
  }

  /** `Rehosted` for the gate `x`, which was `a` and is now `b`. */
  ghost predicate RehostedGate(a: Gate, b: Gate, x: nat, me: nat, host: nat, fi: seq<Edge>)
  {
    forall q :: q in b.fanout <==>
      (q in a.fanout && !(q.Live? && q.id == me && Live(x, q.inv) in fi))
      || (q.Live? && q.id == host && Live(x, q.inv) in fi)
  }

  lemma RehostedAt(net: Net, n: Net, me: nat, host: nat, fi: seq<Edge>, x: nat, q: Edge)
    requires Rehosted(net, n, me, host, fi)
    requires x in net && x in n
    ensures q in n[x].fanout <==>
      (q in net[x].fanout && !(q.Live? && q.id == me && Live(x, q.inv) in fi))
      || (q.Live? && q.id == host && Live(x, q.inv) in fi)
  {
  }

  /** One step keeps the shape of the table and its duplicate-free fanouts, and
      touches only the child it names. */
  lemma MergeFaninStepShape(n: Net, me: nat, host: nat, e: Edge)
    requires FanoutsNoDup(n)
    ensures SameFanins(n, MergeFaninStep(n, me, host, e))
    ensures FanoutsNoDup(MergeFaninStep(n, me, host, e))
    ensures forall x :: x in n && !(e.Live? && x == e.id) ==> MergeFaninStep(n, me, host, e)[x] == n[x]
  {
    if e.Live? && e.id in n {
      var fo1 := DelFirst(n[e.id].fanout, Live(me, e.inv));
      DelFirstNoDup(n[e.id].fanout, Live(me, e.inv));
      AddedFanoutFacts(fo1, Live(host, e.inv));
    }
  }

  lemma MergeFaninStepRehosted(net: Net, n: Net, me: nat, host: nat, fi: seq<Edge>, e: Edge)
    requires Rehosted(net, n, me, host, fi)
    requires FanoutsNoDup(n) && n.Keys == net.Keys
    requires me != host
    ensures Rehosted(net, MergeFaninStep(n, me, host, e), me, host, fi + [e])
  {
    var n2 := MergeFaninStep(n, me, host, e);
    forall x | x in net && x in n2 ensures RehostedGate(net[x], n2[x], x, me, host, fi + [e]) {
      assert RehostedGate(net[x], n[x], x, me, host, fi);
      MergeFaninStepGate(net, n, me, host, fi, e, x);
    }
  }

  lemma MergeFaninStepGate(net: Net, n: Net, me: nat, host: nat, fi: seq<Edge>, e: Edge, x: nat)
    requires FanoutsNoDup(n) && x in n && x in net
    requires me != host
    requires RehostedGate(net[x], n[x], x, me, host, fi)
    ensures x in MergeFaninStep(n, me, host, e)
    ensures RehostedGate(net[x], MergeFaninStep(n, me, host, e)[x], x, me, host, fi + [e])
  {
    forall q ensures q in MergeFaninStep(n, me, host, e)[x].fanout <==>
        (q in net[x].fanout && !(q.Live? && q.id == me && Live(x, q.inv) in fi + [e]))
        || (q.Live? && q.id == host && Live(x, q.inv) in fi + [e])
    {
      MergeFaninStepAt(net, n, me, host, fi, e, x, q);
    }
  }

  lemma MergeFaninStepAt(net: Net, n: Net, me: nat, host: nat, fi: seq<Edge>, e: Edge, x: nat, q: Edge)
    requires FanoutsNoDup(n) && x in n && x in net
    requires me != host
    requires q in n[x].fanout <==>
      (q in net[x].fanout && !(q.Live? && q.id == me && Live(x, q.inv) in fi))
      || (q.Live? && q.id == host && Live(x, q.inv) in fi)
    ensures x in MergeFaninStep(n, me, host, e)
    ensures q in MergeFaninStep(n, me, host, e)[x].fanout <==>
        (q in net[x].fanout && !(q.Live? && q.id == me && Live(x, q.inv) in fi + [e]))
        || (q.Live? && q.id == host && Live(x, q.inv) in fi + [e])
  {
    if q.Live? {
      assert Live(x, q.inv) in fi + [e] <==> Live(x, q.inv) in fi || Live(x, q.inv) == e;
    }
    if e.Live? && x == e.id {
      var fo1 := DelFirst(n[x].fanout, Live(me, e.inv));
      DelFirstNoDup(n[x].fanout, Live(me, e.inv));
      AddedFanoutFacts(fo1, Live(host, e.inv));
    }
  }

  /** The fanin loop of `mergeInto` changes fanout lists only, leaves every gate
      that is not a child of `me` alone, and moves each child's entry `(me, s)`
      over to `(host, s)`. */
  lemma {:induction false} MergeFaninEffect(net: Net, me: nat, host: nat, fi: seq<Edge>)
    requires FanoutsNoDup(net)
    requires me != host
    ensures SameFanins(net, MergeFaninSteps(net, me, host, fi))
    ensures FanoutsNoDup(MergeFaninSteps(net, me, host, fi))
    ensures forall x :: x in net && x !in LiveIds(fi) ==> MergeFaninSteps(net, me, host, fi)[x] == net[x]
    ensures Rehosted(net, MergeFaninSteps(net, me, host, fi), me, host, fi)
    decreases |fi|
  {
    if fi == [] {
      assert Rehosted(net, net, me, host, fi);
    } else {
      var fi' := fi[..|fi| - 1];
      var e := fi[|fi| - 1];
      assert fi == fi' + [e];
      MergeFaninEffect(net, me, host, fi');
      var n := MergeFaninSteps(net, me, host, fi');
      MergeFaninStepShape(n, me, host, e);
      MergeFaninStepRehosted(net, n, me, host, fi', e);
      assert forall x :: x in LiveIds(fi') ==> x in LiveIds(fi);
      assert e.Live? ==> e.id in LiveIds(fi);
    }
  }

  /** Every entry equal to `from` replaced by `to`. */
  function Redirected(fi: seq<Edge>, from: Edge, to: Edge): seq<Edge>
  {
    seq(|fi|, i requires 0 <= i < |fi| => if fi[i] == from then to else fi[i])
  }

  /** A referrer's fanin list after it is pointed away from `from` and at `to`:
      `changeFanin` rewrites the first matching entry only; with `every` all
      matching entries are rewritten. */
  function Redirect(fi: seq<Edge>, from: Edge, to: Edge, every: bool): seq<Edge>
  {
    if every then Redirected(fi, from, to) else ChangeFirst(fi, from, to)
  }

  /** What a redirect keeps, adds and (with `every`) removes. */
  lemma RedirectFacts(fi: seq<Edge>, from: Edge, to: Edge, every: bool)
    requires from != to
    ensures forall q :: q in Redirect(fi, from, to, every) ==> q in fi || q == to
    ensures forall q :: q in fi && q != from ==> q in Redirect(fi, from, to, every)
    ensures from in fi ==> to in Redirect(fi, from, to, every)
    ensures every ==> from !in Redirect(fi, from, to, every)
  {
    var r := Redirect(fi, from, to, every);
    if every {
      forall q | q in fi && q != from ensures q in r {
        var i :| 0 <= i < |fi| && fi[i] == q;
        assert r[i] == q;
      }
      if from in fi {
        var i :| 0 <= i < |fi| && fi[i] == from;
        assert r[i] == to;
      }
    } else {
      forall q | q in r ensures q in fi || q == to {
        ChangeFirstFrom(fi, from, to, q);
      }
      forall q | q in fi && q != from ensures q in r {
        ChangeFirstKeeps(fi, from, to, q);
      }
      ChangeFirstEffect(fi, from, to);
    }
  }

  /** `net[id]->changeFanin(from, to)`, or its every-entry variant. */
  function RedirectAt(net: Net, id: nat, from: Edge, to: Edge, every: bool): Net
  {
    if id in net then net[id := net[id].(fanin := Redirect(net[id].fanin, from, to, every))] else net
  }

  /** Where the fanout loop of `mergeInto`, `replaceByConst` or `replaceByFanin`
      points each referrer of the gate being replaced. */
  datatype Rewire =
    | ToHost(host: nat)                       // `mergeInto(host)`
    | ToConst(c: nat, sign: bool)             // `replaceByConst(c, sign)`
    | ToFanin(c: nat, signIn: bool)           // `replaceByFanin`, polarities composed
    | ToFaninAsWritten(c: nat, signIn: bool)  // `replaceByFanin` as written

  /** The gate every redirected referrer now reads. */
  function Target(t: Rewire): nat
  {
    match t
    case ToHost(h) => h
    case ToConst(c, _) => c
    case ToFanin(c, _) => c
    case ToFaninAsWritten(c, _) => c
  }

  /** The edge that replaces a referrer's fanin `(me, s)`. */
  function NewFanin(t: Rewire, s: bool): (q: Edge)
    ensures q.Live? && q.id == Target(t)
  {
    match t
    case ToHost(h) => Live(h, s)
    case ToConst(c, sign) => Live(c, sign)
    case ToFanin(c, signIn) => Live(c, s != signIn)
    case ToFaninAsWritten(c, signIn) => if signIn then Live(c, !s) else Live(c, false)
  }

  /** Whether the target's fanout list is told about the referrer (`replaceByConst`
      never calls `addFanout`). */
  predicate Registers(t: Rewire)
  {
    !t.ToConst?
  }

  /** The entry the target's fanout gains for referrer `x` whose edge had polarity `s`. */
  function NewFanout(t: Rewire, x: nat, s: bool): Edge
  {
    match t
    case ToHost(_) => Live(x, s)
    case ToConst(_, sign) => Live(x, sign)
    case ToFanin(_, signIn) => Live(x, s != signIn)
    case ToFaninAsWritten(_, signIn) => Live(x, s != signIn)
  }

  /** One iteration of the fanout loop for the fanout entry `e = (x, s)` of `me`:
      `x`'s fanin `(me, s)` is redirected and, unless the target is the constant,
      the target's fanout gains the matching entry. */
  function RewireStep(net: Net, me: nat, t: Rewire, e: Edge, every: bool): Net
  {
    if e.Live? then
      var n1 := RedirectAt(net, e.id, Live(me, e.inv), NewFanin(t, e.inv), every);
      if Registers(t) then AddFanoutAt(n1, Target(t), NewFanout(t, e.id, e.inv)) else n1
    else net
  }

  /** The fanout loop over the fanout entries `fo` of `me`. */
  function RewireSteps(net: Net, me: nat, t: Rewire, fo: seq<Edge>, every: bool): (r: Net)
    ensures r.Keys == net.Keys
    decreases |fo|
  {
    if fo == [] then net
    else RewireStep(RewireSteps(net, me, t, fo[..|fo| - 1], every), me, t, fo[|fo| - 1], every)
  }

  /** The entries the target's fanout is given, in loop order. */
  function Entries(t: Rewire, fo: seq<Edge>): seq<Edge>
    decreases |fo|
  {
    if fo == [] then []
    else
      var e := fo[|fo| - 1];
      Entries(t, fo[..|fo| - 1]) + (if e.Live? then [NewFanout(t, e.id, e.inv)] else [])
  }

  /** For `mergeInto` the host is given exactly the live fanout entries of `me`. */
  lemma {:induction false} EntriesHost(host: nat, fo: seq<Edge>)
    ensures forall q :: q in Entries(ToHost(host), fo) <==> q in fo && q.Live?
    decreases |fo|
  {
    if fo != [] {
      var fo' := fo[..|fo| - 1];
      assert fo == fo' + [fo[|fo| - 1]];
      EntriesHost(host, fo');
    }
  }

  /** Each live referrer `(x, s)` has its entry among those given to the target. */
  lemma {:induction false} EntriesCover(t: Rewire, fo: seq<Edge>)
    ensures forall x, s :: Live(x, s) in fo ==> NewFanout(t, x, s) in Entries(t, fo)
    decreases |fo|
  {
    if fo != [] {
      var fo' := fo[..|fo| - 1];
      assert fo == fo' + [fo[|fo| - 1]];
      EntriesCover(t, fo');
    }
  }

  lemma RedirectAtShape(n: Net, id: nat, from: Edge, to: Edge, every: bool)
    ensures SameGates(n, RedirectAt(n, id, from, to, every))
    ensures forall x :: x in n ==> RedirectAt(n, id, from, to, every)[x].fanout == n[x].fanout
    ensures forall x :: x in n && x != id ==> RedirectAt(n, id, from, to, every)[x].fanin == n[x].fanin
  {
  }

  lemma AddFanoutAtShape(n: Net, id: nat, p: Edge)
    requires FanoutsNoDup(n)
    ensures SameGates(n, AddFanoutAt(n, id, p))
    ensures FanoutsNoDup(AddFanoutAt(n, id, p))
    ensures forall x :: x in n && x != id ==> AddFanoutAt(n, id, p)[x] == n[x]
    ensures id in n ==> AddFanoutAt(n, id, p)[id].fanin == n[id].fanin
    ensures id in n ==> forall q :: q in AddFanoutAt(n, id, p)[id].fanout <==> q in n[id].fanout || q == p
  {
    if id in n {
      AddedFanoutFacts(n[id].fanout, p);
    }
  }

  lemma RewireStepShape(n: Net, me: nat, t: Rewire, e: Edge, every: bool)
    requires FanoutsNoDup(n)
    ensures SameGates(n, RewireStep(n, me, t, e, every))
    ensures FanoutsNoDup(RewireStep(n, me, t, e, every))
    ensures forall x :: x in n && x != Target(t) ==> RewireStep(n, me, t, e, every)[x].fanout == n[x].fanout
    ensures Target(t) in n ==> forall q :: q in RewireStep(n, me, t, e, every)[Target(t)].fanout <==>
      q in n[Target(t)].fanout || (Registers(t) && e.Live? && q == NewFanout(t, e.id, e.inv))
    ensures forall x :: x in n && !(e.Live? && x == e.id) ==>
      RewireStep(n, me, t, e, every)[x].fanin == n[x].fanin
  {
    if e.Live? {
      var n1 := RedirectAt(n, e.id, Live(me, e.inv), NewFanin(t, e.inv), every);
      RedirectAtShape(n, e.id, Live(me, e.inv), NewFanin(t, e.inv), every);
      assert FanoutsNoDup(n1);
      if Registers(t) {
        AddFanoutAtShape(n1, Target(t), NewFanout(t, e.id, e.inv));
      }
    }
  }

  /** The fanout loop changes edges only: the fanout lists of gates other than the
      target stay, the target gains exactly `Entries(t, fo)` (nothing for the
      constant), and only the referrers named in `fo` have their fanin touched. */
  lemma {:induction false} RewireShape(net: Net, me: nat, t: Rewire, fo: seq<Edge>, every: bool)
    requires FanoutsNoDup(net)
    ensures SameGates(net, RewireSteps(net, me, t, fo, every))
    ensures FanoutsNoDup(RewireSteps(net, me, t, fo, every))
    ensures forall x :: x in net && x != Target(t) ==> RewireSteps(net, me, t, fo, every)[x].fanout == net[x].fanout
    ensures Target(t) in net ==> forall q :: q in RewireSteps(net, me, t, fo, every)[Target(t)].fanout <==>
      q in net[Target(t)].fanout || (Registers(t) && q in Entries(t, fo))
    ensures forall x :: x in net && x !in LiveIds(fo) ==> RewireSteps(net, me, t, fo, every)[x].fanin == net[x].fanin
    decreases |fo|
  {
    if fo != [] {
      var fo' := fo[..|fo| - 1];
      var e := fo[|fo| - 1];
      assert fo == fo' + [e];
      RewireShape(net, me, t, fo', every);
      var n := RewireSteps(net, me, t, fo', every);
      RewireStepShape(n, me, t, e, every);
      assert forall x :: x in LiveIds(fo') ==> x in LiveIds(fo);
      assert e.Live? ==> e.id in LiveIds(fo);
    }
  }

  /** What the fanout loop does to fanin lists: it only ever adds edges to the target,
      keeps every edge that is not to `me`, and a referrer `(x, s)` whose fanin held
      `(me, s)` ends up holding `NewFanin(t, s)`. */
  ghost predicate GainsOnlyHost(net: Net, n: Net, host: nat)
  {
    forall x, q :: x in net && x in n && q in n[x].fanin ==> q in net[x].fanin || (q.Live? && q.id == host)
  }

  ghost predicate KeepsOthers(net: Net, n: Net, me: nat)
  {
    forall x, q :: x in net && x in n && q in net[x].fanin && !(q.Live? && q.id == me) ==> q in n[x].fanin
  }

  ghost predicate Rehomed(net: Net, n: Net, me: nat, t: Rewire, fo: seq<Edge>)
  {
    forall x, s :: x in net && x in n && Live(me, s) in net[x].fanin ==>
      (Live(x, s) in fo || Live(me, s) !in n[x].fanin) ==> NewFanin(t, s) in n[x].fanin
  }

  /** How one fanout step `n -> n2` changes fanin lists. */
  ghost predicate StepFanins(n: Net, n2: Net, me: nat, t: Rewire, e: Edge, every: bool)
  {
    && n2.Keys == n.Keys
    && (forall x, q :: x in n && q in n2[x].fanin ==> q in n[x].fanin || (q.Live? && q.id == Target(t)))
    && (forall x, q :: x in n && q in n[x].fanin && !(e.Live? && x == e.id && q == Live(me, e.inv)) ==>
          q in n2[x].fanin)
    && (e.Live? && e.id in n && Live(me, e.inv) in n[e.id].fanin ==> NewFanin(t, e.inv) in n2[e.id].fanin)
    && (every && e.Live? && e.id in n ==> Live(me, e.inv) !in n2[e.id].fanin)
  }

  lemma RewireStepFanins(n: Net, me: nat, t: Rewire, e: Edge, every: bool)
    requires me != Target(t)
    ensures StepFanins(n, RewireStep(n, me, t, e, every), me, t, e, every)
  {
    if e.Live? {
      var from, to := Live(me, e.inv), NewFanin(t, e.inv);
      var n1 := RedirectAt(n, e.id, from, to, every);
      var n2 := RewireStep(n, me, t, e, every);
      if Registers(t) {
        AddFanoutKeepsFanins(n1, Target(t), NewFanout(t, e.id, e.inv));
      }
      RedirectAtFanins(n, e.id, from, to, every);
      if e.id in n {
        RedirectFacts(n[e.id].fanin, from, to, every);
      }
    }
  }

  /** Adding a fanout entry leaves every fanin list as it was. */
  lemma AddFanoutKeepsFanins(net: Net, id: nat, p: Edge)
    ensures AddFanoutAt(net, id, p).Keys == net.Keys
    ensures forall x :: x in net ==> AddFanoutAt(net, id, p)[x].fanin == net[x].fanin
  {
  }

  /** Redirecting within gate `id` changes that gate's fanin list and no other. */
  lemma RedirectAtFanins(net: Net, id: nat, from: Edge, to: Edge, every: bool)
    ensures RedirectAt(net, id, from, to, every).Keys == net.Keys
    ensures forall x :: x in net && x != id ==> RedirectAt(net, id, from, to, every)[x].fanin == net[x].fanin
    ensures id in net ==> RedirectAt(net, id, from, to, every)[id].fanin == Redirect(net[id].fanin, from, to, every)
  {
  }

  lemma StepGains(net: Net, n: Net, n2: Net, me: nat, t: Rewire, e: Edge, every: bool)
    requires GainsOnlyHost(net, n, Target(t))
    requires StepFanins(n, n2, me, t, e, every)
    requires n.Keys == net.Keys
    ensures GainsOnlyHost(net, n2, Target(t))
  {
  }

  lemma StepKeeps(net: Net, n: Net, n2: Net, me: nat, t: Rewire, e: Edge, every: bool)
    requires KeepsOthers(net, n, me)
    requires StepFanins(n, n2, me, t, e, every)
    requires n.Keys == net.Keys
    ensures KeepsOthers(net, n2, me)
  {
    forall x, q | x in net && x in n2 && q in net[x].fanin && !(q.Live? && q.id == me)
      ensures q in n2[x].fanin
    {
      assert q in n[x].fanin;
    }
  }

  lemma StepRehomed(net: Net, n: Net, n2: Net, me: nat, t: Rewire, fo: seq<Edge>, e: Edge, every: bool)
    requires Rehomed(net, n, me, t, fo)
    requires StepFanins(n, n2, me, t, e, every)
    requires n.Keys == net.Keys
    requires me != Target(t)
    ensures Rehomed(net, n2, me, t, fo + [e])
  {
    forall x, s | x in net && x in n2 && Live(me, s) in net[x].fanin &&
        (Live(x, s) in fo + [e] || Live(me, s) !in n2[x].fanin)
      ensures NewFanin(t, s) in n2[x].fanin
    {
      assert Live(x, s) in fo + [e] <==> Live(x, s) in fo || Live(x, s) == e;
      if NewFanin(t, s) in n[x].fanin {
        assert !e.Live? || NewFanin(t, s) != Live(me, e.inv);
      }
    }
  }

  /** The fanin effect of the whole fanout loop. */
  lemma {:induction false} RewireFanins(net: Net, me: nat, t: Rewire, fo: seq<Edge>, every: bool)
    requires FanoutsNoDup(net)
    requires me != Target(t)
    ensures GainsOnlyHost(net, RewireSteps(net, me, t, fo, every), Target(t))
    ensures KeepsOthers(net, RewireSteps(net, me, t, fo, every), me)
    ensures Rehomed(net, RewireSteps(net, me, t, fo, every), me, t, fo)
    decreases |fo|
  {
    if fo != [] {
      var fo' := fo[..|fo| - 1];
      var e := fo[|fo| - 1];
      assert fo == fo' + [e];
      RewireFanins(net, me, t, fo', every);
      RewireShape(net, me, t, fo', every);
      var n := RewireSteps(net, me, t, fo', every);
      var n2 := RewireSteps(net, me, t, fo, every);
      RewireStepFanins(n, me, t, e, every);
      assert StepFanins(n, n2, me, t, e, every);
      StepGains(net, n, n2, me, t, e, every);
      StepKeeps(net, n, n2, me, t, e, every);
      StepRehomed(net, n, n2, me, t, fo', e, every);
    }
  }

  /** With every matching entry rewritten, no referrer named in `fo` keeps an edge to
      `me` of the redirected polarity. */
  lemma {:induction false} RewireEvery(net: Net, me: nat, t: Rewire, fo: seq<Edge>)
    requires me != Target(t)
    ensures RewireSteps(net, me, t, fo, true).Keys == net.Keys
    ensures forall x, s :: x in net && Live(x, s) in fo ==>
      Live(me, s) !in RewireSteps(net, me, t, fo, true)[x].fanin
    decreases |fo|
  {
    if fo != [] {
      var fo' := fo[..|fo| - 1];
      var e := fo[|fo| - 1];
      assert fo == fo' + [e];
      RewireEvery(net, me, t, fo');
      var n := RewireSteps(net, me, t, fo', true);
      RewireStepFanins(n, me, t, e, true);
      forall x, s | x in net && Live(x, s) in fo
        ensures Live(me, s) !in RewireSteps(net, me, t, fo, true)[x].fanin
      {
        assert Live(x, s) in fo' || Live(x, s) == e;
      }
    }
  }

  // ---------------------------------------------------------------------------
  // Calls on a neighbour `net[id]`; a gate missing from the table is left alone

  method DelFanoutIn(net: Net, id: nat, p: Edge) returns (r: Net)
    ensures r == DelFanoutAt(net, id, p)
  {
    r := net;
    if id in net {
      var fo := DelFanout(net[id].fanout, p);
      r := net[id := net[id].(fanout := fo)];
    }
  }

  method AddFanoutIn(net: Net, id: nat, p: Edge) returns (r: Net)
    ensures r == AddFanoutAt(net, id, p)
  {
    r := net;
    if id in net {
      var _, fo := AddFanout(net[id].fanout, p);
      r := net[id := net[id].(fanout := fo)];
    }
  }

  /** Every entry equal to `from` becomes `to`. */
  method RedirectFanin(fi: seq<Edge>, from: Edge, to: Edge) returns (r: seq<Edge>)
    ensures |r| == |fi|
    ensures from != to ==> from !in r
    ensures forall q :: q in fi && q != from ==> q in r
    ensures r == Redirected(fi, from, to)
  {
    r := fi;
    var i := 0;
    while i < |fi|
      invariant 0 <= i <= |fi| && |r| == |fi|
      invariant forall j :: 0 <= j < i ==> r[j] == (if fi[j] == from then to else fi[j])
      invariant forall j :: i <= j < |fi| ==> r[j] == fi[j]
    {
      if r[i] == from {
        r := r[i := to];
      }
      i := i + 1;
    }
    forall q | q in fi && q != from ensures q in r {
      var j :| 0 <= j < |fi| && fi[j] == q;
      assert r[j] == q;
    }
  }

  method RedirectIn(net: Net, id: nat, from: Edge, to: Edge, every: bool) returns (r: Net)
    ensures r == RedirectAt(net, id, from, to, every)
  {
    r := net;
    if id in net {
      var fi;
      if every {
        fi := RedirectFanin(net[id].fanin, from, to);
      } else {
        fi := ChangeFanin(net[id].fanin, from, to);
      }
      r := net[id := net[id].(fanin := fi)];
    }
  }

  // ---------------------------------------------------------------------------
  // mergeInto, as written and corrected

  /** The table after `mergeInto(host)` on gate `me`; `every` selects the corrected
      redirect of every matching fanin entry. */
  function Merged(net: Net, me: nat, host: nat, every: bool): Net
    requires me in net
  {
    var n1 := MergeFaninSteps(net, me, host, net[me].fanin);
    RewireSteps(n1, me, ToHost(host), n1[me].fanout, every)
  }

  /** The two loops of `mergeInto` with the redirect chosen by `every`. */
  method MergeLoops(net: Net, me: nat, host: nat, every: bool) returns (r: Net)
    requires me in net
    ensures r == Merged(net, me, host, every)
  {
    var fi := net[me].fanin;
    r := net;
    var i := 0;
    while i < |fi|
      invariant 0 <= i <= |fi|
      invariant r == MergeFaninSteps(net, me, host, fi[..i])
    {
      var e := fi[i];
      assert fi[..i + 1][..i] == fi[..i];
      if e.Live? {
        r := DelFanoutIn(r, e.id, Live(me, e.inv));
        r := AddFanoutIn(r, e.id, Live(host, e.inv));
      }
      i := i + 1;
    }
    assert fi[..i] == fi;
    var n1 := r;
    var fo := r[me].fanout;
    i := 0;
    while i < |fo|
      invariant 0 <= i <= |fo|
      invariant r == RewireSteps(n1, me, ToHost(host), fo[..i], every)
    {
      var e := fo[i];
      assert fo[..i + 1][..i] == fo[..i];
      if e.Live? {
        r := RedirectIn(r, e.id, Live(me, e.inv), Live(host, e.inv), every);
        r := AddFanoutIn(r, host, e);
      }
      i := i + 1;
    }
    assert fo[..i] == fo;
  }

  /** `mergeInto(host)` changes edges only and keeps fanout lists free of duplicates. */
  lemma MergedShape(net: Net, me: nat, host: nat, every: bool)
    requires FanoutsNoDup(net)
    requires me in net && me != host
    ensures SameGates(net, Merged(net, me, host, every))
    ensures FanoutsNoDup(Merged(net, me, host, every))
  {
    var fi := net[me].fanin;
    MergeFaninEffect(net, me, host, fi);
    var n1 := MergeFaninSteps(net, me, host, fi);
    RewireShape(n1, me, ToHost(host), n1[me].fanout, every);
    var r := Merged(net, me, host, every);
    forall x | x in net ensures r[x] == net[x].(fanin := r[x].fanin, fanout := r[x].fanout) {
      assert n1[x] == net[x].(fanout := n1[x].fanout);
      assert r[x] == n1[x].(fanin := r[x].fanin, fanout := r[x].fanout);
    }
  }

  lemma MergeFaninRehosted(net: Net, me: nat, host: nat, fi: seq<Edge>)
    requires FanoutsNoDup(net)
    requires me != host
    ensures Rehosted(net, MergeFaninSteps(net, me, host, fi), me, host, fi)
    ensures FanoutsNoDup(MergeFaninSteps(net, me, host, fi))
    ensures forall x :: x in net ==> MergeFaninSteps(net, me, host, fi)[x].fanin == net[x].fanin
  {
    MergeFaninEffect(net, me, host, fi);
  }

  lemma MergeFanoutOthers(n: Net, me: nat, host: nat, fo: seq<Edge>, every: bool)
    requires FanoutsNoDup(n)
    ensures forall x :: x in n && x != host ==> RewireSteps(n, me, ToHost(host), fo, every)[x].fanout == n[x].fanout
  {
    RewireShape(n, me, ToHost(host), fo, every);
  }

  /** Every gate other than `host` sees its fanout entries `(me, s)` for fanins
      `(x, s)` of `me` replaced by `(host, s)`. */
  lemma MergedFanouts(net: Net, me: nat, host: nat, every: bool)
    requires FanoutsNoDup(net)
    requires me in net && me != host
    ensures forall x, q :: x in net && x != host ==>
      (q in Merged(net, me, host, every)[x].fanout <==>
        (q in net[x].fanout && !(q.Live? && q.id == me && Live(x, q.inv) in net[me].fanin))
        || (q.Live? && q.id == host && Live(x, q.inv) in net[me].fanin))
  {
    var fi := net[me].fanin;
    MergeFaninRehosted(net, me, host, fi);
    var n1 := MergeFaninSteps(net, me, host, fi);
    MergeFanoutOthers(n1, me, host, n1[me].fanout, every);
    var r := Merged(net, me, host, every);
    forall x, q | x in net && x != host
      ensures q in r[x].fanout <==>
        (q in net[x].fanout && !(q.Live? && q.id == me && Live(x, q.inv) in fi))
        || (q.Live? && q.id == host && Live(x, q.inv) in fi)
    {
      assert r[x].fanout == n1[x].fanout;
      RehostedAt(net, n1, me, host, fi, x, q);
    }
  }

  /** `host` takes over every referrer of `me`. */
  lemma MergedHostTakesOver(net: Net, me: nat, host: nat, every: bool)
    requires FanoutsNoDup(net)
    requires me in net && host in net && me != host
    ensures forall q :: q in net[me].fanout && q.Live? && q.id != me ==> q in Merged(net, me, host, every)[host].fanout
  {
    var fi := net[me].fanin;
    MergeFaninEffect(net, me, host, fi);
    var n1 := MergeFaninSteps(net, me, host, fi);
    RewireShape(n1, me, ToHost(host), n1[me].fanout, every);
    EntriesHost(host, n1[me].fanout);
    var r := Merged(net, me, host, every);
    forall q | q in net[me].fanout && q.Live? && q.id != me ensures q in r[host].fanout {
      RehostedAt(net, n1, me, host, fi, me, q);
    }
  }

  /** Facts about fanin lists carry over a step that leaves every fanin list alone. */
  lemma FaninFactsTransfer(net: Net, n1: Net, r: Net, me: nat, host: nat)
    requires n1.Keys == net.Keys
    requires forall x :: x in net ==> n1[x].fanin == net[x].fanin
    requires GainsOnlyHost(n1, r, host) && KeepsOthers(n1, r, me)
    ensures GainsOnlyHost(net, r, host) && KeepsOthers(net, r, me)
  {
  }

  /** What `mergeInto(host)` does to fanin lists: no fanin edge is added except edges
      to `host`, and every edge not to `me` stays. */
  lemma MergedFanins(net: Net, me: nat, host: nat, every: bool)
    requires FanoutsNoDup(net)
    requires me in net && me != host
    ensures GainsOnlyHost(net, Merged(net, me, host, every), host)
    ensures KeepsOthers(net, Merged(net, me, host, every), me)
  {
    var fi := net[me].fanin;
    MergeFaninRehosted(net, me, host, fi);
    var n1 := MergeFaninSteps(net, me, host, fi);
    RewireFanins(n1, me, ToHost(host), n1[me].fanout, every);
    FaninFactsTransfer(net, n1, Merged(net, me, host, every), me, host);
  }

  /** A referrer whose fanin held `(me, s)` now holds `(host, s)`. */
  lemma MergedRedirects(net: Net, me: nat, host: nat, every: bool)
    requires FanoutsNoDup(net)
    requires me in net && me != host
    ensures forall x, s :: x in net && x != me && Live(x, s) in net[me].fanout && Live(me, s) in net[x].fanin ==>
      Live(host, s) in Merged(net, me, host, every)[x].fanin
  {
    var fi := net[me].fanin;
    MergeFaninRehosted(net, me, host, fi);
    var n1 := MergeFaninSteps(net, me, host, fi);
    var fo := n1[me].fanout;
    RewireFanins(n1, me, ToHost(host), fo, every);
    var r := Merged(net, me, host, every);
    forall x, s | x in net && x != me && Live(x, s) in net[me].fanout && Live(me, s) in net[x].fanin
      ensures Live(host, s) in r[x].fanin
    {
      RehostedAt(net, n1, me, host, fi, me, Live(x, s));
      assert Live(x, s) in fo;
      assert Live(me, s) in n1[x].fanin;
    }
  }

  /** `mergeInto(host)` as written: the fanout loop redirects with `changeFanin`,
      which rewrites only the first fanin entry equal to `(me, s)`. */
  method MergeIntoAsWritten(net: Net, me: nat, host: nat) returns (r: Net)
    requires me in net && host in net && me != host
    ensures r == Merged(net, me, host, false)
    ensures FanoutsNoDup(net) ==> SameGates(net, r) && FanoutsNoDup(r)
  {
    r := MergeLoops(net, me, host, false);
    if FanoutsNoDup(net) {
      MergedShape(net, me, host, false);
    }
  }

  /** `mergeInto(host)` with every fanin entry `(me, s)` of a referrer rewritten to
      `(host, s)`: afterwards no referrer of `me` keeps such an edge. */
  method MergeInto(net: Net, me: nat, host: nat) returns (r: Net)
    requires me in net && host in net && me != host
    ensures r == Merged(net, me, host, true)
    ensures FanoutsNoDup(net) ==> SameGates(net, r) && FanoutsNoDup(r)
    ensures FanoutsNoDup(net) ==> forall x, s :: x in net && x != me && Live(x, s) in net[me].fanout ==>
      Live(me, s) !in r[x].fanin
  {
    r := MergeLoops(net, me, host, true);
    if FanoutsNoDup(net) {
      MergedShape(net, me, host, true);
      MergedEvery(net, me, host);
    }
  }

  lemma MergedEvery(net: Net, me: nat, host: nat)
    requires FanoutsNoDup(net)
    requires me in net && host in net && me != host
    ensures forall x, s :: x in net && x != me && Live(x, s) in net[me].fanout ==>
      Live(me, s) !in Merged(net, me, host, true)[x].fanin
  {
    var fi := net[me].fanin;
    MergeFaninEffect(net, me, host, fi);
    var n1 := MergeFaninSteps(net, me, host, fi);
    var fo := n1[me].fanout;
    RewireEvery(n1, me, ToHost(host), fo);
    forall x, s | x in net && x != me && Live(x, s) in net[me].fanout
      ensures Live(me, s) !in Merged(net, me, host, true)[x].fanin
    {
      RehostedAt(net, n1, me, host, fi, me, Live(x, s));
    }
  }

  /** The corrected merge leaves no edge into the merged gate: on a consistent table,
      once `me` is merged into `host` and erased, no gate has a live fanin to `me`. */
  lemma MergedLeavesNoEdgeToMe(net: Net, me: nat, host: nat)
    requires Consistent(net)
    requires me in net && host in net && me != host
    ensures forall x, e :: (x in Merged(net, me, host, true) && x != me &&
      e in Merged(net, me, host, true)[x].fanin) ==> !(e.Live? && e.id == me)
  {
    MergedFanins(net, me, host, true);
    MergedEvery(net, me, host);
  }

  /** A three-gate table: PI 1 feeds both inputs of AND gate 3; PI 2 is unused. */
  function TwinNet(): Net
  {
    map[1 := Gate(PI, 1, 0, [], [Live(3, false)], 0, 0),
        2 := Gate(PI, 2, 0, [], [], 0, 0),
        3 := Gate(Aig, 3, 0, [Live(1, false), Live(1, false)], [], 0, 0)]
  }

  lemma TwinNetConsistent()
    ensures Consistent(TwinNet())
  {
    var net := TwinNet();
    assert net.Keys == {1, 2, 3};
    forall x, e | x in net && e in net[x].fanin && e.Live?
      ensures e.id in net && Live(x, e.inv) in net[e.id].fanout
    {
      assert x == 3 && e == Live(1, false);
    }
    forall c, e | c in net && e in net[c].fanout
      ensures e.Live? && e.id in net && Live(c, e.inv) in net[e.id].fanin
    {
      assert c == 1 && e == Live(3, false);
      assert net[3].fanin[0] == Live(1, false);
    }
  }

  /** In `TwinNet`, merging PI 1 into `host` is one pass of the fanout loop, for
      the single fanout entry (3, +) of gate 1. */
  lemma TwinMerged(host: nat)
    ensures Merged(TwinNet(), 1, host, false) ==
      RewireStep(TwinNet(), 1, ToHost(host), Live(3, false), false)
  {
    var net := TwinNet();
    assert net[1].fanin == [];
    var n1 := MergeFaninSteps(net, 1, host, net[1].fanin);
    assert n1 == net;
    var fo := [Live(3, false)];
    assert n1[1].fanout == fo;
    assert fo[..0] == [];
    assert RewireSteps(n1, 1, ToHost(host), fo[..0], false) == n1;
  }

  /** Redirecting the first fanin (1, +) of AND gate 3 in `TwinNet` to `to`. */
  lemma TwinRedirect(to: Edge)
    ensures 3 in RedirectAt(TwinNet(), 3, Live(1, false), to, false)
    ensures RedirectAt(TwinNet(), 3, Live(1, false), to, false)[3].fanin ==
      if to == Live(1, false) then [Live(1, false)] else [to, Live(1, false)]
  {
    var fi3 := [Live(1, false), Live(1, false)];
    assert TwinNet()[3].fanin == fi3;
    assert IndexOf(fi3, Live(1, false)) == 0;
  }

  /** As written, merging PI 1 into itself turns the two fanins of AND gate 3 into one. */
  lemma SelfMergeTwin()
    ensures 3 in Merged(TwinNet(), 1, 1, false) && Merged(TwinNet(), 1, 1, false)[3].fanin == [Live(1, false)]
  {
    TwinMerged(1);
    TwinRedirect(Live(1, false));
    var m := RedirectAt(TwinNet(), 3, Live(1, false), Live(1, false), false);
    assert 1 in m && m[1] == TwinNet()[1];
    assert Live(3, false) in m[1].fanout;
    assert AddFanoutAt(m, 1, Live(3, false)) == m;
  }

  /** As written, merging PI 1 into PI 2 leaves AND gate 3 with an edge to the
      merged-away gate 1, although the table was consistent. */
  lemma MergeAsWrittenLeavesEdge()
    ensures Consistent(TwinNet())
    ensures Live(1, false) in Merged(TwinNet(), 1, 2, false)[3].fanin
  {
    TwinNetConsistent();
    TwinMerged(2);
    TwinRedirect(Live(2, false));
    var m := RedirectAt(TwinNet(), 3, Live(1, false), Live(2, false), false);
    var n2 := AddFanoutAt(m, 2, Live(3, false));
    assert n2[3] == m[3];
    assert n2[3].fanin[1] == Live(1, false);
  }

  // ---------------------------------------------------------------------------
  // replaceByConst and replaceByFanin

  /** Registering a fanout entry and redirecting a fanin touch different lists, so the
      order `replaceByFanin` uses (register, then redirect) gives the same table. */
  lemma AddRedirectCommute(n: Net, c: nat, p: Edge, id: nat, from: Edge, to: Edge, every: bool)
    ensures AddFanoutAt(RedirectAt(n, id, from, to, every), c, p) ==
      RedirectAt(AddFanoutAt(n, c, p), id, from, to, every)
  {
    if c in n && id in n {
      if c == id {
        AddRedirectSame(n, c, p, from, to, every);
      } else {
        AddRedirectApart(n, c, p, id, from, to, every);
      }
    }
  }

  lemma AddRedirectSame(n: Net, c: nat, p: Edge, from: Edge, to: Edge, every: bool)
    requires c in n
    ensures AddFanoutAt(RedirectAt(n, c, from, to, every), c, p) ==
      RedirectAt(AddFanoutAt(n, c, p), c, from, to, every)
  {
    var h := n[c].(fanin := Redirect(n[c].fanin, from, to, every), fanout := AddedFanout(n[c].fanout, p));
    assert AddFanoutAt(RedirectAt(n, c, from, to, every), c, p) == n[c := h];
    assert RedirectAt(AddFanoutAt(n, c, p), c, from, to, every) == n[c := h];
  }

  lemma AddRedirectApart(n: Net, c: nat, p: Edge, id: nat, from: Edge, to: Edge, every: bool)
    requires c in n && id in n && c != id
    ensures AddFanoutAt(RedirectAt(n, id, from, to, every), c, p) ==
      RedirectAt(AddFanoutAt(n, c, p), id, from, to, every)
  {
    var g := n[id].(fanin := Redirect(n[id].fanin, from, to, every));
    var h := n[c].(fanout := AddedFanout(n[c].fanout, p));
    assert AddFanoutAt(RedirectAt(n, id, from, to, every), c, p) == n[id := g][c := h];
    assert RedirectAt(AddFanoutAt(n, c, p), id, from, to, every) == n[c := h][id := g];
  }

  /** The table after `replaceByConst(c, sign)` on gate `me`: its fanin is cleared and
      each referrer's first fanin `(me, s)` becomes the fixed edge `(c, sign)`. */
  function ReplacedByConst(net: Net, me: nat, c: nat, sign: bool): Net
    requires me in net
  {
    var n1 := ClearSteps(net, me, net[me].fanin);
    RewireSteps(n1, me, ToConst(c, sign), n1[me].fanout, false)
  }

  /** `replaceByConst(c, sign)`. */
  method ReplaceByConst(net: Net, me: nat, c: nat, sign: bool) returns (r: Net)
    requires me in net && c in net && me != c
    ensures r == ReplacedByConst(net, me, c, sign)
    ensures FanoutsNoDup(net) ==> SameGates(net, r) && FanoutsNoDup(r)
  {
    r := ClearFanin(net, me);
    var n1 := r;
    var fo := r[me].fanout;
    var i := 0;
    while i < |fo|
      invariant 0 <= i <= |fo|
      invariant r == RewireSteps(n1, me, ToConst(c, sign), fo[..i], false)
    {
      var e := fo[i];
      assert fo[..i + 1][..i] == fo[..i];
      if e.Live? {
        r := RedirectIn(r, e.id, Live(me, e.inv), Live(c, sign), false);
      }
      i := i + 1;
    }
    assert fo[..i] == fo;
    if FanoutsNoDup(net) {
      ReplacedByConstShape(net, me, c, sign);
    }
  }

  lemma ReplacedByConstShape(net: Net, me: nat, c: nat, sign: bool)
    requires FanoutsNoDup(net)
    requires me in net
    ensures SameGates(net, ReplacedByConst(net, me, c, sign))
    ensures FanoutsNoDup(ReplacedByConst(net, me, c, sign))
  {
    var fi := net[me].fanin;
    ClearStepsEffect(net, me, fi);
    var n1 := ClearSteps(net, me, fi);
    RewireShape(n1, me, ToConst(c, sign), n1[me].fanout, false);
    var r := ReplacedByConst(net, me, c, sign);
    forall x | x in net ensures r[x] == net[x].(fanin := r[x].fanin, fanout := r[x].fanout) {
      assert n1[x] == net[x].(fanout := n1[x].fanout);
      assert r[x] == n1[x].(fanin := r[x].fanin, fanout := r[x].fanout);
    }
  }

  /** What `replaceByConst(c, sign)` does: a referrer of `me` whose fanin held `(me, s)`
      now holds `(c, sign)`; fanin lists gain only edges to `c` and keep every edge
      not to `me`; and `c`'s fanout changes only by what `clearFanin` removes (it is
      never told about its new referrers). */
  lemma ReplacedByConstEffect(net: Net, me: nat, c: nat, sign: bool)
    requires FanoutsNoDup(net)
    requires me in net && c in net && me != c
    ensures forall x, s :: x in net && x != me && Live(x, s) in net[me].fanout && Live(me, s) in net[x].fanin ==>
      Live(c, sign) in ReplacedByConst(net, me, c, sign)[x].fanin
    ensures GainsOnlyHost(net, ReplacedByConst(net, me, c, sign), c)
    ensures KeepsOthers(net, ReplacedByConst(net, me, c, sign), me)
    ensures forall q :: q in ReplacedByConst(net, me, c, sign)[c].fanout <==>
      q in net[c].fanout && !(q.Live? && q.id == me && Live(c, q.inv) in net[me].fanin)
  {
    var fi := net[me].fanin;
    var t := ToConst(c, sign);
    ClearStepsEffect(net, me, fi);
    var n1 := ClearSteps(net, me, fi);
    var fo := n1[me].fanout;
    RewireFanins(n1, me, t, fo, false);
    RewireShape(n1, me, t, fo, false);
    var r := ReplacedByConst(net, me, c, sign);
    FaninFactsTransfer(net, n1, r, me, c);
    forall x, s | x in net && x != me && Live(x, s) in net[me].fanout && Live(me, s) in net[x].fanin
      ensures Live(c, sign) in r[x].fanin
    {
      DetachedAt(net, n1, me, fi, me, Live(x, s));
      assert Live(x, s) in fo;
      assert Live(me, s) in n1[x].fanin;
    }
    forall q ensures q in r[c].fanout <==> q in net[c].fanout && !(q.Live? && q.id == me && Live(c, q.inv) in fi) {
      DetachedAt(net, n1, me, fi, c, q);
    }
  }

  /** The rewire target of `replaceByFanin` for the kept fanin `e`, as written or
      with the referrer's polarity composed with `e`'s. */
  function FaninRewire(e: Edge, corrected: bool): Rewire
    requires e.Live?
  {
    if corrected then ToFanin(e.id, e.inv) else ToFaninAsWritten(e.id, e.inv)
  }

  /** The table after `replaceByFanin(k)` on gate `me`. */
  function ReplacedByFanin(net: Net, me: nat, k: nat, corrected: bool): Net
    requires me in net && k < |net[me].fanin| && net[me].fanin[k].Live?
  {
    var n1 := ClearSteps(net, me, net[me].fanin);
    RewireSteps(n1, me, FaninRewire(net[me].fanin[k], corrected), n1[me].fanout, false)
  }

  /** The loops of `replaceByFanin(k)`: for each referrer the kept fanin's gate is
      given a fanout entry first, then the referrer's fanin is changed. */
  method ReplaceByFaninLoops(net: Net, me: nat, k: nat, corrected: bool) returns (r: Net)
    requires me in net && k < |net[me].fanin| && net[me].fanin[k].Live?
    ensures r == ReplacedByFanin(net, me, k, corrected)
  {
    var signIn := net[me].fanin[k].inv;
    var c := net[me].fanin[k].id;
    assert net[me].fanin[k] == Live(c, signIn);
    r := ClearFanin(net, me);
    r := FaninRewireLoop(r, me, c, signIn, corrected, r[me].fanout);
  }

  /** The fanout loop of `replaceByFanin(k)` over the entries `fo`, where the kept
      fanin is `(c, signIn)`. */
  method FaninRewireLoop(n1: Net, me: nat, c: nat, signIn: bool, corrected: bool, fo: seq<Edge>) returns (r: Net)
    ensures r == RewireSteps(n1, me, FaninRewire(Live(c, signIn), corrected), fo, false)
  {
    r := n1;
    var i := 0;
    while i < |fo|
      invariant 0 <= i <= |fo|
      invariant r == RewireSteps(n1, me, FaninRewire(Live(c, signIn), corrected), fo[..i], false)
    {
      assert fo[..i + 1][..i] == fo[..i];
      r := FaninRewireIn(r, me, c, signIn, corrected, fo[i]);
      i := i + 1;
    }
    assert fo[..i] == fo;
  }

  /** One pass of the fanout loop of `replaceByFanin(k)` for the fanout entry `e`,
      where the kept fanin is `(c, signIn)`. */
  method FaninRewireIn(r: Net, me: nat, c: nat, signIn: bool, corrected: bool, e: Edge) returns (r': Net)
    ensures r' == RewireStep(r, me, FaninRewire(Live(c, signIn), corrected), e, false)
  {
    r' := r;
    if e.Live? {
      var p, to;
      if signIn {
        p, to := Live(e.id, !e.inv), Live(c, !e.inv);
      } else if corrected {
        p, to := e, Live(c, e.inv);
      } else {
        p, to := e, Live(c, false);
      }
      r' := AddFanoutIn(r', c, p);
      r' := RedirectIn(r', e.id, Live(me, e.inv), to, false);
      AddRedirectCommute(r, c, p, e.id, Live(me, e.inv), to, false);
    }
  }

  lemma ReplacedByFaninShape(net: Net, me: nat, k: nat, corrected: bool)
    requires FanoutsNoDup(net)
    requires me in net && k < |net[me].fanin| && net[me].fanin[k].Live?
    ensures SameGates(net, ReplacedByFanin(net, me, k, corrected))
    ensures FanoutsNoDup(ReplacedByFanin(net, me, k, corrected))
  {
    var fi := net[me].fanin;
    ClearStepsEffect(net, me, fi);
    var n1 := ClearSteps(net, me, fi);
    RewireShape(n1, me, FaninRewire(fi[k], corrected), n1[me].fanout, false);
    var r := ReplacedByFanin(net, me, k, corrected);
    forall x | x in net ensures r[x] == net[x].(fanin := r[x].fanin, fanout := r[x].fanout) {
      assert n1[x] == net[x].(fanout := n1[x].fanout);
      assert r[x] == n1[x].(fanin := r[x].fanin, fanout := r[x].fanout);
    }
  }

  /** What `replaceByFanin(k)` does to a referrer `(x, s)` of `me` (as written or
      corrected): its fanin `(me, s)` is replaced by the rewire edge, and the kept
      child `c` gains the fanout entry `(x, s xor signIn)`. */
  lemma ReplacedByFaninRewires(net: Net, me: nat, k: nat, corrected: bool)
    requires FanoutsNoDup(net)
    requires me in net && k < |net[me].fanin| && net[me].fanin[k].Live?
    requires net[me].fanin[k].id in net && net[me].fanin[k].id != me
    ensures var e := net[me].fanin[k];
      forall x, s :: x in net && x != me && Live(x, s) in net[me].fanout && Live(me, s) in net[x].fanin ==>
        && NewFanin(FaninRewire(e, corrected), s) in ReplacedByFanin(net, me, k, corrected)[x].fanin
        && Live(x, s != e.inv) in ReplacedByFanin(net, me, k, corrected)[e.id].fanout
  {
    var fi := net[me].fanin;
    var e := fi[k];
    var t := FaninRewire(e, corrected);
    ClearStepsEffect(net, me, fi);
    var n1 := ClearSteps(net, me, fi);
    var fo := n1[me].fanout;
    RewireFanins(n1, me, t, fo, false);
    RewireShape(n1, me, t, fo, false);
    EntriesCover(t, fo);
    var r := ReplacedByFanin(net, me, k, corrected);
    forall x, s | x in net && x != me && Live(x, s) in net[me].fanout && Live(me, s) in net[x].fanin
      ensures NewFanin(t, s) in r[x].fanin && Live(x, s != e.inv) in r[e.id].fanout
    {
      DetachedAt(net, n1, me, fi, me, Live(x, s));
      assert Live(x, s) in fo;
      assert Live(me, s) in n1[x].fanin;
      assert NewFanout(t, x, s) == Live(x, s != e.inv);
    }
  }

  /** `replaceByFanin(k)` as written: when the kept fanin `e` is not inverted, each
      referrer is given the stored edge `e` itself, whatever its own polarity. */
  method ReplaceByFaninAsWritten(net: Net, me: nat, k: nat) returns (r: Net)
    requires me in net && k < |net[me].fanin| && net[me].fanin[k].Live?
    ensures r == ReplacedByFanin(net, me, k, false)
    ensures FanoutsNoDup(net) ==> SameGates(net, r) && FanoutsNoDup(r)
  {
    r := ReplaceByFaninLoops(net, me, k, false);
    if FanoutsNoDup(net) {
      ReplacedByFaninShape(net, me, k, false);
    }
  }

  /** `replaceByFanin(k)` with polarities composed: a referrer `(x, s)` of `me` now
      reads `(c, s xor signIn)` and `c`'s fanout holds the matching `(x, s xor signIn)`,
      so both directions of the new edge agree. */
  method ReplaceByFanin(net: Net, me: nat, k: nat) returns (r: Net)
    requires me in net && k < |net[me].fanin| && net[me].fanin[k].Live?
    ensures r == ReplacedByFanin(net, me, k, true)
    ensures FanoutsNoDup(net) ==> SameGates(net, r) && FanoutsNoDup(r)
    ensures FanoutsNoDup(net) && net[me].fanin[k].id in net && net[me].fanin[k].id != me ==>
      var c, signIn := net[me].fanin[k].id, net[me].fanin[k].inv;
      forall x, s :: x in net && x != me && Live(x, s) in net[me].fanout && Live(me, s) in net[x].fanin ==>
        Live(c, s != signIn) in r[x].fanin && Live(x, s != signIn) in r[c].fanout
  {
    r := ReplaceByFaninLoops(net, me, k, true);
    if FanoutsNoDup(net) {
      ReplacedByFaninShape(net, me, k, true);
      if net[me].fanin[k].id in net && net[me].fanin[k].id != me {
        ReplacedByFaninRewires(net, me, k, true);
      }
    }
  }

  /** A table where AND gate 2 buffers PI 1 (both inputs `(1, 0)`) and PO 3 reads
      gate 2 inverted. */
  function FlipNet(): Net
  {
    map[1 := Gate(PI, 1, 0, [], [Live(2, false)], 0, 0),
        2 := Gate(Aig, 2, 0, [Live(1, false), Live(1, false)], [Live(3, true)], 0, 0),
        3 := Gate(PO, 3, 0, [Live(2, true)], [], 0, 0)]
  }

  lemma FlipNetConsistent()
    ensures Consistent(FlipNet())
  {
    FlipFaninsBacked();
    FlipFanoutsBacked();
    FlipFanoutsNoDup();
  }

  lemma FlipFanoutsNoDup()
    ensures FanoutsNoDup(FlipNet())
  {
    var net := FlipNet();
    forall x | x in net ensures NoDup(net[x].fanout) {
      assert |net[x].fanout| <= 1;
    }
  }

  lemma FlipFaninsBacked()
    ensures FaninsBacked(FlipNet())
  {
    var net := FlipNet();
    forall x, e | x in net && e in net[x].fanin && e.Live?
      ensures e.id in net && Live(x, e.inv) in net[e.id].fanout
    {
      if x == 2 {
        assert e == Live(1, false);
        assert net[1].fanout[0] == Live(2, false);
      } else if x == 3 {
        assert e == Live(2, true);
        assert net[2].fanout[0] == Live(3, true);
      }
    }
  }

  lemma FlipFanoutsBacked()
    ensures FanoutsBacked(FlipNet())
  {
    var net := FlipNet();
    forall c, e | c in net && e in net[c].fanout
      ensures e.Live? && e.id in net && Live(c, e.inv) in net[e.id].fanin
    {
      if c == 1 {
        assert e == Live(2, false);
        assert net[2].fanin[0] == Live(1, false);
      } else if c == 2 {
        assert e == Live(3, true);
        assert net[3].fanin[0] == Live(2, true);
      }
    }
  }

  /** `clearFanin` on gate 2 of `FlipNet` empties the fanout of PI 1. */
  lemma FlipNetCleared()
    ensures ClearSteps(FlipNet(), 2, FlipNet()[2].fanin) == FlipNet()[1 := FlipNet()[1].(fanout := [])]
  {
    var net := FlipNet();
    var fi := net[2].fanin;
    assert fi[..1][..0] == [];
    assert IndexOf([Live(2, false)], Live(2, false)) == 0;
    assert DelFirst([Live(2, false)], Live(2, false)) == [];
    var n0 := net[1 := net[1].(fanout := [])];
    assert ClearSteps(net, 2, fi[..1]) == n0;
    assert DelFirst([], Live(2, false)) == [];
    assert n0[1 := n0[1].(fanout := [])] == n0;
    assert fi[..1] == fi[..|fi| - 1];
  }

  /** The fanout loop of `replaceByFanin(0)` on gate 2 of `FlipNet`, as written. */
  lemma FlipNetRewired(n1: Net)
    requires n1 == FlipNet()[1 := FlipNet()[1].(fanout := [])]
    ensures RewireSteps(n1, 2, ToFaninAsWritten(1, false), [Live(3, true)], false)[3].fanin == [Live(1, false)]
    ensures RewireSteps(n1, 2, ToFaninAsWritten(1, false), [Live(3, true)], false)[1].fanout == [Live(3, true)]
  {
    var fo := [Live(3, true)];
    var t := ToFaninAsWritten(1, false);
    assert RewireSteps(n1, 2, t, fo[..0], false) == n1;
    var m := RedirectAt(n1, 3, Live(2, true), Live(1, false), false);
    assert IndexOf(n1[3].fanin, Live(2, true)) == 0;
    assert m[3].fanin == [Live(1, false)];
    assert m[1].fanout == [];
    var n2 := AddFanoutAt(m, 1, Live(3, true));
    assert AddedFanout([], Live(3, true)) == [Live(3, true)];
    assert n2[1].fanout == [Live(3, true)];
    assert n2[3] == m[3];
    assert RewireStep(n1, 2, t, Live(3, true), false) == n2;
  }

  /** As written, replacing gate 2 by its fanin 0 makes PO 3 read `(1, 0)` while PI 1
      records the referrer as `(3, 1)`: the PO loses its inversion and the two
      directions of the new edge disagree. */
  lemma ReplaceByFaninDropsPolarity()
    ensures Consistent(FlipNet())
    ensures ReplacedByFanin(FlipNet(), 2, 0, false)[3].fanin == [Live(1, false)]
    ensures Live(3, true) in ReplacedByFanin(FlipNet(), 2, 0, false)[1].fanout
    ensures Live(3, false) !in ReplacedByFanin(FlipNet(), 2, 0, false)[1].fanout
  {
    FlipNetConsistent();
    FlipNetCleared();
    var net := FlipNet();
    var n1 := ClearSteps(net, 2, net[2].fanin);
    assert n1[2].fanout == [Live(3, true)];
    assert FaninRewire(net[2].fanin[0], false) == ToFaninAsWritten(1, false);
    FlipNetRewired(n1);
  }

  // ---------------------------------------------------------------------------
  // connectLinks

  /** A gate `connectLinks` can be called on: an AIG has its two fanins, a PO its one. */
  predicate LinkReady(g: Gate)
  {
    (g.kind == Aig ==> |g.fanin| >= 2) && (g.kind == PO ==> |g.fanin| >= 1)
  }

  /** The live edge a literal names, and the literal a live edge carries. */
  lemma LinkLiteral(lit: nat, e: Edge)
    ensures Literal(Live(lit / 2, lit % 2 == 1)) == lit
    ensures e.Live? ==> Literal(e) / 2 == e.id && (Literal(e) % 2 == 1) == e.inv
  {
  }

  /** Linking fanin `i` of gate `me`: the literal `lit` it holds names gate `lit / 2`;
      when that gate exists the fanin becomes the live edge `(lit / 2, lit % 2)` and
      that gate's fanout gains `(me, lit % 2)`; otherwise nothing changes.  Every
      fanin keeps its literal. */
  function LinkStep(net: Net, me: nat, i: nat): (r: Net)
    requires me in net && i < |net[me].fanin|
    ensures r.Keys == net.Keys
    ensures r[me].kind == net[me].kind && |r[me].fanin| == |net[me].fanin|
    ensures forall j :: 0 <= j < |net[me].fanin| ==> Literal(r[me].fanin[j]) == Literal(net[me].fanin[j])
  {
    var lit := FaninLiteral(net[me], i);
    var b := lit % 2 == 1;
    LinkLiteral(lit, net[me].fanin[i]);
    if lit / 2 in net then
      AddFanoutAt(net[me := net[me].(fanin := net[me].fanin[i := Live(lit / 2, b)])], lit / 2, Live(me, b))
    else net
  }

  /** `connectLinks()`: an AIG links fanin 0 then fanin 1, a PO its fanin 0, and PIs and
      the constant have nothing to link. */
  function Linked(net: Net, me: nat): Net
    requires me in net && LinkReady(net[me])
  {
    match net[me].kind
    case Aig => LinkStep(LinkStep(net, me, 0), me, 1)
    case PO => LinkStep(net, me, 0)
    case _ => net
  }

  /** One `if (temp)` block of `connectLinks`. */
  method LinkIn(net: Net, me: nat, i: nat) returns (r: Net)
    requires me in net && i < |net[me].fanin|
    ensures r == LinkStep(net, me, i)
  {
    var lit := Literal(net[me].fanin[i]);
    r := net;
    if lit / 2 in net {
      r := r[me := r[me].(fanin := r[me].fanin[i := Live(lit / 2, lit % 2 == 1)])];
      r := AddFanoutIn(r, lit / 2, Live(me, lit % 2 == 1));
    }
  }

  /** `AigGate::connectLinks` and `POGate::connectLinks`; a no-op on PI and CONST. */
  method ConnectLinks(net: Net, me: nat) returns (r: Net)
    requires me in net && LinkReady(net[me])
    ensures r == Linked(net, me)
    ensures r.Keys == net.Keys && |r[me].fanin| == |net[me].fanin|
    ensures forall j :: 0 <= j < |net[me].fanin| ==> FaninLiteral(r[me], j) == FaninLiteral(net[me], j)
    ensures net[me].kind == PI || net[me].kind == Const ==> r == net
  {
    r := net;
    if net[me].kind == Aig {
      r := LinkIn(r, me, 0);
      r := LinkIn(r, me, 1);
    } else if net[me].kind == PO {
      r := LinkIn(r, me, 0);
    }
  }

  /** What linking fanin `i` does: with `lit` its literal, if gate `lit / 2` exists the
      fanin is `(lit / 2, lit % 2)` and that gate's fanout holds `(me, lit % 2)`; if it
      does not, the table is unchanged.  No other fanin anywhere changes, and fanout
      lists only grow. */
  lemma LinkStepEffect(net: Net, me: nat, i: nat)
    requires me in net && i < |net[me].fanin|
    ensures var lit := FaninLiteral(net[me], i); var r := LinkStep(net, me, i);
      && (lit / 2 in net ==>
            r[me].fanin[i] == Live(lit / 2, lit % 2 == 1) && Live(me, lit % 2 == 1) in r[lit / 2].fanout)
      && (lit / 2 !in net ==> r == net)
    ensures forall j :: 0 <= j < |net[me].fanin| && j != i ==> LinkStep(net, me, i)[me].fanin[j] == net[me].fanin[j]
    ensures forall x :: x in net && x != me ==> LinkStep(net, me, i)[x].fanin == net[x].fanin
    ensures forall x, q :: x in net && q in net[x].fanout ==> q in LinkStep(net, me, i)[x].fanout
  {
    var lit := FaninLiteral(net[me], i);
    if lit / 2 in net {
      var n1 := net[me := net[me].(fanin := net[me].fanin[i := Live(lit / 2, lit % 2 == 1)])];
      AddedFanoutFacts(n1[lit / 2].fanout, Live(me, lit % 2 == 1));
    }
  }

  /** The change one linking step makes, as facts about the tables before and after:
      fanin `i` of `me` becomes `(c, b)` (it was floating or already that edge), and
      `c`'s fanout gains `(me, b)`. */
  ghost predicate Relinked(net: Net, r: Net, me: nat, i: nat, c: nat, b: bool)
  {
    && me in net && c in net && i < |net[me].fanin| && r.Keys == net.Keys
    && (net[me].fanin[i].Live? ==> net[me].fanin[i] == Live(c, b))
    && r[me].fanin == net[me].fanin[i := Live(c, b)]
    && (forall x :: x in net && x != me ==> r[x].fanin == net[x].fanin)
    && (forall x :: x in net && x != c ==> r[x].fanout == net[x].fanout)
    && (forall q :: q in r[c].fanout <==> q in net[c].fanout || q == Live(me, b))
  }

  lemma RelinkedFaninsBacked(net: Net, r: Net, me: nat, i: nat, c: nat, b: bool)
    requires FaninsBacked(net)
    requires Relinked(net, r, me, i, c, b)
    ensures FaninsBacked(r)
  {
    forall x, f | x in r && f in r[x].fanin && f.Live?
      ensures f.id in r && Live(x, f.inv) in r[f.id].fanout
    {
      if x == me {
        var j :| 0 <= j < |r[me].fanin| && r[me].fanin[j] == f;
        if j != i {
          assert f in net[me].fanin;
        }
      } else {
        assert f in net[x].fanin;
      }
    }
  }

  lemma RelinkedFanoutsBacked(net: Net, r: Net, me: nat, i: nat, c: nat, b: bool)
    requires FanoutsBacked(net)
    requires Relinked(net, r, me, i, c, b)
    ensures FanoutsBacked(r)
  {
    forall x, f | x in r && f in r[x].fanout
      ensures f.Live? && f.id in r && Live(x, f.inv) in r[f.id].fanin
    {
      if f in net[x].fanout {
        var g := Live(x, f.inv);
        assert g in net[f.id].fanin;
        if f.id == me {
          var j :| 0 <= j < |net[me].fanin| && net[me].fanin[j] == g;
          assert r[me].fanin[j] == g;
        }
      } else {
        assert x == c && f == Live(me, b);
        assert r[me].fanin[i] == Live(c, b);
      }
    }
  }

  /** `connectLinks` keeps fanin/fanout consistency: each new live fanin is registered
      in its gate's fanout, and a fanin that was already live names the same edge
      again. */
  lemma LinkStepConsistent(net: Net, me: nat, i: nat)
    requires Consistent(net)
    requires me in net && i < |net[me].fanin|
    ensures Consistent(LinkStep(net, me, i))
  {
    var lit := FaninLiteral(net[me], i);
    if lit / 2 in net {
      var c, b := lit / 2, lit % 2 == 1;
      LinkStepRelinked(net, me, i);
      var r := LinkStep(net, me, i);
      RelinkedFaninsBacked(net, r, me, i, c, b);
      RelinkedFanoutsBacked(net, r, me, i, c, b);
    }
  }

  lemma LinkStepRelinked(net: Net, me: nat, i: nat)
    requires FanoutsNoDup(net)
    requires me in net && i < |net[me].fanin|
    requires FaninLiteral(net[me], i) / 2 in net
    ensures var lit := FaninLiteral(net[me], i);
      Relinked(net, LinkStep(net, me, i), me, i, lit / 2, lit % 2 == 1)
    ensures FanoutsNoDup(LinkStep(net, me, i))
  {
    var lit := FaninLiteral(net[me], i);
    var c, b := lit / 2, lit % 2 == 1;
    LinkLiteral(lit, net[me].fanin[i]);
    var n1 := net[me := net[me].(fanin := net[me].fanin[i := Live(c, b)])];
    assert FanoutsNoDup(n1);
    AddFanoutAtShape(n1, c, Live(me, b));
    assert LinkStep(net, me, i) == AddFanoutAt(n1, c, Live(me, b));
  }

  /** `connectLinks` on a consistent table leaves it consistent, keeps every fanin
      literal of the gate, and for each linked fanin whose literal names an existing
      gate, leaves a live edge registered on both sides. */
  lemma LinkedEffect(net: Net, me: nat)
    requires Consistent(net)
    requires me in net && LinkReady(net[me])
    ensures Consistent(Linked(net, me))
    ensures forall i :: 0 <= i < (if net[me].kind == Aig then 2 else if net[me].kind == PO then 1 else 0) ==>
      var lit := FaninLiteral(net[me], i);
      lit / 2 in net ==>
        Linked(net, me)[me].fanin[i] == Live(lit / 2, lit % 2 == 1) &&
        Live(me, lit % 2 == 1) in Linked(net, me)[lit / 2].fanout
  {
    match net[me].kind
    case Aig =>
      LinkedAigConsistent(net, me);
      LinkedAigEffect(net, me);
    case PO =>
      LinkStepConsistent(net, me, 0);
      LinkStepEffect(net, me, 0);
    case _ =>
  }

  lemma LinkedAigConsistent(net: Net, me: nat)
    requires Consistent(net)
    requires me in net && net[me].kind == Aig && LinkReady(net[me])
    ensures Consistent(LinkStep(LinkStep(net, me, 0), me, 1))
  {
    LinkStepConsistent(net, me, 0);
    LinkStepConsistent(LinkStep(net, me, 0), me, 1);
  }

  /** `connectLinks` on an AIG: both steps keep the table consistent; fanin 1 is not
      touched by the first step, and fanin 0 and its fanout entry survive the second. */
  lemma LinkedAigEffect(net: Net, me: nat)
    requires me in net && net[me].kind == Aig && LinkReady(net[me])
    ensures forall i :: 0 <= i < 2 ==>
      var lit := FaninLiteral(net[me], i); var r := LinkStep(LinkStep(net, me, 0), me, 1);
      lit / 2 in net ==> r[me].fanin[i] == Live(lit / 2, lit % 2 == 1) && Live(me, lit % 2 == 1) in r[lit / 2].fanout
  {
    var n1 := LinkStep(net, me, 0);
    LinkStepEffect(net, me, 0);
    assert |n1[me].fanin| == |net[me].fanin| >= 2;
    var r := LinkStep(n1, me, 1);
    LinkStepEffect(n1, me, 1);
    var lit0, lit1 := FaninLiteral(net[me], 0), FaninLiteral(net[me], 1);
    assert FaninLiteral(n1[me], 1) == lit1;
    if lit0 / 2 in net {
      var e0 := Live(lit0 / 2, lit0 % 2 == 1);
      assert n1[me].fanin[0] == e0;
      assert r[me].fanin[0] == e0;
      assert Live(me, lit0 % 2 == 1) in n1[lit0 / 2].fanout;
      assert Live(me, lit0 % 2 == 1) in r[lit0 / 2].fanout;
    }
  }
}
