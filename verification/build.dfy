/** Building the gate table from the records of an ASCII AIGER (`aag M I L O A`)
    description, and resolving the fanin literals of the new gates into edges
    (`readCircuit` in cirMgr.cpp, after the lines have been split into numbers). */
module Build {
  import opened Lists
  import opened CirGate
  import opened Topology

  /** An AND line `lhs rhs0 rhs1`. */
  datatype AndRec = AndRec(lhs: nat, rhs0: nat, rhs1: nat)

  /** A symbol line `i<pos> <name>` or `o<pos> <name>` (any other head is ignored). */
  datatype SymRec = SymRec(head: char, pos: nat, name: string)

  /** A tokenised AAG description: the header, one literal per input and output line,
      the AND lines and the symbol lines. */
  datatype Aag = Aag(m: nat, i: nat, l: nat, o: nat, a: nat,
                     inputs: seq<nat>, outputs: seq<nat>, ands: seq<AndRec>, symbols: seq<SymRec>)

  /** The header counts match the records, and every input or output symbol names a
      position that exists (`_PIList[content]` is otherwise out of bounds). */
  predicate WellFormed(aag: Aag)
  {
    && |aag.inputs| == aag.i && |aag.outputs| == aag.o && |aag.ands| == aag.a
    && (forall k :: 0 <= k < |aag.symbols| && aag.symbols[k].head == 'i' ==> aag.symbols[k].pos < aag.i)
    && (forall k :: 0 <= k < |aag.symbols| && aag.symbols[k].head == 'o' ==> aag.symbols[k].pos < aag.o)
  }

  /** `_PIList`: input `k` is gate `c / 2` for its literal `c`. */
  function PIIds(aag: Aag): seq<nat>
  {
    seq(|aag.inputs|, k requires 0 <= k < |aag.inputs| => aag.inputs[k] / 2)
  }

  /** `_POList`: output `k` (from 0) is gate `M + k + 1`. */
  function POIds(aag: Aag): seq<nat>
  {
    seq(|aag.outputs|, k requires 0 <= k < |aag.outputs| => aag.m + k + 1)
  }

  /** `_AigList`: AND line `k` is gate `lhs / 2`. */
  function AigIds(aag: Aag): seq<nat>
  {
    seq(|aag.ands|, k requires 0 <= k < |aag.ands| => aag.ands[k].lhs / 2)
  }

  /** The gates `readCircuit` creates after the constant, in creation order, with the
      id each is stored under.  The header is line 1, so input `k` sits on line
      `k + 2`, output `k` on line `I + k + 2` and AND line `k` on line `I + O + k + 2`. */
  function Creations(aag: Aag): seq<(nat, Gate)>
  {
    var i, o := |aag.inputs|, |aag.outputs|;
    seq(|aag.inputs|, k requires 0 <= k < i =>
      (aag.inputs[k] / 2, NewPI(aag.inputs[k] / 2, k + 2)))
    + seq(|aag.outputs|, k requires 0 <= k < o =>
      (aag.m + k + 1, NewPO(aag.m + k + 1, i + k + 2, aag.outputs[k])))
    + seq(|aag.ands|, k requires 0 <= k < |aag.ands| =>
      (aag.ands[k].lhs / 2, NewAig(aag.ands[k].lhs / 2, i + o + k + 2, aag.ands[k].rhs0, aag.ands[k].rhs1)))
  }

  /** `_gateList[id] = gate` for each entry in turn: a later entry with the same id
      replaces an earlier one. */
  function Stored(net: Net, es: seq<(nat, Gate)>): Net
    decreases |es|
  {
    if es == [] then net
    else
      var e := es[|es| - 1];
      Stored(net, es[..|es| - 1])[e.0 := e.1]
  }

  /** Storing one more entry of `es`. */
  lemma StoredSnoc(net: Net, es: seq<(nat, Gate)>, n: nat)
    requires n < |es|
    ensures Stored(net, es[..n + 1]) == Stored(net, es[..n])[es[n].0 := es[n].1]
  {
    assert es[..n + 1][..n] == es[..n];
  }

  /** The table before linking: the constant at id 0, then every entry. */
  function Built(aag: Aag): Net
  {
    Stored(map[0 := NewConst()], Creations(aag))
  }

  /** Entry `k` is the last with its id. */
  ghost predicate LastWriter(es: seq<(nat, Gate)>, k: int)
  {
    0 <= k < |es| && forall j :: k < j < |es| ==> es[j].0 != es[k].0
  }

  /** The ids the entries are stored under. */
  function Ids(es: seq<(nat, Gate)>): set<nat>
  {
    set k | 0 <= k < |es| :: es[k].0
  }

  /** After placing, the table holds the old ids and the entries' ids. */
  lemma {:induction false} StoredKeys(net: Net, es: seq<(nat, Gate)>)
    ensures Stored(net, es).Keys == net.Keys + Ids(es)
    decreases |es|
  {
    if es != [] {
      var n := |es| - 1;
      var pre := es[..n];
      StoredKeys(net, pre);
      assert Ids(es) == Ids(pre) + {es[n].0} by {
        forall x | x in Ids(es) ensures x in Ids(pre) + {es[n].0} {
          var k :| 0 <= k < |es| && es[k].0 == x;
          if k < n {
            assert pre[k].0 == x;
          }
        }
        forall x | x in Ids(pre) ensures x in Ids(es) {
          var k :| 0 <= k < |pre| && pre[k].0 == x;
          assert es[k].0 == x;
        }
      }
    }
  }

  /** Each id holds the gate of the last entry with that id. */
  lemma {:induction false} StoredLast(net: Net, es: seq<(nat, Gate)>)
    ensures forall k :: LastWriter(es, k) ==> es[k].0 in Stored(net, es) && Stored(net, es)[es[k].0] == es[k].1
    decreases |es|
  {
    if es != [] {
      var n := |es| - 1;
      var pre := es[..n];
      StoredLast(net, pre);
      forall k | LastWriter(es, k) ensures es[k].0 in Stored(net, es) && Stored(net, es)[es[k].0] == es[k].1 {
        if k < n {
          assert LastWriter(pre, k);
        }
      }
    }
  }

  /** Each id holds its old gate or the gate of some entry with that id. */
  lemma {:induction false} StoredFrom(net: Net, es: seq<(nat, Gate)>, x: nat)
    requires x in Stored(net, es)
    ensures (x in net && Stored(net, es)[x] == net[x]) ||
      exists k :: 0 <= k < |es| && es[k].0 == x && Stored(net, es)[x] == es[k].1
    decreases |es|
  {
    if es != [] {
      var n := |es| - 1;
      var pre := es[..n];
      if x != es[n].0 {
        StoredFrom(net, pre, x);
        if !(x in net && Stored(net, pre)[x] == net[x]) {
          var k :| 0 <= k < |pre| && pre[k].0 == x && Stored(net, pre)[x] == pre[k].1;
          assert es[k] == pre[k];
        }
      }
    }
  }

  // ---------------------------------------------------------------------------
  // Linking

  /** Fanin counts by kind: two for an AIG, one for a PO, none otherwise. */
  function Arity(g: Gate): nat
  {
    match g.kind
    case Aig => 2
    case PO => 1
    case _ => 0
  }

  ghost predicate Shaped(net: Net)
  {
    forall x :: x in net ==> |net[x].fanin| == Arity(net[x])
  }

  /** The literals of a gate's fanins. */
  function Lits(g: Gate): seq<nat>
  {
    seq(|g.fanin|, i requires 0 <= i < |g.fanin| => Literal(g.fanin[i]))
  }

  /** `b` differs from `a` at most in which fanins are live and in fanout lists: the
      same ids, kinds, lines and fanin literals. */
  ghost predicate SameLits(a: Net, b: Net)
  {
    && a.Keys == b.Keys
    && forall x :: x in a ==>
      b[x].kind == a[x].kind && b[x].id == a[x].id && b[x].line == a[x].line && Lits(b[x]) == Lits(a[x])
  }

  /** The edge a fanin literal becomes once every gate exists: live to gate
      `lit / 2` with polarity `lit % 2` when that gate exists, floating otherwise. */
  function Resolve(net: Net, lit: nat): Edge
  {
    if lit / 2 in net then Live(lit / 2, lit % 2 == 1) else Float(lit)
  }

  /** Every fanin of gate `x` is what its literal resolves to. */
  ghost predicate ResolvedAt(net: Net, x: nat)
  {
    x in net && forall i :: 0 <= i < |net[x].fanin| ==> net[x].fanin[i] == Resolve(net, Literal(net[x].fanin[i]))
  }

  /** `connectLinks` on each listed gate in turn. */
  function LinkAll(net: Net, ids: seq<nat>): (r: Net)
    requires Shaped(net) && forall k :: 0 <= k < |ids| ==> ids[k] in net
    ensures Shaped(r) && SameLits(net, r)
    decreases |ids|
  {
    if ids == [] then net
    else
      var p := LinkAll(net, ids[..|ids| - 1]);
      var x := ids[|ids| - 1];
      LinkedShape(p, x);
      Linked(p, x)
  }

  /** One more pass of the linking loop: the prefix through `k` is the prefix before it
      with gate `ids[k]` linked, and that gate is in the table ready to link. */
  lemma LinkAllSnoc(net: Net, ids: seq<nat>, k: nat)
    requires Shaped(net) && forall j :: 0 <= j < |ids| ==> ids[j] in net
    requires k < |ids|
    ensures var p := LinkAll(net, ids[..k]);
      && ids[k] in p && LinkReady(p[ids[k]])
      && LinkAll(net, ids[..k + 1]) == Linked(p, ids[k])
  {
    var pre := ids[..k + 1];
    assert pre[..k] == ids[..k];
    assert pre[k] == ids[k];
    var p := LinkAll(net, ids[..k]);
    assert ids[k] in net;
    assert |p[ids[k]].fanin| == Arity(p[ids[k]]);
  }

  /** Linking one fanin keeps every gate's kind, id, line and fanin literals. */
  lemma LinkStepSame(net: Net, me: nat, i: nat)
    requires me in net && i < |net[me].fanin|
    ensures SameLits(net, LinkStep(net, me, i))
    ensures Shaped(net) ==> Shaped(LinkStep(net, me, i))
  {
    var r := LinkStep(net, me, i);
    LinkStepEffect(net, me, i);
    assert Lits(r[me]) == Lits(net[me]);
    forall x | x in net && x != me ensures r[x].kind == net[x].kind && r[x].id == net[x].id && r[x].line == net[x].line {
      var lit := FaninLiteral(net[me], i);
      if lit / 2 in net {
        var n1 := net[me := net[me].(fanin := net[me].fanin[i := Live(lit / 2, lit % 2 == 1)])];
        assert r == AddFanoutAt(n1, lit / 2, Live(me, lit % 2 == 1));
      }
    }
  }

  /** `connectLinks` keeps every gate's kind, id, line and fanin literals. */
  lemma LinkedShape(net: Net, me: nat)
    requires Shaped(net) && me in net
    ensures Shaped(Linked(net, me)) && SameLits(net, Linked(net, me))
  {
    if net[me].kind == Aig {
      LinkStepSame(net, me, 0);
      LinkStepSame(LinkStep(net, me, 0), me, 1);
    } else if net[me].kind == PO {
      LinkStepSame(net, me, 0);
    }
  }

  /** On a table whose live fanins name existing gates, linking fanin `i` of `me`
      leaves it as its literal resolves. */
  lemma LinkStepResolves(net: Net, me: nat, i: nat)
    requires FaninsBacked(net) && me in net && i < |net[me].fanin|
    ensures var r := LinkStep(net, me, i); r[me].fanin[i] == Resolve(r, Literal(r[me].fanin[i]))
  {
    var lit := FaninLiteral(net[me], i);
    LinkStepEffect(net, me, i);
    LinkLiteral(lit, net[me].fanin[i]);
    var r := LinkStep(net, me, i);
    assert Literal(r[me].fanin[i]) == lit;
  }

  /** Linking fanin `i` of `me` keeps any other resolved fanin of `me` resolved. */
  lemma LinkStepKeepsOwn(net: Net, me: nat, i: nat, j: nat)
    requires me in net && i < |net[me].fanin| && j < |net[me].fanin| && i != j
    requires net[me].fanin[j] == Resolve(net, Literal(net[me].fanin[j]))
    ensures var r := LinkStep(net, me, i); r[me].fanin[j] == Resolve(r, Literal(r[me].fanin[j]))
  {
    LinkStepEffect(net, me, i);
  }

  /** Linking `me` keeps every other gate's fanins, so a resolved gate stays resolved. */
  lemma LinkedKeepsOthers(net: Net, me: nat, x: nat)
    requires Shaped(net) && me in net && x != me && ResolvedAt(net, x)
    ensures ResolvedAt(Linked(net, me), x)
  {
    LinkedShape(net, me);
    if net[me].kind == Aig {
      LinkStepEffect(net, me, 0);
      LinkStepEffect(LinkStep(net, me, 0), me, 1);
    } else if net[me].kind == PO {
      LinkStepEffect(net, me, 0);
    }
  }

  /** On a consistent table, `connectLinks` on `me` resolves every fanin of `me`. */
  lemma LinkedResolvesMe(net: Net, me: nat)
    requires Consistent(net) && Shaped(net) && me in net
    ensures ResolvedAt(Linked(net, me), me)
  {
    if net[me].kind == Aig {
      assert Linked(net, me) == LinkStep(LinkStep(net, me, 0), me, 1);
      LinkedResolvesAig(net, me);
    } else if net[me].kind == PO {
      assert Linked(net, me) == LinkStep(net, me, 0);
      LinkedResolvesPO(net, me);
    } else {
      assert Linked(net, me) == net;
    }
  }

  /** The single fanin of a PO resolves. */
  lemma LinkedResolvesPO(net: Net, me: nat)
    requires FaninsBacked(net) && me in net && |net[me].fanin| == 1
    ensures ResolvedAt(LinkStep(net, me, 0), me)
  {
    var r := LinkStep(net, me, 0);
    LinkStepResolves(net, me, 0);
    forall i | 0 <= i < |r[me].fanin| ensures r[me].fanin[i] == Resolve(r, Literal(r[me].fanin[i])) {
      assert i == 0;
    }
  }

  /** Both fanins of an AIG resolve: the second step resolves fanin 1 and keeps fanin 0. */
  lemma LinkedResolvesAig(net: Net, me: nat)
    requires Consistent(net) && me in net && net[me].kind == Aig && |net[me].fanin| == 2
    ensures ResolvedAt(LinkStep(LinkStep(net, me, 0), me, 1), me)
  {
    var n1 := LinkStep(net, me, 0);
    LinkStepResolves(net, me, 0);
    assert n1[me].fanin[0] == Resolve(n1, Literal(n1[me].fanin[0]));
    LinkStepConsistent(net, me, 0);
    assert FaninsBacked(n1);
    var r := LinkStep(n1, me, 1);
    LinkStepResolves(n1, me, 1);
    LinkStepKeepsOwn(n1, me, 1, 0);
    assert |r[me].fanin| == 2;
    forall i | 0 <= i < |r[me].fanin| ensures r[me].fanin[i] == Resolve(r, Literal(r[me].fanin[i])) {
      assert i == 0 || i == 1;
    }
  }

  /** `connectLinks` on `me` keeps a consistent table consistent, resolves `me`, and
      keeps every resolved gate resolved. */
  lemma LinkedResolves(net: Net, me: nat)
    requires Consistent(net) && Shaped(net) && me in net
    ensures Consistent(Linked(net, me)) && ResolvedAt(Linked(net, me), me)
    ensures forall x :: ResolvedAt(net, x) ==> ResolvedAt(Linked(net, me), x)
  {
    LinkedShape(net, me);
    LinkedEffect(net, me);
    LinkedResolvesMe(net, me);
    forall x | ResolvedAt(net, x) && x != me ensures ResolvedAt(Linked(net, me), x) {
      LinkedKeepsOthers(net, me, x);
    }
  }

  /** Linking a list of gates on a consistent table resolves each of them, keeps
      resolved gates resolved, and keeps the table consistent. */
  lemma LinkAllResolves(net: Net, ids: seq<nat>)
    requires Consistent(net) && Shaped(net) && forall k :: 0 <= k < |ids| ==> ids[k] in net
    ensures Consistent(LinkAll(net, ids))
    ensures forall k :: 0 <= k < |ids| ==> ResolvedAt(LinkAll(net, ids), ids[k])
    ensures forall x :: ResolvedAt(net, x) ==> ResolvedAt(LinkAll(net, ids), x)
  {
    var r := LinkPrefixResolves(net, ids, |ids|);
    assert ids[..|ids|] == ids;
  }

  /** `LinkAllResolves` for the first `n` gates of the list, by induction on `n`;
      `r` is the table they leave. */
  lemma {:induction false} LinkPrefixResolves(net: Net, ids: seq<nat>, n: nat) returns (r: Net)
    requires Consistent(net) && Shaped(net) && forall k :: 0 <= k < |ids| ==> ids[k] in net
    requires n <= |ids|
    ensures r == LinkAll(net, ids[..n])
    ensures Consistent(r)
    ensures forall k :: 0 <= k < n ==> ResolvedAt(r, ids[k])
    ensures forall x :: ResolvedAt(net, x) ==> ResolvedAt(r, x)
  {
    if n == 0 {
      assert ids[..0] == [];
      r := net;
    } else {
      var p := LinkPrefixResolves(net, ids, n - 1);
      LinkAllSnoc(net, ids, n - 1);
      LinkPrefixStep(net, p, ids, n - 1);
      r := Linked(p, ids[n - 1]);
    }
  }

  /** The inductive step of `LinkPrefixResolves`, over the table `p` linked so far. */
  lemma LinkPrefixStep(net: Net, p: Net, ids: seq<nat>, n: nat)
    requires Consistent(p) && Shaped(p) && n < |ids| && ids[n] in p
    requires forall k :: 0 <= k < n ==> ResolvedAt(p, ids[k])
    requires forall x :: ResolvedAt(net, x) ==> ResolvedAt(p, x)
    ensures Consistent(Linked(p, ids[n]))
    ensures forall k :: 0 <= k < n + 1 ==> ResolvedAt(Linked(p, ids[n]), ids[k])
    ensures forall x :: ResolvedAt(net, x) ==> ResolvedAt(Linked(p, ids[n]), x)
  {
    LinkedResolves(p, ids[n]);
    ResolvedChain(net, p, Linked(p, ids[n]), ids, n);
  }

  /** The bookkeeping of one step of `LinkAllResolves`. */
  lemma ResolvedChain(net: Net, p: Net, r: Net, ids: seq<nat>, n: nat)
    requires n < |ids|
    requires forall k :: 0 <= k < n ==> ResolvedAt(p, ids[k])
    requires forall x :: ResolvedAt(net, x) ==> ResolvedAt(p, x)
    requires forall x :: ResolvedAt(p, x) ==> ResolvedAt(r, x)
    requires ResolvedAt(r, ids[n])
    ensures forall k :: 0 <= k < n + 1 ==> ResolvedAt(r, ids[k])
    ensures forall x :: ResolvedAt(net, x) ==> ResolvedAt(r, x)
  {
  }

  /** Entry `k` of the creation order: an input, an output or an AND line. */
  lemma EntryAt(aag: Aag, k: nat)
    requires k < |Creations(aag)|
    ensures |Creations(aag)| == |aag.inputs| + |aag.outputs| + |aag.ands|
    ensures var i, o := |aag.inputs|, |aag.outputs|;
      && (k < i ==> Creations(aag)[k] == (PIIds(aag)[k], NewPI(PIIds(aag)[k], k + 2)))
      && (i <= k < i + o ==>
            Creations(aag)[k] == (POIds(aag)[k - i], NewPO(POIds(aag)[k - i], k + 2, aag.outputs[k - i])))
      && (i + o <= k ==>
            var r := aag.ands[k - i - o];
            Creations(aag)[k] == (AigIds(aag)[k - i - o], NewAig(AigIds(aag)[k - i - o], k + 2, r.rhs0, r.rhs1)))
  {
  }

  /** Each gate of the built table is the constant at id 0 or a fresh gate of some
      entry: the right fanin count, floating fanins, an empty fanout, and an id of its
      kind's list. */
  lemma BuiltGate(aag: Aag, x: nat)
    requires x in Built(aag)
    ensures var g := Built(aag)[x];
      && |g.fanin| == Arity(g) && g.fanout == [] && (forall e :: e in g.fanin ==> e.Float?)
      && (g.kind == Aig ==> x in AigIds(aag))
      && (g.kind == PO ==> x in POIds(aag))
      && (g.kind == PI ==> x in PIIds(aag))
      && (g.kind == Const ==> x == 0)
  {
    var es := Creations(aag);
    var net0 := map[0 := NewConst()];
    StoredFrom(net0, es, x);
    if !(x in net0 && Built(aag)[x] == net0[x]) {
      var k :| 0 <= k < |es| && es[k].0 == x && Built(aag)[x] == es[k].1;
      EntryAt(aag, k);
    }
  }

  /** Every listed id has a gate. */
  lemma BuiltHasIds(aag: Aag)
    ensures forall x :: x in PIIds(aag) + POIds(aag) + AigIds(aag) ==> x in Built(aag)
  {
    var es := Creations(aag);
    StoredKeys(map[0 := NewConst()], es);
    forall x | x in PIIds(aag) + POIds(aag) + AigIds(aag) ensures x in Ids(es) {
      if x in PIIds(aag) {
        var k :| 0 <= k < |PIIds(aag)| && PIIds(aag)[k] == x;
        InputAt(aag, k);
        IdsHas(es, k);
      } else if x in POIds(aag) {
        var k :| 0 <= k < |POIds(aag)| && POIds(aag)[k] == x;
        OutputAt(aag, k);
        IdsHas(es, |aag.inputs| + k);
      } else {
        var k :| 0 <= k < |AigIds(aag)| && AigIds(aag)[k] == x;
        AndAt(aag, k);
        IdsHas(es, |aag.inputs| + |aag.outputs| + k);
      }
    }
  }

  lemma IdsHas(es: seq<(nat, Gate)>, k: nat)
    requires k < |es|
    ensures es[k].0 in Ids(es)
  {
  }

  /** The built table, as `readCircuit` leaves it before linking: the constant is at
      id 0, every gate has its kind's fanin count, every fanin is floating, every
      fanout is empty (so the table is consistent), and AIGs, POs and PIs sit at ids of
      their lists. */
  lemma BuiltFacts(aag: Aag)
    ensures var net := Built(aag);
      && Consistent(net) && Shaped(net)
      && 0 in net
      && (forall x :: x in net ==> net[x].fanout == [] && forall e :: e in net[x].fanin ==> e.Float?)
      && (forall x :: x in net && net[x].kind == Aig ==> x in AigIds(aag))
      && (forall x :: x in net && net[x].kind == PO ==> x in POIds(aag))
      && (forall x :: x in net && net[x].kind == PI ==> x in PIIds(aag))
      && (forall x :: x in net && net[x].kind == Const ==> x == 0)
      && (forall x :: x in PIIds(aag) + POIds(aag) + AigIds(aag) ==> x in net)
  {
    StoredKeys(map[0 := NewConst()], Creations(aag));
    BuiltHasIds(aag);
    forall x | x in Built(aag) ensures
      var g := Built(aag)[x];
      && |g.fanin| == Arity(g) && g.fanout == [] && (forall e :: e in g.fanin ==> e.Float?)
      && (g.kind == Aig ==> x in AigIds(aag))
      && (g.kind == PO ==> x in POIds(aag))
      && (g.kind == PI ==> x in PIIds(aag))
      && (g.kind == Const ==> x == 0)
    {
      BuiltGate(aag, x);
    }
  }

  /** The table after `readCircuit`'s two linking loops: AIGs first, then POs. */
  function Linking(aag: Aag): (net: Net)
  {
    BuiltFacts(aag);
    var net1 := LinkAll(Built(aag), AigIds(aag));
    LinkAll(net1, POIds(aag))
  }

  /** After both linking loops the table is consistent, it holds the same gates with
      the same literals as before linking, and every fanin of every gate is what its
      literal resolves to: a live edge to an existing gate, or a floating literal
      naming a missing one. */
  lemma LinkingResolves(aag: Aag)
    ensures SameLits(Built(aag), Linking(aag))
    ensures Consistent(Linking(aag))
    ensures forall x :: x in Linking(aag) ==> ResolvedAt(Linking(aag), x)
  {
    BuiltFacts(aag);
    var net0 := Built(aag);
    var ais, pos := AigIds(aag), POIds(aag);
    var net1 := LinkAll(net0, ais);
    LinkAllResolves(net0, ais);
    var r := LinkAll(net1, pos);
    LinkAllResolves(net1, pos);
    forall x | x in r ensures ResolvedAt(r, x) {
      LinkingResolvesAt(aag, net0, net1, r, x);
    }
  }

  lemma LinkingResolvesAt(aag: Aag, net0: Net, net1: Net, r: Net, x: nat)
    requires Shaped(r) && SameLits(net0, net1) && SameLits(net1, r) && x in r
    requires forall y :: y in net0 && net0[y].kind == Aig ==> y in AigIds(aag)
    requires forall y :: y in net0 && net0[y].kind == PO ==> y in POIds(aag)
    requires forall k :: 0 <= k < |AigIds(aag)| ==> ResolvedAt(net1, AigIds(aag)[k])
    requires forall y :: ResolvedAt(net1, y) ==> ResolvedAt(r, y)
    requires forall k :: 0 <= k < |POIds(aag)| ==> ResolvedAt(r, POIds(aag)[k])
    ensures ResolvedAt(r, x)
  {
    if net0[x].kind == Aig {
      var k :| 0 <= k < |AigIds(aag)| && AigIds(aag)[k] == x;
      assert ResolvedAt(net1, x);
    } else if net0[x].kind == PO {
      var k :| 0 <= k < |POIds(aag)| && POIds(aag)[k] == x;
    } else {
      assert |r[x].fanin| == 0;
    }
  }

  /** What the last line using an id leaves in the linked table. */
  lemma LinkedEntry(aag: Aag, k: nat)
    requires WellFormed(aag) && LastWriter(Creations(aag), k)
    ensures var x := Creations(aag)[k].0; var net := Linking(aag); var i, o := aag.i, aag.o;
      && x in net && net[x].id == x && net[x].line == k + 2
      && (k < i ==> x == aag.inputs[k] / 2 && net[x].kind == PI)
      && (i <= k < i + o ==> x == aag.m + k - i + 1 && net[x].kind == PO && Lits(net[x]) == [aag.outputs[k - i]])
      && (i + o <= k ==>
            var r := aag.ands[k - i - o];
            x == r.lhs / 2 && net[x].kind == Aig && Lits(net[x]) == [r.rhs0, r.rhs1])
  {
    if aag.i + aag.o <= k {
      LinkedAnd(aag, k);
    } else if aag.i <= k {
      LinkedOutput(aag, k);
    } else {
      LinkedInput(aag, k);
    }
  }

  lemma LinkedInput(aag: Aag, k: nat)
    requires WellFormed(aag) && LastWriter(Creations(aag), k) && k < aag.i
    ensures var x := Creations(aag)[k].0;
      && x == aag.inputs[k] / 2 && x in Linking(aag) && Linking(aag)[x].kind == PI
      && Linking(aag)[x].id == x && Linking(aag)[x].line == k + 2
  {
    var x := aag.inputs[k] / 2;
    var g := NewPI(x, k + 2);
    InputAt(aag, k);
    assert Creations(aag)[k] == (x, g);
    LinkedLast(aag, k, x, g);
  }

  lemma LinkedAnd(aag: Aag, k: nat)
    requires WellFormed(aag) && LastWriter(Creations(aag), k) && aag.i + aag.o <= k
    ensures var x := Creations(aag)[k].0; var r := aag.ands[k - aag.i - aag.o];
      && x == r.lhs / 2 && x in Linking(aag) && Linking(aag)[x].kind == Aig && Lits(Linking(aag)[x]) == [r.rhs0, r.rhs1]
      && Linking(aag)[x].id == x && Linking(aag)[x].line == k + 2
  {
    var j := k - aag.i - aag.o;
    var r := aag.ands[j];
    var x := r.lhs / 2;
    var g := NewAig(x, k + 2, r.rhs0, r.rhs1);
    assert k == |aag.inputs| + |aag.outputs| + j;
    AndAt(aag, j);
    assert Creations(aag)[k] == (x, g);
    LinkedLast(aag, k, x, g);
    NewLits(x, k + 2, r.rhs0, r.rhs1);
    var net := Linking(aag);
    assert x in net && net[x].kind == Aig && net[x].id == x && net[x].line == k + 2;
    assert Lits(net[x]) == [r.rhs0, r.rhs1];
  }

  lemma LinkedOutput(aag: Aag, k: nat)
    requires WellFormed(aag) && LastWriter(Creations(aag), k) && aag.i <= k < aag.i + aag.o
    ensures var x := Creations(aag)[k].0;
      && x == aag.m + k - aag.i + 1 && x in Linking(aag) && Linking(aag)[x].kind == PO
      && Lits(Linking(aag)[x]) == [aag.outputs[k - aag.i]]
      && Linking(aag)[x].id == x && Linking(aag)[x].line == k + 2
  {
    var j := k - aag.i;
    var x := aag.m + j + 1;
    var g := NewPO(x, k + 2, aag.outputs[j]);
    assert k == |aag.inputs| + j;
    OutputAt(aag, j);
    assert Creations(aag)[k] == (x, g);
    LinkedLast(aag, k, x, g);
    NewLits(x, k + 2, aag.outputs[j], 0);
    assert k - aag.i == j && aag.m + k - aag.i + 1 == x;
  }

  /** Input `k` is entry `k`. */
  lemma InputAt(aag: Aag, k: nat)
    requires k < |aag.inputs|
    ensures k < |Creations(aag)|
    ensures Creations(aag)[k] == (aag.inputs[k] / 2, NewPI(aag.inputs[k] / 2, k + 2))
  {
  }

  /** AND line `j` is entry `I + O + j`. */
  lemma AndAt(aag: Aag, j: nat)
    requires j < |aag.ands|
    ensures |aag.inputs| + |aag.outputs| + j < |Creations(aag)|
    ensures var r := aag.ands[j];
      Creations(aag)[|aag.inputs| + |aag.outputs| + j] ==
        (r.lhs / 2, NewAig(r.lhs / 2, |aag.inputs| + |aag.outputs| + j + 2, r.rhs0, r.rhs1))
  {
  }

  /** Output `j` is entry `I + j`. */
  lemma OutputAt(aag: Aag, j: nat)
    requires j < |aag.outputs|
    ensures |aag.inputs| + j < |Creations(aag)|
    ensures Creations(aag)[|aag.inputs| + j] ==
      (aag.m + j + 1, NewPO(aag.m + j + 1, |aag.inputs| + j + 2, aag.outputs[j]))
  {
  }

  /** One pass of the output loop of `readCircuit`: the table and the id list grow by
      output `j`. */
  lemma PlaceOutputStep(aag: Aag, j: nat, x: nat, line: nat, net: Net, pos: seq<nat>)
    requires WellFormed(aag) && j < aag.o && x == aag.m + j + 1 && line == aag.i + j + 2
    requires net == Stored(map[0 := NewConst()], Creations(aag)[..aag.i + j]) && pos == POIds(aag)[..j]
    ensures net[x := NewPO(x, line, aag.outputs[j])] == Stored(map[0 := NewConst()], Creations(aag)[..aag.i + j + 1])
    ensures pos + [x] == POIds(aag)[..j + 1]
  {
    OutputAt(aag, j);
    StoredSnoc(map[0 := NewConst()], Creations(aag), aag.i + j);
    assert POIds(aag)[..j + 1] == POIds(aag)[..j] + [POIds(aag)[j]];
  }

  /** The table and the id list once the first `k` AND lines are placed. */
  ghost predicate AndsPlaced(aag: Aag, k: nat, net: Net, aigs: seq<nat>)
  {
    && k <= |aag.ands|
    && net == Stored(map[0 := NewConst()], Creations(aag)[..|aag.inputs| + |aag.outputs| + k])
    && aigs == AigIds(aag)[..k]
  }

  /** The fanin literals of new gates. */
  lemma NewLits(id: nat, line: nat, a: nat, b: nat)
    ensures Lits(NewAig(id, line, a, b)) == [a, b]
    ensures Lits(NewPO(id, line, a)) == [a]
  {
    assert Lits(NewAig(id, line, a, b))[0] == a;
  }

  /** The entry that is the last to use its id survives linking with its kind, id,
      line and fanin literals. */
  lemma LinkedLast(aag: Aag, k: nat, x: nat, g: Gate)
    requires LastWriter(Creations(aag), k) && Creations(aag)[k] == (x, g)
    ensures x in Linking(aag) && Linking(aag)[x].kind == g.kind && Linking(aag)[x].id == g.id
    ensures Linking(aag)[x].line == g.line && Lits(Linking(aag)[x]) == Lits(g)
  {
    StoredLast(map[0 := NewConst()], Creations(aag));
    LinkingResolves(aag);
  }

  /** After linking, a gate has a floating fanin exactly when one of its fanin
      literals names a gate that does not exist. */
  lemma LinkedFloating(aag: Aag, x: nat)
    requires x in Linking(aag)
    ensures HasFloat(Linking(aag)[x]) <==>
      exists i :: 0 <= i < |Linking(aag)[x].fanin| && Literal(Linking(aag)[x].fanin[i]) / 2 !in Linking(aag)
  {
    LinkingResolves(aag);
    var net := Linking(aag);
    var g := net[x];
    if HasFloat(g) {
      var i :| 0 <= i < |g.fanin| && g.fanin[i].Float?;
      assert g.fanin[i] == Resolve(net, Literal(g.fanin[i]));
    }
    if exists i :: 0 <= i < |g.fanin| && Literal(g.fanin[i]) / 2 !in net {
      var i :| 0 <= i < |g.fanin| && Literal(g.fanin[i]) / 2 !in net;
      assert g.fanin[i] == Resolve(net, Literal(g.fanin[i]));
    }
  }

  /** Output `k`, when no AND line reuses its id, reads its literal after linking. */
  lemma OutputLinked(aag: Aag, k: nat)
    requires WellFormed(aag) && k < aag.o && LastWriter(Creations(aag), aag.i + k)
    ensures POIds(aag)[k] in Linking(aag) && Lits(Linking(aag)[POIds(aag)[k]]) == [aag.outputs[k]]
  {
    var x := aag.m + k + 1;
    var kk := |aag.inputs| + k;
    var g := NewPO(x, kk + 2, aag.outputs[k]);
    assert POIds(aag)[k] == x;
    OutputAt(aag, k);
    assert Creations(aag)[kk] == (x, g);
    LinkedLast(aag, kk, x, g);
    NewLits(x, kk + 2, aag.outputs[k], 0);
  }

  /** AND line `k`, when no later line reuses its id, survives linking as gate `lhs / 2`
      reading `rhs0` and `rhs1`. */
  lemma AndLinked(aag: Aag, k: nat)
    requires WellFormed(aag) && k < aag.a && LastWriter(Creations(aag), aag.i + aag.o + k)
    ensures var r := aag.ands[k]; var x := r.lhs / 2;
      && AigIds(aag)[k] == x && x in Linking(aag) && Linking(aag)[x].id == x
      && Lits(Linking(aag)[x]) == [r.rhs0, r.rhs1]
  {
    var x := aag.ands[k].lhs / 2;
    var kk := aag.i + aag.o + k;
    assert AigIds(aag)[k] == x;
    AndAt(aag, k);
    assert Creations(aag)[kk].0 == x;
    LinkedAnd(aag, kk);
    assert kk - aag.i - aag.o == k;
  }

  /** Every entry is followed, at or after it, by the last entry with its id. */
  lemma {:induction false} LastWriterAfter(es: seq<(nat, Gate)>, k0: nat) returns (k: nat)
    requires k0 < |es|
    ensures k0 <= k && LastWriter(es, k) && es[k].0 == es[k0].0
    decreases |es| - k0
  {
    if LastWriter(es, k0) {
      k := k0;
    } else {
      var j :| k0 < j < |es| && es[j].0 == es[k0].0;
      k := LastWriterAfter(es, j);
    }
  }

  /** AND lines come last, so a listed AIG id holds an AIG after reading, and a listed
      PO id holds a PO, or an AIG when an AND line reuses its id. */
  lemma ListedKinds(aag: Aag)
    requires WellFormed(aag)
    ensures Shaped(Linking(aag))
    ensures forall x :: x in AigIds(aag) ==> x in Linking(aag) && Linking(aag)[x].kind == Aig
    ensures forall x :: x in POIds(aag) ==> x in Linking(aag) && Linking(aag)[x].kind in {PO, Aig}
  {
    forall x | x in AigIds(aag) ensures x in Linking(aag) && Linking(aag)[x].kind == Aig {
      var j :| 0 <= j < |AigIds(aag)| && AigIds(aag)[j] == x;
      ListedAig(aag, j);
    }
    forall x | x in POIds(aag) ensures x in Linking(aag) && Linking(aag)[x].kind in {PO, Aig} {
      var j :| 0 <= j < |POIds(aag)| && POIds(aag)[j] == x;
      ListedPO(aag, j);
    }
  }

  lemma ListedAig(aag: Aag, j: nat)
    requires WellFormed(aag) && j < |AigIds(aag)|
    ensures AigIds(aag)[j] in Linking(aag) && Linking(aag)[AigIds(aag)[j]].kind == Aig
  {
    var es := Creations(aag);
    var k0 := |aag.inputs| + |aag.outputs| + j;
    EntryAt(aag, k0);
    assert es[k0].0 == AigIds(aag)[j];
    var k := LastWriterAfter(es, k0);
    EntryAt(aag, k);
    LinkedLast(aag, k, es[k].0, es[k].1);
    assert es[k].0 == AigIds(aag)[j];
  }

  lemma ListedPO(aag: Aag, j: nat)
    requires WellFormed(aag) && j < |POIds(aag)|
    ensures POIds(aag)[j] in Linking(aag) && Linking(aag)[POIds(aag)[j]].kind in {PO, Aig}
  {
    var es := Creations(aag);
    var k0 := |aag.inputs| + j;
    EntryAt(aag, k0);
    assert es[k0].0 == POIds(aag)[j];
    var k := LastWriterAfter(es, k0);
    LateKind(aag, k);
    LinkedLast(aag, k, es[k].0, es[k].1);
    assert es[k].0 == POIds(aag)[j];
  }

  /** Entries after the inputs are outputs or AND lines. */
  lemma LateKind(aag: Aag, k: nat)
    requires |aag.inputs| <= k < |Creations(aag)|
    ensures Creations(aag)[k].1.kind == PO || Creations(aag)[k].1.kind == Aig
  {
    EntryAt(aag, k);
  }

  // ---------------------------------------------------------------------------
  // Symbols

  /** The symbol table after the symbol lines: `i k name` names `_PIList[k]`,
      `o k name` names `_POList[k]`, later lines overwrite earlier ones, and other
      heads are ignored. */
  function Named(syms: map<nat, string>, pis: seq<nat>, pos: seq<nat>, recs: seq<SymRec>): map<nat, string>
    decreases |recs|
  {
    if recs == [] then syms
    else
      var t := Named(syms, pis, pos, recs[..|recs| - 1]);
      var r := recs[|recs| - 1];
      if Aims(pis, pos, r) then t[SymTarget(pis, pos, r) := r.name] else t
  }

  /** A symbol line names a gate: its head is `i` or `o` and its position exists. */
  predicate Aims(pis: seq<nat>, pos: seq<nat>, r: SymRec)
  {
    (r.head == 'i' && r.pos < |pis|) || (r.head == 'o' && r.pos < |pos|)
  }

  /** The gate a symbol line names. */
  function SymTarget(pis: seq<nat>, pos: seq<nat>, r: SymRec): nat
    requires Aims(pis, pos, r)
  {
    if r.head == 'i' && r.pos < |pis| then pis[r.pos] else pos[r.pos]
  }

  /** Symbol line `k` names gate `x`. */
  predicate NamesAt(pis: seq<nat>, pos: seq<nat>, recs: seq<SymRec>, k: int, x: nat)
  {
    0 <= k < |recs| && Aims(pis, pos, recs[k]) && SymTarget(pis, pos, recs[k]) == x
  }

  lemma NamesAtPrefix(pis: seq<nat>, pos: seq<nat>, recs: seq<SymRec>, n: nat, j: nat, x: nat)
    requires j < n <= |recs|
    ensures NamesAt(pis, pos, recs[..n], j, x) == NamesAt(pis, pos, recs, j, x)
  {
    assert recs[..n][j] == recs[j];
  }

  /** A gate is named exactly when some symbol line names it (or it was named before),
      and it carries the name of the last line naming it. */
  lemma NamedBy(syms: map<nat, string>, pis: seq<nat>, pos: seq<nat>, recs: seq<SymRec>)
    ensures forall x :: x in Named(syms, pis, pos, recs) <==>
      x in syms || exists k :: NamesAt(pis, pos, recs, k, x)
    ensures forall k, x :: (NamesAt(pis, pos, recs, k, x) &&
      forall j :: k < j < |recs| ==> !NamesAt(pis, pos, recs, j, x)) ==>
        x in Named(syms, pis, pos, recs) && Named(syms, pis, pos, recs)[x] == recs[k].name
  {
    NamedKeys(syms, pis, pos, recs);
    NamedLast(syms, pis, pos, recs);
  }

  lemma {:induction false} NamedKeys(syms: map<nat, string>, pis: seq<nat>, pos: seq<nat>, recs: seq<SymRec>)
    ensures forall x :: x in Named(syms, pis, pos, recs) <==>
      x in syms || exists k :: NamesAt(pis, pos, recs, k, x)
    decreases |recs|
  {
    if recs != [] {
      var n := |recs| - 1;
      var pre := recs[..n];
      NamedKeys(syms, pis, pos, pre);
      var r := Named(syms, pis, pos, recs);
      forall x ensures x in r <==> x in syms || exists k :: NamesAt(pis, pos, recs, k, x) {
        if exists k :: NamesAt(pis, pos, recs, k, x) {
          var k :| NamesAt(pis, pos, recs, k, x);
          if k < n {
            assert NamesAt(pis, pos, pre, k, x);
          }
        }
        if x in r && x !in syms && !NamesAt(pis, pos, recs, n, x) {
          var k :| NamesAt(pis, pos, pre, k, x);
          assert NamesAt(pis, pos, recs, k, x);
        }
      }
    }
  }

  lemma {:induction false} NamedLast(syms: map<nat, string>, pis: seq<nat>, pos: seq<nat>, recs: seq<SymRec>)
    ensures forall k, x :: (NamesAt(pis, pos, recs, k, x) &&
      forall j :: k < j < |recs| ==> !NamesAt(pis, pos, recs, j, x)) ==>
        x in Named(syms, pis, pos, recs) && Named(syms, pis, pos, recs)[x] == recs[k].name
    decreases |recs|
  {
    if recs != [] {
      var n := |recs| - 1;
      var pre := recs[..n];
      NamedLast(syms, pis, pos, pre);
      var r := Named(syms, pis, pos, recs);
      forall k, x | NamesAt(pis, pos, recs, k, x) && forall j :: k < j < |recs| ==> !NamesAt(pis, pos, recs, j, x)
        ensures x in r && r[x] == recs[k].name
      {
        if k < n {
          NamesAtPrefix(pis, pos, recs, n, k, x);
          assert !NamesAt(pis, pos, recs, n, x);
          forall j | k < j < |pre| ensures !NamesAt(pis, pos, pre, j, x) {
            NamesAtPrefix(pis, pos, recs, n, j, x);
          }
        }
      }
    }
  }
}
