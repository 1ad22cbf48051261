/** Word-parallel simulation: `getSimValue` computes a gate's 32-bit pattern,
    memoised per gate by an epoch mark, and `divideFEC` splits each group of
    functionally-equivalent candidates by simulated value. */
module Sim {
  import opened CirGate
  import opened HashMapModel

  /** Gate `x` can read the fanin `e`: a live fanin names a gate of lower rank. */
  ghost predicate Below(net: Net, rank: map<nat, nat>, x: nat, e: Edge)
    requires x in rank
  {
    e.Live? ==> e.id in net && e.id in rank && rank[e.id] < rank[x]
  }

  /** The table is a ranked DAG as far as simulation reads it: an AIG reads its two
      fanins, a PO its first. */
  ghost predicate Ranked(net: Net, rank: map<nat, nat>)
  {
    && net.Keys <= rank.Keys
    && (forall x :: x in net && net[x].kind == Aig ==>
          |net[x].fanin| >= 2 && Below(net, rank, x, net[x].fanin[0]) && Below(net, rank, x, net[x].fanin[1]))
    && (forall x :: x in net && net[x].kind == PO ==>
          |net[x].fanin| >= 1 && Below(net, rank, x, net[x].fanin[0]))
  }

  /** Simulating `x` never meets a PO with a floating fanin: the PO branch of
      `getSimValue` dereferences its fanin without the floating test the AND
      branch makes.  Only the gates reached from `x` are constrained. */
  ghost predicate Defined(net: Net, rank: map<nat, nat>, x: nat)
    requires Ranked(net, rank) && x in net
    decreases rank[x]
  {
    var g := net[x];
    match g.kind
    case Const => true
    case PI => true
    case PO => g.fanin[0].Live? && Defined(net, rank, g.fanin[0].id)
    case Aig =>
      && (g.fanin[0].Live? ==> Defined(net, rank, g.fanin[0].id))
      && (g.fanin[1].Live? ==> Defined(net, rank, g.fanin[1].id))
  }

  /** Primary inputs hold their pattern for the current epoch before simulation starts. */
  ghost predicate PIsMarked(net: Net, epoch: nat)
  {
    forall x :: x in net && net[x].kind == PI ==> net[x].mark == epoch
  }

  /** The value of one AND input: 0 for a floating fanin, else the fanin's value,
      complemented on an inverted edge. */
  ghost function Operand(net: Net, rank: map<nat, nat>, x: nat, i: nat): bv32
    requires Ranked(net, rank) && x in net && net[x].kind == Aig && i < 2
    decreases rank[x], 0
  {
    var e := net[x].fanin[i];
    if e.Float? then 0
    else if e.inv then !Value(net, rank, e.id)
    else Value(net, rank, e.id)
  }

  /** The simulated pattern of gate `x`: 0 for CONST, the stored pattern for a PI,
      the fanin's value for a PO (no inversion is applied), and the AND of the two
      operands for an AIG.  A PO with a floating fanin is given 0 here; simulation
      never reaches one (`Defined`). */
  ghost function Value(net: Net, rank: map<nat, nat>, x: nat): bv32
    requires Ranked(net, rank) && x in net
    decreases rank[x], 1
  {
    var g := net[x];
    match g.kind
    case Const => 0
    case PI => g.value
    case PO => if g.fanin[0].Live? then Value(net, rank, g.fanin[0].id) else 0
    case Aig => Operand(net, rank, x, 0) & Operand(net, rank, x, 1)
  }

  /** Every gate marked in this epoch caches its true value. */
  ghost predicate MemoSound(net: Net, rank: map<nat, nat>, epoch: nat)
  {
    Ranked(net, rank) && forall x :: x in net && net[x].mark == epoch ==> net[x].value == Value(net, rank, x)
  }

  /** `r` is `net` with memo fields possibly filled in: nothing else differs, and a
      gate already marked in this epoch keeps its mark and value. */
  ghost predicate Agree(net: Net, r: Net, epoch: nat)
  {
    && r.Keys == net.Keys
    && (forall x :: x in net ==> SameShape(net[x], r[x]))
    && (forall x :: x in net && net[x].mark == epoch ==> r[x].mark == epoch && r[x].value == net[x].value)
  }

  /** Two versions of a gate that differ at most in their memo fields. */
  predicate SameShape(a: Gate, b: Gate)
  {
    a.kind == b.kind && a.id == b.id && a.line == b.line && a.fanin == b.fanin && a.fanout == b.fanout
  }

  lemma AgreeRanked(net: Net, r: Net, rank: map<nat, nat>, epoch: nat)
    requires Ranked(net, rank) && PIsMarked(net, epoch) && Agree(net, r, epoch)
    ensures Ranked(r, rank) && PIsMarked(r, epoch)
  {
  }

  lemma AgreeTrans(a: Net, b: Net, c: Net, epoch: nat)
    requires Agree(a, b, epoch) && Agree(b, c, epoch)
    ensures Agree(a, c, epoch)
  {
  }

  /** Filling in memo fields does not change any gate's value, since the inputs of the
      computation, the PI patterns, are already marked and so are kept. */
  lemma {:induction false} ValueAgree(net: Net, r: Net, rank: map<nat, nat>, epoch: nat, x: nat)
    requires Ranked(net, rank) && PIsMarked(net, epoch) && Agree(net, r, epoch)
    requires x in net
    ensures Ranked(r, rank)
    ensures Value(r, rank, x) == Value(net, rank, x)
    decreases rank[x]
  {
    AgreeRanked(net, r, rank, epoch);
    var g := net[x];
    assert SameShape(g, r[x]);
    match g.kind
    case Const =>
    case PI =>
    case PO =>
      if g.fanin[0].Live? {
        ValueAgree(net, r, rank, epoch, g.fanin[0].id);
      }
    case Aig =>
      var a, b := g.fanin[0], g.fanin[1];
      if a.Live? {
        ValueAgree(net, r, rank, epoch, a.id);
      }
      if b.Live? {
        ValueAgree(net, r, rank, epoch, b.id);
      }
      OperandSame(net, r, rank, x, 0);
      OperandSame(net, r, rank, x, 1);
  }

  /** An AND input has the same value in two tables of the same shape where its fanin
      gate has the same value. */
  lemma OperandSame(net: Net, r: Net, rank: map<nat, nat>, x: nat, i: nat)
    requires Ranked(net, rank) && Ranked(r, rank)
    requires x in net && x in r && net[x].kind == Aig && r[x].kind == Aig && i < 2
    requires r[x].fanin == net[x].fanin
    requires net[x].fanin[i].Live? ==> Value(r, rank, net[x].fanin[i].id) == Value(net, rank, net[x].fanin[i].id)
    ensures Operand(r, rank, x, i) == Operand(net, rank, x, i)
  {
  }

  /** A live fanin read by simulating a defined gate is itself defined. */
  lemma DefinedFanin(net: Net, rank: map<nat, nat>, x: nat, i: nat)
    requires Ranked(net, rank) && x in net && Defined(net, rank, x)
    requires net[x].kind in {Aig, PO} && (net[x].kind == Aig ==> i < 2) && (net[x].kind == PO ==> i == 0)
    ensures net[x].fanin[i].Live? && net[x].kind == PO ==> Defined(net, rank, net[x].fanin[i].id)
    ensures net[x].fanin[i].Live? && net[x].kind == Aig ==> Defined(net, rank, net[x].fanin[i].id)
    ensures net[x].kind == PO ==> net[x].fanin[0].Live?
  {
  }

  /** A PO reading an undefined literal leaves the other gates simulable: the group
      `[2, 1]` of an AND and its input can be split although PO 3 floats. */
  lemma FloatingOutputAside()
    ensures var net := map[0 := NewConst(), 1 := NewPI(1, 1),
                           2 := Gate(Aig, 2, 3, [Live(1, false), Live(1, true)], [], 0, 0),
                           3 := NewPO(3, 2, 20)];
      var rank := map[0 := 0, 1 := 0, 2 := 1, 3 := 2];
      Ranked(net, rank) && AllDefinedIn(net, rank, [[2, 1]]) && !Defined(net, rank, 3)
  {
  }

  /** Filling in memos does not change which gates simulation can reach. */
  lemma {:induction false} DefinedAgree(net: Net, r: Net, rank: map<nat, nat>, epoch: nat, x: nat)
    requires Ranked(net, rank) && PIsMarked(net, epoch) && Agree(net, r, epoch)
    requires x in net
    ensures Ranked(r, rank)
    ensures Defined(r, rank, x) == Defined(net, rank, x)
    decreases rank[x]
  {
    AgreeRanked(net, r, rank, epoch);
    var g := net[x];
    assert SameShape(g, r[x]);
    match g.kind
    case Const =>
    case PI =>
    case PO =>
      if g.fanin[0].Live? {
        DefinedAgree(net, r, rank, epoch, g.fanin[0].id);
      }
    case Aig =>
      if g.fanin[0].Live? {
        DefinedAgree(net, r, rank, epoch, g.fanin[0].id);
      }
      if g.fanin[1].Live? {
        DefinedAgree(net, r, rank, epoch, g.fanin[1].id);
      }
  }

  /** Marking gate `id` with its true value keeps the memo sound. */
  lemma MarkSound(net: Net, r: Net, rank: map<nat, nat>, epoch: nat, id: nat, v: bv32)
    requires MemoSound(r, rank, epoch) && PIsMarked(r, epoch)
    requires id in r && v == Value(r, rank, id)
    requires Ranked(net, rank) && PIsMarked(net, epoch) && Agree(net, r, epoch)
    requires id in net && net[id].mark != epoch
    ensures Agree(net, r[id := r[id].(value := v, mark := epoch)], epoch)
    ensures MemoSound(r[id := r[id].(value := v, mark := epoch)], rank, epoch)
    ensures PIsMarked(r[id := r[id].(value := v, mark := epoch)], epoch)
  {
    var r' := r[id := r[id].(value := v, mark := epoch)];
    assert SameShape(r[id], r'[id]);
    forall x | x in r && r[x].mark == epoch ensures r'[x].mark == epoch && r'[x].value == r[x].value {
      if x == id {
        assert r[id].value == Value(r, rank, id);
      }
    }
    assert Agree(r, r', epoch);
    AgreeTrans(net, r, r', epoch);
    AgreeRanked(r, r', rank, epoch);
    forall x | x in r' && r'[x].mark == epoch ensures r'[x].value == Value(r', rank, x) {
      ValueAgree(r, r', rank, epoch, x);
    }
  }

  /** Filling in memos keeps the value of an AND input. */
  lemma OperandAgree(net: Net, r: Net, rank: map<nat, nat>, epoch: nat, x: nat, i: nat)
    requires Ranked(net, rank) && PIsMarked(net, epoch) && Agree(net, r, epoch)
    requires x in net && net[x].kind == Aig && i < 2
    ensures Ranked(r, rank) && r[x].kind == Aig
    ensures Operand(r, rank, x, i) == Operand(net, rank, x, i)
  {
    AgreeRanked(net, r, rank, epoch);
    assert SameShape(net[x], r[x]);
    var e := net[x].fanin[i];
    if e.Live? {
      ValueAgree(net, r, rank, epoch, e.id);
    }
    OperandSame(net, r, rank, x, i);
  }

  /** One AND input as `getSimValue` reads it: 0 for a floating fanin, otherwise the
      fanin gate's simulated value, complemented on an inverted edge. */
  method SimOperand(net: Net, epoch: nat, id: nat, i: nat, ghost rank: map<nat, nat>) returns (w: bv32, r: Net)
    requires id in net && net[id].kind == Aig && i < 2
    requires Ranked(net, rank) && PIsMarked(net, epoch) && MemoSound(net, rank, epoch)
    requires Defined(net, rank, id)
    ensures w == Operand(net, rank, id, i)
    ensures Agree(net, r, epoch) && PIsMarked(r, epoch) && MemoSound(r, rank, epoch)
    decreases rank[id], 0
  {
    var e := net[id].fanin[i];
    if e.Float? {
      return 0, net;
    }
    assert Below(net, rank, id, e);
    DefinedFanin(net, rank, id, i);
    w, r := GetSimValue(net, epoch, e.id, rank);
    if e.inv {
      w := !w;
    }
  }

  /** `getSimValue()`: a gate already marked in this epoch returns its cached pattern
      and changes nothing; otherwise its value is computed from its fanins (filling
      in their memos on the way), stored, and the gate is marked. */
  method GetSimValue(net: Net, epoch: nat, id: nat, ghost rank: map<nat, nat>) returns (v: bv32, r: Net)
    requires id in net
    requires Ranked(net, rank) && PIsMarked(net, epoch) && MemoSound(net, rank, epoch)
    requires Defined(net, rank, id)
    ensures v == Value(net, rank, id)
    ensures net[id].kind == Const ==> v == 0
    ensures net[id].mark == epoch ==> v == net[id].value && r == net
    ensures Agree(net, r, epoch) && r[id].mark == epoch && r[id].value == v
    ensures PIsMarked(r, epoch) && MemoSound(r, rank, epoch)
    decreases rank[id], 2
  {
    var g := net[id];
    if g.mark == epoch {
      return g.value, net;
    }
    v, r := ComputeSimValue(net, epoch, id, rank);
    MarkSound(net, r, rank, epoch, id, v);
    r := r[id := r[id].(value := v, mark := epoch)];
  }

  /** The uncached branch of `getSimValue()`: the constant gives 0, a PO its fanin's
      value, an AND the conjunction of its two inputs; the fanins' memos are filled in
      on the way. */
  method ComputeSimValue(net: Net, epoch: nat, id: nat, ghost rank: map<nat, nat>) returns (v: bv32, r: Net)
    requires id in net && net[id].mark != epoch
    requires Ranked(net, rank) && PIsMarked(net, epoch) && MemoSound(net, rank, epoch)
    requires Defined(net, rank, id)
    ensures Agree(net, r, epoch) && Ranked(r, rank) && PIsMarked(r, epoch) && MemoSound(r, rank, epoch)
    ensures id in r && v == Value(r, rank, id) && v == Value(net, rank, id)
    ensures net[id].kind == Const ==> v == 0
    decreases rank[id], 1
  {
    var g := net[id];
    if g.kind == Const {
      v, r := 0, net;
    } else if g.kind != Aig {
      assert Below(net, rank, id, g.fanin[0]);
      DefinedFanin(net, rank, id, 0);
      v, r := GetSimValue(net, epoch, g.fanin[0].id, rank);
    } else {
      var in1, r1 := SimOperand(net, epoch, id, 0, rank);
      OperandAgree(net, r1, rank, epoch, id, 1);
      DefinedAgree(net, r1, rank, epoch, id);
      var in2, r2 := SimOperand(r1, epoch, id, 1, rank);
      AgreeTrans(net, r1, r2, epoch);
      v, r := in1 & in2, r2;
    }
    AgreeRanked(net, r, rank, epoch);
    ValueAgree(net, r, rank, epoch, id);
  }

  // ---------------------------------------------------------------------------
  // divideFEC

  /** The hash key of a gate's pattern; the model hashes an `unsigned` key to itself. */
  ghost function Key(net: Net, rank: map<nat, nat>, x: nat): nat
    requires Ranked(net, rank) && x in net
  {
    Value(net, rank, x) as nat
  }

  ghost predicate InNet(net: Net, grp: seq<nat>)
  {
    forall x :: x in grp ==> x in net
  }

  /** Simulating any member of `grp` never meets a PO with a floating fanin. */
  ghost predicate AllDefined(net: Net, rank: map<nat, nat>, grp: seq<nat>)
    requires Ranked(net, rank) && InNet(net, grp)
  {
    forall x :: x in grp ==> Defined(net, rank, x)
  }

  /** The members of `grp` whose pattern has key `k`, in group order. */
  ghost function Class(net: Net, rank: map<nat, nat>, grp: seq<nat>, k: nat): seq<nat>
    requires Ranked(net, rank) && InNet(net, grp)
    decreases |grp|
  {
    if grp == [] then []
    else
      var x := grp[|grp| - 1];
      Class(net, rank, grp[..|grp| - 1], k) + (if Key(net, rank, x) == k then [x] else [])
  }

  /** A class holds exactly the group members with that key. */
  lemma {:induction false} ClassMembers(net: Net, rank: map<nat, nat>, grp: seq<nat>, k: nat)
    requires Ranked(net, rank) && InNet(net, grp)
    ensures forall x :: x in Class(net, rank, grp, k) <==> x in grp && Key(net, rank, x) == k
    decreases |grp|
  {
    if grp != [] {
      var g' := grp[..|grp| - 1];
      assert grp == g' + [grp[|grp| - 1]];
      ClassMembers(net, rank, g', k);
    }
  }

  /** Filling in memos leaves every class as it was. */
  lemma {:induction false} ClassAgree(net: Net, r: Net, rank: map<nat, nat>, epoch: nat, grp: seq<nat>, k: nat)
    requires Ranked(net, rank) && PIsMarked(net, epoch) && Agree(net, r, epoch) && InNet(net, grp)
    ensures Ranked(r, rank) && InNet(r, grp)
    ensures Class(r, rank, grp, k) == Class(net, rank, grp, k)
    decreases |grp|
  {
    AgreeRanked(net, r, rank, epoch);
    if grp != [] {
      ClassAgree(net, r, rank, epoch, grp[..|grp| - 1], k);
      ValueAgree(net, r, rank, epoch, grp[|grp| - 1]);
    }
  }

  /** The entries of a bucket array in bucket order, as the map's iterator visits them. */
  function Flatten<D>(bs: seq<seq<(nat, D)>>): seq<(nat, D)>
  {
    if bs == [] then [] else Flatten(bs[..|bs| - 1]) + bs[|bs| - 1]
  }

  /** The data of the entries holding more than one member, in order. */
  function Kept(es: seq<(nat, seq<nat>)>): seq<seq<nat>>
  {
    if es == [] then []
    else Kept(es[..|es| - 1]) + (if |es[|es| - 1].1| > 1 then [es[|es| - 1].1] else [])
  }

  /** Every entry of every bucket is visited, and nothing else. */
  lemma {:induction false} FlattenMembers<D>(bs: seq<seq<(nat, D)>>)
    ensures forall b, j :: 0 <= b < |bs| && 0 <= j < |bs[b]| ==> bs[b][j] in Flatten(bs)
    ensures forall e :: e in Flatten(bs) ==> exists b :: 0 <= b < |bs| && e in bs[b]
  {
    if bs != [] {
      var bs' := bs[..|bs| - 1];
      FlattenMembers(bs');
      var last := bs[|bs| - 1];
      assert Flatten(bs) == Flatten(bs') + last;
      forall b, j | 0 <= b < |bs| && 0 <= j < |bs[b]| ensures bs[b][j] in Flatten(bs) {
        if b < |bs'| {
          assert bs[b] == bs'[b];
          assert bs[b][j] in Flatten(bs');
        } else {
          assert bs[b][j] in last;
        }
      }
      forall e | e in Flatten(bs) ensures exists b :: 0 <= b < |bs| && e in bs[b] {
        if e in Flatten(bs') {
          var b :| 0 <= b < |bs'| && e in bs'[b];
          assert bs[b] == bs'[b];
        } else {
          assert e in bs[|bs| - 1];
        }
      }
    }
  }

  /** The groups kept are exactly the data of size above one. */
  lemma {:induction false} KeptMembers(es: seq<(nat, seq<nat>)>)
    ensures forall e :: e in es && |e.1| > 1 ==> e.1 in Kept(es)
    ensures forall g :: g in Kept(es) ==> |g| > 1 && exists e :: e in es && e.1 == g
  {
    if es != [] {
      var es' := es[..|es| - 1];
      assert es == es' + [es[|es| - 1]];
      KeptMembers(es');
    }
  }

  /** On a well-formed bucket array, the entries visited are the entries of the map. */
  lemma FlattenIsMap<D>(bs: seq<seq<(nat, D)>>, m: map<nat, D>)
    requires Wf(bs, m)
    ensures forall e :: e in Flatten(bs) ==> e.0 in m && m[e.0] == e.1
    ensures forall k :: k in m ==> (k, m[k]) in Flatten(bs)
  {
    FlattenMembers(bs);
    forall e | e in Flatten(bs) ensures e.0 in m && m[e.0] == e.1 {
      var b :| 0 <= b < |bs| && e in bs[b];
      var j :| 0 <= j < |bs[b]| && bs[b][j] == e;
      WfHit(bs, m, b, j);
    }
    forall k | k in m ensures (k, m[k]) in Flatten(bs) {
      var b := k % |bs|;
      var j :| 0 <= j < |bs[b]| && bs[b][j].0 == k;
      WfHit(bs, m, b, j);
    }
  }

  /** The map the first loop of `divideFEC` builds: each member, in order, is appended
      to the entry for its key. */
  ghost function Classes(net: Net, rank: map<nat, nat>, grp: seq<nat>): map<nat, seq<nat>>
    requires Ranked(net, rank) && InNet(net, grp)
    decreases |grp|
  {
    if grp == [] then map[]
    else
      var m := Classes(net, rank, grp[..|grp| - 1]);
      var x := grp[|grp| - 1];
      var k := Key(net, rank, x);
      m[k := (if k in m then m[k] else []) + [x]]
  }

  /** One more member extends the map by that member, under its key. */
  lemma ClassesSnoc(net: Net, rank: map<nat, nat>, grp: seq<nat>, i: nat)
    requires Ranked(net, rank) && InNet(net, grp) && i < |grp|
    ensures InNet(net, grp[..i]) && InNet(net, grp[..i + 1])
    ensures var m := Classes(net, rank, grp[..i]);
      var k := Key(net, rank, grp[i]);
      Classes(net, rank, grp[..i + 1]) == m[k := (if k in m then m[k] else []) + [grp[i]]]
  {
    assert grp[..i + 1][..i] == grp[..i];
  }

  /** The map holds, under each key, the class of that key, and has an entry exactly
      for the keys whose class is not empty. */
  lemma {:induction false} ClassesAreClass(net: Net, rank: map<nat, nat>, grp: seq<nat>, k: nat)
    requires Ranked(net, rank) && InNet(net, grp)
    ensures k in Classes(net, rank, grp) <==> Class(net, rank, grp, k) != []
    ensures k in Classes(net, rank, grp) ==> Classes(net, rank, grp)[k] == Class(net, rank, grp, k)
    decreases |grp|
  {
    if grp != [] {
      ClassesAreClass(net, rank, grp[..|grp| - 1], k);
    }
  }

  /** Simulating one member of a group: its key, with the memos it fills in. */
  method SimKey(net: Net, r: Net, epoch: nat, ghost rank: map<nat, nat>, x: nat) returns (k: nat, r': Net)
    requires x in net && Ranked(net, rank) && PIsMarked(net, epoch) && Defined(net, rank, x)
    requires Agree(net, r, epoch) && PIsMarked(r, epoch) && MemoSound(r, rank, epoch)
    ensures k == Key(net, rank, x)
    ensures Agree(net, r', epoch) && PIsMarked(r', epoch) && MemoSound(r', rank, epoch)
  {
    AgreeRanked(net, r, rank, epoch);
    DefinedAgree(net, r, rank, epoch, x);
    var v;
    v, r' := GetSimValue(r, epoch, x, rank);
    ValueAgree(net, r, rank, epoch, x);
    AgreeTrans(net, r, r', epoch);
    k := v as nat;
  }

  /** The body of the first loop: a group found under `k` gets `x` appended, otherwise
      a new group `[x]` is inserted under `k`. */
  method AddMember(groups: HashMap<seq<nat>>, k: nat, x: nat)
    requires groups.Valid()
    modifies groups, groups.buckets
    ensures groups.Valid() && groups.buckets == old(groups.buckets)
    ensures groups.M == old(groups.M)[k := (if k in old(groups.M) then old(groups.M)[k] else []) + [x]]
  {
    var found, g := groups.Query(k, []);
    if found {
      var _ := groups.Update(k, g + [x]);
    } else {
      var inserted := groups.Insert(k, [x]);
      assert inserted && [] + [x] == [x];
    }
  }

  /** The first loop of `divideFEC` over one old group: each member's pattern is
      simulated and the member appended to the map entry for that pattern. */
  method GroupByValue(net: Net, epoch: nat, ghost rank: map<nat, nat>, grp: seq<nat>, nb: nat)
    returns (groups: HashMap<seq<nat>>, r: Net)
    requires nb > 0 && InNet(net, grp)
    requires Ranked(net, rank) && PIsMarked(net, epoch) && MemoSound(net, rank, epoch)
    requires AllDefined(net, rank, grp)
    ensures fresh(groups) && fresh(groups.buckets) && groups.Valid()
    ensures Agree(net, r, epoch) && PIsMarked(r, epoch) && MemoSound(r, rank, epoch)
    ensures groups.M == Classes(net, rank, grp)
  {
    groups := new HashMap<seq<nat>>(nb);
    r := net;
    var i := 0;
    assert grp[..0] == [];
    assert GroupedSoFar(net, rank, grp, 0, groups.M);
    while i < |grp|
      invariant 0 <= i <= |grp|
      invariant fresh(groups) && fresh(groups.buckets) && groups.Valid()
      invariant Agree(net, r, epoch) && PIsMarked(r, epoch) && MemoSound(r, rank, epoch)
      invariant GroupedSoFar(net, rank, grp, i, groups.M)
    {
      r := GroupStep(groups, net, r, epoch, rank, grp, i);
      i := i + 1;
    }
    assert grp[..i] == grp;
  }

  /** The map after the first `i` members of the group. */
  ghost predicate GroupedSoFar(net: Net, rank: map<nat, nat>, grp: seq<nat>, i: nat, m: map<nat, seq<nat>>)
    requires Ranked(net, rank) && InNet(net, grp)
  {
    i <= |grp| && InNet(net, grp[..i]) && m == Classes(net, rank, grp[..i])
  }

  /** The body of the first loop on member `i`. */
  method GroupStep(groups: HashMap<seq<nat>>, net: Net, r: Net, epoch: nat, ghost rank: map<nat, nat>,
                   grp: seq<nat>, i: nat)
    returns (r': Net)
    requires i < |grp| && InNet(net, grp) && groups.Valid()
    requires Ranked(net, rank) && PIsMarked(net, epoch) && AllDefined(net, rank, grp)
    requires Agree(net, r, epoch) && PIsMarked(r, epoch) && MemoSound(r, rank, epoch)
    requires GroupedSoFar(net, rank, grp, i, groups.M)
    modifies groups, groups.buckets
    ensures groups.Valid() && groups.buckets == old(groups.buckets)
    ensures Agree(net, r', epoch) && PIsMarked(r', epoch) && MemoSound(r', rank, epoch)
    ensures GroupedSoFar(net, rank, grp, i + 1, groups.M)
  {
    var x := grp[i];
    var k;
    k, r' := SimKey(net, r, epoch, rank, x);
    ClassesSnoc(net, rank, grp, i);
    AddMember(groups, k, x);
  }

  /** The second loop: the map's buckets are visited in order and each entry holding
      more than one member is kept. */
  method KeptGroups(arr: array<seq<(nat, seq<nat>)>>) returns (kept: seq<seq<nat>>)
    ensures kept == Kept(Flatten(arr[..]))
  {
    kept := [];
    var b := 0;
    while b < arr.Length
      invariant 0 <= b <= arr.Length
      invariant kept == Kept(Flatten(arr[..b]))
    {
      kept := KeptBucket(Flatten(arr[..b]), arr[b], kept);
      assert arr[..b + 1][..b] == arr[..b];
      b := b + 1;
    }
    assert arr[..b] == arr[..];
  }

  /** The inner loop of the second loop: one bucket's entries, in order. */
  method KeptBucket(ghost done: seq<(nat, seq<nat>)>, bucket: seq<(nat, seq<nat>)>, kept0: seq<seq<nat>>)
    returns (kept: seq<seq<nat>>)
    requires kept0 == Kept(done)
    ensures kept == Kept(done + bucket)
  {
    kept := kept0;
    var j := 0;
    assert done + bucket[..0] == done;
    while j < |bucket|
      invariant 0 <= j <= |bucket|
      invariant kept == Kept(done + bucket[..j])
    {
      assert (done + bucket[..j + 1])[..|done + bucket[..j + 1]| - 1] == done + bucket[..j];
      if |bucket[j].1| > 1 {
        kept := kept + [bucket[j].1];
      }
      j := j + 1;
    }
    assert bucket[..j] == bucket;
  }

  /** Every entry kept from a map holding the classes of `grp` is a class of two or
      more members. */
  lemma KeptAreClasses(net: Net, rank: map<nat, nat>, grp: seq<nat>, bs: seq<seq<(nat, seq<nat>)>>, m: map<nat, seq<nat>>)
    requires Ranked(net, rank) && InNet(net, grp)
    requires Wf(bs, m) && m == Classes(net, rank, grp)
    ensures forall g :: g in Kept(Flatten(bs)) ==>
      |g| >= 2 && g[0] in grp && g == Class(net, rank, grp, Key(net, rank, g[0]))
  {
    var es := Flatten(bs);
    FlattenIsMap(bs, m);
    KeptMembers(es);
    forall g | g in Kept(es) ensures |g| >= 2 && g[0] in grp && g == Class(net, rank, grp, Key(net, rank, g[0])) {
      var e :| e in es && e.1 == g;
      KeptIsClass(net, rank, grp, e.0, g);
    }
  }

  /** A group of two or more members stored under `k` in the class map is the class of
      its first member. */
  lemma KeptIsClass(net: Net, rank: map<nat, nat>, grp: seq<nat>, k: nat, g: seq<nat>)
    requires Ranked(net, rank) && InNet(net, grp)
    requires k in Classes(net, rank, grp) && Classes(net, rank, grp)[k] == g && |g| > 1
    ensures |g| >= 2 && g[0] in grp && g == Class(net, rank, grp, Key(net, rank, g[0]))
  {
    ClassesAreClass(net, rank, grp, k);
    ClassMembers(net, rank, grp, k);
    assert g[0] in Class(net, rank, grp, k);
  }

  /** Every class of two or more members is kept. */
  lemma ClassesAreKept(net: Net, rank: map<nat, nat>, grp: seq<nat>, bs: seq<seq<(nat, seq<nat>)>>, m: map<nat, seq<nat>>)
    requires Ranked(net, rank) && InNet(net, grp)
    requires Wf(bs, m) && m == Classes(net, rank, grp)
    ensures forall x :: x in grp && |Class(net, rank, grp, Key(net, rank, x))| >= 2 ==>
      Class(net, rank, grp, Key(net, rank, x)) in Kept(Flatten(bs))
  {
    var es := Flatten(bs);
    FlattenIsMap(bs, m);
    KeptMembers(es);
    forall x | x in grp && |Class(net, rank, grp, Key(net, rank, x))| >= 2
      ensures Class(net, rank, grp, Key(net, rank, x)) in Kept(es)
    {
      var k := Key(net, rank, x);
      ClassesAreClass(net, rank, grp, k);
      assert k in m;
      assert (k, m[k]) in es;
    }
  }

  /** One old group of `divideFEC`: its members are bucketed by pattern in a fresh
      map of `nb` buckets, then every bucket entry holding two or more members
      becomes a new group.  Each new group is the full class of one pattern within
      `grp`, and every class of two or more members becomes a new group. */
  method DivideGroup(net: Net, epoch: nat, ghost rank: map<nat, nat>, grp: seq<nat>, nb: nat)
    returns (kept: seq<seq<nat>>, r: Net)
    requires nb > 0 && InNet(net, grp)
    requires Ranked(net, rank) && PIsMarked(net, epoch) && MemoSound(net, rank, epoch)
    requires AllDefined(net, rank, grp)
    ensures Agree(net, r, epoch) && PIsMarked(r, epoch) && MemoSound(r, rank, epoch)
    ensures forall g :: g in kept ==> |g| >= 2 && g[0] in grp && g == Class(net, rank, grp, Key(net, rank, g[0]))
    ensures forall x :: x in grp && |Class(net, rank, grp, Key(net, rank, x))| >= 2 ==>
      Class(net, rank, grp, Key(net, rank, x)) in kept
  {
    var groups;
    groups, r := GroupByValue(net, epoch, rank, grp, nb);
    kept := KeptGroups(groups.buckets);
    KeptAreClasses(net, rank, grp, groups.buckets[..], groups.M);
    ClassesAreKept(net, rank, grp, groups.buckets[..], groups.M);
  }

  /** Each old group's members are gates of the table. */
  ghost predicate AllInNet(net: Net, fec: seq<seq<nat>>)
  {
    forall i, x :: 0 <= i < |fec| && x in fec[i] ==> x in net
  }

  /** Simulating any member of any old group never meets a PO with a floating fanin. */
  ghost predicate AllDefinedIn(net: Net, rank: map<nat, nat>, fec: seq<seq<nat>>)
    requires Ranked(net, rank) && AllInNet(net, fec)
  {
    forall i, x :: 0 <= i < |fec| && x in fec[i] ==> Defined(net, rank, x)
  }

  /** `news` holds new groups from the old groups `fec[lo..]`: each is a class of two
      or more members of one of them, and every such class is there. */
  ghost predicate Divided(net: Net, rank: map<nat, nat>, fec: seq<seq<nat>>, lo: nat, news: seq<seq<nat>>)
    requires Ranked(net, rank) && AllInNet(net, fec)
  {
    && (forall g :: g in news ==> (|g| >= 2 &&
          exists j :: lo <= j < |fec| && g[0] in fec[j] && g == Class(net, rank, fec[j], Key(net, rank, g[0]))))
    && (forall j, x :: lo <= j < |fec| && x in fec[j] && |Class(net, rank, fec[j], Key(net, rank, x))| >= 2 ==>
          Class(net, rank, fec[j], Key(net, rank, x)) in news)
  }

  /** The groups an old group contributes, computed on a table whose memos have since
      been filled in, are the classes of that group in the original table. */
  lemma DividedStep(net: Net, r: Net, rank: map<nat, nat>, epoch: nat, fec: seq<seq<nat>>, i: nat,
                    news: seq<seq<nat>>, kept: seq<seq<nat>>)
    requires Ranked(net, rank) && PIsMarked(net, epoch) && Agree(net, r, epoch)
    requires AllInNet(net, fec) && i < |fec| && Divided(net, rank, fec, i + 1, news)
    requires Ranked(r, rank) && InNet(r, fec[i])
    requires forall g :: g in kept ==> |g| >= 2 && g[0] in fec[i] && g == Class(r, rank, fec[i], Key(r, rank, g[0]))
    requires forall x :: x in fec[i] && |Class(r, rank, fec[i], Key(r, rank, x))| >= 2 ==>
      Class(r, rank, fec[i], Key(r, rank, x)) in kept
    ensures Divided(net, rank, fec, i, news + kept)
  {
    var grp := fec[i];
    assert InNet(net, grp);
    forall x | x in grp
      ensures Key(r, rank, x) == Key(net, rank, x)
      ensures Class(r, rank, grp, Key(r, rank, x)) == Class(net, rank, grp, Key(net, rank, x))
    {
      ValueAgree(net, r, rank, epoch, x);
      ClassAgree(net, r, rank, epoch, grp, Key(net, rank, x));
    }
    forall g | g in news + kept ensures |g| >= 2 &&
      exists j :: i <= j < |fec| && g[0] in fec[j] && g == Class(net, rank, fec[j], Key(net, rank, g[0]))
    {
      if g in news {
        var j :| i + 1 <= j < |fec| && g[0] in fec[j] && g == Class(net, rank, fec[j], Key(net, rank, g[0]));
      } else {
        assert g in kept;
      }
    }
  }

  /** `divideFEC()`: the old groups are taken from the back of the list, and each
      contributes its new groups.  Every new group is the class of one pattern within
      one old group and has at least two members; every such class of two or more
      members is among the new groups. */
  method DivideFEC(net: Net, epoch: nat, ghost rank: map<nat, nat>, fec: seq<seq<nat>>, nb: nat)
    returns (newList: seq<seq<nat>>, r: Net)
    requires nb > 0 && AllInNet(net, fec)
    requires Ranked(net, rank) && PIsMarked(net, epoch) && MemoSound(net, rank, epoch)
    requires AllDefinedIn(net, rank, fec)
    ensures Agree(net, r, epoch) && PIsMarked(r, epoch) && MemoSound(r, rank, epoch)
    ensures forall g :: g in newList ==> (|g| >= 2 &&
      exists i :: 0 <= i < |fec| && g[0] in fec[i] && g == Class(net, rank, fec[i], Key(net, rank, g[0])))
    ensures forall i, x :: 0 <= i < |fec| && x in fec[i] && |Class(net, rank, fec[i], Key(net, rank, x))| >= 2 ==>
      Class(net, rank, fec[i], Key(net, rank, x)) in newList
  {
    newList := [];
    r := net;
    var i := |fec|;
    while i > 0
      invariant 0 <= i <= |fec|
      invariant Agree(net, r, epoch) && PIsMarked(r, epoch) && MemoSound(r, rank, epoch)
      invariant Divided(net, rank, fec, i, newList)
    {
      i := i - 1;
      var grp := fec[i];
      AgreeRanked(net, r, rank, epoch);
      assert InNet(r, grp);
      forall x | x in grp ensures Defined(r, rank, x) {
        DefinedAgree(net, r, rank, epoch, x);
      }
      var kept, r' := DivideGroup(r, epoch, rank, grp, nb);
      DividedStep(net, r, rank, epoch, fec, i, newList, kept);
      AgreeTrans(net, r, r', epoch);
      newList := newList + kept;
      r := r';
    }
  }
}
