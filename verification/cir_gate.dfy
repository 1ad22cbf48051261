/** Gates and the edges between them.  The source packs an edge into one
    machine word (`CirGateSP`): a gate address plus an inversion bit, or a
    literal shifted left by three with bit 1 set for a floating fanin.  Here an
    edge names its gate by id; the word layout is kept as an arithmetic
    encoding in which `id * 8` stands for the (8-aligned) gate address. */
module CirGate {

  /** A fanin or fanout reference: to a live gate with a polarity, or a floating literal. */
  datatype Edge = Live(id: nat, inv: bool) | Float(lit: nat)

  function Sign(inv: bool): nat
  {
    if inv then 1 else 0
  }

  /** `literal()`: 2 * id + polarity for a live edge, the stored literal for a floating one. */
  function Literal(e: Edge): nat
  {
    match e
    case Live(id, inv) => 2 * id + Sign(inv)
    case Float(lit) => lit
  }

  const NEG: nat := 1
  const FLT: nat := 2

  /** The packed word: `(size_t)p + sign`, or `literal * 8 + FLT`. */
  function Word(e: Edge): nat
  {
    match e
    case Live(id, inv) => id * 8 + Sign(inv)
    case Float(lit) => lit * 8 + FLT
  }

  /** `isInv()`: bit 0 of the word. */
  function WordIsInv(w: nat): bool
  {
    w % 2 == NEG
  }

  /** `isFlt()`: bit 1 of the word. */
  function WordIsFlt(w: nat): bool
  {
    (w % 4) / 2 == 1
  }

  /** `gate()`: the word with bit 0 cleared, read back as a gate id. */
  function WordGate(w: nat): nat
  {
    (w - w % 2) / 8
  }

  /** `literal()` computed from the word alone. */
  function WordLiteral(w: nat): nat
  {
    if WordIsFlt(w) then w / 8 else 2 * WordGate(w) + Sign(WordIsInv(w))
  }

  /** Splitting q * 8 + r, 0 <= r < 8, back into quotient and remainder, and the low
      two bits of the same word. */
  lemma Split8(q: nat, r: nat)
    requires r < 8
    ensures (q * 8 + r) / 8 == q && (q * 8 + r) % 8 == r
    ensures (q * 8 + r) % 2 == r % 2
    ensures (q * 8 + r) % 4 == r % 4
  {
    Div8(q, r);
    Mod2(q * 4 + r / 2, r % 2);
    Mod4(q * 2 + r / 4, r % 4);
  }

  lemma Div8(q: nat, r: nat)
    requires r < 8
    ensures (q * 8 + r) / 8 == q && (q * 8 + r) % 8 == r
  {
  }

  lemma Mod2(q: nat, r: nat)
    requires r < 2
    ensures (q * 2 + r) % 2 == r
  {
  }

  lemma Mod4(q: nat, r: nat)
    requires r < 4
    ensures (q * 4 + r) % 4 == r
  {
  }

  /** A floating edge built from literal `L` reads back as floating with literal `L`. */
  lemma FloatWordRoundTrip(lit: nat)
    ensures WordIsFlt(Word(Float(lit)))
    ensures !WordIsInv(Word(Float(lit)))
    ensures WordLiteral(Word(Float(lit))) == lit
  {
    Split8(lit, FLT);
  }

  /** A live edge to gate `id` with sign `s` reads back as that gate, that sign, and literal 2 * id + s. */
  lemma LiveWordRoundTrip(id: nat, inv: bool)
    ensures !WordIsFlt(Word(Live(id, inv)))
    ensures WordIsInv(Word(Live(id, inv))) == inv
    ensures WordGate(Word(Live(id, inv))) == id
    ensures WordLiteral(Word(Live(id, inv))) == 2 * id + Sign(inv)
  {
    Split8(id, Sign(inv));
    Split8(id, 0);
  }

  /** Reading an edge's literal through its word agrees with `Literal`. */
  lemma WordLiteralIsLiteral(e: Edge)
    ensures WordLiteral(Word(e)) == Literal(e)
    ensures WordIsFlt(Word(e)) <==> e.Float?
  {
    match e
    case Live(id, inv) => LiveWordRoundTrip(id, inv);
    case Float(lit) => FloatWordRoundTrip(lit);
  }

  /** `operator==` compares whole words, which is exactly equality of edges: two edges
      to the same gate with different polarity differ. */
  lemma WordInjective(a: Edge, b: Edge)
    ensures Word(a) == Word(b) <==> a == b
  {
    if Word(a) == Word(b) {
      WordLiteralIsLiteral(a);
      WordLiteralIsLiteral(b);
      match a
      case Live(ia, sa) =>
        LiveWordRoundTrip(ia, sa);
        LiveWordRoundTrip(b.id, b.inv);
      case Float(la) =>
        FloatWordRoundTrip(la);
        FloatWordRoundTrip(b.lit);
    }
  }

  /** The gate kinds: `ConstGate`, `PIGate`, `POGate`, `AigGate`. */
  datatype Kind = Const | PI | PO | Aig

  /** A gate: its kind, id and source line, its fanin and fanout edges, and the
      simulation memo (`_markFlag` and `_value`). */
  datatype Gate = Gate(kind: Kind, id: nat, line: nat,
                       fanin: seq<Edge>, fanout: seq<Edge>,
                       mark: nat, value: bv32)

  /** The gate table, keyed by gate id. */
  type Net = map<nat, Gate>

  /** `AigGate(id, line, input1, input2)`: both fanins start as floating literals. */
  function NewAig(id: nat, line: nat, in1: nat, in2: nat): Gate
  {
    Gate(Aig, id, line, [Float(in1), Float(in2)], [], 0, 0)
  }

  /** `PIGate(id, line)`. */
  function NewPI(id: nat, line: nat): Gate
  {
    Gate(PI, id, line, [], [], 0, 0)
  }

  /** `POGate(id, line, input)`: one fanin, a floating literal. */
  function NewPO(id: nat, line: nat, input: nat): Gate
  {
    Gate(PO, id, line, [Float(input)], [], 0, 0)
  }

  /** `ConstGate()`: id 0, line 0. */
  function NewConst(): Gate
  {
    Gate(Const, 0, 0, [], [], 0, 0)
  }

  /** `unUsed()`. */
  predicate UnUsed(g: Gate)
  {
    g.fanout == []
  }

  /** `faninLiteral(i)`. */
  function FaninLiteral(g: Gate, i: nat): nat
    requires i < |g.fanin|
  {
    Literal(g.fanin[i])
  }

  /** How the constructors leave a new gate: an AIG holds exactly two floating fanins,
      `input1` then `input2`; a PO exactly one; PI and CONST none; no fanout anywhere. */
  lemma NewGateShapes(id: nat, line: nat, a: nat, b: nat)
    ensures var g := NewAig(id, line, a, b);
      && g.kind == Aig && g.id == id && |g.fanin| == 2 && UnUsed(g)
      && g.fanin[0].Float? && g.fanin[1].Float?
      && FaninLiteral(g, 0) == a && FaninLiteral(g, 1) == b
    ensures var g := NewPO(id, line, a);
      && g.kind == PO && g.id == id && |g.fanin| == 1 && UnUsed(g)
      && g.fanin[0].Float? && FaninLiteral(g, 0) == a
    ensures var g := NewPI(id, line); g.kind == PI && g.id == id && g.fanin == [] && UnUsed(g)
    ensures var g := NewConst(); g.kind == Const && g.id == 0 && g.fanin == [] && UnUsed(g)
  {
  }

  /** The local-optimisation classes of `opt`. */
  datatype Opt = X_1 | X_0 | X_X | X_nX | X_Y
}
