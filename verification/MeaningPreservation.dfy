/** The tracker's compiled Lua against the Rules.py evaluator, on the same `requires`. */
module MeaningPreservation {
  import opened Wrappers
  import opened RequiresSyntax
  import opened RequiresTokens
  import opened RequiresRules
  import opened DoubleNots
  import opened TrackerCompiler
  import opened LeafAgreement

  // ---- From tokens to the compiler's own tokens -----------------------------------

  function LuaOf(t: Tables, leaf: Atomic): Lua {
    var e := ItemAtom(t, leaf);
    if e.Ok? then e.value else True
  }

  lemma {:induction false} TokenizeAppend(t: Tables, a: seq<Tok>, b: seq<Tok>)
    requires Tokenize(t, a).Ok? && Tokenize(t, b).Ok?
    ensures Tokenize(t, a + b) == Ok(Tokenize(t, a).value + Tokenize(t, b).value)
  {
    if a == [] {
      assert a + b == b;
      assert [] + Tokenize(t, b).value == Tokenize(t, b).value;
    } else {
      assert (a + b)[1..] == a[1..] + b;
      TokenizeAppend(t, a[1..], b);
      var x, y, z := TokenOf(t, a[0]).value, Tokenize(t, a[1..]).value, Tokenize(t, b).value;
      assert x + (y + z) == x + y + z;
    }
  }

  lemma TokenizeOne(t: Tables, k: Tok)
    ensures Tokenize(t, [k]) == TokenOf(t, k)
  {
    var x := TokenOf(t, k);
    assert [k][1..] == [];
    if x.Ok? {
      assert x.value + [] == x.value;
    }
  }

  lemma {:induction false} TokenizeChain(t: Tables, c: Chain<Atomic>)
    requires NotsAtMost(c, 0) && EveryLeaf(c, l => ItemAtom(t, l).Ok?)
    ensures Tokenize(t, Toks(c)) == Ok(ChainTokens(MapChain(c, l => LuaOf(t, l))))
    decreases c, 1
  {
    match c
    case One(o) => TokenizeOperand(t, o);
    case More(i, op, o) =>
      TokenizeChain(t, i);
      TokenizeOperand(t, o);
      TokenizeOne(t, Kw(op));
      TokenizeAppend(t, Toks(i), [Kw(op)]);
      TokenizeAppend(t, Toks(i) + [Kw(op)], OperandToks(o));
  }

  lemma {:induction false} TokenizeOperand(t: Tables, o: Operand<Atomic>)
    requires OperandNotsAtMost(o, 0) && EveryOperandLeaf(o, l => ItemAtom(t, l).Ok?)
    ensures Tokenize(t, OperandToks(o)) == Ok(OperandTokens(MapOperand(o, l => LuaOf(t, l))))
    decreases o, 0
  {
    assert OperandToks(o) == AtomToks(o.atom);
    match o.atom
    case Leaf(a) => TokenizeOne(t, Ref(a));
    case Group(c) =>
      TokenizeChain(t, c);
      TokenizeOne(t, Ch('('));
      TokenizeOne(t, Ch(')'));
      TokenizeAppend(t, [Ch('(')], Toks(c));
      TokenizeAppend(t, [Ch('(')] + Toks(c), [Ch(')')]);
  }

  lemma {:induction false} MapPrecedence<A(!new), B>(c: Chain<A>, fits: A -> bool, f: A -> B, g: B -> bool, val: A -> bool)
    requires EveryLeaf(c, fits) && forall a :: fits(a) ==> g(f(a)) == val(a)
    ensures OrOfAnds(MapChain(c, f), g) == OrOfAnds(c, val)
    ensures Precedence(MapChain(c, f), g) == Precedence(c, val)
    decreases c, 1
  {
    match c
    case One(o) => MapOperandPrecedence(o, fits, f, g, val);
    case More(i, op, o) =>
      MapPrecedence(i, fits, f, g, val);
      MapOperandPrecedence(o, fits, f, g, val);
  }

  lemma {:induction false} MapOperandPrecedence<A(!new), B>(o: Operand<A>, fits: A -> bool, f: A -> B, g: B -> bool, val: A -> bool)
    requires EveryOperandLeaf(o, fits) && forall a :: fits(a) ==> g(f(a)) == val(a)
    ensures OperandPrec(MapOperand(o, f), g) == OperandPrec(o, val)
    decreases o, 0
  {
    match o.atom
    case Leaf(a) =>
      assert AtomPrec(o.atom, val) == val(a) && AtomPrec(MapOperand(o, f).atom, g) == g(f(a));
    case Group(c) =>
      MapPrecedence(c, fits, f, g, val);
      assert AtomPrec(o.atom, val) == Precedence(c, val);
      assert AtomPrec(MapOperand(o, f).atom, g) == Precedence(MapChain(c, f), g);
  }

  lemma {:induction false} LeavesImply<A(!new)>(c: Chain<A>, p: A -> bool, q: A -> bool)
    requires EveryLeaf(c, p) && forall a :: p(a) ==> q(a)
    ensures EveryLeaf(c, q)
    decreases c, 1
  {
    match c
    case One(o) => OperandLeavesImply(o, p, q);
    case More(i, op, o) =>
      LeavesImply(i, p, q);
      OperandLeavesImply(o, p, q);
  }

  lemma {:induction false} OperandLeavesImply<A(!new)>(o: Operand<A>, p: A -> bool, q: A -> bool)
    requires EveryOperandLeaf(o, p) && forall a :: p(a) ==> q(a)
    ensures EveryOperandLeaf(o, q)
    decreases o, 0
  {
    if o.atom.Group? { LeavesImply(o.atom.inner, p, q); }
  }

  // ---- The two evaluators ---------------------------------------------------------

  /** The compiled rule of an expression gives the precedence reading of what its references compile to. */
  lemma CompiledReads(t: Tables, p: Provider, c: Chain<Atomic>, fits: Atomic -> bool, val: Atomic -> bool)
    requires NotsAtMost(c, 0) && EveryLeaf(c, fits)
    requires forall l :: fits(l) ==> ItemAtom(t, l).Ok? && Eval(ItemAtom(t, l).value, p) == val(l)
    ensures Compile(t, Toks(c)).Ok? && Eval(Compile(t, Toks(c)).value, p) == Precedence(c, val)
  {
    hide ItemAtom, Eval;
    var f, g := l => LuaOf(t, l), e => Eval(e, p);
    LeavesImply(c, fits, l => ItemAtom(t, l).Ok?);
    TokenizeChain(t, c);
    var d := MapChain(c, f);
    ShapeKeepsNots(c, d, 0);
    CompiledMeaning(d, p);
    MapPrecedence(c, fits, f, g, val);
  }

  /** Neither side raises; Rules.py gives the left-to-right reading and the tracker the
      precedence reading of the same leaf values. */
  lemma BothReadings(t: Tables, w: World, inv: Inventory, p: Provider, c: Chain<Atomic>)
    requires Bridge(t, w, inv, p)
    requires NotsAtMost(c, 0) && EveryLeaf(c, l => LeafFits(t, w, l))
    ensures CheckString(w, Toks(c), inv) == Ok(LeftToRight(c, l => Holds(w, l, inv)))
    ensures Compile(t, Toks(c)).Ok?
    ensures Eval(Compile(t, Toks(c)).value, p) == Precedence(c, l => Holds(w, l, inv))
  {
    hide Bridge, ItemAtom, Eval, Holds, Usable, ReadAlike, CheckString, Compile;
    var fits, val := l => LeafFits(t, w, l), l => Holds(w, l, inv);
    forall l | fits(l) ensures ItemAtom(t, l).Ok? && Eval(ItemAtom(t, l).value, p) == val(l) {
      LeafAgrees(t, w, inv, p, l);
    }
    CompiledReads(t, p, c, fits, val);
    LeavesImply(c, fits, l => Usable(w, l));
    NotsWeaken(c);
    SingleNotsSame(c);
    CheckStringMeaning(w, c, inv);
  }

  /** Without an AND after an OR at one parenthesis level, the compiled rule and the
      Rules.py evaluator give the same answer. */
  lemma MeaningPreserved(t: Tables, w: World, inv: Inventory, p: Provider, c: Chain<Atomic>)
    requires Bridge(t, w, inv, p)
    requires NotsAtMost(c, 0) && EveryLeaf(c, l => LeafFits(t, w, l))
    requires NoAndAfterOr(c)
    ensures Compile(t, Toks(c)).Ok?
    ensures CheckString(w, Toks(c), inv) == Ok(Eval(Compile(t, Toks(c)).value, p))
  {
    BothReadings(t, w, inv, p, c);
    ReadingsAgree(c, l => Holds(w, l, inv));
  }

  /** One unlike reference is already an expression that the two evaluators read differently. */
  lemma UnlikeLeafSeparates(t: Tables, w: World, leaf: Atomic) returns (inv: Inventory, p: Provider)
    requires SameTables(t, w) && SoundTables(t, w) && Accepted(t, w, leaf) && !ReadAlike(t, w, leaf)
    ensures Bridge(t, w, inv, p)
    ensures Compile(t, [Ref(leaf)]).Ok? && CheckString(w, [Ref(leaf)], inv).Ok?
    ensures CheckString(w, [Ref(leaf)], inv).value != Eval(Compile(t, [Ref(leaf)]).value, p)
  {
    inv, p := LeafSeparates(t, w, leaf);
    var o := Operand(0, Leaf(leaf));
    OneLeaf(o, l => Accepted(t, w, l), l => Holds(w, l, inv));
    LeafReadings(t, w, inv, p, leaf, One(o));
  }

  lemma LeafReadings(t: Tables, w: World, inv: Inventory, p: Provider, leaf: Atomic, c: Chain<Atomic>)
    requires Accepted(t, w, leaf) && c == One(Operand(0, Leaf(leaf))) && Toks(c) == [Ref(leaf)]
    ensures CheckString(w, [Ref(leaf)], inv) == Ok(Holds(w, leaf, inv))
    ensures Compile(t, [Ref(leaf)]).Ok? && Eval(Compile(t, [Ref(leaf)]).value, p) == Eval(ItemAtom(t, leaf).value, p)
  {
    var fits, val, e := l => l == leaf, l => Holds(w, l, inv), l => l == leaf && Eval(ItemAtom(t, leaf).value, p);
    assert EveryOperandLeaf(c.o, fits) && EveryOperandLeaf(c.o, l => Usable(w, l));
    CheckStringMeaning(w, c, inv);
    CompiledReads(t, p, c, fits, e);
    OneLeaf(c.o, fits, val);
    OneLeaf(c.o, fits, e);
  }

  // ---- The condition is needed ----------------------------------------------------

  /** An expression over two items only, one held and one not. */
  function Yes(): Atomic {
    Atomic(false, ItemRef(false, "held", Number(1)))
  }

  function No(): Atomic {
    Atomic(false, ItemRef(false, "missing", Number(1)))
  }

  ghost predicate Separates(t: Tables, w: World, inv: Inventory, p: Provider, e: Chain<Atomic>) {
    && Bridge(t, w, inv, p)
    && EveryLeaf(e, l => LeafFits(t, w, l))
    && Compile(t, Toks(e)).Ok?
    && CheckString(w, Toks(e), inv).Ok?
    && CheckString(w, Toks(e), inv).value != Eval(Compile(t, Toks(e)).value, p)
  }

  function DemoTables(): Tables {
    Tables(map["held" := "held", "missing" := "missing",
               ROYAL_NAMES[0] := ROYAL_CODES[0], ROYAL_NAMES[1] := ROYAL_CODES[1],
               ROYAL_NAMES[2] := ROYAL_CODES[2], ROYAL_NAMES[3] := ROYAL_CODES[3],
               ROYAL_NAMES[4] := ROYAL_CODES[4], ROYAL_NAMES[5] := ROYAL_CODES[5]],
           map[], {}, map["Royal Seed" := ROYAL_NAMES])
  }

  function DemoLeaf(b: bool): Atomic {
    if b then Yes() else No()
  }

  function DemoWorld(): World {
    World(map[], map[], map["Royal Seed" := ROYAL_NAMES])
  }

  lemma {:induction false} DemoLeaves(d: Chain<bool>)
    ensures EveryLeaf(MapChain(d, DemoLeaf), l => LeafFits(DemoTables(), DemoWorld(), l))
    decreases d, 1
  {
    match d
    case One(o) => DemoOperandLeaves(o);
    case More(i, _, o) =>
      DemoLeaves(i);
      DemoOperandLeaves(o);
  }

  lemma {:induction false} DemoOperandLeaves(o: Operand<bool>)
    ensures EveryOperandLeaf(MapOperand(o, DemoLeaf), l => LeafFits(DemoTables(), DemoWorld(), l))
    decreases o, 0
  {
    match o.atom
    case Leaf(b) => assert LeafFits(DemoTables(), DemoWorld(), DemoLeaf(b));
    case Group(c) => DemoLeaves(c);
  }

  lemma DemoCodes(inv: Inventory)
    requires inv == map["held" := 1]
    ensures forall name :: name in DemoTables().name2code ==> CodeCount(inv, DemoTables().name2code[name]) == Count(inv, name)
  {
    forall i | 0 <= i < 6 ensures ROYAL_CODES[i] !in inv && ROYAL_NAMES[i] !in inv {
      assert ROYAL_CODES[i][0] == 'w' && ROYAL_NAMES[i][0] == 'W' && "held"[0] == 'h';
    }
  }

  lemma DemoTablesSame()
    ensures SameTables(DemoTables(), DemoWorld())
  {
    assert DemoWorld().Members("Royal Seed") == ROYAL_NAMES;
  }

  lemma DemoBridge(inv: Inventory)
    requires inv == map["held" := 1]
    ensures Bridge(DemoTables(), DemoWorld(), inv, inv)
    ensures Holds(DemoWorld(), Yes(), inv) && !Holds(DemoWorld(), No(), inv)
  {
    DemoCodes(inv);
    DemoTablesSame();
    assert DemoTables().always == {} && DemoWorld().started == map[];
    hide DemoTables, SameTables;
  }

  lemma NothingSeparates<A>(c: Chain<A>, t: Tables, w: World, inv: Inventory, p: Provider, e: Chain<Atomic>)
    requires NotsAtMost(c, 0) && NoAndAfterOr(c) && SameShape(c, e)
    ensures !Separates(t, w, inv, p, e)
  {
    hide Bridge, CheckString, Compile, LeafFits, Eval;
    ShapeKeepsNoAndAfterOr(c, e);
    ShapeKeepsNots(c, e, 0);
    if Separates(t, w, inv, p, e) { MeaningPreserved(t, w, inv, p, e); }
  }

  /** The two evaluators agree on all expressions of a shape, for all item tables and
      inventories, exactly when no AND follows an OR at the same parenthesis level. */
  lemma EvaluatorsAgreeIff<A>(c: Chain<A>)
    requires NotsAtMost(c, 0)
    ensures NoAndAfterOr(c) <==>
            !exists t, w, inv, p, e :: SameShape(c, e) && Separates(t, w, inv, p, e)
  {
    hide Separates, NoAndAfterOr, SameShape, NotsAtMost;
    if NoAndAfterOr(c) {
      forall t, w, inv, p, e | SameShape(c, e) && Separates(t, w, inv, p, e) ensures false {
        NothingSeparates(c, t, w, inv, p, e);
      }
    } else {
      var d := Separator(c);
      var inv: Inventory := map["held" := 1];
      var e := MapChain(d, DemoLeaf);
      ShapesCompose(c, d, e);
      ShapeKeepsNots(c, d, 0);
      DemoSeparates(d, e, inv);
      assert SameShape(c, e) && Separates(DemoTables(), DemoWorld(), inv, inv, e);
    }
  }

  lemma DemoSeparates(d: Chain<bool>, e: Chain<Atomic>, inv: Inventory)
    requires NotsAtMost(d, 0) && LeftToRight(d, Id) != Precedence(d, Id)
    requires e == MapChain(d, DemoLeaf) && inv == map["held" := 1]
    ensures Separates(DemoTables(), DemoWorld(), inv, inv, e)
  {
    DemoLeaves(d);
    ShapeKeepsNots(d, e, 0);
    DemoBridge(inv);
    BothReadings(DemoTables(), DemoWorld(), inv, inv, e);
    MapBack(d, DemoLeaf, l => Holds(DemoWorld(), l, inv));
  }

  lemma {:induction false} MapBack(d: Chain<bool>, f: bool -> Atomic, val: Atomic -> bool)
    requires val(f(true)) && !val(f(false))
    ensures LeftToRight(MapChain(d, f), val) == LeftToRight(d, Id)
    ensures OrOfAnds(MapChain(d, f), val) == OrOfAnds(d, Id)
    decreases d, 1
  {
    match d
    case One(o) => MapOperandBack(o, f, val);
    case More(i, _, o) =>
      MapBack(i, f, val);
      MapOperandBack(o, f, val);
  }

  lemma {:induction false} MapOperandBack(o: Operand<bool>, f: bool -> Atomic, val: Atomic -> bool)
    requires val(f(true)) && !val(f(false))
    ensures OperandL2R(MapOperand(o, f), val) == OperandL2R(o, Id)
    ensures OperandPrec(MapOperand(o, f), val) == OperandPrec(o, Id)
    decreases o, 0
  {
    var q := MapOperand(o, f);
    match o.atom
    case Leaf(b) =>
      assert AtomL2R(q.atom, val) == val(f(b)) == b && AtomPrec(q.atom, val) == val(f(b));
      assert AtomL2R(o.atom, Id) == b && AtomPrec(o.atom, Id) == b;
    case Group(c) =>
      MapBack(c, f, val);
      assert AtomL2R(q.atom, val) == LeftToRight(MapChain(c, f), val);
      assert AtomPrec(q.atom, val) == Precedence(MapChain(c, f), val);
      assert AtomL2R(o.atom, Id) == LeftToRight(c, Id) && AtomPrec(o.atom, Id) == Precedence(c, Id);
  }

  lemma {:induction false} ShapesCompose<A, B, C>(c: Chain<A>, d: Chain<B>, e: Chain<C>)
    requires SameShape(c, d) && SameShape(d, e)
    ensures SameShape(c, e)
    decreases c
  {
    match c
    case One(o) =>
      if o.atom.Group? { ShapesCompose(o.atom.inner, d.o.atom.inner, e.o.atom.inner); }
    case More(i, _, o) =>
      ShapesCompose(i, d.init, e.init);
      if o.atom.Group? { ShapesCompose(o.atom.inner, d.last.atom.inner, e.last.atom.inner); }
  }

  /** `1 OR 0 AND 0`: false for Rules.py, true for the tracker. */
  lemma OrThenAndSeparates(t: Tables, w: World, inv: Inventory, p: Provider, yes: Atomic, no: Atomic)
    requires Bridge(t, w, inv, p) && LeafFits(t, w, yes) && LeafFits(t, w, no)
    requires Holds(w, yes, inv) && !Holds(w, no, inv)
    ensures var e := [Ref(yes), Kw(Or), Ref(no), Kw(And), Ref(no)];
            && CheckString(w, e, inv) == Ok(false)
            && Compile(t, e).Ok? && Eval(Compile(t, e).value, p)
  {
    var y, n := Operand(0, Leaf(yes)), Operand(0, Leaf(no));
    var c1 := More(One(y), Or, n);
    var c := More(c1, And, n);
    var fits, val := l => LeafFits(t, w, l), l => Holds(w, l, inv);
    OneLeaf(y, fits, val);
    OneLeaf(n, fits, val);
    assert Toks(c1) == [Ref(yes), Kw(Or), Ref(no)];
    assert Toks(c) == [Ref(yes), Kw(Or), Ref(no), Kw(And), Ref(no)];
    assert NotsAtMost(c1, 0) && EveryLeaf(c1, fits);
    BothReadings(t, w, inv, p, c);
    assert OrOfAnds(c1, val) == (true, false);
  }

  lemma OneLeaf(o: Operand<Atomic>, fits: Atomic -> bool, val: Atomic -> bool)
    requires o.nots == 0 && o.atom.Leaf?
    ensures OperandToks(o) == [Ref(o.atom.a)]
    ensures NotsAtMost(One(o), 0) && OperandNotsAtMost(o, 0)
    ensures EveryLeaf(One(o), fits) == EveryOperandLeaf(o, fits) == fits(o.atom.a)
    ensures LeftToRight(One(o), val) == OperandL2R(o, val) == OperandPrec(o, val) == val(o.atom.a)
    ensures OrOfAnds(One(o), val) == (false, val(o.atom.a))
  {
    assert MarkToks(0) == [];
    assert AtomL2R(o.atom, val) == AtomPrec(o.atom, val) == val(o.atom.a);
  }
}
