/** The validator's inventory for open-world mode: `inv_open` is the tracker's with the always-available
    items and the free seeds filled up.  Which requirements it evaluates as the tracker does, which
    counts what is held. */
module FilledInventory {
  import opened Wrappers
  import opened RequiresSyntax
  import opened RequiresTokens
  import opened RequiresRules
  import opened TrackerCompiler
  import opened LeafAgreement
  import opened MeaningPreservation
  import opened AccessLogic
  import opened PyEval
  import opened WorldNames
  import opened OpenWorldRules

  /** `name2count.get(name, 1)` */
  function Granted(t: Tables, name: string): int {
    if name in t.name2count then t.name2count[name] else 1
  }

  /** The item table has each always-available item once. */
  ghost predicate GrantsFit(t: Tables) {
    && (forall name :: name in t.always ==> Granted(t, name) == 1)
    && (forall name :: name in FREE_SEEDS ==> Granted(t, name) >= 0)
  }

  function Filled(t: Tables, inv: Inventory): Inventory
    requires GrantsFit(t)
  {
    map name | name in inv.Keys + t.always + FREE_SEEDS ::
      if name in t.always + FREE_SEEDS then Granted(t, name) else inv[name]
  }

  lemma FilledCount(t: Tables, w: World, inv: Inventory, p: Provider, name: string)
    requires GrantsFit(t) && Counted(t, w, inv, p)
    ensures Count(Filled(t, inv), name) == if name in FREE_SEEDS then Granted(t, name) else Count(inv, name)
    ensures name in FREE_SEEDS && name !in t.name2count ==> Count(Filled(t, inv), name) == 1
  {
    if name in t.always { assert Count(inv, name) == 1; }
  }

  // ---- References that name no free seed ------------------------------------------

  /** The items a reference is looked up in. */
  function LookedUp(t: Tables, ref: ItemRef): seq<string> {
    if !ref.category then [ref.name]
    else if ref.name == "Royal Seed" then ROYAL_NAMES
    else if ref.name in t.cat2names then t.cat2names[ref.name]
    else []
  }

  predicate SeedFree(t: Tables, ref: ItemRef) {
    forall name :: name in LookedUp(t, ref) ==> name !in FREE_SEEDS
  }

  lemma FilledHeld(t: Tables, w: World, inv: Inventory, p: Provider, ref: ItemRef)
    requires GrantsFit(t) && Counted(t, w, inv, p) && SeedFree(t, ref)
    ensures PyHeld(t, ref, Filled(t, inv)) == PyHeld(t, ref, inv)
  {
    hide Filled, GrantsFit, Counted, Total;
    forall name | name in LookedUp(t, ref) ensures Count(Filled(t, inv), name) == Count(inv, name) {
      FilledCount(t, w, inv, p, name);
    }
    if ref.category {
      SameTotal(Filled(t, inv), inv, LookedUp(t, ref));
    }
  }

  ghost predicate SeedFreeReq(t: Tables, q: Requirement) {
    q.Expression? ==> EveryLeaf(q.c, (l: Atomic) => SeedFree(t, l.ref))
  }

  /** Filling up changes no requirement that names no free seed. */
  lemma FilledMet(t: Tables, w: World, inv: Inventory, p: Provider, q: Requirement)
    requires GrantsFit(t) && Counted(t, w, inv, p) && SeedFreeReq(t, q)
    ensures PyMet(t, q, Filled(t, inv)) == PyMet(t, q, inv)
  {
    hide Filled, GrantsFit, Counted, PyHeld, SeedFree;
    if q.Expression? {
      var fits, f, g := (l: Atomic) => SeedFree(t, l.ref), l => PyHolds(t, l, Filled(t, inv)), l => PyHolds(t, l, inv);
      forall l | fits(l) ensures f(l) == g(l) { FilledHeld(t, w, inv, p, l.ref); }
      SameLeaves(q.c, fits, f, g);
    }
  }

  /** Equal leaves, equal value. */
  lemma {:induction false} SameLeaves<A(!new)>(c: Chain<A>, fits: A -> bool, f: A -> bool, g: A -> bool)
    requires EveryLeaf(c, fits) && forall a :: fits(a) ==> f(a) == g(a)
    ensures OrOfAnds(c, f) == OrOfAnds(c, g) && Precedence(c, f) == Precedence(c, g)
    decreases c, 1
  {
    match c
    case One(o) => SameOperandLeaves(o, fits, f, g);
    case More(i, op, o) =>
      SameLeaves(i, fits, f, g);
      SameOperandLeaves(o, fits, f, g);
  }

  lemma {:induction false} SameOperandLeaves<A(!new)>(o: Operand<A>, fits: A -> bool, f: A -> bool, g: A -> bool)
    requires EveryOperandLeaf(o, fits) && forall a :: fits(a) ==> f(a) == g(a)
    ensures OperandPrec(o, f) == OperandPrec(o, g)
    decreases o, 0
  {
    match o.atom
    case Leaf(a) =>
      assert AtomPrec(o.atom, f) == f(a) && AtomPrec(o.atom, g) == g(a);
    case Group(c) =>
      SameLeaves(c, fits, f, g);
      assert AtomPrec(o.atom, f) == Precedence(c, f) && AtomPrec(o.atom, g) == Precedence(c, g);
  }

  /** A free seed that is asked for, though, the validator always finds, and a tracker that has seen none
      of it does not. */
  lemma SeedTellsApart(t: Tables, w: World, inv: Inventory, p: Provider, x: string, n: nat)
    requires GrantsFit(t) && Bridge(t, w, inv, p) && x in FREE_SEEDS && x in t.name2code && x !in t.always
    requires 1 <= n <= Granted(t, x) && Count(inv, x) == 0
    ensures PyAtom(t, LeafAgreement.Plain(x, n), Filled(t, inv)) == Ok(true)
    ensures ItemAtom(t, LeafAgreement.Plain(x, n)).Ok? && !Eval(ItemAtom(t, LeafAgreement.Plain(x, n)).value, p)
  {
    FilledCount(t, w, inv, p, x);
  }

  // ---- The requirements of the Starts ---------------------------------------------

  /** In a Start's requirement a free seed may be named, if no more is asked for than there are. */
  predicate StartFits(t: Tables, w: World, leaf: Atomic) {
    leaf.ref.amount.Number? &&
    if !leaf.ref.category && leaf.ref.name in FREE_SEEDS then PyAsked(t, leaf) <= Granted(t, leaf.ref.name)
    else SeedFree(t, leaf.ref) && PyFits(t, w, leaf)
  }

  lemma {:induction false} SameGated(t: Tables, names: seq<string>)
    requires forall name :: name in names ==> name !in FREE_SEEDS
    ensures CountAlways(OpenTables(t), names) == CountAlways(t, names)
    ensures GatedCodes(OpenTables(t), names) == GatedCodes(t, names)
  {
    if names != [] {
      var init, last := names[..|names| - 1], names[|names| - 1];
      assert last in names && forall n :: n in init ==> n in names;
      SameGated(t, init);
    }
  }

  /** Both compilers make the same of a reference that names no free seed. */
  lemma SameAtom(t: Tables, leaf: Atomic)
    requires SeedFree(t, leaf.ref)
    ensures ItemAtom(OpenTables(t), leaf) == ItemAtom(t, leaf)
  {
    hide CountAlways, GatedCodes;
    if leaf.ref.category {
      SameGated(t, LookedUp(t, leaf.ref));
    } else {
      assert leaf.ref.name in LookedUp(t, leaf.ref);
    }
  }

  lemma StartLeaf(t: Tables, w: World, inv: Inventory, p: Provider, leaf: Atomic)
    requires GrantsFit(t) && Bridge(t, w, inv, p) && StartFits(t, w, leaf)
    ensures ItemAtom(OpenTables(t), leaf).Ok?
    ensures PyAtom(t, leaf, Filled(t, inv)) == Ok(Eval(ItemAtom(OpenTables(t), leaf).value, p))
  {
    if !leaf.ref.category && leaf.ref.name in FREE_SEEDS {
      FilledCount(t, w, inv, p, leaf.ref.name);
      assert ItemAtom(OpenTables(t), leaf) == Ok(True);
    } else {
      hide ItemAtom, Eval, SeedFree, Filled, PyHeld, GrantsFit;
      SameAtom(t, leaf);
      FilledHeld(t, w, inv, p, leaf.ref);
      PyLeafAgrees(t, w, inv, p, leaf);
    }
  }

  ghost predicate StartReads(t: Tables, w: World, q: Requirement) {
    q.Empty() || (q.Expression? && NotsAtMost(q.c, 0) && EveryLeaf(q.c, l => StartFits(t, w, l)))
  }

  /** What the second compiler makes of a Start's requirement is what the validator finds on the
      inventory filled up. */
  lemma StartMeans(t: Tables, w: World, inv: Inventory, p: Provider, q: Requirement)
    requires GrantsFit(t) && Bridge(t, w, inv, p) && StartReads(t, w, q)
    ensures PyMet(t, q, Filled(t, inv)) == Eval(Compiled(OpenTables(t), q), p)
  {
    hide ItemAtom, PyAtom, GrantsFit, Bridge, StartFits, Compile, Filled, OpenTables;
    if q.Expression? {
      var fits, val := l => StartFits(t, w, l), l => PyHolds(t, l, Filled(t, inv));
      forall l | fits(l)
        ensures ItemAtom(OpenTables(t), l).Ok? && Eval(ItemAtom(OpenTables(t), l).value, p) == val(l)
      {
        StartLeaf(t, w, inv, p, l);
      }
      CompiledReads(OpenTables(t), p, q.c, fits, val);
    } else {
      EmptyCompiles(OpenTables(t), q, p);
    }
  }
}
