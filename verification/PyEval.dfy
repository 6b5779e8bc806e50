/** The validator's own evaluator: every reference becomes 1 or 0, and Python's `and`, `or` and `not`
    do the rest, so AND binds tighter than OR and any run of `!` is a plain negation. */
module PyEval {
  import opened Wrappers
  import opened RequiresSyntax
  import opened RequiresTokens
  import opened RequiresRules
  import opened TrackerCompiler
  import opened LeafAgreement
  import opened MeaningPreservation
  import opened AccessLogic

  /** How many an inventory has of what a reference names. */
  function PyHeld(t: Tables, ref: ItemRef, inv: Inventory): nat {
    if !ref.category then Count(inv, ref.name)
    else if ref.name == "Royal Seed" then Total(inv, ROYAL_NAMES)
    else if ref.name in t.cat2names then Total(inv, t.cat2names[ref.name])
    else 0
  }

  /** `opt_sub`: OptOne clamps an item to the item table, and leaves a category as it is. */
  function PyAsked(t: Tables, leaf: Atomic): int
    requires leaf.ref.amount.Number?
  {
    var n := leaf.ref.amount.n;
    if leaf.optional && !leaf.ref.category then Min(n, PoolCount(t, leaf.ref.name)) else n
  }

  /** `item_sub`: counts must be numbers and categories known. */
  function PyAtom(t: Tables, leaf: Atomic, inv: Inventory): Result<bool> {
    if !leaf.ref.amount.Number? then Raised
    else if leaf.ref.category && leaf.ref.name != "Royal Seed" && leaf.ref.name !in t.cat2names then Raised
    else Ok(PyHeld(t, leaf.ref, inv) >= PyAsked(t, leaf))
  }

  /** OptOne clamps an item to the item table, and a category not at all; the Royal Seeds need no entry
      in the table of categories. */
  lemma PyClamps(t: Tables, x: string, n: int, inv: Inventory)
    ensures PyAtom(t, ClampedItem(x, n), inv) == Ok(Count(inv, x) >= n || Count(inv, x) >= PoolCount(t, x))
    ensures PyAtom(t, Clamped(x, n), inv) == PyAtom(t, Atomic(false, ItemRef(true, x, Number(n))), inv)
    ensures PyAtom(t, Clamped("Royal Seed", n), inv) == Ok(Total(inv, ROYAL_NAMES) >= n)
    ensures x !in t.cat2names && x != "Royal Seed" ==> PyAtom(t, Clamped(x, n), inv).Raised?
  {
  }

  predicate PyHolds(t: Tables, leaf: Atomic, inv: Inventory) {
    PyAtom(t, leaf, inv) == Ok(true)
  }

  /** `pyeval`, where no reference raises. */
  predicate PyMet(t: Tables, q: Requirement, inv: Inventory) {
    q.Empty() || (q.Expression? && Precedence(q.c, l => PyHolds(t, l, inv)))
  }

  function PyReq(t: Tables, qs: Requirements, inv: Inventory): string -> bool {
    r => r in qs ==> PyMet(t, qs[r], inv)
  }

  // ---- One reference --------------------------------------------------------------

  /** A reference neither the validator nor the generator refuses. */
  predicate PyAccepted(t: Tables, leaf: Atomic) {
    ItemAtom(t, leaf).Ok? && leaf.ref.amount.Number?
  }

  /** One that means the same to both. */
  predicate PyFits(t: Tables, w: World, leaf: Atomic) {
    PyAccepted(t, leaf) && Alike(PyAsked(t, leaf), Wanted(t, leaf), Holding(w, leaf.ref, Least(t, w)), Fixed(t, w, leaf.ref))
  }

  lemma PyAsks(t: Tables, w: World, inv: Inventory, leaf: Atomic)
    requires SameTables(t, w) && PyAccepted(t, leaf)
    ensures PyAtom(t, leaf, inv) == Ok(Holding(w, leaf.ref, inv) >= PyAsked(t, leaf))
  {
    hide Total, CountAlways, GatedCodes;
  }

  lemma PyLeafAgrees(t: Tables, w: World, inv: Inventory, p: Provider, leaf: Atomic)
    requires Bridge(t, w, inv, p) && PyFits(t, w, leaf)
    ensures PyAtom(t, leaf, inv) == Ok(Eval(ItemAtom(t, leaf).value, p))
  {
    hide ItemAtom, Eval, Wanted, PyAsked, PyAtom, Holding, Least, Fixed;
    PyAsks(t, w, inv, leaf);
    TrackerAsks(t, w, inv, p, leaf);
    HoldsLeast(t, w, inv, p, leaf.ref);
  }

  /** The validator and the tracker agree on a reference for every inventory exactly then. */
  lemma PyLeafAgreesIff(t: Tables, w: World, leaf: Atomic)
    requires SameTables(t, w) && SoundTables(t, w) && PyAccepted(t, leaf)
    ensures PyFits(t, w, leaf) <==>
            forall inv, p :: Counted(t, w, inv, p) ==> PyAtom(t, leaf, inv) == Ok(Eval(ItemAtom(t, leaf).value, p))
  {
    if PyFits(t, w, leaf) {
      forall inv, p | Counted(t, w, inv, p) ensures PyAtom(t, leaf, inv) == Ok(Eval(ItemAtom(t, leaf).value, p)) {
        PyLeafAgrees(t, w, inv, p, leaf);
      }
    } else {
      hide ItemAtom, Eval, Wanted, PyAsked, PyAtom, Holding, Least, Fixed;
      var k := ApartAt(PyAsked(t, leaf), Wanted(t, leaf), Holding(w, leaf.ref, Least(t, w)), Fixed(t, w, leaf.ref));
      var inv := AnyHeld(t, w, leaf.ref, k);
      PyAsks(t, w, inv, leaf);
      TrackerAsks(t, w, inv, Providing(t, inv), leaf);
    }
  }

  // ---- Requirements ---------------------------------------------------------------

  /** Requirements the validator and the tracker read alike, with an AND after an OR or without. */
  ghost predicate PyReads(t: Tables, w: World, q: Requirement) {
    q.Empty() || (q.Expression? && NotsAtMost(q.c, 0) && EveryLeaf(q.c, l => PyFits(t, w, l)))
  }

  /** The validator's value is the compiled rule's. */
  lemma PyMeansTracker(t: Tables, w: World, inv: Inventory, p: Provider, q: Requirement)
    requires Bridge(t, w, inv, p) && PyReads(t, w, q)
    ensures PyMet(t, q, inv) == TrackerMet(t, q, p)
  {
    hide Bridge, ItemAtom, PyAtom, Compile;
    if q.Expression? {
      var fits, val := l => PyFits(t, w, l), l => PyHolds(t, l, inv);
      forall l | fits(l) ensures ItemAtom(t, l).Ok? && Eval(ItemAtom(t, l).value, p) == val(l) {
        PyLeafAgrees(t, w, inv, p, l);
      }
      CompiledReads(t, p, q.c, fits, val);
    } else {
      EmptyCompiles(t, q, p);
    }
  }

  /** Requirements all three evaluators read alike. */
  ghost predicate AllRead(t: Tables, w: World, q: Requirement) {
    BothRead(t, w, q) && PyReads(t, w, q)
  }

  /** The validator evaluates them as `Rules.py` does, and as the compiled rule. */
  lemma PyMetAlike(t: Tables, w: World, inv: Inventory, p: Provider, q: Requirement)
    requires Bridge(t, w, inv, p) && AllRead(t, w, q)
    ensures PyMet(t, q, inv) == RulesMet(w, q, inv) == TrackerMet(t, q, p)
  {
    hide Bridge, PyMet, RulesMet, TrackerMet;
    MetAlike(t, w, inv, p, q);
    PyMeansTracker(t, w, inv, p, q);
  }
}
