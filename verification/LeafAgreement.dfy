/** A single item reference on both sides: what Rules.py makes of it and what the tracker compiles
    it to, and for which references the two agree. */
module LeafAgreement {
  import opened Lists
  import opened RequiresTokens
  import opened RequiresRules
  import opened TrackerCompiler

  const ROYAL_NAMES :=
    ["W1 Royal Seed", "W2 Royal Seed", "W3 Royal Seed", "W4 Royal Seed", "W5 Royal Seed", "W6 Royal Seed"]

  /** Both sides were built from the same items and categories.  How many of an item exist they count
      apart: the generator in the item table, Rules.py in the pool that was generated. */
  ghost predicate SameTables(t: Tables, w: World) {
    && t.cat2names == w.categories
    && (forall c, name :: c in w.categories && name in w.categories[c] ==> name in t.name2code)
    && w.Members("Royal Seed") == ROYAL_NAMES
    && (forall i :: 0 <= i < 6 ==>
          ROYAL_NAMES[i] in t.name2code && t.name2code[ROYAL_NAMES[i]] == ROYAL_CODES[i])
    && (forall name :: name in t.always ==> Count(w.started, name) <= 1)
  }

  /** The tracker's providers count what is held.  What the player started with is held, and of an
      always-available item exactly one. */
  ghost predicate Counted(t: Tables, w: World, inv: Inventory, p: Provider) {
    && (forall name :: name in t.name2code ==> CodeCount(p, t.name2code[name]) == Count(inv, name))
    && (forall name :: Count(w.started, name) <= Count(inv, name))
    && (forall name :: name in t.always ==> Count(inv, name) == 1)
  }

  ghost predicate Bridge(t: Tables, w: World, inv: Inventory, p: Provider) {
    SameTables(t, w) && Counted(t, w, inv, p)
  }

  /** References that neither side refuses. */
  predicate Accepted(t: Tables, w: World, leaf: Atomic) {
    Usable(w, leaf) && ItemAtom(t, leaf).Ok?
  }

  /** The number Rules.py asks for, clamped by OptOne to the pool. */
  function Asked(w: World, leaf: Atomic): int
    requires Usable(w, leaf)
  {
    Threshold(Expand(w, leaf).amount, Existing(w, leaf.ref)).value
  }

  /** The number the compiled rule asks for, clamped by OptOne to the item table. */
  function Wanted(t: Tables, leaf: Atomic): int
    requires ItemAtom(t, leaf).Ok?
  {
    if leaf.ref.category then leaf.ref.amount.n
    else if leaf.ref.name in t.always then 0
    else if leaf.optional then Max(0, Min(leaf.ref.amount.n, PoolCount(t, leaf.ref.name)))
    else Max(1, leaf.ref.amount.n)
  }

  function Max(a: int, b: int): int {
    if a >= b then a else b
  }

  /** The smallest inventory. */
  function Least(t: Tables, w: World): Inventory {
    map name | name in t.always + w.started.Keys :: if name in t.always then 1 else w.started[name]
  }

  /** Every inventory holds equally many of it. */
  predicate Fixed(t: Tables, w: World, ref: ItemRef) {
    if ref.category then forall name :: name in w.Members(ref.name) ==> name in t.always else ref.name in t.always
  }

  /** Two numbers nobody can tell apart who always holds `least`, or just that. */
  predicate Alike(a: int, b: int, least: nat, fixed: bool) {
    a == b || (a <= least && b <= least) || (fixed && a > least && b > least)
  }

  /** Accepted references that mean the same on both sides. */
  predicate ReadAlike(t: Tables, w: World, leaf: Atomic)
    requires Accepted(t, w, leaf)
  {
    Alike(Asked(w, leaf), Wanted(t, leaf), Holding(w, leaf.ref, Least(t, w)), Fixed(t, w, leaf.ref))
  }

  predicate LeafFits(t: Tables, w: World, leaf: Atomic) {
    Accepted(t, w, leaf) && ReadAlike(t, w, leaf)
  }

  // ---- Totals ---------------------------------------------------------------------

  lemma {:induction false} CategoryTotals(t: Tables, w: World, inv: Inventory, p: Provider, names: seq<string>)
    requires Counted(t, w, inv, p)
    requires forall n :: n in names ==> n in t.name2code
    ensures Total(inv, names) == CountAlways(t, names) + CodeTotal(p, GatedCodes(t, names))
  {
    if names != [] {
      var init, last := names[..|names| - 1], names[|names| - 1];
      assert last in names;
      CategoryTotals(t, w, inv, p, init);
      var g := GatedCodes(t, init);
      if last !in t.always {
        assert (g + [t.name2code[last]])[..|g|] == g;
      } else {
        assert g + [] == g;
      }
    }
  }

  lemma {:induction false} RoyalTotals(t: Tables, w: World, inv: Inventory, p: Provider, k: nat)
    requires Bridge(t, w, inv, p) && k <= 6
    ensures Total(inv, ROYAL_NAMES[..k]) == CodeTotal(p, ROYAL_CODES[..k])
  {
    if k > 0 {
      RoyalTotals(t, w, inv, p, k - 1);
      assert Count(inv, ROYAL_NAMES[k - 1]) == CodeCount(p, ROYAL_CODES[k - 1]) by {
        assert ROYAL_NAMES[k - 1] in t.name2code && t.name2code[ROYAL_NAMES[k - 1]] == ROYAL_CODES[k - 1];
      }
      hide Bridge, Count, CodeCount;
      assert ROYAL_NAMES[..k][..k - 1] == ROYAL_NAMES[..k - 1];
      assert ROYAL_CODES[..k][..k - 1] == ROYAL_CODES[..k - 1];
    }
  }

  /** The compiled sum of a category is its total: the Royal Seeds by their own codes. */
  lemma CategoryMeaning(t: Tables, w: World, inv: Inventory, p: Provider, leaf: Atomic)
    requires Bridge(t, w, inv, p) && ItemAtom(t, leaf).Ok? && leaf.ref.category
    ensures leaf.ref.amount.Number? && w.Members(leaf.ref.name) != []
    ensures Eval(ItemAtom(t, leaf).value, p) <==> Total(inv, w.Members(leaf.ref.name)) >= leaf.ref.amount.n
  {
    hide Total, CodeTotal, CountAlways, GatedCodes;
    var names := w.Members(leaf.ref.name);
    assert forall n :: n in names ==> n in t.name2code;
    CategoryTotals(t, w, inv, p, names);
    if leaf.ref.name == "Royal Seed" {
      RoyalTotals(t, w, inv, p, 6);
      assert ROYAL_NAMES[..6] == ROYAL_NAMES && ROYAL_CODES[..6] == ROYAL_CODES;
    }
  }

  // ---- Agreement ------------------------------------------------------------------

  /** The compiled rule of a reference tests how many are held. */
  lemma TrackerAsks(t: Tables, w: World, inv: Inventory, p: Provider, leaf: Atomic)
    requires Bridge(t, w, inv, p) && ItemAtom(t, leaf).Ok?
    ensures Eval(ItemAtom(t, leaf).value, p) <==> Holding(w, leaf.ref, inv) >= Wanted(t, leaf)
  {
    hide Total, CodeTotal, CountAlways, GatedCodes;
    if leaf.ref.category {
      CategoryMeaning(t, w, inv, p, leaf);
    }
  }

  /** And so does Rules.py. */
  lemma RulesAsks(t: Tables, w: World, inv: Inventory, leaf: Atomic)
    requires SameTables(t, w) && Accepted(t, w, leaf)
    ensures Holds(w, leaf, inv) <==> Holding(w, leaf.ref, inv) >= Asked(w, leaf)
  {
    hide Total, CountAlways, GatedCodes;
  }

  lemma {:induction false} SameTotal(lo: Inventory, hi: Inventory, names: seq<string>)
    requires forall n :: n in names ==> Count(lo, n) == Count(hi, n)
    ensures Total(lo, names) == Total(hi, names)
  {
    if names != [] {
      var init, last := names[..|names| - 1], names[|names| - 1];
      assert last in names && forall n :: n in init ==> n in names;
      SameTotal(lo, hi, init);
    }
  }

  /** At least as many are held as in the smallest inventory, and just as many of what is fixed. */
  lemma HoldsLeast(t: Tables, w: World, inv: Inventory, p: Provider, ref: ItemRef)
    requires Counted(t, w, inv, p)
    ensures Holding(w, ref, inv) >= Holding(w, ref, Least(t, w))
    ensures Fixed(t, w, ref) ==> Holding(w, ref, inv) == Holding(w, ref, Least(t, w))
  {
    hide Total;
    var least := Least(t, w);
    forall name ensures Count(least, name) <= Count(inv, name) && (name in t.always ==> Count(least, name) == Count(inv, name)) {
      LeastCount(t, w, name);
      assert Count(w.started, name) <= Count(inv, name);
    }
    if ref.category {
      TotalMonotone(least, inv, w.Members(ref.name));
      if Fixed(t, w, ref) { SameTotal(least, inv, w.Members(ref.name)); }
    }
  }

  lemma LeafAgrees(t: Tables, w: World, inv: Inventory, p: Provider, leaf: Atomic)
    requires Bridge(t, w, inv, p) && LeafFits(t, w, leaf)
    ensures Eval(ItemAtom(t, leaf).value, p) == Holds(w, leaf, inv)
  {
    hide ItemAtom, Eval, Holds, Usable, Asked, Wanted, Holding, Least, Fixed;
    TrackerAsks(t, w, inv, p, leaf);
    RulesAsks(t, w, inv, leaf);
    HoldsLeast(t, w, inv, p, leaf.ref);
  }

  // ---- Exactness ------------------------------------------------------------------

  /** What the generator asserts and a dictionary of items guarantees: no two items share a code,
      and a category lists an item once. */
  ghost predicate SoundTables(t: Tables, w: World) {
    && (forall a, b :: a in t.name2code && b in t.name2code && t.name2code[a] == t.name2code[b] ==> a == b)
    && (forall c :: c in w.categories ==> Distinct(w.categories[c]))
  }

  /** A tracker that counts an inventory. */
  function Providing(t: Tables, inv: Inventory): Provider
    requires forall a, b :: a in t.name2code && b in t.name2code && t.name2code[a] == t.name2code[b] ==> a == b
  {
    map n | n in t.name2code :: t.name2code[n] := Count(inv, n)
  }

  lemma ProvidingCounts(t: Tables, inv: Inventory)
    requires forall a, b :: a in t.name2code && b in t.name2code && t.name2code[a] == t.name2code[b] ==> a == b
    ensures forall n :: n in t.name2code ==> CodeCount(Providing(t, inv), t.name2code[n]) == Count(inv, n)
  {
  }

  /** Changing one count changes a total by as much. */
  lemma {:induction false} OneMore(inv: Inventory, name: string, k: nat, names: seq<string>)
    requires Distinct(names)
    ensures Total(inv[name := k], names) == Total(inv, names) + if name in names then k - Count(inv, name) else 0
  {
    if names != [] {
      var init, last := names[..|names| - 1], names[|names| - 1];
      OneMore(inv, name, k, init);
      assert names == init + [last];
      assert forall i :: 0 <= i < |init| ==> names[i] == init[i] != last;
    }
  }

  lemma IsCounted(t: Tables, w: World, inv: Inventory)
    requires SoundTables(t, w)
    requires forall n :: Count(w.started, n) <= Count(inv, n) && (n in t.always ==> Count(inv, n) == 1)
    ensures Counted(t, w, inv, Providing(t, inv))
  {
    ProvidingCounts(t, inv);
    hide Providing, Count, CodeCount;
  }

  /** The smallest inventory with more of an item that is not always available can be held. */
  lemma MoreCounted(t: Tables, w: World, name: string, extra: nat)
    requires SameTables(t, w) && SoundTables(t, w) && (extra > 0 ==> name !in t.always)
    ensures var inv := Least(t, w)[name := Count(Least(t, w), name) + extra];
            Counted(t, w, inv, Providing(t, inv))
  {
    var inv := Least(t, w)[name := Count(Least(t, w), name) + extra];
    forall n ensures Count(w.started, n) <= Count(inv, n) && (n in t.always ==> Count(inv, n) == 1) {
      LeastCount(t, w, n);
      assert Count(inv, n) == Count(Least(t, w), n) + if n == name then extra else 0;
    }
    IsCounted(t, w, inv);
  }

  lemma LeastCounted(t: Tables, w: World)
    requires SameTables(t, w) && SoundTables(t, w)
    ensures Counted(t, w, Least(t, w), Providing(t, Least(t, w)))
  {
    forall n ensures Count(w.started, n) <= Count(Least(t, w), n) && (n in t.always ==> Count(Least(t, w), n) == 1) {
      LeastCount(t, w, n);
    }
    IsCounted(t, w, Least(t, w));
  }

  lemma LeastCount(t: Tables, w: World, n: string)
    ensures Count(Least(t, w), n) == if n in t.always then 1 else Count(w.started, n)
  {
  }

  /** Of what is not fixed, any number from the least on may be held. */
  lemma AnyHeld(t: Tables, w: World, ref: ItemRef, k: nat) returns (inv: Inventory)
    requires SameTables(t, w) && SoundTables(t, w) && k >= Holding(w, ref, Least(t, w))
    requires k > Holding(w, ref, Least(t, w)) ==> !Fixed(t, w, ref)
    ensures Counted(t, w, inv, Providing(t, inv)) && Holding(w, ref, inv) == k
  {
    hide Counted, SameTables, Providing, Total, Least;
    var least, extra := Least(t, w), k - Holding(w, ref, Least(t, w));
    var name := ref.name;
    if extra > 0 && ref.category {
      name :| name in w.Members(ref.name) && name !in t.always;
      assert Distinct(w.Members(ref.name));
      OneMore(least, name, Count(least, name) + extra, w.Members(ref.name));
    }
    if extra > 0 {
      MoreCounted(t, w, name, extra);
      inv := least[name := Count(least, name) + extra];
    } else {
      LeastCounted(t, w);
      inv := least;
    }
  }

  /** Two numbers that are not alike are told apart by some number that may be held. */
  lemma ApartAt(a: int, b: int, least: nat, fixed: bool) returns (k: nat)
    requires !Alike(a, b, least, fixed)
    ensures k >= least && (k > least ==> !fixed) && (k >= a <==> k < b)
  {
    k := if fixed then least else Max(least, Min(a, b));
  }

  /** A reference that does not read alike is told apart by some inventory. */
  lemma LeafSeparates(t: Tables, w: World, leaf: Atomic) returns (inv: Inventory, p: Provider)
    requires SameTables(t, w) && SoundTables(t, w) && Accepted(t, w, leaf) && !ReadAlike(t, w, leaf)
    ensures Counted(t, w, inv, p) && Eval(ItemAtom(t, leaf).value, p) != Holds(w, leaf, inv)
  {
    hide ItemAtom, Eval, Holds, Usable, Asked, Wanted, Holding, Least, Fixed;
    var least, fixed := Holding(w, leaf.ref, Least(t, w)), Fixed(t, w, leaf.ref);
    var k := ApartAt(Asked(w, leaf), Wanted(t, leaf), least, fixed);
    inv := AnyHeld(t, w, leaf.ref, k);
    p := Providing(t, inv);
    TrackerAsks(t, w, inv, p, leaf);
    RulesAsks(t, w, inv, leaf);
  }

  /** A reference both sides accept means the same for every inventory exactly when it reads alike. */
  lemma LeafAgreesIff(t: Tables, w: World, leaf: Atomic)
    requires SameTables(t, w) && SoundTables(t, w) && Accepted(t, w, leaf)
    ensures ReadAlike(t, w, leaf) <==>
            forall inv, p :: Counted(t, w, inv, p) ==> Eval(ItemAtom(t, leaf).value, p) == Holds(w, leaf, inv)
  {
    if ReadAlike(t, w, leaf) {
      forall inv, p | Counted(t, w, inv, p) ensures Eval(ItemAtom(t, leaf).value, p) == Holds(w, leaf, inv) {
        LeafAgrees(t, w, inv, p, leaf);
      }
    } else {
      var inv, p := LeafSeparates(t, w, leaf);
    }
  }

  // ---- Which references these are -------------------------------------------------

  /** `|x:n|` */
  function Plain(x: string, n: int): Atomic {
    Atomic(false, ItemRef(false, x, Number(n)))
  }

  /** `{OptOne(|x:n|)}` */
  function ClampedItem(x: string, n: int): Atomic {
    Atomic(true, ItemRef(false, x, Number(n)))
  }

  /** `{OptOne(|@c:n|)}` */
  function Clamped(c: string, n: int): Atomic {
    Atomic(true, ItemRef(true, c, Number(n)))
  }

  /** Four that do not read alike: an always-available item asked for twice, an ordinary one asked
      for no times, a category that OptOne clamps below what the tracker asks for, and an item that
      OptOne clamps to another number in the pool than in the item table, past what was started with. */
  lemma UnlikeLeaves(t: Tables, w: World, x: string, c: string, n: nat)
    requires SameTables(t, w)
    ensures x in t.always ==> Accepted(t, w, Plain(x, 2)) && !ReadAlike(t, w, Plain(x, 2))
    ensures x in t.name2code && x !in t.always && Count(w.started, x) == 0 ==>
              Accepted(t, w, Plain(x, 0)) && !ReadAlike(t, w, Plain(x, 0))
    ensures n > Total(w.pool, w.Members(c)) && n > Total(Least(t, w), w.Members(c))
            && (exists m :: m in w.Members(c) && m !in t.always) ==>
              Accepted(t, w, Clamped(c, n)) && !ReadAlike(t, w, Clamped(c, n))
    ensures x in t.name2code && x !in t.always && PoolCount(t, x) >= 0 && Min(n, Count(w.pool, x)) != Min(n, PoolCount(t, x))
            && Max(Min(n, Count(w.pool, x)), Min(n, PoolCount(t, x))) > Count(w.started, x) ==>
              Accepted(t, w, ClampedItem(x, n)) && !ReadAlike(t, w, ClampedItem(x, n))
  {
    hide Total, CountAlways, GatedCodes;
  }

  /** OptOne drops out of the rule for an item the table has none of. */
  lemma NoneIsTrue(t: Tables, x: string, n: int)
    requires x in t.name2code && (x !in t.name2count || t.name2count[x] <= 0)
    ensures ItemAtom(t, ClampedItem(x, n)).Ok? && ItemAtom(t, ClampedItem(x, n)).value == True
  {
  }

  /** Where every copy of the item table is in the pool or was started with, OptOne reads alike exactly
      if they are all in one of these or no more is asked for than one of them has: for one, always. */
  lemma StartedAlikeIff(t: Tables, w: World, x: string, n: nat)
    requires x in t.name2code && x !in t.always
    requires PoolCount(t, x) == Count(w.pool, x) + Count(w.started, x)
    ensures Accepted(t, w, ClampedItem(x, n))
    ensures ReadAlike(t, w, ClampedItem(x, n)) <==>
            Count(w.started, x) == 0 || Count(w.pool, x) == 0 || n <= Max(Count(w.pool, x), Count(w.started, x))
    ensures n <= 1 ==> ReadAlike(t, w, ClampedItem(x, n))
  {
  }
}
