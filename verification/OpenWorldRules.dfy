/** Open-world access as Archipelago computes it from the data files, with its own evaluator on
    its side: how it grows with the inventory, and how it matches the tracker. */
module OpenWorldRules {
  import opened Wrappers
  import opened RequiresSyntax
  import opened RequiresTokens
  import opened RequiresRules
  import opened TrackerCompiler
  import opened LeafAgreement
  import opened Reachability
  import opened AccessLogic
  import opened WorldNames
  import opened OpenWorldLogic
  import opened OpenWorldAccess
  import opened OpenWorldGoal

  // ---- Archipelago's side ---------------------------------------------------------

  /** The requirement `set_rules` sees for a region: `before_set_rules` has emptied those of the
      active Starts and of the castle. */
  function OpenRulesReq(w: World, qs: Requirements, active: set<nat>, inv: Inventory): string -> bool {
    r => (StartNum(r).Some? && StartNum(r).value in active) || r == BOWSER_REGION || RulesReq(w, qs, inv)(r)
  }

  /** The restructured graph, with the gates on Manual's exits and the requirements on the others. */
  ghost function RulesEdges(g: Table, slot: Slot, w: World, qs: Requirements, inv: Inventory): iset<Edge> {
    OpenEdges(g, slot.ActiveSet(), r => ItemGate(slot, inv, r), OpenRulesReq(w, qs, slot.ActiveSet(), inv))
  }

  /** A location of the data file. */
  datatype Spot = Spot(place: Place, q: Requirement)

  /** `can_reach_location` for a location without a gate of its own: it was not stripped, its
      requirement and that of its region in the data file hold, and its parent region is reached. */
  ghost predicate SpotOpen(g: Table, slot: Slot, w: World, qs: Requirements, inv: Inventory, s: Spot) {
    && Survives(slot.ActiveSet(), s.place)
    && RulesMet(w, s.q, inv) && OpenRulesReq(w, qs, slot.ActiveSet(), inv)(s.place.region)
    && Reached(RulesEdges(g, slot, w, qs, inv), ParentOf(slot, s.place))
  }

  /** `PALACE_LOCATION`: the location that stands for beating a world's palace. */
  type Palaces = map<nat, Spot>

  ghost function PalaceOpen(g: Table, slot: Slot, w: World, qs: Requirements, palaces: Palaces, inv: Inventory): nat -> bool {
    n => n in palaces && SpotOpen(g, slot, w, qs, inv, palaces[n])
  }

  ghost predicate GoalGate(g: Table, slot: Slot, w: World, qs: Requirements, palaces: Palaces, inv: Inventory, required: int) {
    BowserGate(slot, inv, PalaceOpen(g, slot, w, qs, palaces, inv), required)
  }

  /** Every location, the goal with its gate. */
  ghost predicate RulesPlace(g: Table, slot: Slot, w: World, qs: Requirements, palaces: Palaces,
                             inv: Inventory, s: Spot, required: int) {
    SpotOpen(g, slot, w, qs, inv, s) && (s.place.name == GOAL ==> GoalGate(g, slot, w, qs, palaces, inv, required))
  }

  // ---- Growth ---------------------------------------------------------------------

  ghost predicate AllGrowing(w: World, qs: Requirements) {
    forall r :: r in qs ==> Growing(w, qs[r])
  }

  lemma OpenReqMonotone(w: World, qs: Requirements, active: set<nat>, lo: Inventory, hi: Inventory, r: string)
    requires Grows(lo, hi) && AllGrowing(w, qs) && OpenRulesReq(w, qs, active, lo)(r)
    ensures OpenRulesReq(w, qs, active, hi)(r)
  {
    hide RulesMet, Growing;
    if r in qs && RulesReq(w, qs, lo)(r) { MetMonotone(w, qs[r], lo, hi); }
    assert RulesReq(w, qs, lo)(r) ==> RulesReq(w, qs, hi)(r);
  }

  lemma ItemGateMonotone(slot: Slot, lo: Inventory, hi: Inventory, r: string)
    requires Grows(lo, hi) && ItemGate(slot, lo, r)
    ensures ItemGate(slot, hi, r)
  {
    hide UnlockItem;
    if StartNum(r).Some? && StartNum(r).value < 10 {
      assert Count(lo, UnlockItem(StartNum(r).value)) <= Count(hi, UnlockItem(StartNum(r).value));
    }
    assert Count(lo, CASTLE_UNLOCK_ITEM) <= Count(hi, CASTLE_UNLOCK_ITEM);
  }

  /** A growing inventory loses no region of the open world. */
  lemma OpenRegionsMonotone(g: Table, slot: Slot, w: World, qs: Requirements, lo: Inventory, hi: Inventory, r: string)
    requires Grows(lo, hi) && AllGrowing(w, qs) && Reached(RulesEdges(g, slot, w, qs, lo), r)
    ensures Reached(RulesEdges(g, slot, w, qs, hi), r)
  {
    hide Reached, RulesMet, AllGrowing;
    var a, b := RulesEdges(g, slot, w, qs, lo), RulesEdges(g, slot, w, qs, hi);
    OpensMore(g, slot, w, qs, lo, hi);
    ReachedThrough(a, b, r);
  }

  /** Reach carries over where the entrances open to reached regions do. */
  lemma ReachedThrough(a: iset<Edge>, b: iset<Edge>, r: string)
    requires forall e :: e in a && e.open && Reached(b, e.src) ==> Edge(e.src, e.dst, true) in b
    requires Reached(a, r)
    ensures Reached(b, r)
  {
    var s := iset x | Reached(b, x);
    ReachedIsLeastFixpoint(b);
    forall e | e in a && e.open && e.src in s ensures e.dst in s {
      assert Edge(e.src, e.dst, true) in b;
      ThroughEdge(b, Edge(e.src, e.dst, true));
    }
    assert Closed(a, s);
  }

  lemma OpensMore(g: Table, slot: Slot, w: World, qs: Requirements, lo: Inventory, hi: Inventory)
    requires Grows(lo, hi) && AllGrowing(w, qs)
    ensures forall e :: e in RulesEdges(g, slot, w, qs, lo) && e.open ==> Edge(e.src, e.dst, true) in RulesEdges(g, slot, w, qs, hi)
  {
    hide RulesMet, AllGrowing, ItemGate, OpenRulesReq;
    var active := slot.ActiveSet();
    forall e | e in RulesEdges(g, slot, w, qs, lo) && e.open
      ensures Edge(e.src, e.dst, true) in RulesEdges(g, slot, w, qs, hi)
    {
      if ItemGate(slot, lo, e.dst) { ItemGateMonotone(slot, lo, hi, e.dst); }
      if OpenRulesReq(w, qs, active, lo)(e.src) { OpenReqMonotone(w, qs, active, lo, hi, e.src); }
    }
  }

  /** Nor a location without a gate, palaces included. */
  lemma SpotsMonotone(g: Table, slot: Slot, w: World, qs: Requirements, lo: Inventory, hi: Inventory, s: Spot)
    requires Grows(lo, hi) && AllGrowing(w, qs) && Growing(w, s.q) && SpotOpen(g, slot, w, qs, lo, s)
    ensures SpotOpen(g, slot, w, qs, hi, s)
  {
    hide Reached, RulesMet, AllGrowing, OpenRulesReq, Survives, ParentOf, RulesEdges;
    MetMonotone(w, s.q, lo, hi);
    OpenReqMonotone(w, qs, slot.ActiveSet(), lo, hi, s.place.region);
    OpenRegionsMonotone(g, slot, w, qs, lo, hi, ParentOf(slot, s.place));
  }

  /** More items never close the gate of the final course: neither a Royal Seed nor a palace is lost. */
  lemma BowserGateMonotone(g: Table, slot: Slot, w: World, qs: Requirements, palaces: Palaces,
                           lo: Inventory, hi: Inventory, required: int)
    requires Grows(lo, hi) && AllGrowing(w, qs) && forall n :: n in palaces ==> Growing(w, palaces[n].q)
    requires GoalGate(g, slot, w, qs, palaces, lo, required)
    ensures GoalGate(g, slot, w, qs, palaces, hi, required)
  {
    hide SpotOpen, AllGrowing, RoyalSeed;
    var f, f' := PalaceOpen(g, slot, w, qs, palaces, lo), PalaceOpen(g, slot, w, qs, palaces, hi);
    forall n | f(n) ensures f'(n) {
      SpotsMonotone(g, slot, w, qs, lo, hi, palaces[n]);
    }
    CountTrueMonotone(slot.active, f, f');
    forall n | 1 <= n <= 6 ensures Count(hi, RoyalSeed(n)) >= 1 {
      assert Count(lo, RoyalSeed(n)) <= Count(hi, RoyalSeed(n));
    }
  }

  /** A growing inventory loses no location at all. */
  lemma OpenPlacesMonotone(g: Table, slot: Slot, w: World, qs: Requirements, palaces: Palaces,
                           lo: Inventory, hi: Inventory, s: Spot, required: int)
    requires Grows(lo, hi) && AllGrowing(w, qs) && Growing(w, s.q)
    requires forall n :: n in palaces ==> Growing(w, palaces[n].q)
    requires RulesPlace(g, slot, w, qs, palaces, lo, s, required)
    ensures RulesPlace(g, slot, w, qs, palaces, hi, s, required)
  {
    hide SpotOpen, AllGrowing, GoalGate, Growing;
    SpotsMonotone(g, slot, w, qs, lo, hi, s);
    if s.place.name == GOAL { BowserGateMonotone(g, slot, w, qs, palaces, lo, hi, required); }
  }

  // ---- Against the tracker --------------------------------------------------------

  /** What the tracker compiles a requirement to. */
  function Compiled(t: Tables, q: Requirement): Lua {
    if CompileReq(t, q).Ok? then CompileReq(t, q).value else True
  }

  /** `info.get("requires", "")` */
  function ReqOf(qs: Requirements, r: string): Requirement {
    if r in qs then qs[r] else NoRequires
  }

  /** The tables of the second compiler, which takes the free seeds for always available. */
  function OpenTables(t: Tables): Tables {
    t.(always := t.always + FREE_SEEDS)
  }

  /** The generator's pack for these tables and requirements. */
  ghost predicate PackFrom(k: Pack, t: Tables, qs: Requirements) {
    && (forall r :: r in k.t.info ==> r in k.req && k.req[r] == Compiled(t, ReqOf(qs, r)))
    && (forall r :: r in k.t.info && StartNum(r).Some? ==>
          r in k.openReq && k.openReq[r] == Compiled(OpenTables(t), ReqOf(qs, r)))
    && (forall n :: 1 <= n <= 6 ==>
          UnlockItem(n) in t.name2code && n in k.unlockCodes && k.unlockCodes[n] == t.name2code[UnlockItem(n)])
    && CASTLE_UNLOCK_ITEM in t.name2code && k.castleCode == Some(t.name2code[CASTLE_UNLOCK_ITEM])
  }

  lemma RoyalNamesAndCodes(n: nat)
    requires 1 <= n <= 6
    ensures RoyalSeed(n) == ROYAL_NAMES[n - 1] && RoyalCode(n) == ROYAL_CODES[n - 1]
  {
    assert NatDigits(n) == [DigitChar(n)];
  }

  lemma PackCounts(k: Pack, t: Tables, qs: Requirements, w: World, slot: Slot, inv: Inventory, p: Provider)
    requires PackFrom(k, t, qs) && Bridge(t, w, inv, p) && forall n :: n in slot.active ==> 1 <= n <= 6
    ensures CountsHeld(k, slot, p, inv)
  {
    hide RoyalSeed, RoyalCode, UnlockItem;
    forall n | n in slot.active ensures CodeCount(p, RoyalCode(n)) == Count(inv, RoyalSeed(n)) {
      RoyalNamesAndCodes(n);
      assert ROYAL_NAMES[n - 1] in t.name2code;
    }
  }

  ghost predicate AllBothRead(t: Tables, w: World, qs: Requirements) {
    forall r :: r in qs ==> BothRead(t, w, qs[r])
  }

  /** Inside the worlds the compiled requirement and the evaluated one are the same. */
  lemma InnerReqAlike(k: Pack, t: Tables, qs: Requirements, w: World, slot: Slot, inv: Inventory, p: Provider, r: string)
    requires PackFrom(k, t, qs) && Bridge(t, w, inv, p) && AllBothRead(t, w, qs)
    requires r in k.t.info && StartNum(r).None?
    ensures OpenReq(Neutral(k), p, r) <==> OpenRulesReq(w, qs, slot.ActiveSet(), inv)(r)
  {
    var q := ReqOf(qs, r);
    assert BothRead(t, w, q);
    assert r !in qs ==> RulesMet(w, q, inv);
    hide Bridge, BothRead, RulesMet, Compiled, TrackerMet, StartNum;
    MetAlike(t, w, inv, p, q);
    CompiledMeansMet(t, w, inv, p, q);
    assert OpenReq(Neutral(k), p, r) <==> r == BOWSER_REGION || Eval(k.req[r], p);
    assert RulesReq(w, qs, inv)(r) <==> (r in qs ==> RulesMet(w, qs[r], inv));
  }

  lemma CompiledMeansMet(t: Tables, w: World, inv: Inventory, p: Provider, q: Requirement)
    requires Bridge(t, w, inv, p) && BothRead(t, w, q)
    ensures Eval(Compiled(t, q), p) == TrackerMet(t, q, p)
  {
    hide Bridge, Compile;
    if q.Expression? { MeaningPreservation.MeaningPreserved(t, w, inv, p, q.c); } else { EmptyCompiles(t, q, p); }
  }

  /** Requirements that ask for nothing but free seeds and always-available items. */
  ghost predicate AsksFreeOnly(t: Tables, q: Requirement) {
    q.Empty() ||
    (q.Expression? && NotsAtMost(q.c, 0) && EveryLeaf(q.c, (l: Atomic) => !l.ref.category && l.ref.name in t.always + FREE_SEEDS))
  }

  lemma {:induction false} AllTrue<A>(c: Chain<A>, val: A -> bool)
    requires NotsAtMost(c, 0) && forall a :: val(a)
    ensures OrOfAnds(c, val).1 && Precedence(c, val)
    decreases c, 1
  {
    match c
    case One(o) => AllTrueOperand(o, val);
    case More(i, _, o) =>
      AllTrue(i, val);
      AllTrueOperand(o, val);
  }

  lemma {:induction false} AllTrueOperand<A>(o: Operand<A>, val: A -> bool)
    requires OperandNotsAtMost(o, 0) && forall a :: val(a)
    ensures OperandPrec(o, val)
    decreases o, 0
  {
    match o.atom
    case Leaf(a) => assert AtomPrec(o.atom, val) == val(a);
    case Group(c) =>
      AllTrue(c, val);
      assert AtomPrec(o.atom, val) == Precedence(c, val);
  }

  lemma FreeIsTrue(t: Tables, q: Requirement, p: Provider)
    requires AsksFreeOnly(t, q)
    ensures Eval(Compiled(OpenTables(t), q), p)
  {
    hide Compile;
    if q.Expression? {
      var fits, yes := (l: Atomic) => !l.ref.category && l.ref.name in t.always + FREE_SEEDS, (l: Atomic) => true;
      forall l | fits(l) ensures ItemAtom(OpenTables(t), l).Ok? && Eval(ItemAtom(OpenTables(t), l).value, p) == yes(l) {
        assert ItemAtom(OpenTables(t), l) == Ok(True);
      }
      MeaningPreservation.CompiledReads(OpenTables(t), p, q.c, fits, yes);
      AllTrue(q.c, yes);
    } else {
      EmptyCompiles(OpenTables(t), q, p);
    }
  }

  /** If the active Starts ask for nothing else, the requirements the tracker keeps are met whatever it
      counts. */
  lemma FreeStartsMet(k: Pack, slot: Slot, t: Tables, qs: Requirements, p: Provider)
    requires k.Valid() && SlotFits(k, slot) && PackFrom(k, t, qs)
    requires forall n :: n in slot.active && StartName(n) in qs ==> AsksFreeOnly(t, qs[StartName(n)])
    ensures StartsMet(k, slot, p)
  {
    hide Compiled, WorldUnlocked;
    forall n | n in slot.active ensures Eval(k.openReq[StartName(n)], p) {
      assert AsksFreeOnly(t, ReqOf(qs, StartName(n)));
      FreeIsTrue(t, ReqOf(qs, StartName(n)), p);
    }
  }

  /** Only active worlds are reached. */
  lemma ReachedIsActive(g: Table, active: set<nat>, gate: string -> bool, req: string -> bool, r: string)
    requires Reached(OpenEdges(g, active, gate, req), r) && WorldOf(r).Some?
    ensures WorldOf(r).value in active
  {
    var s := iset x: string | WorldOf(x).Some? ==> WorldOf(x).value in active;
    assert Closed(OpenEdges(g, active, gate, req), s);
  }

  /** Both graphs reach the same regions. */
  lemma ReachAlike(k: Pack, t: Tables, qs: Requirements, w: World, slot: Slot, inv: Inventory, p: Provider, r: string)
    requires k.Valid() && PackFrom(k, t, qs) && Bridge(t, w, inv, p) && AllBothRead(t, w, qs)
    ensures Reached(RulesEdges(k.t, slot, w, qs, inv), r) <==> Reached(ItemEdges(k, slot, p, inv), r)
  {
    hide Reached, Bridge, AllBothRead, PackFrom, OpenReq, OpenRulesReq, ItemGate, WorldOf, StartNum;
    var a, b, active := RulesEdges(k.t, slot, w, qs, inv), ItemEdges(k, slot, p, inv), slot.ActiveSet();
    forall e: Edge | e.src in k.t.info && WorldOf(e.src).Some? && WorldOf(e.src).value in active
      ensures OpenReq(Neutral(k), p, e.src) <==> OpenRulesReq(w, qs, active, inv)(e.src)
    {
      ActiveReqAlike(k, t, qs, w, slot, inv, p, e.src);
    }
    forall e | e in a && e.open && Reached(b, e.src) ensures Edge(e.src, e.dst, true) in b {
      if WorldOf(e.src).Some? {
        ReachedIsActive(k.t, active, x => ItemGate(slot, inv, x), x => OpenReq(Neutral(k), p, x), e.src);
      }
    }
    forall e | e in b && e.open && Reached(a, e.src) ensures Edge(e.src, e.dst, true) in a {
      if WorldOf(e.src).Some? {
        ReachedIsActive(k.t, active, x => ItemGate(slot, inv, x), OpenRulesReq(w, qs, active, inv), e.src);
      }
    }
    if Reached(a, r) { ReachedThrough(a, b, r); }
    if Reached(b, r) { ReachedThrough(b, a, r); }
  }

  lemma ActiveReqAlike(k: Pack, t: Tables, qs: Requirements, w: World, slot: Slot, inv: Inventory, p: Provider, r: string)
    requires k.Valid() && PackFrom(k, t, qs) && Bridge(t, w, inv, p) && AllBothRead(t, w, qs)
    requires r in k.t.info && (StartNum(r).Some? ==> StartNum(r).value in slot.active)
    ensures OpenReq(Neutral(k), p, r) <==> OpenRulesReq(w, qs, slot.ActiveSet(), inv)(r)
  {
    hide Bridge, AllBothRead, PackFrom, RulesReq;
    if StartNum(r).None? { InnerReqAlike(k, t, qs, w, slot, inv, p, r); }
  }

  /** What both sides of the open world take for granted. */
  ghost predicate Matched(k: Pack, rank: map<string, nat>, slot: Slot, t: Tables, w: World, qs: Requirements,
                          inv: Inventory, p: Provider, required: int) {
    && k.Valid() && Ranked(k.t, rank) && OpenShape(k.t) && slot.openWorld && slot.castleUnlock
    && SlotFits(k, slot) && StartsMet(k, slot, p) && (forall n :: n in slot.active ==> 1 <= n <= 6)
    && PackFrom(k, t, qs) && Bridge(t, w, inv, p) && AllBothRead(t, w, qs)
    && slot.palacesRequired == Some(required) && required <= |slot.active|
  }

  /** The regions alone: tracker and Archipelago agree on all of them exactly when every Start
      requirement the tracker keeps is met where its world is active and unlocked. */
  lemma OpenRegionsAlikeIff(k: Pack, rank: map<string, nat>, slot: Slot, t: Tables, w: World, qs: Requirements,
                            inv: Inventory, p: Provider)
    requires k.Valid() && Ranked(k.t, rank) && OpenShape(k.t) && slot.openWorld && slot.castleUnlock && SlotFits(k, slot)
    requires (forall n :: n in slot.active ==> 1 <= n <= 6) && PackFrom(k, t, qs) && Bridge(t, w, inv, p) && AllBothRead(t, w, qs)
    ensures StartsMet(k, slot, p) <==>
            forall r :: r in k.t.info ==>
              (RegionRule(k, rank, slot, p, r) <==>
                 Reached(RulesEdges(k.t, slot, w, qs, inv), r) && OpenRulesReq(w, qs, slot.ActiveSet(), inv)(r))
  {
    hide RegionRule, Reached, Bridge, AllBothRead, PackFrom, OpenReq, OpenRulesReq, StartsMet, OpenShape, SlotFits,
         RulesEdges, ItemEdges, SlotEdges;
    PackCounts(k, t, qs, w, slot, inv, p);
    ItemEdgesAreSlotEdges(k, slot, p, inv);
    OpenSidesAgreeIff(k, rank, slot, p);
    forall r | r in k.t.info
      ensures Reached(RulesEdges(k.t, slot, w, qs, inv), r) && OpenRulesReq(w, qs, slot.ActiveSet(), inv)(r)
         <==> Reached(SlotEdges(Neutral(k), slot, p), r) && OpenReq(Neutral(k), p, r)
    {
      RegionAlike(k, slot, t, w, qs, inv, p, r);
    }
  }

  lemma RegionAlike(k: Pack, slot: Slot, t: Tables, w: World, qs: Requirements, inv: Inventory, p: Provider, r: string)
    requires k.Valid() && PackFrom(k, t, qs) && Bridge(t, w, inv, p) && AllBothRead(t, w, qs) && r in k.t.info
    ensures Reached(RulesEdges(k.t, slot, w, qs, inv), r) && OpenRulesReq(w, qs, slot.ActiveSet(), inv)(r)
       <==> Reached(ItemEdges(k, slot, p, inv), r) && OpenReq(Neutral(k), p, r)
  {
    hide Reached, Bridge, AllBothRead, PackFrom, OpenReq, OpenRulesReq, StartNum, WorldOf;
    ReachAlike(k, t, qs, w, slot, inv, p, r);
    if Reached(ItemEdges(k, slot, p, inv), r) {
      if WorldOf(r).Some? {
        ReachedIsActive(k.t, slot.ActiveSet(), x => ItemGate(slot, inv, x), x => OpenReq(Neutral(k), p, x), r);
      }
      ActiveReqAlike(k, t, qs, w, slot, inv, p, r);
    }
  }

  /** Archipelago's own rule of a location, and the one with the tracker's requirements in its place. */
  lemma SpotIsPlace(k: Pack, rank: map<string, nat>, slot: Slot, t: Tables, w: World, qs: Requirements, palaces: Palaces,
                    inv: Inventory, p: Provider, s: Spot, required: int)
    requires Matched(k, rank, slot, t, w, qs, inv, p, required) && BothRead(t, w, s.q) && PlaceFits(k, s.place)
    ensures RulesPlace(k.t, slot, w, qs, palaces, inv, s, required) <==>
            ItemPlace(k, slot, p, inv, s.place, TrackerMet(t, s.q, p), PalaceOpen(k.t, slot, w, qs, palaces, inv), required)
  {
    hide Reached, Bridge, AllBothRead, PackFrom, OpenReq, OpenRulesReq, RulesMet, TrackerMet, RulesEdges, ItemEdges,
         BowserGate, StartsMet, BothRead;
    MetAlike(t, w, inv, p, s.q);
    ReachAlike(k, t, qs, w, slot, inv, p, ParentOf(slot, s.place));
    if Survives(slot.ActiveSet(), s.place) {
      KindsExclusive(s.place.region);
      ActiveReqAlike(k, t, qs, w, slot, inv, p, s.place.region);
    }
  }

  /** End to end in open-world mode, with each side's own evaluator: every location but the goal is
      open on both sides alike, and the goal in Archipelago exactly where it is in the tracker and
      the gate lets through. */
  lemma OpenLocationsAlike(k: Pack, rank: map<string, nat>, slot: Slot, t: Tables, w: World, qs: Requirements,
                           palaces: Palaces, inv: Inventory, p: Provider, s: Spot, required: int)
    requires Matched(k, rank, slot, t, w, qs, inv, p, required) && BothRead(t, w, s.q) && PlaceFits(k, s.place)
    ensures RulesPlace(k.t, slot, w, qs, palaces, inv, s, required) <==>
            TrackerPlace(k, rank, slot, p, s.place, TrackerMet(t, s.q, p))
            && (s.place.name == GOAL ==> GoalGate(k.t, slot, w, qs, palaces, inv, required))
  {
    hide RegionRule, Reached, Bridge, AllBothRead, PackFrom, StartsMet, RulesPlace, ItemPlace, TrackerPlace, BowserGate, BothRead,
         TrackerMet, PlaceFits, OpenShape, SlotFits;
    var held, f := TrackerMet(t, s.q, p), PalaceOpen(k.t, slot, w, qs, palaces, inv);
    PackCounts(k, t, qs, w, slot, inv, p);
    SpotIsPlace(k, rank, slot, t, w, qs, palaces, inv, p, s, required);
    PlaceAccessMatches(k, rank, slot, p, inv, s.place, held, f, required);
    if s.place.name == GOAL {
      GoalBarGate(k, rank, slot, p, inv, s.place, held, f, required);
    }
  }

  /** The goal but for its gate is any course of the castle. */
  lemma GoalBarGate(k: Pack, rank: map<string, nat>, slot: Slot, p: Provider, inv: Inventory,
                    l: Place, held: bool, f: nat -> bool, required: int)
    requires k.Valid() && Ranked(k.t, rank) && OpenShape(k.t) && slot.openWorld && SlotFits(k, slot)
    requires CountsHeld(k, slot, p, inv) && slot.castleUnlock && StartsMet(k, slot, p)
    requires PlaceFits(k, l) && l.name == GOAL && slot.palacesRequired == Some(required) && required <= |slot.active|
    ensures ItemPlace(k, slot, p, inv, l, held, f, required) <==>
            TrackerPlace(k, rank, slot, p, l, held) && BowserGate(slot, inv, f, required)
  {
    hide RegionRule, Reached, CountsHeld, StartsMet, BowserGate, OpenPalaces, OpenShape, OpenReq, ItemEdges;
    GoalName();
    var course := Place("BC:", l.region);
    assert "BC:"[0] == 'B' && OPENING_PREFIX[0] == 'W';
    PlaceAccessMatches(k, rank, slot, p, inv, course, held, f, required);
    PlaceAccessMatches(k, rank, slot, p, inv, l, held, f, required);
  }
}
