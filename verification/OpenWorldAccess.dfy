/** Location access in open-world mode on both sides, the world-start requirement that
    Archipelago drops, and the gate of the goal. */
module OpenWorldAccess {
  import opened Wrappers
  import opened Reachability
  import opened TrackerCompiler
  import opened RequiresRules
  import opened WorldNames
  import opened OpenWorldLogic

  // ---- The world-start requirement ------------------------------------------------

  /** `before_set_rules` replaces the requirement of every active Start by the empty one;
      Starts that stay unreached may be treated alike. */
  function Neutral(k: Pack): Pack {
    k.(openReq := map r | r in k.openReq :: True)
  }

  ghost predicate StartsMet(k: Pack, slot: Slot, p: Provider)
    requires k.Valid() && SlotFits(k, slot)
  {
    forall n :: n in slot.active && WorldUnlocked(k, slot, p, n) ==> Eval(k.openReq[StartName(n)], p)
  }

  /** Dropping the start requirements can only open more regions ... */
  lemma {:induction false} NeutralWeaker(k: Pack, rank: map<string, nat>, slot: Slot, p: Provider, r: string)
    requires k.Valid() && Ranked(k.t, rank) && r in k.t.info && OpenShape(k.t) && slot.openWorld
    requires SlotFits(k, slot)
    ensures RegionRule(k, rank, slot, p, r) ==> RegionRule(Neutral(k), rank, slot, p, r)
    ensures StartsMet(k, slot, p) && RegionRule(Neutral(k), rank, slot, p, r) ==> RegionRule(k, rank, slot, p, r)
    decreases rank[r]
  {
    var k' := Neutral(k);
    RootRule(k, rank, slot, p, r);
    RootRule(k', rank, slot, p, r);
    if StartNum(r).Some? {
      StartNameUnique(r);
    } else if r != BOWSER_REGION && !IsHub(r) {
      InnerRule(k, rank, slot, p, r);
      InnerRule(k', rank, slot, p, r);
      forall q | q in Parents(k.t, r)
        ensures RegionRule(k, rank, slot, p, q) ==> RegionRule(k', rank, slot, p, q)
        ensures StartsMet(k, slot, p) && RegionRule(k', rank, slot, p, q) ==> RegionRule(k, rank, slot, p, q)
      {
        NeutralWeaker(k, rank, slot, p, q);
      }
    }
  }

  ghost predicate OpenSidesAgree(k: Pack, rank: map<string, nat>, slot: Slot, p: Provider)
    requires k.Valid() && Ranked(k.t, rank)
  {
    forall r :: r in k.t.info ==>
      (RegionRule(k, rank, slot, p, r) <==>
         Reached(SlotEdges(Neutral(k), slot, p), r) && OpenReq(Neutral(k), p, r))
  }

  /** ... and the tracker agrees with Archipelago on every region exactly when the start
      requirement it still checks holds for each active unlocked world. */
  lemma OpenSidesAgreeIff(k: Pack, rank: map<string, nat>, slot: Slot, p: Provider)
    requires k.Valid() && Ranked(k.t, rank) && OpenShape(k.t) && slot.openWorld && SlotFits(k, slot)
    ensures OpenSidesAgree(k, rank, slot, p) <==> StartsMet(k, slot, p)
  {
    hide RegionRule, Reached, OpenReq, Neutral, OpenShape, Ranked;
    var k' := Neutral(k);
    NeutralFits(k, rank, slot);
    forall r | r in k.t.info
      ensures RegionRule(k', rank, slot, p, r) <==>
              Reached(SlotEdges(k', slot, p), r) && OpenReq(k', p, r)
    {
      OpenTrackerMatchesFixpoint(k', rank, slot, p, r);
    }
    forall r | r in k.t.info
      ensures RegionRule(k, rank, slot, p, r) ==> RegionRule(k', rank, slot, p, r)
      ensures StartsMet(k, slot, p) && RegionRule(k', rank, slot, p, r) ==> RegionRule(k, rank, slot, p, r)
    {
      NeutralWeaker(k, rank, slot, p, r);
    }
    if OpenSidesAgree(k, rank, slot, p) {
      forall n | n in slot.active && WorldUnlocked(k, slot, p, n)
        ensures Eval(k.openReq[StartName(n)], p)
      {
        assert RegionRule(k, rank, slot, p, StartName(n)) <==> RegionRule(k', rank, slot, p, StartName(n));
        StartOpen(k, rank, slot, p, n);
      }
    }
  }

  lemma NeutralFits(k: Pack, rank: map<string, nat>, slot: Slot)
    requires k.Valid() && Ranked(k.t, rank) && SlotFits(k, slot)
    ensures Neutral(k).Valid() && Neutral(k).t == k.t && SlotFits(Neutral(k), slot)
  {
  }

  /** The tracker opens the Start of an active unlocked world, if Archipelago does, only where the
      requirement it keeps is met. */
  lemma StartOpen(k: Pack, rank: map<string, nat>, slot: Slot, p: Provider, n: nat)
    requires k.Valid() && Ranked(k.t, rank) && slot.openWorld && SlotFits(k, slot)
    requires n in slot.active && WorldUnlocked(k, slot, p, n)
    requires RegionRule(Neutral(k), rank, slot, p, StartName(n)) ==> RegionRule(k, rank, slot, p, StartName(n))
    ensures Eval(k.openReq[StartName(n)], p)
  {
    hide RegionRule;
    RootRule(k, rank, slot, p, StartName(n));
    RootRule(Neutral(k), rank, slot, p, StartName(n));
  }

  // ---- Entrance gates in terms of items -------------------------------------------

  /** The tracker counts what is held, and maps the unlock items of the active worlds. */
  ghost predicate CountsHeld(k: Pack, slot: Slot, p: Provider, inv: Inventory) {
    && (forall n :: n in slot.active ==> 1 <= n <= 6)
    && (forall n :: n in slot.active ==> CodeCount(p, RoyalCode(n)) == Count(inv, RoyalSeed(n)))
    && (forall n :: n in slot.active ==>
          n in k.unlockCodes && CodeCount(p, k.unlockCodes[n]) == Count(inv, UnlockItem(n)))
    && k.castleCode.Some? && CodeCount(p, k.castleCode.value) == Count(inv, CASTLE_UNLOCK_ITEM)
  }

  /** `make_world_unlock_gate` and `make_castle_unlock_gate`, when unlock items are on. */
  predicate ItemGate(slot: Slot, inv: Inventory, r: string) {
    slot.unlockItems ==>
      if StartNum(r).Some? && StartNum(r).value < 10 then Count(inv, UnlockItem(StartNum(r).value)) >= 1
      else Count(inv, CASTLE_UNLOCK_ITEM) >= 1
  }

  /** The graph with its gates as Archipelago attaches them. */
  ghost function ItemEdges(k: Pack, slot: Slot, p: Provider, inv: Inventory): iset<Edge> {
    OpenEdges(k.t, slot.ActiveSet(), r => ItemGate(slot, inv, r), r => OpenReq(Neutral(k), p, r))
  }

  lemma ItemEdgesAreSlotEdges(k: Pack, slot: Slot, p: Provider, inv: Inventory)
    requires CountsHeld(k, slot, p, inv) && slot.castleUnlock
    ensures ItemEdges(k, slot, p, inv) == SlotEdges(Neutral(k), slot, p)
  {
    forall e: Edge | e.src == "Manual" &&
                     (e.dst == BOWSER_REGION || (StartNum(e.dst).Some? && StartNum(e.dst).value in slot.active))
      ensures ItemGate(slot, inv, e.dst) == Gate(Neutral(k), slot, p, e.dst)
    {
      KindsExclusive(e.dst);
    }
  }

  // ---- The goal -------------------------------------------------------------------

  function CountTrue(names: seq<nat>, f: nat -> bool): nat {
    if names == [] then 0 else (if f(names[0]) then 1 else 0) + CountTrue(names[1..], f)
  }

  /** `make_bowser_gate`: all six Royal Seeds, and enough reachable palaces. */
  predicate BowserGate(slot: Slot, inv: Inventory, palaceReachable: nat -> bool, required: int) {
    && (forall n :: 1 <= n <= 6 ==> Count(inv, RoyalSeed(n)) >= 1)
    && CountTrue(slot.active, palaceReachable) >= required
  }

  /** `resolve_palaces_required` */
  function ResolvePalaces(option: int, active: nat): int {
    if option <= 0 then active
    else if 1 >= Min(option, active) then 1 else Min(option, active)
  }

  /** With at least one active world, one palace to all palaces; zero and less mean all, and so does
      asking for more than there are. */
  lemma ResolvedPalacesInRange(option: int, active: nat)
    requires active >= 1
    ensures 1 <= ResolvePalaces(option, active) <= active
    ensures 1 <= option <= active ==> ResolvePalaces(option, active) == option
    ensures option <= 0 || option >= active ==> ResolvePalaces(option, active) == active
  {
  }

  lemma {:induction false} CountTrueAtMost(names: seq<nat>, f: nat -> bool)
    ensures CountTrue(names, f) <= |names|
    ensures CountTrue(names, f) == |names| <==> forall n :: n in names ==> f(n)
  {
    if names != [] {
      CountTrueAtMost(names[1..], f);
      assert names == [names[0]] + names[1..];
    }
  }

  /** Then the gate is open exactly with all six Royal Seeds and every active palace in reach. */
  lemma AllPalacesIff(slot: Slot, inv: Inventory, palaceReachable: nat -> bool, option: int)
    requires option <= 0 || option >= |slot.active| >= 1
    ensures BowserGate(slot, inv, palaceReachable, ResolvePalaces(option, |slot.active|)) <==>
            && (forall n :: 1 <= n <= 6 ==> Count(inv, RoyalSeed(n)) >= 1)
            && (forall n :: n in slot.active ==> palaceReachable(n))
  {
    CountTrueAtMost(slot.active, palaceReachable);
  }

  lemma {:induction false} AllCleared(p: Provider, active: seq<nat>)
    requires forall n :: n in active ==> CodeCount(p, RoyalCode(n)) > 0
    ensures PalacesCleared(p, active) == |active|
  {
    if active != [] {
      assert active[0] in active;
      AllCleared(p, active[1..]);
    }
  }

  /** The randomizer's gate on the goal implies the tracker's palace test. */
  lemma BowserGateImpliesPalaces(k: Pack, slot: Slot, p: Provider, inv: Inventory,
                                 palaceReachable: nat -> bool, required: int)
    requires CountsHeld(k, slot, p, inv)
    requires slot.palacesRequired == Some(required) && required <= |slot.active|
    requires BowserGate(slot, inv, palaceReachable, required)
    ensures OpenPalaces(slot, p)
  {
    AllCleared(p, slot.active);
  }

  lemma {:induction false} CountTrueMonotone(names: seq<nat>, f: nat -> bool, g: nat -> bool)
    requires forall n :: f(n) ==> g(n)
    ensures CountTrue(names, f) <= CountTrue(names, g)
  {
    if names != [] {
      CountTrueMonotone(names[1..], f, g);
    }
  }

  // ---- Locations ------------------------------------------------------------------

  const OPENING_PREFIX := "W1: Welcome to the Flower Kingdom! - "
  const GOAL := "BC: Bowser's Rage Stage - Royal Seed"

  datatype Place = Place(name: string, region: string)

  /** The open-world branch of the emitted location rule; `held` is its own requirement. */
  ghost predicate TrackerPlace(k: Pack, rank: map<string, nat>, slot: Slot, p: Provider, l: Place, held: bool)
    requires k.Valid() && Ranked(k.t, rank) && l.region in k.t.info
  {
    if StartsWith(l.name, OPENING_PREFIX) then 1 in slot.active && held
    else if l.region == BOWSER_REGION && !StartsWith(l.name, "BC:") then false
    else
      && RegionRule(k, rank, slot, p, l.region) && held
      && (l.region == BOWSER_REGION && l.name == GOAL ==> OpenPalaces(slot, p))
  }

  /** `strip_inactive_locations` leaves the location in place. */
  predicate Survives(active: set<nat>, l: Place) {
    if l.region == BOWSER_REGION then StartsWith(l.name, "BC:")
    else !IsHub(l.region) && (WorldOf(l.region).Some? ==> WorldOf(l.region).value in active)
  }

  /** Where `ungate_opening_course` leaves it. */
  function ParentOf(slot: Slot, l: Place): string {
    if slot.unlockItems && 1 in slot.active && l.region == StartName(1) && StartsWith(l.name, OPENING_PREFIX)
    then "Manual" else l.region
  }

  /** Archipelago's access to the location: it survives, its own and its region's
      requirement hold, its parent region is reached, and the goal's gate is open. */
  ghost predicate ItemPlace(k: Pack, slot: Slot, p: Provider, inv: Inventory, l: Place, held: bool,
                            palaceReachable: nat -> bool, required: int) {
    && Survives(slot.ActiveSet(), l)
    && held && OpenReq(Neutral(k), p, l.region)
    && Reached(ItemEdges(k, slot, p, inv), ParentOf(slot, l))
    && (l.name == GOAL ==> BowserGate(slot, inv, palaceReachable, required))
  }

  ghost predicate PlaceFits(k: Pack, l: Place)
    requires k.Valid()
  {
    && l.region in k.t.info
    && (StartsWith(l.name, OPENING_PREFIX) ==> l.region == StartName(1))
    && (l.name == GOAL ==> l.region == BOWSER_REGION)
  }

  /** Every location but the goal has the same access on both sides; the goal's access in
      Archipelago implies its access in the tracker. */
  lemma PlaceAccessMatches(k: Pack, rank: map<string, nat>, slot: Slot, p: Provider, inv: Inventory,
                           l: Place, held: bool, palaceReachable: nat -> bool, required: int)
    requires k.Valid() && Ranked(k.t, rank) && OpenShape(k.t) && slot.openWorld && SlotFits(k, slot)
    requires CountsHeld(k, slot, p, inv) && slot.castleUnlock && StartsMet(k, slot, p)
    requires PlaceFits(k, l)
    requires slot.palacesRequired == Some(required) && required <= |slot.active|
    ensures ItemPlace(k, slot, p, inv, l, held, palaceReachable, required) ==> TrackerPlace(k, rank, slot, p, l, held)
    ensures l.name != GOAL ==>
              (TrackerPlace(k, rank, slot, p, l, held) <==>
                 ItemPlace(k, slot, p, inv, l, held, palaceReachable, required))
  {
    ItemEdgesAreSlotEdges(k, slot, p, inv);
    if StartsWith(l.name, OPENING_PREFIX) {
      OpeningCourse(k, rank, slot, p, l);
      KindsExclusive(l.region);
    } else {
      OrdinaryPlace(k, rank, slot, p, l);
      if l.name == GOAL && BowserGate(slot, inv, palaceReachable, required) {
        BowserGateImpliesPalaces(k, slot, p, inv, palaceReachable, required);
      }
    }
  }

  lemma OrdinaryPlace(k: Pack, rank: map<string, nat>, slot: Slot, p: Provider, l: Place)
    requires k.Valid() && Ranked(k.t, rank) && OpenShape(k.t) && slot.openWorld && SlotFits(k, slot)
    requires StartsMet(k, slot, p) && l.region in k.t.info && !StartsWith(l.name, OPENING_PREFIX)
    ensures ParentOf(slot, l) == l.region
    ensures RegionRule(k, rank, slot, p, l.region) <==>
            Reached(SlotEdges(Neutral(k), slot, p), l.region) && OpenReq(Neutral(k), p, l.region)
    ensures RegionRule(k, rank, slot, p, l.region) ==>
              !IsHub(l.region) && (WorldOf(l.region).Some? ==> WorldOf(l.region).value in slot.ActiveSet())
  {
    OpenSidesAgreeIff(k, rank, slot, p);
    if RegionRule(k, rank, slot, p, l.region) {
      RegionOfPlace(k, rank, slot, p, l.region);
    }
  }

  /** A region whose rule holds is one whose locations survive. */
  lemma RegionOfPlace(k: Pack, rank: map<string, nat>, slot: Slot, p: Provider, r: string)
    requires k.Valid() && Ranked(k.t, rank) && OpenShape(k.t) && slot.openWorld && r in k.t.info
    requires RegionRule(k, rank, slot, p, r)
    ensures !IsHub(r) && (WorldOf(r).Some? ==> WorldOf(r).value in slot.active)
  {
    RootRule(k, rank, slot, p, r);
    if WorldOf(r).Some? {
      WorldMustBeOpen(k, rank, slot, p, r);
    }
  }

  /** A location the tracker can open is not stripped. */
  lemma OpenSurvives(k: Pack, rank: map<string, nat>, slot: Slot, p: Provider, held: bool, l: Place)
    requires k.Valid() && Ranked(k.t, rank) && OpenShape(k.t) && slot.openWorld && PlaceFits(k, l)
    requires TrackerPlace(k, rank, slot, p, l, held)
    ensures Survives(slot.ActiveSet(), l)
  {
    hide RegionRule, OpenShape, OpenPalaces;
    KindsExclusive(l.region);
    if !StartsWith(l.name, OPENING_PREFIX) && l.region != BOWSER_REGION { RegionOfPlace(k, rank, slot, p, l.region); }
  }

  /** The opening course is in reach from the start, whether moved to Manual or, without
      unlock items, behind the always-open entrance of its world. */
  lemma OpeningCourse(k: Pack, rank: map<string, nat>, slot: Slot, p: Provider, l: Place)
    requires k.Valid() && Ranked(k.t, rank) && OpenShape(k.t) && slot.openWorld && SlotFits(k, slot)
    requires l.region == StartName(1) && StartsWith(l.name, OPENING_PREFIX)
    ensures OpenReq(Neutral(k), p, l.region) == (l.region in k.openReq)
    ensures 1 in slot.active ==> Reached(SlotEdges(Neutral(k), slot, p), ParentOf(slot, l))
  {
    var edges := SlotEdges(Neutral(k), slot, p);
    ThroughEdge(edges, Edge("Menu", "Manual", true));
    if 1 in slot.active && !slot.unlockItems {
      RootReached(Neutral(k), slot, p, l.region);
    }
  }
}
