/** The validator's reference models, which fill a memo while they recurse. */
module Validator {
  import opened Wrappers
  import opened Reachability
  import opened TrackerCompiler
  import opened RequiresRules
  import opened LeafAgreement
  import opened AccessLogic
  import opened PyEval
  import opened FilledInventory
  import opened WorldNames
  import opened OpenWorldLogic
  import opened OpenWorldAccess
  import opened OpenWorldRules

  /** `full(region, inv, memo)`, for one inventory: `req` is which requirements it meets. */
  class Standard {
    const t: Table
    const req: string -> bool
    ghost const rank: map<string, nat>
    var memo: map<string, bool>

    constructor (t: Table, req: string -> bool, ghost rank: map<string, nat>)
      requires t.Valid() && Ranked(t, rank)
      ensures Valid() && this.t == t && this.req == req && this.rank == rank && memo == map[]
    {
      this.t, this.req, this.rank, memo := t, req, rank, map[];
    }

    /** What the memo has is right. */
    ghost predicate Valid()
      reads this
    {
      && t.Valid() && Ranked(t, rank)
      && forall r :: r in memo ==> r in t.info && memo[r] == Full(t, req, rank, r)
    }

    method FullOf(region: string) returns (b: bool)
      requires Valid() && region in t.info
      modifies this`memo
      ensures Valid() && b == Full(t, req, rank, region)
      decreases rank[region], 1
    {
      FullStep(t, req, rank, region);
      hide Full, Ranked, Parents;
      if region in memo { return memo[region]; }
      if !req(region) {
        b := false;
      } else if t.info[region].starting {
        b := true;
      } else {
        b := AnyParent(region);
      }
      Note(region, b);
    }

    /** `memo[region] = b` */
    method Note(region: string, b: bool)
      requires Valid() && region in t.info && b == Full(t, req, rank, region)
      modifies this`memo
      ensures Valid() && memo == old(memo)[region := b]
    {
      hide Full, Ranked;
      memo := memo[region := b];
    }

    /** `any(full(p, inv, memo) for p in parents[region])`, which stops at the first. */
    method AnyParent(region: string) returns (reach: bool)
      requires Valid() && region in t.info
      modifies this`memo
      ensures Valid() && (reach <==> exists q :: q in Parents(t, region) && Full(t, req, rank, q))
      decreases rank[region], 0
    {
      hide Full, Parents;
      var ps := Parents(t, region);
      for i := 0 to |ps|
        invariant Valid()
        invariant forall j :: 0 <= j < i ==> !Full(t, req, rank, ps[j])
      {
        assert ps[i] in ps;
        reach := FullOf(ps[i]);
        if reach { return; }
      }
      return false;
    }
  }

  lemma FullStep(t: Table, req: string -> bool, rank: map<string, nat>, r: string)
    requires t.Valid() && Ranked(t, rank) && r in t.info
    ensures Full(t, req, rank, r) <==>
            req(r) && (t.info[r].starting || exists p :: p in Parents(t, r) && Full(t, req, rank, p))
  {
  }

  /** `py_loc_access`: with its own evaluator and a fresh memo the validator answers for a location
      as the tracker's rule, and where all three evaluators read alike as Archipelago does. */
  method PyLocAccess(g: Table, t: Tables, qs: Requirements, inv: Inventory, region: string, q: Requirement,
                     ghost w: World, ghost p: Provider, ghost rank: map<string, nat>) returns (b: bool)
    requires g.Valid() && Ranked(g, rank)
    requires Bridge(t, w, inv, p) && PyReads(t, w, q) && forall r :: r in qs ==> PyReads(t, w, qs[r])
    ensures b <==> (region in g.info ==> Full(g, TrackerReq(t, qs, p), rank, region)) && TrackerMet(t, q, p)
    ensures region in g.info && g.HasStarting() && BothRead(t, w, q) && (forall r :: r in qs ==> BothRead(t, w, qs[r])) ==>
              (b <==> LocationAccess(StandardEdges(g, RulesReq(w, qs, inv)), RulesReq(w, qs, inv), region, RulesMet(w, q, inv)))
  {
    hide Full, Reached, PyReads, BothRead, Bridge, RulesMet, PyMet, TrackerMet, LocationAccess, StandardEdges;
    ghost var a := TrackerReq(t, qs, p);
    var req := PyReq(t, qs, inv);
    forall r ensures req(r) == a(r) {
      if r in qs { PyMeansTracker(t, w, inv, p, qs[r]); }
    }
    PyMeansTracker(t, w, inv, p, q);
    if region !in g.info { return PyMet(t, q, inv); }
    SameFull(g, req, a, rank, region);
    if g.HasStarting() && BothRead(t, w, q) && forall r :: r in qs ==> BothRead(t, w, qs[r]) {
      LocationsAlike(t, w, inv, p, g, rank, qs, region, q);
    }
    var v := new Standard(g, req, rank);
    var full := v.FullOf(region);
    if !full { return false; }
    return PyMet(t, q, inv);
  }

  lemma {:induction false} SameFull(g: Table, a: string -> bool, b: string -> bool, rank: map<string, nat>, r: string)
    requires g.Valid() && Ranked(g, rank) && r in g.info && forall x :: a(x) == b(x)
    ensures Full(g, a, rank, r) == Full(g, b, rank, r)
    decreases rank[r]
  {
    forall q | q in Parents(g, r) ensures Full(g, a, rank, q) == Full(g, b, rank, q) {
      SameFull(g, a, b, rank, q);
    }
  }

  /** The value of `open_full`: `met` is which requirements the inventory meets. */
  ghost predicate OpenReach(t: Table, rank: map<string, nat>, slot: Slot, inv: Inventory, met: string -> bool, r: string)
    requires t.Valid() && Ranked(t, rank) && r in t.info
    decreases rank[r]
  {
    && met(r)
    && if StartNum(r).Some? then RootOpen(slot, inv, StartNum(r).value)
       else exists q :: q in Parents(t, r) && WorldOf(q) == WorldOf(r) && OpenReach(t, rank, slot, inv, met, q)
  }

  lemma OpenReachStep(t: Table, rank: map<string, nat>, slot: Slot, inv: Inventory, met: string -> bool, r: string)
    requires t.Valid() && Ranked(t, rank) && r in t.info
    ensures OpenReach(t, rank, slot, inv, met, r) <==>
            met(r) &&
            if StartNum(r).Some? then RootOpen(slot, inv, StartNum(r).value)
            else exists q :: q in Parents(t, r) && WorldOf(q) == WorldOf(r) && OpenReach(t, rank, slot, inv, met, q)
  {
  }

  /** `open_full(region, inv_open, active, memo, unlock)`, for any evaluator. */
  class OpenWorld {
    const t: Table
    const slot: Slot
    const inv: Inventory
    const met: string -> bool
    ghost const rank: map<string, nat>
    var memo: map<string, bool>

    constructor (t: Table, slot: Slot, inv: Inventory, met: string -> bool, ghost rank: map<string, nat>)
      requires t.Valid() && Ranked(t, rank)
      ensures Valid() && this.t == t && this.slot == slot && this.inv == inv && this.met == met && this.rank == rank
    {
      this.t, this.slot, this.inv, this.met, this.rank, memo := t, slot, inv, met, rank, map[];
    }

    ghost predicate Valid()
      reads this
    {
      && t.Valid() && Ranked(t, rank)
      && forall r :: r in memo ==> r in t.info && memo[r] == OpenReach(t, rank, slot, inv, met, r)
    }

    method FullOf(region: string) returns (b: bool)
      requires Valid() && region in t.info
      modifies this`memo
      ensures Valid() && b == OpenReach(t, rank, slot, inv, met, region)
      decreases rank[region], 1
    {
      OpenReachStep(t, rank, slot, inv, met, region);
      hide OpenReach, RootOpen, Ranked, Parents;
      if region in memo { return memo[region]; }
      if !met(region) {
        b := false;
      } else if StartNum(region).Some? {
        b := RootOpen(slot, inv, StartNum(region).value);
      } else {
        b := AnyIntraParent(region);
      }
      Note(region, b);
    }

    /** `memo[region] = b` */
    method Note(region: string, b: bool)
      requires Valid() && region in t.info && b == OpenReach(t, rank, slot, inv, met, region)
      modifies this`memo
      ensures Valid() && memo == old(memo)[region := b]
    {
      hide OpenReach, Ranked;
      memo := memo[region := b];
    }

    /** The parents in the region's own world, until one is reached. */
    method AnyIntraParent(region: string) returns (b: bool)
      requires Valid() && region in t.info
      modifies this`memo
      ensures Valid()
      ensures b <==> exists q :: q in Parents(t, region) && WorldOf(q) == WorldOf(region) && OpenReach(t, rank, slot, inv, met, q)
      decreases rank[region], 0
    {
      hide OpenReach, Parents, WorldOf;
      var ps := Parents(t, region);
      for i := 0 to |ps|
        invariant Valid()
        invariant forall j :: 0 <= j < i && WorldOf(ps[j]) == WorldOf(region) ==> !OpenReach(t, rank, slot, inv, met, ps[j])
      {
        assert ps[i] in ps;
        if WorldOf(ps[i]) == WorldOf(region) {
          b := FullOf(ps[i]);
          if b { return; }
        }
      }
      return false;
    }
  }

  /** In the worlds, the requirements evaluated on the inventory are those the tracker compiled. */
  ghost predicate WorldsAlike(k: Pack, p: Provider, met: string -> bool) {
    forall r :: r in k.t.info && WorldOf(r).Some? ==> (met(r) <==> OpenReq(k, p, r))
  }

  /** Then in a world the recursion gives what the tracker's region functions give. */
  lemma {:induction false} OpenReachIsFull(k: Pack, rank: map<string, nat>, slot: Slot, p: Provider, inv: Inventory,
                                           met: string -> bool, r: string)
    requires k.Valid() && Ranked(k.t, rank) && r in k.t.info && WorldOf(r).Some?
    requires CountsHeld(k, slot, p, inv) && WorldsAlike(k, p, met)
    ensures OpenReach(k.t, rank, slot, inv, met, r) <==> OpenFull(k, rank, slot, p, r)
    decreases rank[r]
  {
    assert met(r) <==> OpenReq(k, p, r);
    OpenReachStep(k.t, rank, slot, inv, met, r);
    OpenFullStep(k, rank, slot, p, r);
    if StartNum(r).Some? { RootOpenIs(k, slot, p, inv, StartNum(r).value); }
    hide OpenReach, OpenFull, CountsHeld, WorldUnlocked, RootOpen, OpenReq, WorldsAlike, StartNum, WorldOf;
    forall q | q in Parents(k.t, r) && WorldOf(q) == WorldOf(r)
      ensures OpenReach(k.t, rank, slot, inv, met, q) <==> OpenFull(k, rank, slot, p, q)
    {
      OpenReachIsFull(k, rank, slot, p, inv, met, q);
    }
  }

  /** The answer for a world's Start: active, and its unlock item held if those are on. */
  predicate RootOpen(slot: Slot, inv: Inventory, w: nat) {
    w in slot.active && (slot.unlockItems && w < 10 ==> Count(inv, UnlockItem(w)) > 0)
  }

  lemma RootOpenIs(k: Pack, slot: Slot, p: Provider, inv: Inventory, w: nat)
    requires CountsHeld(k, slot, p, inv)
    ensures RootOpen(slot, inv, w) <==> w in slot.active && WorldUnlocked(k, slot, p, w)
  {
  }

  /** How many of `names` have their Royal Seed: `sum(1 for n in active if ...)`. */
  function RoyalsHeld(inv: Inventory, names: seq<nat>): nat
    requires forall n :: n in names ==> n < 10
  {
    if names == [] then 0
    else
      assert names[0] in names && forall n :: n in names[1..] ==> n in names;
      (if Count(inv, RoyalSeed(names[0])) > 0 then 1 else 0) + RoyalsHeld(inv, names[1..])
  }

  lemma {:induction false} RoyalsAreCleared(p: Provider, inv: Inventory, names: seq<nat>)
    requires forall n :: n in names ==> n < 10 && CodeCount(p, RoyalCode(n)) == Count(inv, RoyalSeed(n))
    ensures RoyalsHeld(inv, names) == PalacesCleared(p, names)
  {
    if names != [] {
      assert names[0] in names && forall n :: n in names[1..] ==> n in names;
      RoyalsAreCleared(p, inv, names[1..]);
    }
  }

  /** The validator reads each requirement of a world's regions as the tracker does; only a Start may
      name the free seeds. */
  ghost predicate WorldsRead(t: Tables, w: World, qs: Requirements) {
    forall r :: r in qs && WorldOf(r).Some? ==>
      if StartNum(r).Some? then StartReads(t, w, qs[r]) else PyReads(t, w, qs[r]) && SeedFreeReq(t, qs[r])
  }

  /** A location's requirement, or an inner region's, on the inventory filled up. */
  lemma FilledMeans(t: Tables, w: World, inv: Inventory, p: Provider, q: Requirement)
    requires GrantsFit(t) && Bridge(t, w, inv, p) && PyReads(t, w, q) && SeedFreeReq(t, q)
    ensures PyMet(t, q, Filled(t, inv)) == TrackerMet(t, q, p)
  {
    hide PyMet, PyReads, TrackerMet, Filled, GrantsFit, SeedFreeReq;
    FilledMet(t, w, inv, p, q);
    PyMeansTracker(t, w, inv, p, q);
  }

  lemma WorldReq(k: Pack, t: Tables, w: World, qs: Requirements, inv: Inventory, p: Provider, r: string)
    requires GrantsFit(t) && PackFrom(k, t, qs) && Bridge(t, w, inv, p) && WorldsRead(t, w, qs)
    requires r in k.t.info && WorldOf(r).Some?
    ensures PyReq(t, qs, Filled(t, inv))(r) <==> OpenReq(k, p, r)
  {
    hide Bridge, PyMet, PyReads, StartReads, SeedFreeReq, Filled, GrantsFit, Compiled, TrackerMet;
    KindsExclusive(r);
    var q := ReqOf(qs, r);
    assert PyReq(t, qs, Filled(t, inv))(r) == PyMet(t, q, Filled(t, inv)) by { EmptyPyMet(t, Filled(t, inv)); }
    NoRequiresReads(t, w);
    if StartNum(r).Some? {
      StartMeans(t, w, inv, p, q);
    } else {
      FilledMeans(t, w, inv, p, q);
      ReadIsCompiled(t, w, q, p);
    }
  }

  lemma EmptyPyMet(t: Tables, inv: Inventory)
    ensures PyMet(t, NoRequires, inv)
  {
  }

  lemma NoRequiresReads(t: Tables, w: World)
    ensures StartReads(t, w, NoRequires) && PyReads(t, w, NoRequires) && SeedFreeReq(t, NoRequires)
  {
  }

  lemma ReadIsCompiled(t: Tables, w: World, q: Requirement, p: Provider)
    requires PyReads(t, w, q)
    ensures Eval(Compiled(t, q), p) == TrackerMet(t, q, p)
  {
    hide Compile;
    if q.Expression? {
      var fits, val := l => PyFits(t, w, l), l => ItemAtom(t, l).Ok? && Eval(ItemAtom(t, l).value, p);
      MeaningPreservation.CompiledReads(t, p, q.c, fits, val);
    } else {
      EmptyCompiles(t, q, p);
    }
  }

  lemma FilledWorlds(k: Pack, t: Tables, w: World, qs: Requirements, inv: Inventory, p: Provider)
    requires GrantsFit(t) && PackFrom(k, t, qs) && Bridge(t, w, inv, p) && WorldsRead(t, w, qs)
    ensures WorldsAlike(k, p, PyReq(t, qs, Filled(t, inv)))
  {
    hide GrantsFit, PackFrom, Bridge, WorldsRead, PyReq, OpenReq, Filled;
    forall r | r in k.t.info && WorldOf(r).Some? ensures PyReq(t, qs, Filled(t, inv))(r) <==> OpenReq(k, p, r) {
      WorldReq(k, t, w, qs, inv, p, r);
    }
  }

  /** Filling up leaves Royal Seeds and unlock items as they are. */
  lemma FilledCountsHeld(k: Pack, slot: Slot, t: Tables, w: World, inv: Inventory, p: Provider)
    requires GrantsFit(t) && Bridge(t, w, inv, p) && CountsHeld(k, slot, p, inv)
    ensures CountsHeld(k, slot, p, Filled(t, inv))
    ensures Count(Filled(t, inv), CASTLE_UNLOCK_ITEM) == Count(inv, CASTLE_UNLOCK_ITEM)
  {
    hide GrantsFit, Counted, Filled;
    NotFreeSeeds(CASTLE_UNLOCK_ITEM);
    FilledCount(t, w, inv, p, CASTLE_UNLOCK_ITEM);
    forall n | n in slot.active
      ensures Count(Filled(t, inv), RoyalSeed(n)) == Count(inv, RoyalSeed(n))
      ensures Count(Filled(t, inv), UnlockItem(n)) == Count(inv, UnlockItem(n))
    {
      NotFreeSeeds(RoyalSeed(n));
      NotFreeSeeds(UnlockItem(n));
      FilledCount(t, w, inv, p, RoyalSeed(n));
      FilledCount(t, w, inv, p, UnlockItem(n));
    }
  }

  /** `py_open_access`: on the inventory filled up, the validator's open-world answer for a location is the
      emitted rule's on the tracker's own counts of `inv`. */
  method PyOpenAccess(k: Pack, slot: Slot, inv: Inventory, t: Tables, qs: Requirements, l: Place, q: Requirement, required: int,
                      ghost w: World, ghost p: Provider, ghost rank: map<string, nat>) returns (b: bool)
    requires k.Valid() && Ranked(k.t, rank) && OpenShape(k.t) && slot.openWorld && PlaceFits(k, l)
    requires slot.palacesRequired == Some(required) && forall n :: n in slot.active ==> 1 <= n <= 6
    requires GrantsFit(t) && PackFrom(k, t, qs) && Bridge(t, w, inv, p)
    requires WorldsRead(t, w, qs) && PyReads(t, w, q) && SeedFreeReq(t, q)
    ensures b <==> TrackerPlace(k, rank, slot, p, l, TrackerMet(t, q, p))
  {
    hide CountsHeld, OpenShape, RegionRule, PyReads, SeedFreeReq, WorldsRead, Bridge, PyMet, TrackerMet, PackFrom, WorldsAlike,
         GrantsFit, Filled, OpenFull, OpenReach, Ranked;
    var invOpen := Filled(t, inv);
    PackCounts(k, t, qs, w, slot, inv, p);
    PlaceKinds(k, rank, slot, p, inv, l);
    FilledCountsHeld(k, slot, t, w, inv, p);
    FilledMeans(t, w, inv, p, q);
    FilledWorlds(k, t, w, qs, inv, p);
    if l.region == BOWSER_REGION {
      if !StartsWith(l.name, "BC:") { return false; }
      var royalsOk := RoyalsHeld(inv, slot.active) >= required;
      var castleOk;
      if slot.castleUnlock {
        castleOk := slot.unlockItems ==> Count(invOpen, CASTLE_UNLOCK_ITEM) > 0;
      } else {
        castleOk := royalsOk;
      }
      if !castleOk || (l.name == GOAL && !royalsOk) { return false; }
      return PyMet(t, q, invOpen);
    }
    if IsHub(l.region) { return false; }
    var n := WorldOf(l.region);
    if n.Some? && n.value !in slot.active { return false; }
    if StartsWith(l.name, OPENING_PREFIX) { return PyMet(t, q, invOpen); }
    OpenReachIsFull(k, rank, slot, p, invOpen, PyReq(t, qs, invOpen), l.region);
    var v := new OpenWorld(k.t, slot, invOpen, PyReq(t, qs, invOpen), rank);
    var open := v.FullOf(l.region);
    if !open { return false; }
    return PyMet(t, q, invOpen);
  }

  /** The cases `py_open_access` tells apart, as the emitted region functions decide them. */
  lemma PlaceKinds(k: Pack, rank: map<string, nat>, slot: Slot, p: Provider, inv: Inventory, l: Place)
    requires k.Valid() && Ranked(k.t, rank) && OpenShape(k.t) && slot.openWorld
    requires CountsHeld(k, slot, p, inv) && PlaceFits(k, l)
    ensures forall n :: n in slot.active ==> n < 10
    ensures RoyalsHeld(inv, slot.active) == PalacesCleared(p, slot.active)
    ensures slot.castleUnlock && l.region == BOWSER_REGION ==>
              (RegionRule(k, rank, slot, p, l.region) <==> (slot.unlockItems ==> Count(inv, CASTLE_UNLOCK_ITEM) > 0))
    ensures !slot.castleUnlock && l.region == BOWSER_REGION ==>
              (RegionRule(k, rank, slot, p, l.region) <==> OpenPalaces(slot, p))
    ensures IsHub(l.region) ==> !RegionRule(k, rank, slot, p, l.region) && l.region != BOWSER_REGION
    ensures StartsWith(l.name, OPENING_PREFIX) ==> WorldOf(l.region) == Some(1) && l.region != BOWSER_REGION && !IsHub(l.region)
    ensures l.region != BOWSER_REGION && !IsHub(l.region) ==>
              && WorldOf(l.region).Some?
              && (OpenFull(k, rank, slot, p, l.region) <==> RegionRule(k, rank, slot, p, l.region))
              && (RegionRule(k, rank, slot, p, l.region) ==> WorldOf(l.region).value in slot.active)
  {
    hide RegionRule, OpenFull;
    RoyalsAreCleared(p, inv, slot.active);
    RootRule(k, rank, slot, p, l.region);
    KindsExclusive(l.region);
    KindsExclusive(StartName(1));
    if l.region != BOWSER_REGION && !IsHub(l.region) {
      ValidatorMatchesTracker(k, rank, slot, p, l.region);
      if RegionRule(k, rank, slot, p, l.region) { WorldMustBeOpen(k, rank, slot, p, l.region); }
    }
  }
}
