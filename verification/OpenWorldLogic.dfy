/** Open-world mode: the tracker's mode-aware rules, the validator's reference model, and
    fixpoint reachability in the restructured graph. */
module OpenWorldLogic {
  import opened Wrappers
  import opened Reachability
  import opened TrackerCompiler
  import opened WorldNames

  // ---- The tracker ----------------------------------------------------------------

  /** SLOT_DATA as the tracker reads it; an unset SLOT_DATA has every flag off. */
  datatype Slot = Slot(openWorld: bool, active: seq<nat>, palacesRequired: Option<int>,
                       unlockItems: bool, castleUnlock: bool)
  {
    function ActiveSet(): set<nat> {
      set n | n in active
    }
  }

  /** What the generator knows: the table, its compiled requirements in both modes, and
      the codes of the unlock items that the tracker maps. */
  datatype Pack = Pack(t: Table, req: map<string, Lua>, openReq: map<string, Lua>,
                       unlockCodes: map<nat, string>, castleCode: Option<string>)
  {
    ghost predicate Valid() {
      && t.Valid()
      && (forall r :: r in t.info ==> r in req && r in openReq)
    }
  }

  /** `smbw_world_unlocked` */
  predicate WorldUnlocked(k: Pack, slot: Slot, p: Provider, n: nat) {
    slot.unlockItems && n in k.unlockCodes ==> CodeCount(p, k.unlockCodes[n]) > 0
  }

  function RoyalCode(n: nat): string {
    "w" + NatDigits(n) + "royalseed"
  }

  function NatDigits(n: nat): string {
    if n < 10 then [DigitChar(n)] else NatDigits(n / 10) + [DigitChar(n % 10)]
  }

  /** How many entries of `active` have their Royal Seed. */
  function PalacesCleared(p: Provider, active: seq<nat>): nat {
    if active == [] then 0
    else (if CodeCount(p, RoyalCode(active[0])) > 0 then 1 else 0) + PalacesCleared(p, active[1..])
  }

  /** `smbw_open_palaces` */
  predicate OpenPalaces(slot: Slot, p: Provider) {
    PalacesCleared(p, slot.active) >= slot.palacesRequired.GetOr(|slot.active|)
  }

  /** `smbw_castle_open` */
  predicate CastleOpen(k: Pack, slot: Slot, p: Provider) {
    if !slot.castleUnlock then OpenPalaces(slot, p)
    else slot.unlockItems && k.castleCode.Some? ==> CodeCount(p, k.castleCode.value) > 0
  }

  /** The open-world body of a region function, where it has one of its own. */
  function OpenBody(k: Pack, slot: Slot, p: Provider, r: string): Option<bool>
    requires r in k.openReq
  {
    if StartNum(r).Some? then
      var n := StartNum(r).value;
      Some(n in slot.active && WorldUnlocked(k, slot, p, n) && Eval(k.openReq[r], p))
    else if r == BOWSER_REGION then Some(CastleOpen(k, slot, p))
    else if IsHub(r) then Some(false)
    else None
  }

  /** The value of the emitted function of region `r`, recomputed from scratch. */
  ghost predicate RegionRule(k: Pack, rank: map<string, nat>, slot: Slot, p: Provider, r: string)
    requires k.Valid() && Ranked(k.t, rank) && r in k.t.info
    decreases rank[r]
  {
    var own := OpenBody(k, slot, p, r);
    if slot.openWorld && own.Some? then own.value
    else
      && Eval(k.req[r], p)
      && (k.t.info[r].starting || exists q :: q in Parents(k.t, r) && RegionRule(k, rank, slot, p, q))
  }

  /** Outside open-world mode the rule is the plain recursion over parents. */
  lemma {:induction false} StandardRule(k: Pack, rank: map<string, nat>, slot: Slot, p: Provider, r: string)
    requires k.Valid() && Ranked(k.t, rank) && r in k.t.info && !slot.openWorld
    ensures RegionRule(k, rank, slot, p, r) == Full(k.t, x => x in k.req && Eval(k.req[x], p), rank, r)
    decreases rank[r]
  {
    forall q | q in Parents(k.t, r)
      ensures RegionRule(k, rank, slot, p, q) == Full(k.t, x => x in k.req && Eval(k.req[x], p), rank, q)
    {
      StandardRule(k, rank, slot, p, q);
    }
  }

  // ---- Archipelago's restructured graph -------------------------------------------

  /** The entrances left by `restructure_regions`, with their access rules: Manual leads
      to each active Start and to the castle behind `gate`, and within a world an exit of
      `r` carries the requirement of `r`. */
  ghost function OpenEdges(t: Table, active: set<nat>, gate: string -> bool, req: string -> bool): iset<Edge> {
    iset e: Edge |
      || e == Edge("Menu", "Manual", true)
      || (e.src == "Manual" && e.open == gate(e.dst) &&
          (e.dst == BOWSER_REGION || (StartNum(e.dst).Some? && StartNum(e.dst).value in active)))
      || (&& e.src in t.info && e.dst in t.info[e.src].connectsTo && e.open == req(e.src)
          && WorldOf(e.src).Some? && WorldOf(e.src) == WorldOf(e.dst))
  }

  /** What open-world mode takes for granted about the table: apart from the world starts,
      the castle and the hub, every region belongs to a world, is not a starting region,
      and has parents only in its own world or in the hub. */
  ghost predicate OpenShape(t: Table)
    requires t.Valid()
  {
    forall r :: r in t.info && StartNum(r).None? && r != BOWSER_REGION && !IsHub(r) ==>
      && WorldOf(r).Some? && !t.info[r].starting
      && forall q :: q in Parents(t, r) ==> WorldOf(q) == WorldOf(r) || IsHub(q)
  }

  /** Both sides use `startReq` for the world starts. */
  predicate OpenReq(k: Pack, p: Provider, r: string) {
    if StartNum(r).Some? then r in k.openReq && Eval(k.openReq[r], p)
    else r == BOWSER_REGION || (r in k.req && Eval(k.req[r], p))
  }

  predicate Gate(k: Pack, slot: Slot, p: Provider, r: string) {
    if StartNum(r).Some? then WorldUnlocked(k, slot, p, StartNum(r).value) else CastleOpen(k, slot, p)
  }

  ghost function SlotEdges(k: Pack, slot: Slot, p: Provider): iset<Edge> {
    OpenEdges(k.t, slot.ActiveSet(), r => Gate(k, slot, p, r), r => OpenReq(k, p, r))
  }

  /** The rule of a region with an open-world body of its own. */
  lemma RootRule(k: Pack, rank: map<string, nat>, slot: Slot, p: Provider, r: string)
    requires k.Valid() && Ranked(k.t, rank) && r in k.t.info && slot.openWorld
    ensures StartNum(r).Some? ==>
              (RegionRule(k, rank, slot, p, r) <==>
                 StartNum(r).value in slot.active && Gate(k, slot, p, r) && OpenReq(k, p, r))
    ensures r == BOWSER_REGION ==> (RegionRule(k, rank, slot, p, r) <==> Gate(k, slot, p, r))
    ensures IsHub(r) ==> !RegionRule(k, rank, slot, p, r)
    ensures r == BOWSER_REGION || IsHub(r) ==> StartNum(r).None?
  {
    KindsExclusive(r);
  }

  /** The rule of any other region: its requirement, and a parent of its own world. */
  lemma InnerRule(k: Pack, rank: map<string, nat>, slot: Slot, p: Provider, r: string)
    requires k.Valid() && Ranked(k.t, rank) && r in k.t.info && OpenShape(k.t) && slot.openWorld
    requires StartNum(r).None? && r != BOWSER_REGION && !IsHub(r)
    ensures WorldOf(r).Some?
    ensures RegionRule(k, rank, slot, p, r) <==>
            OpenReq(k, p, r) &&
            exists q :: q in Parents(k.t, r) && WorldOf(q) == WorldOf(r) && RegionRule(k, rank, slot, p, q)
  {
    if RegionRule(k, rank, slot, p, r) {
      var q :| q in Parents(k.t, r) && RegionRule(k, rank, slot, p, q);
      RootRule(k, rank, slot, p, q);
      assert WorldOf(q) == WorldOf(r);
    }
  }

  lemma RootReached(k: Pack, slot: Slot, p: Provider, r: string)
    requires k.Valid() && r in k.t.info && Gate(k, slot, p, r)
    requires r == BOWSER_REGION || (StartNum(r).Some? && StartNum(r).value in slot.active)
    ensures Reached(SlotEdges(k, slot, p), r)
  {
    assert StartNum(r).Some? ==> StartNum(r).value in slot.ActiveSet();
    ThroughManual(SlotEdges(k, slot, p), r);
  }

  lemma InnerReached(k: Pack, slot: Slot, p: Provider, q: string, r: string)
    requires k.Valid() && r in k.t.info && q in Parents(k.t, r)
    requires WorldOf(q).Some? && WorldOf(q) == WorldOf(r)
    requires Reached(SlotEdges(k, slot, p), q) && OpenReq(k, p, q)
    ensures Reached(SlotEdges(k, slot, p), r)
  {
    ThroughEdge(SlotEdges(k, slot, p), Edge(q, r, true));
  }

  lemma {:induction false} OpenRuleReached(k: Pack, rank: map<string, nat>, slot: Slot, p: Provider, r: string)
    requires k.Valid() && Ranked(k.t, rank) && r in k.t.info && OpenShape(k.t) && slot.openWorld
    requires RegionRule(k, rank, slot, p, r)
    ensures Reached(SlotEdges(k, slot, p), r) && OpenReq(k, p, r)
    decreases rank[r]
  {
    RootRule(k, rank, slot, p, r);
    if StartNum(r).Some? || r == BOWSER_REGION {
      RootReached(k, slot, p, r);
    } else {
      InnerRule(k, rank, slot, p, r);
      var q :| q in Parents(k.t, r) && WorldOf(q) == WorldOf(r) && RegionRule(k, rank, slot, p, q);
      OpenRuleReached(k, rank, slot, p, q);
      InnerReached(k, slot, p, q, r);
    }
  }

  /** Entered in open-world mode: behind an open gate, or below a region whose rule holds. */
  ghost predicate OpenEntered(k: Pack, rank: map<string, nat>, slot: Slot, p: Provider, r: string)
    requires k.Valid() && Ranked(k.t, rank) && r in k.t.info
  {
    if StartNum(r).Some? then StartNum(r).value in slot.active && Gate(k, slot, p, r)
    else if r == BOWSER_REGION then Gate(k, slot, p, r)
    else !IsHub(r) && exists q :: q in Parents(k.t, r) && WorldOf(q) == WorldOf(r) && RegionRule(k, rank, slot, p, q)
  }

  lemma EnteredAndMetIsRule(k: Pack, rank: map<string, nat>, slot: Slot, p: Provider, r: string)
    requires k.Valid() && Ranked(k.t, rank) && r in k.t.info && OpenShape(k.t) && slot.openWorld
    ensures OpenEntered(k, rank, slot, p, r) && OpenReq(k, p, r) <==> RegionRule(k, rank, slot, p, r)
  {
    RootRule(k, rank, slot, p, r);
    if StartNum(r).None? && r != BOWSER_REGION && !IsHub(r) {
      InnerRule(k, rank, slot, p, r);
    }
  }

  /** Nothing in a world holds unless the world is active and unlocked. */
  lemma {:induction false} WorldMustBeOpen(k: Pack, rank: map<string, nat>, slot: Slot, p: Provider, r: string)
    requires k.Valid() && Ranked(k.t, rank) && r in k.t.info && OpenShape(k.t) && slot.openWorld
    requires WorldOf(r).Some? && RegionRule(k, rank, slot, p, r)
    ensures WorldOf(r).value in slot.active && WorldUnlocked(k, slot, p, WorldOf(r).value)
    decreases rank[r]
  {
    RootRule(k, rank, slot, p, r);
    KindsExclusive(r);
    if StartNum(r).None? {
      InnerRule(k, rank, slot, p, r);
      var q :| q in Parents(k.t, r) && WorldOf(q) == WorldOf(r) && RegionRule(k, rank, slot, p, q);
      WorldMustBeOpen(k, rank, slot, p, q);
    }
  }

  ghost predicate SlotFits(k: Pack, slot: Slot)
    requires k.Valid()
  {
    && BOWSER_REGION in k.t.info
    && forall n :: n in slot.active ==> n < 10 && StartName(n) in k.t.info
  }

  lemma IntraEdgeKeepsEntered(k: Pack, rank: map<string, nat>, slot: Slot, p: Provider, r: string, d: string)
    requires k.Valid() && Ranked(k.t, rank) && OpenShape(k.t) && slot.openWorld
    requires r in k.t.info && OpenEntered(k, rank, slot, p, r) && OpenReq(k, p, r)
    requires d in k.t.info[r].connectsTo && WorldOf(r).Some? && WorldOf(r) == WorldOf(d)
    ensures d in k.t.info && OpenEntered(k, rank, slot, p, d)
  {
    EnteredAndMetIsRule(k, rank, slot, p, r);
    KindsExclusive(d);
    if StartNum(d).Some? {
      WorldMustBeOpen(k, rank, slot, p, r);
    } else {
      assert r in Parents(k.t, d);
    }
  }

  lemma OpenEnteredIsClosed(k: Pack, rank: map<string, nat>, slot: Slot, p: Provider)
    requires k.Valid() && Ranked(k.t, rank) && OpenShape(k.t) && slot.openWorld && SlotFits(k, slot)
    ensures Closed(SlotEdges(k, slot, p),
                   iset x | x in {"Menu", "Manual"} || (x in k.t.info && OpenEntered(k, rank, slot, p, x)))
  {
    hide OpenEntered, OpenReq, Gate, Ranked, StartNum, WorldOf, OpenShape, Parents;
    var s := iset x | x in {"Menu", "Manual"} || (x in k.t.info && OpenEntered(k, rank, slot, p, x));
    forall e | e in SlotEdges(k, slot, p) && e.open && e.src in s ensures e.dst in s {
      if e.src == "Manual" {
        ManualEdgeEnters(k, rank, slot, p, e.dst);
      } else if e.src != "Menu" {
        IntraEdgeKeepsEntered(k, rank, slot, p, e.src, e.dst);
      }
    }
  }

  lemma ManualEdgeEnters(k: Pack, rank: map<string, nat>, slot: Slot, p: Provider, d: string)
    requires k.Valid() && Ranked(k.t, rank) && SlotFits(k, slot) && Gate(k, slot, p, d)
    requires d == BOWSER_REGION || (StartNum(d).Some? && StartNum(d).value in slot.active)
    ensures d in k.t.info && OpenEntered(k, rank, slot, p, d)
  {
    hide Gate, Ranked, RegionRule;
    if d != BOWSER_REGION { StartNameUnique(d); }
  }

  /** In open-world mode the tracker's function of a region is true exactly when the
      restructured graph reaches the region and its open-world requirement holds. */
  lemma OpenTrackerMatchesFixpoint(k: Pack, rank: map<string, nat>, slot: Slot, p: Provider, r: string)
    requires k.Valid() && Ranked(k.t, rank) && r in k.t.info && OpenShape(k.t) && slot.openWorld
    requires SlotFits(k, slot)
    ensures RegionRule(k, rank, slot, p, r) <==> Reached(SlotEdges(k, slot, p), r) && OpenReq(k, p, r)
  {
    if RegionRule(k, rank, slot, p, r) {
      OpenRuleReached(k, rank, slot, p, r);
    }
    OpenEnteredIsClosed(k, rank, slot, p);
    if Reached(SlotEdges(k, slot, p), r) && OpenReq(k, p, r) {
      assert OpenEntered(k, rank, slot, p, r);
      EnteredAndMetIsRule(k, rank, slot, p, r);
    }
  }

  // ---- The validator's reference model --------------------------------------------

  /** `open_full`: parents in other compartments do not count. */
  ghost predicate OpenFull(k: Pack, rank: map<string, nat>, slot: Slot, p: Provider, r: string)
    requires k.Valid() && Ranked(k.t, rank) && r in k.t.info
    decreases rank[r]
  {
    && OpenReq(k, p, r)
    && if StartNum(r).Some? then
         StartNum(r).value in slot.active && WorldUnlocked(k, slot, p, StartNum(r).value)
       else
         exists q :: q in Parents(k.t, r) && WorldOf(q) == WorldOf(r) && OpenFull(k, rank, slot, p, q)
  }

  lemma OpenFullStep(k: Pack, rank: map<string, nat>, slot: Slot, p: Provider, r: string)
    requires k.Valid() && Ranked(k.t, rank) && r in k.t.info
    ensures OpenFull(k, rank, slot, p, r) <==>
            OpenReq(k, p, r) &&
            if StartNum(r).Some? then StartNum(r).value in slot.active && WorldUnlocked(k, slot, p, StartNum(r).value)
            else exists q :: q in Parents(k.t, r) && WorldOf(q) == WorldOf(r) && OpenFull(k, rank, slot, p, q)
  {
  }

  lemma {:induction false} ValidatorMatchesTracker(k: Pack, rank: map<string, nat>, slot: Slot, p: Provider, r: string)
    requires k.Valid() && Ranked(k.t, rank) && r in k.t.info && OpenShape(k.t) && slot.openWorld
    requires WorldOf(r).Some?
    ensures OpenFull(k, rank, slot, p, r) <==> RegionRule(k, rank, slot, p, r)
    decreases rank[r]
  {
    hide RegionRule, OpenFull, OpenReq, WorldUnlocked, OpenShape, WorldOf, StartNum;
    KindsExclusive(r);
    OpenFullStep(k, rank, slot, p, r);
    if StartNum(r).Some? {
      RootRule(k, rank, slot, p, r);
    } else {
      InnerRule(k, rank, slot, p, r);
      forall q | q in Parents(k.t, r) && WorldOf(q) == WorldOf(r)
        ensures OpenFull(k, rank, slot, p, q) <==> RegionRule(k, rank, slot, p, q)
      {
        ValidatorMatchesTracker(k, rank, slot, p, q);
      }
    }
  }
}
