/** The goal of open-world mode: how far the tracker's palace count is from Archipelago's gate. */
module OpenWorldGoal {
  import opened Wrappers
  import opened Lists
  import opened Reachability
  import opened TrackerCompiler
  import opened RequiresRules
  import opened WorldNames
  import opened OpenWorldLogic
  import opened OpenWorldAccess

  ghost predicate AllSeeds(inv: Inventory) {
    forall n :: 1 <= n <= 6 ==> Count(inv, RoyalSeed(n)) >= 1
  }

  /** A slot as the randomizer fills it in. */
  ghost predicate SlotFilled(slot: Slot, required: nat) {
    && Distinct(slot.active) && (forall n :: n in slot.active ==> 1 <= n <= 6)
    && slot.palacesRequired == Some(required) && 1 <= required <= |slot.active|
  }

  /** The tracker maps the unlock items, to codes other than those of the Royal Seeds. */
  ghost predicate CodesApart(k: Pack, slot: Slot) {
    && (forall n :: n in slot.active ==> n in k.unlockCodes)
    && (forall n, m :: n in k.unlockCodes && 1 <= m <= 6 ==> k.unlockCodes[n] != RoyalCode(m))
    && k.castleCode.Some? && forall m :: 1 <= m <= 6 ==> k.castleCode.value != RoyalCode(m)
  }

  // ---- Counting -------------------------------------------------------------------

  function Members(s: seq<nat>): set<nat> {
    set x | x in s
  }

  lemma {:induction false} DistinctCard(s: seq<nat>)
    requires Distinct(s)
    ensures |Members(s)| == |s|
  {
    if s == [] {
      assert Members(s) == {};
    } else {
      var init, last := s[..|s| - 1], s[|s| - 1];
      DistinctCard(init);
      assert s == init + [last] && last !in Members(init);
      assert Members(s) == Members(init) + {last};
    }
  }

  lemma SubsetCard(a: set<nat>, b: set<nat>)
    requires a <= b
    ensures |a| <= |b| && (|a| == |b| ==> a == b)
  {
    assert b == a + (b - a);
  }

  /** All six worlds are active exactly when there are six. */
  lemma SixWorlds(slot: Slot)
    requires Distinct(slot.active) && forall n :: n in slot.active ==> 1 <= n <= 6
    ensures |slot.active| <= 6
    ensures |slot.active| == 6 <==> forall n :: 1 <= n <= 6 ==> n in slot.active
  {
    var here, all := Members(slot.active), {1, 2, 3, 4, 5, 6};
    DistinctCard(slot.active);
    assert here <= all && |all| == 6;
    SubsetCard(here, all);
    if forall n :: 1 <= n <= 6 ==> n in slot.active {
      assert all <= here;
      SubsetCard(all, here);
    }
  }

  lemma {:induction false} ClearedAtMost(p: Provider, names: seq<nat>)
    ensures PalacesCleared(p, names) <= |names|
    ensures PalacesCleared(p, names) == |names| ==> forall n :: n in names ==> CodeCount(p, RoyalCode(n)) > 0
  {
    if names != [] { ClearedAtMost(p, names[1..]); }
  }

  lemma {:induction false} ClearedButOne(p: Provider, names: seq<nat>, m: nat)
    requires Distinct(names) && forall n :: n in names && n != m ==> CodeCount(p, RoyalCode(n)) > 0
    ensures PalacesCleared(p, names) >= |names| - if m in names then 1 else 0
  {
    if names != [] {
      assert names[0] in names && forall n :: n in names[1..] ==> n in names;
      ClearedButOne(p, names[1..], m);
      assert names == [names[0]] + names[1..];
      if names[0] == m {
        assert forall i :: 0 < i < |names| ==> names[i] != names[0];
        assert m !in names[1..];
      }
    }
  }

  // ---- The separating inventory ---------------------------------------------------

  /** Every Royal Seed but that of `m`, and every unlock item. */
  function AllBut(m: nat): Inventory {
    (map n | 1 <= n <= 6 && n != m :: RoyalSeed(n) := 1 as nat)
    + (map n | 1 <= n <= 6 :: UnlockItem(n) := 1 as nat) + map[CASTLE_UNLOCK_ITEM := 1]
  }

  /** A tracker that counts it. */
  function CodesOfAllBut(k: Pack, m: nat): Provider {
    (map n | n in k.unlockCodes :: k.unlockCodes[n] := 1 as nat)
    + (map n | 1 <= n <= 6 && n != m :: RoyalCode(n) := 1 as nat)
    + if k.castleCode.Some? then map[k.castleCode.value := 1] else map[]
  }

  lemma RoyalCodesDiffer(n: nat, m: nat)
    requires 1 <= n <= 6 && 1 <= m <= 6 && n != m
    ensures RoyalCode(n) != RoyalCode(m) && RoyalSeed(n) != RoyalSeed(m)
  {
    assert RoyalCode(n)[1] == DigitChar(n) && RoyalCode(m)[1] == DigitChar(m);
    assert RoyalSeed(n)[1] == DigitChar(n) && RoyalSeed(m)[1] == DigitChar(m);
  }

  lemma AllButCounts(m: nat, n: nat)
    requires 1 <= n <= 6 && 1 <= m <= 6
    ensures Count(AllBut(m), RoyalSeed(n)) == if n == m then 0 else 1
    ensures Count(AllBut(m), UnlockItem(n)) == 1 && Count(AllBut(m), CASTLE_UNLOCK_ITEM) == 1
  {
    assert forall j: nat | j < 10 :: |RoyalSeed(j)| == 13 && |UnlockItem(j)| == 9;
    assert RoyalSeed(n)[0] == 'W' && UnlockItem(n)[0] == 'W' && CASTLE_UNLOCK_ITEM[0] == 'B';
    assert forall j: nat | j < 10 :: RoyalSeed(j)[1] == DigitChar(j);
    hide RoyalSeed, UnlockItem;
    if n != m {
      assert RoyalSeed(n) in (map j | 1 <= j <= 6 && j != m :: RoyalSeed(j) := 1 as nat);
    }
    assert UnlockItem(n) in (map j | 1 <= j <= 6 :: UnlockItem(j) := 1 as nat);
  }

  lemma RoyalCodeCounts(k: Pack, slot: Slot, m: nat, n: nat)
    requires CodesApart(k, slot) && 1 <= m <= 6 && 1 <= n <= 6
    ensures CodeCount(CodesOfAllBut(k, m), RoyalCode(n)) == if n == m then 0 else 1
  {
    forall j | 1 <= j <= 6 && j != m ensures RoyalCode(j) != RoyalCode(m) { RoyalCodesDiffer(j, m); }
    hide RoyalCode;
    if n != m {
      assert RoyalCode(n) in (map j | 1 <= j <= 6 && j != m :: RoyalCode(j) := 1 as nat);
    }
  }

  lemma CodesCount(k: Pack, slot: Slot, m: nat, n: nat)
    requires CodesApart(k, slot) && 1 <= m <= 6 && 1 <= n <= 6
    ensures CodeCount(CodesOfAllBut(k, m), RoyalCode(n)) == if n == m then 0 else 1
    ensures n in k.unlockCodes ==> CodeCount(CodesOfAllBut(k, m), k.unlockCodes[n]) == 1
    ensures CodeCount(CodesOfAllBut(k, m), k.castleCode.value) == 1
  {
    hide RoyalCode;
    RoyalCodeCounts(k, slot, m, n);
    if n in k.unlockCodes {
      assert k.unlockCodes[n] in (map j | j in k.unlockCodes :: k.unlockCodes[j] := 1 as nat);
    }
  }

  lemma AllButHeld(k: Pack, slot: Slot, m: nat)
    requires CodesApart(k, slot) && (forall n :: n in slot.active ==> 1 <= n <= 6) && 1 <= m <= 6
    ensures CountsHeld(k, slot, CodesOfAllBut(k, m), AllBut(m))
    ensures forall n :: 1 <= n <= 6 && n != m ==> CodeCount(CodesOfAllBut(k, m), RoyalCode(n)) == 1
    ensures CodeCount(CodesOfAllBut(k, m), k.castleCode.value) == 1
  {
    hide CodesOfAllBut, AllBut, RoyalCode, RoyalSeed, UnlockItem, CodeCount;
    forall n: nat | 1 <= n <= 6
      ensures CodeCount(CodesOfAllBut(k, m), RoyalCode(n)) == Count(AllBut(m), RoyalSeed(n))
      ensures n != m ==> CodeCount(CodesOfAllBut(k, m), RoyalCode(n)) == 1
      ensures n in k.unlockCodes ==> CodeCount(CodesOfAllBut(k, m), k.unlockCodes[n]) == Count(AllBut(m), UnlockItem(n))
    {
      AllButCounts(m, n);
      CodesCount(k, slot, m, n);
    }
    AllButCounts(m, m);
    CodesCount(k, slot, m, m);
  }

  /** With fewer than six palaces required, the tracker's test passes without some Royal Seed. */
  lemma MissingSeed(k: Pack, slot: Slot, required: nat) returns (p: Provider, inv: Inventory)
    requires SlotFilled(slot, required) && CodesApart(k, slot) && required < 6
    ensures CountsHeld(k, slot, p, inv) && OpenPalaces(slot, p) && !AllSeeds(inv)
    ensures CodeCount(p, k.castleCode.value) == 1
  {
    SixWorlds(slot);
    var m := 1;
    if |slot.active| < 6 { m :| 1 <= m <= 6 && m !in slot.active; }
    p, inv := CodesOfAllBut(k, m), AllBut(m);
    AllButHeld(k, slot, m);
    ClearedButOne(p, slot.active, m);
    AllButCounts(m, m);
  }

  // ---- The exact difference -------------------------------------------------------

  /** The tracker's palace test forces the six Royal Seeds that the gate asks for, on every
      inventory, exactly on slots that require all six palaces. */
  lemma PalacesForceSeedsIff(k: Pack, slot: Slot, required: nat)
    requires SlotFilled(slot, required) && CodesApart(k, slot)
    ensures required == 6 <==>
            forall p, inv :: CountsHeld(k, slot, p, inv) && OpenPalaces(slot, p) ==> AllSeeds(inv)
  {
    SixWorlds(slot);
    if required == 6 {
      forall p, inv | CountsHeld(k, slot, p, inv) && OpenPalaces(slot, p) ensures AllSeeds(inv) {
        ClearedAtMost(p, slot.active);
      }
    } else {
      var p, inv := MissingSeed(k, slot, required);
    }
  }

  /** So below six the goal is open in the tracker and closed in Archipelago for some inventory,
      wherever the palaces are. */
  lemma GoalSeparates(k: Pack, rank: map<string, nat>, slot: Slot, required: nat, palaceReachable: nat -> bool)
      returns (p: Provider, inv: Inventory)
    requires k.Valid() && Ranked(k.t, rank) && slot.openWorld && BOWSER_REGION in k.t.info
    requires SlotFilled(slot, required) && CodesApart(k, slot) && required < 6
    ensures CountsHeld(k, slot, p, inv)
    ensures var goal := Place(GOAL, BOWSER_REGION);
            TrackerPlace(k, rank, slot, p, goal, true) && !ItemPlace(k, slot, p, inv, goal, true, palaceReachable, required)
  {
    hide CountsHeld, CodesApart, OpenPalaces, RegionRule, StartsWith, BowserGate, Reached, ItemEdges;
    p, inv := MissingSeed(k, slot, required);
    GoalInTracker(k, rank, slot, p);
    GateNeedsSeeds(slot, inv, palaceReachable, required);
  }

  lemma GoalInTracker(k: Pack, rank: map<string, nat>, slot: Slot, p: Provider)
    requires k.Valid() && Ranked(k.t, rank) && slot.openWorld && BOWSER_REGION in k.t.info
    requires OpenPalaces(slot, p) && k.castleCode.Some? && CodeCount(p, k.castleCode.value) == 1
    ensures TrackerPlace(k, rank, slot, p, Place(GOAL, BOWSER_REGION), true)
  {
    hide OpenPalaces, RegionRule, StartsWith;
    RootRule(k, rank, slot, p, BOWSER_REGION);
    GoalName();
  }

  lemma GoalName()
    ensures StartsWith(GOAL, "BC:") && !StartsWith(GOAL, OPENING_PREFIX)
  {
    assert GOAL[0] == 'B' && GOAL[1] == 'C' && GOAL[2] == ':';
    assert OPENING_PREFIX[0] == 'W' && GOAL[..|"BC:"|] == "BC:";
  }

  lemma GateNeedsSeeds(slot: Slot, inv: Inventory, palaceReachable: nat -> bool, required: int)
    ensures BowserGate(slot, inv, palaceReachable, required) <==>
            AllSeeds(inv) && CountTrue(slot.active, palaceReachable) >= required
  {
  }
}
