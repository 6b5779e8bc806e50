/** The live region graph that open-world mode rewrites in place. */
module OpenWorldGraph {
  import opened Wrappers
  import opened Lists
  import opened WorldNames
  import R = Reachability
  import OpenWorldLogic
  import A = OpenWorldAccess
  import T = TrackerCompiler

  /** `connect` gives an entrance its target once; no function here changes it. */
  class Entrance {
    const name: string
    const parentRegion: Region
    const connected: Region?

    constructor (name: string, parentRegion: Region, connected: Region?)
      ensures this.name == name && this.parentRegion == parentRegion && this.connected == connected
    {
      this.name, this.parentRegion, this.connected := name, parentRegion, connected;
    }
  }

  class Location {
    const name: string
    var parentRegion: Region

    constructor (name: string, parentRegion: Region)
      ensures this.name == name && this.parentRegion == parentRegion
    {
      this.name, this.parentRegion := name, parentRegion;
    }
  }

  class Region {
    const name: string
    var exits: seq<Entrance>
    var entrances: seq<Entrance>
    var locations: seq<Location>

    constructor (name: string)
      ensures this.name == name && exits == [] && entrances == [] && locations == []
    {
      this.name := name;
      exits, entrances, locations := [], [], [];
    }
  }

  // ---- The two-way link invariant -------------------------------------------------

  ghost predicate ExitsLinked(rs: set<Region>, r: Region)
    reads rs, r
  {
    && Distinct(r.exits)
    && forall e :: e in r.exits ==>
         && e.parentRegion == r
         && (e.connected != null ==> e.connected in rs && e in e.connected.entrances)
  }

  ghost predicate EntrancesLinked(rs: set<Region>, r: Region)
    reads rs, r
  {
    && Distinct(r.entrances)
    && forall e :: e in r.entrances ==>
         e.connected == r && e.parentRegion in rs && e in e.parentRegion.exits
  }

  /** Exits and entrances mirror each other. */
  ghost predicate Mirror(rs: set<Region>)
    reads rs
  {
    forall r :: r in rs ==> ExitsLinked(rs, r) && EntrancesLinked(rs, r)
  }

  /** `_disconnect_exit`: the exit leaves both lists, everything else stays. */
  method DisconnectExit(region: Region, exit: Entrance, ghost rs: set<Region>)
    requires region in rs && Mirror(rs) && exit in region.exits
    modifies rs`exits, rs`entrances
    ensures Mirror(rs)
    ensures region.exits == Remove(old(region.exits), exit)
    ensures forall r :: r in rs && r != region ==> r.exits == old(r.exits)
    ensures forall r :: r in rs ==>
              r.entrances == if exit in old(r.entrances) then Remove(old(r.entrances), exit) else old(r.entrances)
  {
    assert ExitsLinked(rs, region);
    RemoveDistinct(region.exits, exit);
    var target := exit.connected;
    region.exits := Remove(region.exits, exit);
    if target != null && exit in target.entrances {
      assert old(EntrancesLinked(rs, target));
      RemoveDistinct(target.entrances, exit);
      target.entrances := Remove(target.entrances, exit);
    }
    forall r | r in rs ensures ExitsLinked(rs, r) && EntrancesLinked(rs, r) {
      assert old(ExitsLinked(rs, r)) && old(EntrancesLinked(rs, r));
    }
  }

  // ---- Step 1: sever what crosses compartments ------------------------------------

  /** An edge that stays within one world. */
  predicate StaysInWorld(r: Region, e: Entrance) {
    && WorldOf(r.name).Some?
    && e.connected != null
    && WorldOf(e.connected.name) == WorldOf(r.name)
  }

  function Staying(r: Region): Entrance -> bool {
    (e: Entrance) => StaysInWorld(r, e)
  }

  function KeepIntra(r: Region, exits: seq<Entrance>): seq<Entrance> {
    Filter(exits, Staying(r))
  }

  /** The inner loop, over a copy of the exits. */
  method SeverForeignExits(region: Region, ghost rs: set<Region>)
    requires region in rs && Mirror(rs)
    modifies rs`exits, rs`entrances
    ensures Mirror(rs)
    ensures region.exits == KeepIntra(region, old(region.exits))
    ensures forall r :: r in rs && r != region ==> r.exits == old(r.exits)
  {
    var copy := region.exits;
    for i := 0 to |copy|
      invariant Mirror(rs)
      invariant region.exits == Filter(copy[..i], Staying(region)) + copy[i..]
      invariant forall r :: r in rs && r != region ==> r.exits == old(r.exits)
    {
      FilterInPlace(copy, i, Staying(region));
      if !StaysInWorld(region, copy[i]) {
        DisconnectExit(region, copy[i], rs);
      }
    }
    assert copy[..|copy|] == copy;
  }

  method DisconnectAll(region: Region, ghost rs: set<Region>)
    requires region in rs && Mirror(rs)
    modifies rs`exits, rs`entrances
    ensures Mirror(rs)
    ensures region.exits == []
    ensures forall r :: r in rs && r != region ==> r.exits == old(r.exits)
  {
    var copy := region.exits;
    for i := 0 to |copy|
      invariant Mirror(rs)
      invariant region.exits == copy[i..]
      invariant forall r :: r in rs && r != region ==> r.exits == old(r.exits)
    {
      assert copy[i..] == [] + [copy[i]] + copy[i + 1..];
      RemoveAt([], copy[i], copy[i + 1..]);
      DisconnectExit(region, copy[i], rs);
      assert [] + copy[i + 1..] == copy[i + 1..];
    }
  }

  /** `region.create_exit(name).connect(target)` */
  method Connect(region: Region, name: string, target: Region, ghost rs: set<Region>) returns (e: Entrance)
    requires region in rs && target in rs && Mirror(rs)
    modifies region`exits, target`entrances
    ensures Mirror(rs)
    ensures fresh(e) && e.name == name && e.parentRegion == region && e.connected == target
    ensures region.exits == old(region.exits) + [e]
    ensures forall r :: r in rs && r != region ==> r.exits == old(r.exits)
  {
    e := new Entrance(name, region, target);
    region.exits := region.exits + [e];
    target.entrances := target.entrances + [e];
    forall r | r in rs ensures ExitsLinked(rs, r) && EntrancesLinked(rs, r) {
      assert old(ExitsLinked(rs, r)) && old(EntrancesLinked(rs, r));
    }
  }

  // ---- The whole rewrite ----------------------------------------------------------

  /** The regions the rewrite looks up. */
  ghost predicate Complete(order: seq<Region>, active: set<nat>) {
    && HasRegion(order, "Menu") && HasRegion(order, "Manual") && HasRegion(order, BOWSER_REGION)
    && (forall n :: n in active ==> n < 10 && HasRegion(order, StartName(n)))
  }

  ghost predicate HasRegion(order: seq<Region>, name: string) {
    exists i :: 0 <= i < |order| && order[i].name == name
  }

  ghost function All(order: seq<Region>): set<Region> {
    set r | r in order
  }

  /** `multiworld.get_region` */
  method GetRegion(order: seq<Region>, name: string) returns (r: Region)
    requires HasRegion(order, name)
    ensures r in order && r.name == name
  {
    var i := 0;
    while order[i].name != name
      invariant 0 <= i < |order|
      invariant exists j :: i <= j < |order| && order[j].name == name
      decreases |order| - i
    {
      i := i + 1;
    }
    r := order[i];
  }

  /** The targets Manual is given: the active worlds in increasing order. */
  function StartTargets(active: set<nat>, below: nat): (names: seq<string>)
    requires below <= 10
    ensures forall b :: b in names <==> exists n :: 0 <= n < below && n in active && b == StartName(n)
  {
    if below == 0 then []
    else StartTargets(active, below - 1) + if below - 1 in active then [StartName(below - 1)] else []
  }

  ghost function Targets(exits: seq<Entrance>): (names: seq<string>)
    requires forall e :: e in exits ==> e.connected != null
    ensures |names| == |exits|
  {
    seq(|exits|, i requires 0 <= i < |exits| => assert exits[i] in exits; (exits[i].connected as Region).name)
  }

  ghost predicate Untouched(r: Region) {
    r.name == "Menu" || r.name == "Manual"
  }

  ghost predicate DistinctNames(order: seq<Region>) {
    forall i, j :: 0 <= i < j < |order| ==> order[i].name != order[j].name
  }

  /** Step 1 over every region but Menu and Manual. */
  method SeverAll(order: seq<Region>)
    requires DistinctNames(order) && Mirror(All(order))
    modifies All(order)`exits, All(order)`entrances
    ensures Mirror(All(order))
    ensures forall r :: r in order ==>
              r.exits == if Untouched(r) then old(r.exits) else KeepIntra(r, old(r.exits))
  {
    ghost var rs := All(order);
    for i := 0 to |order|
      invariant Mirror(rs)
      invariant forall j :: 0 <= j < i ==>
                  order[j].exits == if Untouched(order[j]) then old(order[j].exits)
                                    else KeepIntra(order[j], old(order[j].exits))
      invariant forall j :: i <= j < |order| ==> order[j].exits == old(order[j].exits)
    {
      if order[i].name != "Menu" && order[i].name != "Manual" {
        SeverForeignExits(order[i], rs);
      }
    }
  }

  ghost predicate Connected(exits: seq<Entrance>) {
    forall e :: e in exits ==> e.connected != null
  }

  /** Exits are named for the regions they join, as the access rules look them up. */
  ghost predicate Labelled(from: string, exits: seq<Entrance>) {
    forall e :: e in exits ==> e.connected != null && e.name == from + "To" + e.connected.name
  }

  lemma TargetsSnoc(exits: seq<Entrance>, e: Entrance)
    requires Connected(exits) && e.connected != null
    ensures Connected(exits + [e])
    ensures Targets(exits + [e]) == Targets(exits) + [(e.connected as Region).name]
  {
  }

  /** Step 2: Manual's exits are rebuilt from nothing. */
  method RebuildManual(manual: Region, order: seq<Region>, active: set<nat>)
    requires manual in order && Mirror(All(order)) && HasRegion(order, BOWSER_REGION)
    requires forall n :: n in active ==> n < 10 && HasRegion(order, StartName(n))
    modifies All(order)`exits, All(order)`entrances
    ensures Mirror(All(order))
    ensures forall r :: r in order && r != manual ==> r.exits == old(r.exits)
    ensures Connected(manual.exits) && Labelled("Manual", manual.exits)
    ensures Targets(manual.exits) == StartTargets(active, 10) + [BOWSER_REGION]
  {
    ghost var rs := All(order);
    assert "Manual" + "To" == "ManualTo";
    hide Mirror, StartName, HasRegion;
    DisconnectAll(manual, rs);
    for n := 0 to 10
      invariant Mirror(rs)
      invariant forall r :: r in rs && r != manual ==> r.exits == old(r.exits)
      invariant Connected(manual.exits) && Labelled("Manual", manual.exits)
      invariant Targets(manual.exits) == StartTargets(active, n)
    {
      if n in active {
        var target := GetRegion(order, StartName(n));
        ghost var before := manual.exits;
        var e := Connect(manual, "ManualTo" + StartName(n), target, rs);
        TargetsSnoc(before, e);
      }
    }
    var bowser := GetRegion(order, BOWSER_REGION);
    ghost var before := manual.exits;
    var e := Connect(manual, "ManualTo" + BOWSER_REGION, bowser, rs);
    TargetsSnoc(before, e);
  }

  /** `restructure_regions`: cross-compartment exits go, intra-world ones stay in order,
      and Manual leads to each active Start and to the castle. */
  method RestructureRegions(order: seq<Region>, active: set<nat>)
    requires DistinctNames(order) && Complete(order, active) && Mirror(All(order))
    modifies All(order)`exits, All(order)`entrances
    ensures Mirror(All(order))
    ensures forall r :: r in order && r.name == "Menu" ==> r.exits == old(r.exits)
    ensures forall r :: r in order && !Untouched(r) ==> r.exits == KeepIntra(r, old(r.exits))
    ensures forall r :: r in order && r.name == "Manual" ==>
              Connected(r.exits) && Labelled("Manual", r.exits) && Targets(r.exits) == StartTargets(active, 10) + [BOWSER_REGION]
    ensures Rewritten(old(ExitsNow(All(order))), ExitsNow(All(order)), active)
  {
    SeverAll(order);
    var manual := GetRegion(order, "Manual");
    RebuildManual(manual, order, active);
  }

  // ---- Step 3: locations ----------------------------------------------------------

  /** A location `strip_inactive_locations` leaves in its region. */
  predicate Kept(r: Region, active: set<nat>, l: Location) {
    A.Survives(active, A.Place(l.name, r.name))
  }

  function Keeping(r: Region, active: set<nat>): Location -> bool {
    (l: Location) => Kept(r, active, l)
  }

  function KeepLocations(r: Region, active: set<nat>, ls: seq<Location>): seq<Location> {
    Filter(ls, Keeping(r, active))
  }

  /** The inner loops: over a copy, removing from the live list. */
  method StripRegion(r: Region, active: set<nat>)
    modifies r`locations
    ensures r.locations == KeepLocations(r, active, old(r.locations))
  {
    var copy := r.locations;
    for i := 0 to |copy|
      invariant r.locations == Filter(copy[..i], Keeping(r, active)) + copy[i..]
    {
      FilterInPlace(copy, i, Keeping(r, active));
      if !Kept(r, active, copy[i]) {
        r.locations := Remove(r.locations, copy[i]);
      }
    }
    assert copy[..|copy|] == copy;
  }

  /** `strip_inactive_locations` */
  method StripInactiveLocations(order: seq<Region>, active: set<nat>)
    requires DistinctNames(order)
    modifies All(order)`locations
    ensures forall r :: r in order ==> r.locations == KeepLocations(r, active, old(r.locations))
  {
    for i := 0 to |order|
      invariant forall j :: 0 <= j < i ==>
                  order[j].locations == KeepLocations(order[j], active, old(order[j].locations))
      invariant forall j :: i <= j < |order| ==> order[j].locations == old(order[j].locations)
    {
      StripRegion(order[i], active);
    }
  }

  lemma {:induction false} KeepAll(r: Region, active: set<nat>, ls: seq<Location>)
    requires forall l :: l in ls ==> Kept(r, active, l)
    ensures KeepLocations(r, active, ls) == ls
  {
    if ls != [] {
      var init, last := ls[..|ls| - 1], ls[|ls| - 1];
      assert last in ls && ls == init + [last];
      KeepAll(r, active, init);
    }
  }

  lemma {:induction false} KeepNone(r: Region, active: set<nat>, ls: seq<Location>)
    requires forall l :: l in ls ==> !Kept(r, active, l)
    ensures KeepLocations(r, active, ls) == []
  {
    if ls != [] {
      var init, last := ls[..|ls| - 1], ls[|ls| - 1];
      assert last in ls && ls == init + [last];
      KeepNone(r, active, init);
    }
  }

  /** What stripping leaves, by the region's name: of the castle its courses; nothing of a hub or
      an inactive world; everything of an active world or of any other region. */
  lemma StrippedLists(r: Region, active: set<nat>, ls: seq<Location>)
    ensures r.name == "World Bowser" ==>
              forall l :: l in KeepLocations(r, active, ls) <==> l in ls && |l.name| >= 3 && l.name[..3] == "BC:"
    ensures StartsWith(r.name, "PI ") || r.name in {"Pre-W4 Special", "Special End", "Post-Badge"} ==>
              KeepLocations(r, active, ls) == []
    ensures WorldOf(r.name).Some? && WorldOf(r.name).value !in active ==> KeepLocations(r, active, ls) == []
    ensures WorldOf(r.name).Some? && WorldOf(r.name).value in active ==> KeepLocations(r, active, ls) == ls
    ensures WorldOf(r.name).None? && !IsHub(r.name) && r.name != BOWSER_REGION ==> KeepLocations(r, active, ls) == ls
  {
    KindsExclusive(r.name);
    if forall l :: l in ls ==> Kept(r, active, l) { KeepAll(r, active, ls); }
    if forall l :: l in ls ==> !Kept(r, active, l) { KeepNone(r, active, ls); }
  }

  /** Whatever the tracker can open is still there after stripping, the goal included. */
  lemma OpenIsLeft(k: OpenWorldLogic.Pack, rank: map<string, nat>, slot: OpenWorldLogic.Slot, p: T.Provider, held: bool,
                   r: Region, ls: seq<Location>, l: Location)
    requires k.Valid() && R.Ranked(k.t, rank) && OpenWorldLogic.OpenShape(k.t) && slot.openWorld
    requires l in ls && A.PlaceFits(k, A.Place(l.name, r.name))
    requires A.TrackerPlace(k, rank, slot, p, A.Place(l.name, r.name), held)
    ensures l in KeepLocations(r, slot.ActiveSet(), ls)
  {
    A.OpenSurvives(k, rank, slot, p, held, A.Place(l.name, r.name));
  }

  /** Whether a location's name starts with `prefix`, as `wanted`. */
  function Opening(prefix: string, wanted: bool): Location -> bool {
    (l: Location) => StartsWith(l.name, prefix) == wanted
  }

  function Moved(prefix: string, ls: seq<Location>): seq<Location> {
    Filter(ls, Opening(prefix, true))
  }

  function Unmoved(prefix: string, ls: seq<Location>): seq<Location> {
    Filter(ls, Opening(prefix, false))
  }

  /** Together, what moves and what stays is what was there. */
  lemma MovedParts(prefix: string, ls: seq<Location>)
    ensures multiset(Moved(prefix, ls)) + multiset(Unmoved(prefix, ls)) == multiset(ls)
  {
    FilterParts(ls, Opening(prefix, true), Opening(prefix, false));
  }

  lemma MovedStep(prefix: string, ls: seq<Location>, i: nat)
    requires i < |ls|
    ensures StartsWith(ls[i].name, prefix) ==>
              && ls[i] in Unmoved(prefix, ls[..i]) + ls[i..]
              && Remove(Unmoved(prefix, ls[..i]) + ls[i..], ls[i]) == Unmoved(prefix, ls[..i + 1]) + ls[i + 1..]
              && Moved(prefix, ls[..i + 1]) == Moved(prefix, ls[..i]) + [ls[i]]
    ensures !StartsWith(ls[i].name, prefix) ==>
              && Unmoved(prefix, ls[..i]) + ls[i..] == Unmoved(prefix, ls[..i + 1]) + ls[i + 1..]
              && Moved(prefix, ls[..i + 1]) == Moved(prefix, ls[..i])
  {
    FilterInPlace(ls, i, Opening(prefix, false));
    FilterSnoc(ls, i, Opening(prefix, true));
  }

  method MoveLocation(start: Region, manual: Region, l: Location)
    requires start != manual && l in start.locations
    modifies start`locations, manual`locations, l`parentRegion
    ensures start.locations == Remove(old(start.locations), l) && manual.locations == old(manual.locations) + [l]
    ensures l.parentRegion == manual
  {
    start.locations := Remove(start.locations, l);
    l.parentRegion := manual;
    manual.locations := manual.locations + [l];
  }

  /** `ungate_opening_course`: the opening course's locations leave the Start region for
      Manual, in order, and the rest stay. */
  method UngateOpeningCourse(start: Region, manual: Region, prefix: string) returns (moved: nat)
    requires start != manual
    modifies start`locations, manual`locations, start.locations
    ensures start.locations == Unmoved(prefix, old(start.locations))
    ensures manual.locations == old(manual.locations) + Moved(prefix, old(start.locations))
    ensures moved == |Moved(prefix, old(start.locations))|
    ensures forall l :: l in Moved(prefix, old(start.locations)) ==> l.parentRegion == manual
  {
    var copy := start.locations;
    moved := 0;
    for i := 0 to |copy|
      invariant start.locations == Unmoved(prefix, copy[..i]) + copy[i..]
      invariant manual.locations == old(manual.locations) + Moved(prefix, copy[..i])
      invariant moved == |Moved(prefix, copy[..i])|
      invariant forall l :: l in Moved(prefix, copy[..i]) ==> l.parentRegion == manual
    {
      hide Moved, Unmoved, StartsWith;
      MovedStep(prefix, copy, i);
      if StartsWith(copy[i].name, prefix) {
        MoveLocation(start, manual, copy[i]);
        moved := moved + 1;
      }
    }
    assert copy[..|copy|] == copy;
  }

  // ---- The edges that remain ------------------------------------------------------

  /** The exits of every region at one moment. */
  type Exits = map<Region, seq<Entrance>>

  ghost function ExitsNow(rs: set<Region>): Exits
    reads rs
  {
    map r | r in rs :: r.exits
  }

  ghost predicate HasEdge(x: Exits, a: string, b: string) {
    exists r, e :: r in x && e in x[r] && r.name == a && e.connected != null && e.connected.name == b
  }

  /** Menu's own edges, Manual to each active Start and to the castle, and the original
      edges within a world. */
  ghost predicate RewrittenEdge(x: Exits, active: set<nat>, a: string, b: string) {
    || (a == "Menu" && HasEdge(x, a, b))
    || (a == "Manual" && (b == BOWSER_REGION || exists n :: n in active && n < 10 && b == StartName(n)))
    || (WorldOf(a).Some? && WorldOf(a) == WorldOf(b) && HasEdge(x, a, b))
  }

  ghost predicate Rewritten(x: Exits, y: Exits, active: set<nat>) {
    && x.Keys == y.Keys
    && (forall r :: r in x && r.name == "Menu" ==> y[r] == x[r])
    && (forall r :: r in x && !Untouched(r) ==> y[r] == KeepIntra(r, x[r]))
    && (forall r :: r in x && r.name == "Manual" ==>
          Connected(y[r]) && Targets(y[r]) == StartTargets(active, 10) + [BOWSER_REGION])
  }

  lemma RewrittenHasEdge(x: Exits, y: Exits, active: set<nat>, a: string, b: string)
    requires Rewritten(x, y, active) && HasEdge(y, a, b)
    ensures RewrittenEdge(x, active, a, b)
  {
    var r, e :| r in y && e in y[r] && r.name == a && e.connected != null && e.connected.name == b;
    if a == "Manual" {
      var i :| 0 <= i < |y[r]| && y[r][i] == e;
      assert Targets(y[r])[i] == b;
      assert b in StartTargets(active, 10) + [BOWSER_REGION];
    } else if a != "Menu" {
      assert e in x[r];
    }
  }

  lemma RewrittenKeepsEdge(x: Exits, y: Exits, active: set<nat>, a: string, b: string)
    requires Rewritten(x, y, active) && RewrittenEdge(x, active, a, b)
    requires exists r :: r in x && r.name == "Manual"
    ensures HasEdge(y, a, b)
  {
    if a == "Manual" {
      var r :| r in x && r.name == "Manual";
      assert b in StartTargets(active, 10) + [BOWSER_REGION];
      var i :| 0 <= i < |Targets(y[r])| && Targets(y[r])[i] == b;
      assert y[r][i] in y[r];
    } else {
      var r, e :| r in x && e in x[r] && r.name == a && e.connected != null && e.connected.name == b;
      if a != "Menu" {
        assert StaysInWorld(r, e);
      }
      assert e in y[r];
    }
  }

  /** After `restructure_regions` the edges are exactly the rewritten ones. */
  lemma EdgesExactly(x: Exits, y: Exits, active: set<nat>)
    requires Rewritten(x, y, active) && exists r :: r in x && r.name == "Manual"
    ensures forall a, b :: HasEdge(y, a, b) <==> RewrittenEdge(x, active, a, b)
  {
    forall a, b ensures HasEdge(y, a, b) <==> RewrittenEdge(x, active, a, b) {
      if HasEdge(y, a, b) { RewrittenHasEdge(x, y, active, a, b); }
      if RewrittenEdge(x, active, a, b) { RewrittenKeepsEdge(x, y, active, a, b); }
    }
  }

  // ---- What can still be reached --------------------------------------------------

  /** All entrances, taken as open. */
  ghost function EdgesOf(x: Exits): iset<R.Edge> {
    iset e: R.Edge | e.open && HasEdge(x, e.src, e.dst)
  }

  ghost predicate MenuLeadsToManual(x: Exits) {
    forall b :: HasEdge(x, "Menu", b) <==> b == "Manual"
  }

  /** Every region reachable from Menu is Menu, Manual, the castle, or in an active world. */
  lemma OnlyActiveReached(x: Exits, y: Exits, active: set<nat>, name: string)
    requires Rewritten(x, y, active) && MenuLeadsToManual(x)
    requires R.Reached(EdgesOf(y), name)
    ensures name in {"Menu", "Manual", BOWSER_REGION} || (WorldOf(name).Some? && WorldOf(name).value in active)
  {
    var s := iset a: string | a in {"Menu", "Manual", BOWSER_REGION} || (WorldOf(a).Some? && WorldOf(a).value in active);
    forall e | e in EdgesOf(y) && e.open && e.src in s ensures e.dst in s {
      RewrittenHasEdge(x, y, active, e.src, e.dst);
    }
    assert R.Closed(EdgesOf(y), s);
  }

  /** `name` can be reached from the Start of world n without leaving the world. */
  ghost predicate InternallyReached(x: Exits, n: nat, name: string)
    requires n < 10
  {
    forall s: iset<string> ::
      StartName(n) in s
      && (forall a, b :: a in s && WorldOf(a) == WorldOf(b) == Some(n) && HasEdge(x, a, b) ==> b in s)
      ==> name in s
  }

  predicate Classified(name: string) {
    name in {"Menu", "Manual", BOWSER_REGION} || IsHub(name) || WorldOf(name).Some?
  }

  /** When every active world is connected from its Start and every region classified, no
      location that survives the strip is in an unreachable region. */
  lemma SurvivorsReached(x: Exits, y: Exits, active: set<nat>, r: Region, ls: seq<Location>, l: Location)
    requires Rewritten(x, y, active) && MenuLeadsToManual(x)
    requires exists m :: m in x && m.name == "Manual"
    requires forall n :: n in active ==> n < 10
    requires forall q, n :: q in x && n in active && n < 10 && WorldOf(q.name) == Some(n) ==> InternallyReached(x, n, q.name)
    requires r in x && Classified(r.name) && l in KeepLocations(r, active, ls)
    ensures R.Reached(EdgesOf(y), r.name)
  {
    EdgesExactly(x, y, active);
    assert Kept(r, active, l);
    KindsExclusive(r.name);
    var edges := EdgesOf(y);
    assert R.Edge("Menu", "Manual", true) in edges;
    R.ThroughEdge(edges, R.Edge("Menu", "Manual", true));
    if r.name == BOWSER_REGION {
      R.ThroughManual(edges, r.name);
    } else if WorldOf(r.name).Some? {
      var n := WorldOf(r.name).value;
      R.ThroughManual(edges, StartName(n));
      WithinWorldReached(x, y, active, n, r.name);
    }
  }

  lemma WithinWorldReached(x: Exits, y: Exits, active: set<nat>, n: nat, name: string)
    requires n < 10 && InternallyReached(x, n, name)
    requires forall a, b :: HasEdge(y, a, b) <==> RewrittenEdge(x, active, a, b)
    requires R.Reached(EdgesOf(y), StartName(n))
    ensures R.Reached(EdgesOf(y), name)
  {
    forall s | R.Closed(EdgesOf(y), s) ensures name in s {
      assert StartName(n) in s;
      forall a, b | a in s && WorldOf(a) == WorldOf(b) == Some(n) && HasEdge(x, a, b) ensures b in s {
        assert R.Edge(a, b, true) in EdgesOf(y);
      }
    }
  }

  // ---- The table the graph was built from -----------------------------------------

  /** The exits `create_regions` made from the table. */
  ghost predicate BuiltFrom(x: Exits, t: R.Table) {
    forall a, b :: HasEdge(x, a, b) <==>
      || (a == "Menu" && b == "Manual")
      || (a == "Manual" && t.StartsIn(b))
      || (a in t.info && b in t.info[a].connectsTo)
  }

  /** The rewritten graph is the one whose reachability the tracker's open-world rules
      are compared with. */
  lemma RewrittenIsOpenEdges(x: Exits, y: Exits, t: R.Table, active: set<nat>,
                             gate: string -> bool, req: string -> bool, a: string, b: string)
    requires t.Valid() && BuiltFrom(x, t) && Rewritten(x, y, active)
    requires exists m :: m in x && m.name == "Manual"
    requires forall n :: n in active ==> n < 10
    ensures HasEdge(y, a, b) <==>
            exists open :: R.Edge(a, b, open) in OpenWorldLogic.OpenEdges(t, active, gate, req)
  {
    EdgesExactly(x, y, active);
    KindsExclusive(a);
    if a == "Manual" && StartNum(b).Some? {
      StartNameUnique(b);
    }
    if HasEdge(y, a, b) {
      var open := if a == "Menu" then true else if a == "Manual" then gate(b) else req(a);
      assert R.Edge(a, b, open) in OpenWorldLogic.OpenEdges(t, active, gate, req);
    }
  }
}
