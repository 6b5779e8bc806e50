/** `create_regions`: the graph that both reachability forms talk about. */
module CreateRegions {
  import opened Lists
  import opened OpenWorldGraph

  /** `starting_regions`, with its fallback to every region. */
  function StartList(t: R.Table): (names: seq<string>)
    requires t.Valid()
    ensures forall r :: r in names <==> t.StartsIn(r)
  {
    var flagged := Flagged(t, t.names);
    if flagged == [] then
      assert forall r :: r in t.names && t.info[r].starting ==> r in flagged;
      t.names
    else
      assert flagged[0] in t.names;
      flagged
  }

  function Flagged(t: R.Table, names: seq<string>): (r: seq<string>)
    requires t.Valid() && forall n :: n in names ==> n in t.info
    ensures forall n :: n in r <==> n in names && t.info[n].starting
  {
    if names == [] then []
    else (if t.info[names[0]].starting then [names[0]] else []) + Flagged(t, names[1..])
  }

  /** Where the exits of a region lead, in order. */
  function ExitTargets(t: R.Table, name: string): seq<string>
    requires t.Valid()
  {
    if name == "Menu" then ["Manual"]
    else if name == "Manual" then StartList(t)
    else if name in t.info then t.info[name].connectsTo
    else []
  }

  /** The regions in the order they are made: the table, Manual, Menu. */
  function AllNames(t: R.Table): seq<string> {
    t.names + ["Manual", "Menu"]
  }

  ghost predicate Named(order: seq<Region>, names: seq<string>) {
    |order| == |names| && forall i :: 0 <= i < |order| ==> order[i].name == names[i]
  }

  /** One region's exits, each connected to the region it names. */
  method ConnectExits(region: Region, targets: seq<string>, order: seq<Region>)
    requires region in order && region.exits == [] && Mirror(All(order))
    requires forall n :: n in targets ==> HasRegion(order, n)
    modifies All(order)`exits, All(order)`entrances
    ensures Mirror(All(order))
    ensures Connected(region.exits) && Labelled(region.name, region.exits) && Targets(region.exits) == targets
    ensures forall r :: r in order && r != region ==> r.exits == old(r.exits)
  {
    for i := 0 to |targets|
      invariant Mirror(All(order))
      invariant Connected(region.exits) && Labelled(region.name, region.exits) && Targets(region.exits) == targets[..i]
      invariant forall r :: r in order && r != region ==> r.exits == old(r.exits)
    {
      assert targets[i] in targets;
      var target := GetRegion(order, targets[i]);
      ghost var before := region.exits;
      var e := Connect(region, region.name + "To" + targets[i], target, All(order));
      TargetsSnoc(before, e);
      assert targets[..i + 1] == targets[..i] + [targets[i]];
    }
    assert targets[..|targets|] == targets;
  }

  /** A row of the location table, and whether the options leave it enabled. */
  datatype Row = Row(name: string, region: string, enabled: bool)

  /** The names of the enabled locations of a region, in the order of the table; Menu has none. */
  function NamesIn(table: seq<Row>, region: string): seq<string> {
    if table == [] || region == "Menu" then []
    else
      var init, last := table[..|table| - 1], table[|table| - 1];
      NamesIn(init, region) + if last.region == region && last.enabled then [last.name] else []
  }

  function NamesOf(ls: seq<Location>): seq<string> {
    seq(|ls|, i requires 0 <= i < |ls| => ls[i].name)
  }

  /** The region has just the locations the table gives it, and they know it. */
  ghost predicate Located(r: Region, table: seq<Row>)
    reads r, r.locations
  {
    NamesOf(r.locations) == NamesIn(table, r.name) && forall l :: l in r.locations ==> l.parentRegion == r
  }

  method AddLocations(r: Region, table: seq<Row>)
    requires r.locations == []
    modifies r`locations
    ensures Located(r, table) && forall l :: l in r.locations ==> fresh(l)
  {
    if r.name == "Menu" { return; }
    for i := 0 to |table|
      invariant Located(r, table[..i]) && forall l :: l in r.locations ==> fresh(l)
    {
      assert table[..i + 1][..i] == table[..i];
      if table[i].region == r.name && table[i].enabled {
        var l := new Location(table[i].name, r);
        ghost var before := r.locations;
        r.locations := r.locations + [l];
        assert NamesOf(r.locations) == NamesOf(before) + [table[i].name];
      }
    }
    assert table[..|table|] == table;
  }

  method MakeRegions(names: seq<string>, table: seq<Row>) returns (order: seq<Region>)
    requires Distinct(names)
    ensures Named(order, names) && DistinctNames(order)
    ensures fresh(All(order))
    ensures forall r :: r in order ==> r.exits == [] && r.entrances == [] && Located(r, table)
  {
    order := [];
    for i := 0 to |names|
      invariant |order| == i && forall j :: 0 <= j < i ==> order[j].name == names[j]
      invariant fresh(All(order))
      invariant forall r :: r in order ==> r.exits == [] && r.entrances == [] && Located(r, table)
    {
      hide Located;
      var r := new Region(names[i]);
      assert r !in order;
      AddLocations(r, table);
      assert forall q :: q in order + [r] ==> q == r || q in All(order);
      order := order + [r];
    }
  }

  method ConnectAll(t: R.Table, order: seq<Region>)
    requires t.Valid() && Named(order, AllNames(t)) && DistinctNames(order) && Mirror(All(order))
    requires forall r :: r in order ==> r.exits == []
    modifies All(order)`exits, All(order)`entrances
    ensures Mirror(All(order))
    ensures forall j :: 0 <= j < |order| ==>
              && Connected(order[j].exits) && Labelled(order[j].name, order[j].exits)
              && Targets(order[j].exits) == ExitTargets(t, AllNames(t)[j])
  {
    var names := AllNames(t);
    TargetsExist(t, order);
    for i := 0 to |order|
      invariant Mirror(All(order))
      invariant forall j :: 0 <= j < i ==>
                  && Connected(order[j].exits) && Labelled(order[j].name, order[j].exits)
                  && Targets(order[j].exits) == ExitTargets(t, names[j])
      invariant forall j :: i <= j < |order| ==> order[j].exits == []
    {
      hide AllNames, ExitTargets, Targets, Connected, Labelled;
      assert names[i] in names;
      ConnectExits(order[i], ExitTargets(t, names[i]), order);
    }
  }

  /** The result is mirrored, its edges are those of the region table, and its locations those of
      the location table. */
  method Create(t: R.Table, table: seq<Row>) returns (order: seq<Region>)
    requires t.Valid() && Distinct(t.names)
    ensures fresh(All(order)) && Named(order, AllNames(t)) && DistinctNames(order)
    ensures Mirror(All(order))
    ensures BuiltFrom(ExitsNow(All(order)), t)
    ensures forall r :: r in order ==> Located(r, table) && Labelled(r.name, r.exits)
  {
    hide BuiltFrom, ExitTargets, Targets, Connected, Labelled, NamesIn, NamesOf;
    NamesDistinct(t);
    order := MakeRegions(AllNames(t), table);
    ConnectAll(t, order);
    ExitsGiveEdges(t, order, ExitsNow(All(order)));
  }

  lemma NamesDistinct(t: R.Table)
    requires t.Valid() && Distinct(t.names)
    ensures Distinct(AllNames(t))
  {
    forall i | 0 <= i < |t.names| ensures t.names[i] != "Manual" && t.names[i] != "Menu" {
      assert t.names[i] in t.names;
    }
  }

  lemma TargetsExist(t: R.Table, order: seq<Region>)
    requires t.Valid() && Named(order, AllNames(t))
    ensures forall a, b :: a in AllNames(t) && b in ExitTargets(t, a) ==> HasRegion(order, b)
  {
    forall a, b | a in AllNames(t) && b in ExitTargets(t, a) ensures HasRegion(order, b) {
      assert b in AllNames(t);
      var i :| 0 <= i < |AllNames(t)| && AllNames(t)[i] == b;
      assert order[i].name == b;
    }
  }

  lemma ExitsGiveEdges(t: R.Table, order: seq<Region>, x: Exits)
    requires t.Valid() && Named(order, AllNames(t)) && DistinctNames(order)
    requires x.Keys == All(order)
    requires forall r :: r in order ==> Connected(x[r]) && Targets(x[r]) == ExitTargets(t, r.name)
    ensures BuiltFrom(x, t)
  {
    forall a, b ensures HasEdge(x, a, b) <==> b in ExitTargets(t, a) && a in AllNames(t) {
      if HasEdge(x, a, b) {
        var r, e :| r in x && e in x[r] && r.name == a && e.connected != null && e.connected.name == b;
        var i :| 0 <= i < |x[r]| && x[r][i] == e;
        assert Targets(x[r])[i] == b;
      }
      if b in ExitTargets(t, a) && a in AllNames(t) {
        var j :| 0 <= j < |AllNames(t)| && AllNames(t)[j] == a;
        var r := order[j];
        var i :| 0 <= i < |Targets(x[r])| && Targets(x[r])[i] == b;
        assert x[r][i] in x[r];
      }
    }
  }
}
