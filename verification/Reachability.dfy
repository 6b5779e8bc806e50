/** Region reachability: the Archipelago fixpoint and the tracker's region functions. */
module Reachability {

  /** A region of the table: may play start in it, and where do its exits lead. */
  datatype Region = Region(starting: bool, connectsTo: seq<string>)

  /** The region table, in the order of the data file. */
  datatype Table = Table(names: seq<string>, info: map<string, Region>)
  {
    /** What the generator and the randomizer both take for granted: every listed name
        has an entry, exits lead to listed regions, and the two menu names are free. */
    ghost predicate Valid() {
      && (forall r :: r in names <==> r in info)
      && (forall r, d :: r in info && d in info[r].connectsTo ==> d in info)
      && "Menu" !in info && "Manual" !in info
    }

    predicate HasStarting() {
      exists r :: r in names && r in info && info[r].starting
    }

    /** `starting_regions`: the flagged regions, or every region when none is flagged. */
    predicate StartsIn(r: string) {
      r in info && (info[r].starting || !HasStarting())
    }
  }

  /** `parents[dst]`: the sources of its incoming connections, in table order. */
  function Parents(t: Table, dst: string): (ps: seq<string>)
    requires t.Valid()
    ensures forall p :: p in ps <==> p in t.info && dst in t.info[p].connectsTo
  {
    ParentsAmong(t, t.names, dst)
  }

  function ParentsAmong(t: Table, names: seq<string>, dst: string): (ps: seq<string>)
    requires t.Valid() && forall r :: r in names ==> r in t.info
    ensures forall p :: p in ps <==> p in names && dst in t.info[p].connectsTo
  {
    if names == [] then []
    else Repeat(names[0], t.info[names[0]].connectsTo, dst) + ParentsAmong(t, names[1..], dst)
  }

  /** One entry per connection to `dst`. */
  function Repeat(src: string, targets: seq<string>, dst: string): (ps: seq<string>)
    ensures forall p :: p in ps <==> p == src && dst in targets
  {
    if targets == [] then []
    else (if targets[0] == dst then [src] else []) + Repeat(src, targets[1..], dst)
  }

  // ---- The Archipelago side -------------------------------------------------------

  /** An entrance and whether its access rule holds. */
  datatype Edge = Edge(src: string, dst: string, open: bool)

  ghost predicate Closed(edges: iset<Edge>, s: iset<string>) {
    "Menu" in s && forall e :: e in edges && e.open && e.src in s ==> e.dst in s
  }

  /** In the least set that holds Menu and is closed under open entrances. */
  ghost predicate Reached(edges: iset<Edge>, r: string) {
    forall s :: Closed(edges, s) ==> r in s
  }

  /** `Reached` is itself closed, and lies within every closed set. */
  lemma ReachedIsLeastFixpoint(edges: iset<Edge>)
    ensures Closed(edges, iset r | Reached(edges, r))
    ensures forall s :: Closed(edges, s) ==> (iset r | Reached(edges, r)) <= s
  {
    forall e | e in edges && e.open && Reached(edges, e.src) ensures Reached(edges, e.dst) {
      forall s | Closed(edges, s) ensures e.dst in s {
        assert e.src in s;
      }
    }
  }

  /** Opening more entrances loses no region. */
  lemma ReachedMonotone(lo: iset<Edge>, hi: iset<Edge>, r: string)
    requires forall e :: e in lo && e.open ==> e in hi
    requires Reached(lo, r)
    ensures Reached(hi, r)
  {
    forall s | Closed(hi, s) ensures r in s {
      assert Closed(lo, s);
    }
  }

  lemma ThroughEdge(edges: iset<Edge>, e: Edge)
    requires e in edges && e.open && Reached(edges, e.src)
    ensures Reached(edges, e.dst)
  {
    forall s | Closed(edges, s) ensures e.dst in s {
      assert e.src in s;
    }
  }

  lemma ThroughManual(edges: iset<Edge>, r: string)
    requires Edge("Menu", "Manual", true) in edges && Edge("Manual", r, true) in edges
    ensures Reached(edges, r)
  {
    ThroughEdge(edges, Edge("Menu", "Manual", true));
    ThroughEdge(edges, Edge("Manual", r, true));
  }

  /** The entrances `create_regions` makes, with the rules `set_rules` gives them: those of
      Menu and Manual are open, an exit of `r` carries the requirement of `r`. */
  ghost function StandardEdges(t: Table, req: string -> bool): iset<Edge> {
    iset e: Edge |
      || e == Edge("Menu", "Manual", true)
      || (e.src == "Manual" && t.StartsIn(e.dst) && e.open)
      || (e.src in t.info && e.dst in t.info[e.src].connectsTo && e.open == req(e.src))
  }

  /** A location is accessible when its rule holds, which includes its region's
      requirement, and its region is reached. */
  ghost predicate LocationAccess(edges: iset<Edge>, req: string -> bool, region: string, locReq: bool) {
    (locReq && req(region)) && Reached(edges, region)
  }

  // ---- The tracker side -----------------------------------------------------------

  /** `rank` certifies that the graph is acyclic: parents rank below their children. */
  ghost predicate Ranked(t: Table, rank: map<string, nat>)
    requires t.Valid()
  {
    && (forall r :: r in t.info ==> r in rank)
    && (forall r, p :: r in t.info && p in Parents(t, r) ==> rank[p] < rank[r])
  }

  /** `full(R) = R.requires AND (starting OR OR(full(parents)))` */
  ghost predicate Full(t: Table, req: string -> bool, rank: map<string, nat>, r: string)
    requires t.Valid() && Ranked(t, rank) && r in t.info
    decreases rank[r]
  {
    req(r) && (t.info[r].starting || exists p :: p in Parents(t, r) && Full(t, req, rank, p))
  }

  lemma {:induction false} FullIsReached(t: Table, req: string -> bool, rank: map<string, nat>, r: string)
    requires t.Valid() && Ranked(t, rank) && r in t.info && Full(t, req, rank, r)
    ensures Reached(StandardEdges(t, req), r)
    decreases rank[r]
  {
    var edges := StandardEdges(t, req);
    if t.info[r].starting {
      ThroughManual(edges, r);
    } else {
      var p :| p in Parents(t, r) && Full(t, req, rank, p);
      FullIsReached(t, req, rank, p);
      ThroughEdge(edges, Edge(p, r, true));
    }
  }

  /** A region is entered from outside: it starts, or some parent is full. */
  ghost predicate Entered(t: Table, req: string -> bool, rank: map<string, nat>, r: string)
    requires t.Valid() && Ranked(t, rank) && r in t.info
  {
    t.info[r].starting || exists p :: p in Parents(t, r) && Full(t, req, rank, p)
  }

  lemma EnteredIsClosed(t: Table, req: string -> bool, rank: map<string, nat>)
    requires t.Valid() && Ranked(t, rank) && t.HasStarting()
    ensures Closed(StandardEdges(t, req),
                   iset x | x in {"Menu", "Manual"} || (x in t.info && Entered(t, req, rank, x)))
  {
    var s := iset x | x in {"Menu", "Manual"} || (x in t.info && Entered(t, req, rank, x));
    forall e | e in StandardEdges(t, req) && e.open && e.src in s ensures e.dst in s {
      if e.src in t.info {
        assert Full(t, req, rank, e.src);
        assert e.src in Parents(t, e.dst);
      }
    }
  }

  /** For an acyclic table with a starting region: the tracker's region function is true
      exactly when Archipelago reaches the region and its own requirement holds. */
  lemma TrackerMatchesFixpoint(t: Table, req: string -> bool, rank: map<string, nat>, r: string)
    requires t.Valid() && Ranked(t, rank) && r in t.info && t.HasStarting()
    ensures Full(t, req, rank, r) <==> Reached(StandardEdges(t, req), r) && req(r)
  {
    if Full(t, req, rank, r) {
      FullIsReached(t, req, rank, r);
    }
    EnteredIsClosed(t, req, rank);
    if Reached(StandardEdges(t, req), r) && req(r) {
      assert Entered(t, req, rank, r);
    }
  }

  lemma {:induction false} NothingFullWithoutStart(t: Table, req: string -> bool, rank: map<string, nat>, r: string)
    requires t.Valid() && Ranked(t, rank) && r in t.info && !t.HasStarting()
    ensures !Full(t, req, rank, r)
    decreases rank[r]
  {
    forall p | p in Parents(t, r) ensures !Full(t, req, rank, p) {
      NothingFullWithoutStart(t, req, rank, p);
    }
  }

  ghost predicate SidesAgree(t: Table, req: string -> bool, rank: map<string, nat>)
    requires t.Valid() && Ranked(t, rank)
  {
    forall r :: r in t.info ==>
      (Full(t, req, rank, r) <==> Reached(StandardEdges(t, req), r) && req(r))
  }

  /** Without a flagged starting region Archipelago starts everywhere and the tracker
      nowhere, so the two sides agree exactly when some region is flagged or no region's
      requirement holds. */
  lemma SidesAgreeIff(t: Table, req: string -> bool, rank: map<string, nat>)
    requires t.Valid() && Ranked(t, rank)
    ensures SidesAgree(t, req, rank) <==>
            t.HasStarting() || forall r :: r in t.info ==> !req(r)
  {
    var edges := StandardEdges(t, req);
    if t.HasStarting() {
      forall r | r in t.info
        ensures Full(t, req, rank, r) <==> Reached(edges, r) && req(r)
      {
        TrackerMatchesFixpoint(t, req, rank, r);
      }
    } else {
      forall r | r in t.info
        ensures !Full(t, req, rank, r) && Reached(edges, r)
      {
        NothingFullWithoutStart(t, req, rank, r);
        ThroughManual(edges, r);
      }
    }
  }

  /** Hence a location's access is the same on both sides. */
  lemma LocationAccessMatches(t: Table, req: string -> bool, rank: map<string, nat>,
                              region: string, locReq: bool)
    requires t.Valid() && Ranked(t, rank) && region in t.info && t.HasStarting()
    ensures LocationAccess(StandardEdges(t, req), req, region, locReq) <==>
            Full(t, req, rank, region) && locReq
  {
    TrackerMatchesFixpoint(t, req, rank, region);
  }

  /** Access is monotone in the requirements that hold. */
  lemma LocationAccessMonotone(t: Table, lo: string -> bool, hi: string -> bool, region: string,
                               locLo: bool, locHi: bool)
    requires forall r :: lo(r) ==> hi(r)
    requires locLo ==> locHi
    requires LocationAccess(StandardEdges(t, lo), lo, region, locLo)
    ensures LocationAccess(StandardEdges(t, hi), hi, region, locHi)
  {
    ReachedMonotone(StandardEdges(t, lo), StandardEdges(t, hi), region);
  }
}
