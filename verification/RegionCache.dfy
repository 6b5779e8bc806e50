/** GEN and RCACHE: the memo that the emitted Lua keeps for its region functions. */
module RegionCache {
  import opened Reachability
  import opened TrackerCompiler
  import opened WorldNames
  import opened OpenWorldLogic
  import opened OpenWorldAccess

  /** `{gen = GEN, v = v}` */
  datatype Stamp = Stamp(gen: nat, v: bool)

  /** The Lua state: what Tracker and SLOT_DATA hold, GEN, and RCACHE. */
  datatype State = State(p: Provider, slot: Slot, gen: nat, cache: map<string, Stamp>)

  /** A function emitted as a bare constant, which never touches the cache: no open-world
      body, and nothing left of the standard one but an access level. */
  predicate IsConstant(k: Pack, r: string)
    requires r in k.req && r in k.t.info
  {
    && StartNum(r).None? && r != BOWSER_REGION && !IsHub(r)
    && k.req[r] == True
    && (k.t.info[r].starting || forall q :: q in k.t.info ==> r !in k.t.info[q].connectsTo)
  }

  // ---- One call -------------------------------------------------------------------

  /** `R_<r>()`: a hit in the current generation, or a computation that is stored. */
  ghost function Call(k: Pack, rank: map<string, nat>, s: State, r: string): (State, bool)
    requires k.Valid() && Ranked(k.t, rank) && r in k.t.info
    decreases rank[r], 1, 0
  {
    if IsConstant(k, r) then (s, k.t.info[r].starting)
    else if r in s.cache && s.cache[r].gen == s.gen then (s, s.cache[r].v)
    else
      var own := OpenBody(k, s.slot, s.p, r);
      var (s1, v) := if s.slot.openWorld && own.Some? then (s, own.value) else Body(k, rank, s, r);
      (Store(s1, r, v), v)
  }

  /** `ALL(req, ANY(parents))`: Lua evaluates every parent call before ANY sees them. */
  ghost function Body(k: Pack, rank: map<string, nat>, s: State, r: string): (State, bool)
    requires k.Valid() && Ranked(k.t, rank) && r in k.t.info
    decreases rank[r], 0, |Parents(k.t, r)| + 1
  {
    if k.t.info[r].starting then (s, Eval(k.req[r], s.p))
    else
      var (s1, any) := CallAll(k, rank, s, r, Parents(k.t, r));
      (s1, Eval(k.req[r], s1.p) && any)
  }

  ghost function CallAll(k: Pack, rank: map<string, nat>, s: State, r: string, ps: seq<string>): (State, bool)
    requires k.Valid() && Ranked(k.t, rank) && r in k.t.info
    requires forall q :: q in ps ==> q in Parents(k.t, r)
    decreases rank[r], 0, |ps|
  {
    if ps == [] then (s, false)
    else
      var (s1, v) := Call(k, rank, s, ps[0]);
      var (s2, any) := CallAll(k, rank, s1, r, ps[1..]);
      (s2, v || any)
  }

  // ---- Coherence ------------------------------------------------------------------

  /** Every entry of the current generation holds what a recomputation would give. */
  ghost predicate Coherent(k: Pack, rank: map<string, nat>, s: State)
    requires k.Valid() && Ranked(k.t, rank)
  {
    forall r :: r in s.cache ==>
      && r in k.t.info
      && s.cache[r].gen <= s.gen
      && (s.cache[r].gen == s.gen ==> s.cache[r].v == RegionRule(k, rank, s.slot, s.p, r))
  }

  /** The same inputs and generation; at most more entries. */
  ghost predicate SameInputs(s: State, s1: State) {
    s1.p == s.p && s1.slot == s.slot && s1.gen == s.gen
  }

  lemma ConstantRule(k: Pack, rank: map<string, nat>, s: State, r: string)
    requires k.Valid() && Ranked(k.t, rank) && r in k.t.info && IsConstant(k, r)
    ensures RegionRule(k, rank, s.slot, s.p, r) == k.t.info[r].starting
  {
    if !k.t.info[r].starting {
      assert forall q :: q !in Parents(k.t, r);
    }
  }

  function Store(s: State, r: string, v: bool): State {
    s.(cache := s.cache[r := Stamp(s.gen, v)])
  }

  lemma StoreCoherent(k: Pack, rank: map<string, nat>, s: State, r: string, v: bool)
    requires k.Valid() && Ranked(k.t, rank) && r in k.t.info && Coherent(k, rank, s)
    requires v == RegionRule(k, rank, s.slot, s.p, r)
    ensures Coherent(k, rank, Store(s, r, v))
  {
  }

  /** A call returns the uncached value and keeps the cache coherent, whatever entries
      its nested calls add. */
  lemma {:induction false} CallCoherent(k: Pack, rank: map<string, nat>, s: State, r: string)
    requires k.Valid() && Ranked(k.t, rank) && r in k.t.info && Coherent(k, rank, s)
    ensures var (s1, v) := Call(k, rank, s, r);
            && v == RegionRule(k, rank, s.slot, s.p, r)
            && SameInputs(s, s1) && Coherent(k, rank, s1)
    decreases rank[r], 1, 0
  {
    if IsConstant(k, r) {
      ConstantRule(k, rank, s, r);
    } else if r in s.cache && s.cache[r].gen == s.gen {
    } else if s.slot.openWorld && OpenBody(k, s.slot, s.p, r).Some? {
      StoreCoherent(k, rank, s, r, OpenBody(k, s.slot, s.p, r).value);
    } else {
      BodyCoherent(k, rank, s, r);
      var (s1, v) := Body(k, rank, s, r);
      StoreCoherent(k, rank, s1, r, v);
    }
  }

  lemma {:induction false} BodyCoherent(k: Pack, rank: map<string, nat>, s: State, r: string)
    requires k.Valid() && Ranked(k.t, rank) && r in k.t.info && Coherent(k, rank, s)
    requires !(s.slot.openWorld && OpenBody(k, s.slot, s.p, r).Some?)
    ensures var (s1, v) := Body(k, rank, s, r);
            && v == RegionRule(k, rank, s.slot, s.p, r)
            && SameInputs(s, s1) && Coherent(k, rank, s1)
    decreases rank[r], 0, |Parents(k.t, r)| + 1
  {
    if !k.t.info[r].starting {
      CallAllCoherent(k, rank, s, r, Parents(k.t, r));
    }
  }

  lemma {:induction false} CallAllCoherent(k: Pack, rank: map<string, nat>, s: State, r: string, ps: seq<string>)
    requires k.Valid() && Ranked(k.t, rank) && r in k.t.info && Coherent(k, rank, s)
    requires forall q :: q in ps ==> q in Parents(k.t, r)
    ensures var (s1, any) := CallAll(k, rank, s, r, ps);
            && (any <==> exists q :: q in ps && RegionRule(k, rank, s.slot, s.p, q))
            && SameInputs(s, s1) && Coherent(k, rank, s1)
    decreases rank[r], 0, |ps|
  {
    if ps != [] {
      CallCoherent(k, rank, s, ps[0]);
      var s1 := Call(k, rank, s, ps[0]).0;
      CallAllCoherent(k, rank, s1, r, ps[1..]);
      if q :| q in ps && RegionRule(k, rank, s.slot, s.p, q) {
        assert q == ps[0] || q in ps[1..];
      }
    }
  }

  // ---- The Lua state as an object -------------------------------------------------

  function Changed(s: State, p: Provider, slot: Slot): State {
    State(p, slot, s.gen + 1, s.cache)
  }

  /** A location's rule recomputed from scratch, in the mode of the slot. */
  ghost predicate PlaceRule(k: Pack, rank: map<string, nat>, slot: Slot, p: Provider, l: Place, req: Lua)
    requires k.Valid() && Ranked(k.t, rank) && l.region in k.t.info
  {
    if slot.openWorld then TrackerPlace(k, rank, slot, p, l, Eval(req, p))
    else RegionRule(k, rank, slot, p, l.region) && Eval(req, p)
  }

  /** `smbw_loc` on a location whose requirement compiles to `req`. */
  ghost function CallPlace(k: Pack, rank: map<string, nat>, s: State, l: Place, req: Lua): (State, bool)
    requires k.Valid() && Ranked(k.t, rank) && l.region in k.t.info
  {
    if s.slot.openWorld && StartsWith(l.name, OPENING_PREFIX) then (s, 1 in s.slot.active && Eval(req, s.p))
    else if s.slot.openWorld && l.region == BOWSER_REGION && !StartsWith(l.name, "BC:") then (s, false)
    else
      var (s1, r) := Call(k, rank, s, l.region);
      var goal := s.slot.openWorld && l.region == BOWSER_REGION && l.name == GOAL;
      (s1, r && Eval(req, s1.p) && (goal ==> OpenPalaces(s1.slot, s1.p)))
  }

  lemma PlaceCoherent(k: Pack, rank: map<string, nat>, s: State, l: Place, req: Lua)
    requires k.Valid() && Ranked(k.t, rank) && l.region in k.t.info && Coherent(k, rank, s)
    ensures var (s1, v) := CallPlace(k, rank, s, l, req);
            && v == PlaceRule(k, rank, s.slot, s.p, l, req)
            && SameInputs(s, s1) && Coherent(k, rank, s1)
  {
    hide Call, RegionRule, Coherent, Eval, OpenPalaces, StartsWith;
    CallCoherent(k, rank, s, l.region);
  }

  class Script {
    const k: Pack
    ghost const rank: map<string, nat>
    var p: Provider
    var slot: Slot
    var gen: nat
    var rcache: map<string, Stamp>

    constructor (k: Pack, ghost rank: map<string, nat>, p: Provider, slot: Slot)
      requires k.Valid() && Ranked(k.t, rank)
      ensures Valid() && this.k == k && this.rank == rank && this.p == p && this.slot == slot
    {
      this.k, this.rank := k, rank;
      this.p, this.slot := p, slot;
      gen, rcache := 0, map[];
    }

    ghost function Now(): State
      reads this
    {
      State(p, slot, gen, rcache)
    }

    ghost predicate Valid()
      reads this
    {
      k.Valid() && Ranked(k.t, rank) && Coherent(k, rank, Now())
    }

    /** The watch on every code: `GEN = GEN + 1`. */
    method OnChange(p: Provider, slot: Slot)
      requires Valid()
      modifies this
      ensures Valid() && Now() == Changed(old(Now()), p, slot)
    {
      this.p, this.slot := p, slot;
      gen := gen + 1;
    }

    /** An emitted region function. */
    method Region(r: string) returns (v: bool)
      requires Valid() && r in k.t.info
      modifies this`rcache
      ensures Valid()
      ensures (Now(), v) == Call(k, rank, old(Now()), r)
      ensures v == RegionRule(k, rank, slot, p, r)
      decreases rank[r], 1, 0
    {
      hide RegionRule, Coherent, Eval, IsConstant, OpenBody;
      CallCoherent(k, rank, Now(), r);
      if IsConstant(k, r) {
        return k.t.info[r].starting;
      }
      if r in rcache && rcache[r].gen == gen {
        return rcache[r].v;
      }
      var own := OpenBody(k, slot, p, r);
      if slot.openWorld && own.Some? {
        v := own.value;
      } else if k.t.info[r].starting {
        v := Eval(k.req[r], p);
      } else {
        var any := AnyOfCalls(r, Parents(k.t, r));
        v := Eval(k.req[r], p) && any;
      }
      rcache := rcache[r := Stamp(gen, v)];
    }

    /** The argument list of ANY: every parent is called, left to right. */
    method AnyOfCalls(r: string, ps: seq<string>) returns (any: bool)
      requires Valid() && r in k.t.info
      requires forall q :: q in ps ==> q in Parents(k.t, r)
      modifies this`rcache
      ensures Valid()
      ensures (Now(), any) == CallAll(k, rank, old(Now()), r, ps)
      decreases rank[r], 0, |ps|
    {
      if ps == [] {
        return false;
      }
      var v := Region(ps[0]);
      var rest := AnyOfCalls(r, ps[1..]);
      return v || rest;
    }

    /** `smbw_loc` for a location of a listed region with compiled requirement `req`. */
    method Location(l: Place, req: Lua) returns (v: bool)
      requires Valid() && l.region in k.t.info
      modifies this`rcache
      ensures Valid()
      ensures (Now(), v) == CallPlace(k, rank, old(Now()), l, req)
      ensures v == PlaceRule(k, rank, slot, p, l, req)
    {
      hide RegionRule, Call, Coherent;
      PlaceCoherent(k, rank, Now(), l, req);
      if slot.openWorld {
        if StartsWith(l.name, OPENING_PREFIX) {
          return 1 in slot.active && Eval(req, p);
        }
        if l.region == BOWSER_REGION && !StartsWith(l.name, "BC:") {
          return false;
        }
      }
      var r := Region(l.region);
      v := r && Eval(req, p);
      if slot.openWorld && l.region == BOWSER_REGION && l.name == GOAL {
        v := v && OpenPalaces(slot, p);
      }
    }
  }

  // ---- Whole runs -----------------------------------------------------------------

  /** What happens to the script: an item or slot-data change, or a query. */
  datatype Event =
    | Change(p: Provider, slot: Slot)
    | Query(region: string)
    | QueryPlace(place: Place, req: Lua)

  ghost predicate Known(k: Pack, events: seq<Event>) {
    forall e :: e in events ==>
      (e.Query? ==> e.region in k.t.info) && (e.QueryPlace? ==> e.place.region in k.t.info)
  }

  /** The answers of the script. */
  ghost function Answers(k: Pack, rank: map<string, nat>, s: State, events: seq<Event>): seq<bool>
    requires k.Valid() && Ranked(k.t, rank) && Known(k, events)
    decreases |events|
  {
    if events == [] then []
    else match events[0]
      case Change(p, slot) => Answers(k, rank, Changed(s, p, slot), events[1..])
      case Query(r) =>
        var (s1, v) := Call(k, rank, s, r);
        [v] + Answers(k, rank, s1, events[1..])
      case QueryPlace(l, req) =>
        var (s1, v) := CallPlace(k, rank, s, l, req);
        [v] + Answers(k, rank, s1, events[1..])
  }

  /** The answers of a tracker without a cache. */
  ghost function Recomputed(k: Pack, rank: map<string, nat>, p: Provider, slot: Slot, events: seq<Event>): seq<bool>
    requires k.Valid() && Ranked(k.t, rank) && Known(k, events)
    decreases |events|
  {
    if events == [] then []
    else match events[0]
      case Change(p', slot') => Recomputed(k, rank, p', slot', events[1..])
      case Query(r) => [RegionRule(k, rank, slot, p, r)] + Recomputed(k, rank, p, slot, events[1..])
      case QueryPlace(l, req) => [PlaceRule(k, rank, slot, p, l, req)] + Recomputed(k, rank, p, slot, events[1..])
  }

  lemma ChangeCoherent(k: Pack, rank: map<string, nat>, s: State, p: Provider, slot: Slot)
    requires k.Valid() && Ranked(k.t, rank) && Coherent(k, rank, s)
    ensures Coherent(k, rank, Changed(s, p, slot))
  {
    hide RegionRule;
  }

  /** In every interleaving of region queries, location queries and changes that bump GEN, the cached script
      answers as the uncached one does. */
  lemma {:induction false} RunCoherent(k: Pack, rank: map<string, nat>, s: State, events: seq<Event>)
    requires k.Valid() && Ranked(k.t, rank) && Known(k, events) && Coherent(k, rank, s)
    ensures Answers(k, rank, s, events) == Recomputed(k, rank, s.p, s.slot, events)
    decreases |events|
  {
    hide Call, CallPlace, PlaceRule, RegionRule, Coherent;
    if events != [] {
      match events[0]
      case Change(p, slot) =>
        ChangeCoherent(k, rank, s, p, slot);
        RunCoherent(k, rank, Changed(s, p, slot), events[1..]);
      case Query(r) =>
        CallCoherent(k, rank, s, r);
        RunCoherent(k, rank, Call(k, rank, s, r).0, events[1..]);
      case QueryPlace(l, req) =>
        PlaceCoherent(k, rank, s, l, req);
        RunCoherent(k, rank, CallPlace(k, rank, s, l, req).0, events[1..]);
    }
  }

  /** The bump is needed: an item change that leaves GEN alone leaves a stale answer. */
  lemma StaleWithoutBump(k: Pack, rank: map<string, nat>, s: State, r: string, p: Provider, slot: Slot)
    requires k.Valid() && Ranked(k.t, rank) && r in k.t.info && Coherent(k, rank, s) && !IsConstant(k, r)
    ensures var s1 := Call(k, rank, s, r).0;
            Call(k, rank, s1.(p := p, slot := slot), r).1 == RegionRule(k, rank, s.slot, s.p, r)
  {
    CallCoherent(k, rank, s, r);
  }
}
