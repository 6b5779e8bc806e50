/** The two sides end to end: requirements as written in the data files, regions and locations
    as Archipelago and as the tracker open them. */
module AccessLogic {
  import opened Wrappers
  import opened RequiresSyntax
  import opened RequiresTokens
  import opened RequiresRules
  import opened TrackerCompiler
  import opened LeafAgreement
  import opened MeaningPreservation
  import opened Reachability

  /** The `requires` of a region or location: none, the empty text, an expression, or a list. */
  datatype Requirement =
    | NoRequires
    | Blank
    | Expression(c: Chain<Atomic>)
    | Listed(entries: seq<RequiresRules.Entry>)
  {
    /** The empty kinds: missing, `""` and `[]`. */
    predicate Empty() {
      NoRequires? || Blank? || (Listed? && entries == [])
    }

    /** The tokens of its text. */
    function Text(): seq<Tok> {
      if Expression? then Toks(c) else []
    }
  }

  /** `fullLocationOrRegionCheck` */
  predicate RulesMet(w: World, q: Requirement, inv: Inventory) {
    match q
    case NoRequires => true
    case Blank => CheckString(w, [], inv) == Ok(true)
    case Expression(c) => CheckString(w, Toks(c), inv) == Ok(true)
    case Listed(entries) => ListMet(entries, inv)
  }

  /** `compile(info.get("requires", "") or "")`: whatever is empty is compiled as the empty text; another
      list is not compiled. */
  function CompileReq(t: Tables, q: Requirement): Result<Lua> {
    if q.Empty() || q.Expression? then Compile(t, q.Text()) else Raised
  }

  /** The compiled rule. */
  predicate TrackerMet(t: Tables, q: Requirement, p: Provider) {
    var e := CompileReq(t, q);
    e.Ok? && Eval(e.value, p)
  }

  /** What is empty asks for nothing: the compiled rule holds whatever the tracker counts, and the
      check of `Rules.py` passes whatever is held. */
  lemma EmptyAsksNothing(t: Tables, w: World, q: Requirement, p: Provider, inv: Inventory)
    requires q.Empty()
    ensures TrackerMet(t, q, p) && RulesMet(w, q, inv)
  {
    EmptyCompiles(t, q, p);
  }

  lemma EmptyCompiles(t: Tables, q: Requirement, p: Provider)
    requires q.Empty()
    ensures CompileReq(t, q).Ok? && Eval(CompileReq(t, q).value, p)
  {
  }

  /** Requirements both sides read alike. */
  ghost predicate BothRead(t: Tables, w: World, q: Requirement) {
    q.Empty() ||
    (q.Expression? && NotsAtMost(q.c, 0) && EveryLeaf(q.c, l => LeafFits(t, w, l)) && NoAndAfterOr(q.c))
  }

  lemma MetAlike(t: Tables, w: World, inv: Inventory, p: Provider, q: Requirement)
    requires Bridge(t, w, inv, p) && BothRead(t, w, q)
    ensures RulesMet(w, q, inv) == TrackerMet(t, q, p)
  {
    if q.Expression? { MeaningPreserved(t, w, inv, p, q.c); } else { EmptyAsksNothing(t, w, q, p, inv); }
  }

  /** The requirements of the regions, by name. */
  type Requirements = map<string, Requirement>

  function RulesReq(w: World, qs: Requirements, inv: Inventory): string -> bool {
    r => r in qs ==> RulesMet(w, qs[r], inv)
  }

  function TrackerReq(t: Tables, qs: Requirements, p: Provider): string -> bool {
    r => r in qs ==> TrackerMet(t, qs[r], p)
  }

  /** For every acyclic region table with a starting region, every item table, every inventory and
      every tracker that counts it: the tracker's rule of a location is true exactly when
      Archipelago lets the location be reached. */
  lemma LocationsAlike(t: Tables, w: World, inv: Inventory, p: Provider, g: Table, rank: map<string, nat>,
                       qs: Requirements, region: string, q: Requirement)
    requires Bridge(t, w, inv, p)
    requires g.Valid() && Ranked(g, rank) && g.HasStarting() && region in g.info
    requires BothRead(t, w, q) && forall r :: r in qs ==> BothRead(t, w, qs[r])
    ensures Full(g, TrackerReq(t, qs, p), rank, region) && TrackerMet(t, q, p)
       <==> LocationAccess(StandardEdges(g, RulesReq(w, qs, inv)), RulesReq(w, qs, inv), region, RulesMet(w, q, inv))
  {
    hide RulesMet, TrackerMet, BothRead, Bridge;
    var a, b := RulesReq(w, qs, inv), TrackerReq(t, qs, p);
    forall r ensures a(r) == b(r) {
      if r in qs { MetAlike(t, w, inv, p, qs[r]); }
    }
    MetAlike(t, w, inv, p, q);
    assert StandardEdges(g, a) == StandardEdges(g, b);
    LocationAccessMatches(g, b, rank, region, TrackerMet(t, q, p));
  }

  /** Requirements that more items cannot break: lists, and expressions without `!` whose
      references can be read. */
  ghost predicate Growing(w: World, q: Requirement) {
    q.Expression? ==> NotsAtMost(q.c, 0) && EveryLeaf(q.c, l => Usable(w, l))
  }

  lemma MetMonotone(w: World, q: Requirement, lo: Inventory, hi: Inventory)
    requires Growing(w, q) && Grows(lo, hi) && RulesMet(w, q, lo)
    ensures RulesMet(w, q, hi)
  {
    match q
    case NoRequires =>
    case Blank =>
    case Expression(c) => CheckStringMonotone(w, c, lo, hi);
    case Listed(entries) => ListMonotone(entries, lo, hi);
  }

  /** A growing inventory never loses a region or a location. */
  lemma AccessMonotone(w: World, g: Table, qs: Requirements, region: string, q: Requirement, lo: Inventory, hi: Inventory)
    requires Grows(lo, hi) && Growing(w, q) && forall r :: r in qs ==> Growing(w, qs[r])
    ensures Reached(StandardEdges(g, RulesReq(w, qs, lo)), region) ==> Reached(StandardEdges(g, RulesReq(w, qs, hi)), region)
    ensures LocationAccess(StandardEdges(g, RulesReq(w, qs, lo)), RulesReq(w, qs, lo), region, RulesMet(w, q, lo))
        ==> LocationAccess(StandardEdges(g, RulesReq(w, qs, hi)), RulesReq(w, qs, hi), region, RulesMet(w, q, hi))
  {
    hide RulesMet, Growing;
    var a, b := RulesReq(w, qs, lo), RulesReq(w, qs, hi);
    forall r | a(r) ensures b(r) {
      if r in qs { MetMonotone(w, qs[r], lo, hi); }
    }
    if RulesMet(w, q, lo) { MetMonotone(w, q, lo, hi); }
    if Reached(StandardEdges(g, a), region) {
      ReachedMonotone(StandardEdges(g, a), StandardEdges(g, b), region);
    }
  }
}
