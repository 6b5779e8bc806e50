/** What open-world mode takes out of the item pool and what it puts into the starting
    inventory, and what is conserved on the way. */
module OpenWorldPool {
  import opened Wrappers
  import opened Lists
  import opened WorldNames
  import opened ItemPool

  const PETAL_WONDER_SEED_ITEM := "Petal Isles Wonder Seed"

  function WonderSeed(n: nat): string
    requires n < 10
  {
    Prefixed(n, " Wonder Seed")
  }

  /** The `count` of each table item, where it has one. */
  type Counts = map<string, Option<int>>

  /** How many copies are granted: an item without a count gets none here. */
  function Granted(table: Counts, name: string): nat {
    if name in table && table[name].GetOr(0) > 0 then table[name].GetOr(0) else 0
  }

  // ---- Removing from the pool -----------------------------------------------------

  predicate Keep(active: set<nat>, name: string) {
    if name == PETAL_WONDER_SEED_ITEM || name == "Special World Wonder Seed" then false
    else if EndsWith(name, " Wonder Seed") || EndsWith(name, " Unlock") then
      WorldOf(name).Some? ==> WorldOf(name).value in active
    else true
  }

  function Keeping(active: set<nat>): string -> bool {
    name => Keep(active, name)
  }

  function InactiveItemPool(pool: seq<string>, active: set<nat>): seq<string> {
    Filter(pool, Keeping(active))
  }

  /** Which of the names are kept. */
  lemma KeptNames(active: set<nat>, n: nat)
    requires n < 10
    ensures Keep(active, WonderSeed(n)) <==> n in active
    ensures Keep(active, UnlockItem(n)) <==> n in active
    ensures Keep(active, RoyalSeed(n)) && Keep(active, CASTLE_UNLOCK_ITEM)
  {
    var seed, unlock, royal := WonderSeed(n), UnlockItem(n), RoyalSeed(n);
    assert seed[1..][1..] == seed[2..] == " Wonder Seed" && |seed| == 14;
    assert unlock[2..] == " Unlock" && |unlock| == 9;
    assert royal[|royal| - 12..][0] == royal[1] == DigitChar(n) && " Wonder Seed"[0] == ' ';
    assert royal[|royal| - 7..][6] == royal[12] == " Royal Seed"[10] == 'd' && " Unlock"[6] == 'k';
    assert seed[0] == unlock[0] == 'W' && PETAL_WONDER_SEED_ITEM[0] == 'P' && "Special World Wonder Seed"[0] == 'S';
    assert royal[0] == 'W';
  }

  /** No free seed is left in the pool, whatever was in it. */
  lemma NoFreeSeedLeft(pool: seq<string>, active: set<nat>, name: string)
    requires name in FREE_SEEDS
    ensures name !in InactiveItemPool(pool, active)
  {
    FilterCount(pool, Keeping(active), name);
    assert !Keep(active, name);
    assert multiset(InactiveItemPool(pool, active))[name] == 0;
  }

  // ---- Granting -------------------------------------------------------------------

  method Grant(g: Generation, name: string, count: nat)
    modifies g
    ensures g.precollected == old(g.precollected) + Copies(name, count) && g.pool == old(g.pool)
  {
    for i := 0 to count
      invariant g.precollected == old(g.precollected) + Copies(name, i) && g.pool == old(g.pool)
    {
      g.precollected := g.precollected + [name];
    }
  }

  method PrecollectPetalWonderSeeds(g: Generation, table: Counts) returns (count: int)
    modifies g
    ensures g.precollected == old(g.precollected) + Copies(PETAL_WONDER_SEED_ITEM, Granted(table, PETAL_WONDER_SEED_ITEM))
    ensures g.pool == old(g.pool)
    ensures count == if PETAL_WONDER_SEED_ITEM in table then table[PETAL_WONDER_SEED_ITEM].GetOr(0) else 0
  {
    count := if PETAL_WONDER_SEED_ITEM in table then table[PETAL_WONDER_SEED_ITEM].GetOr(0) else 0;
    if count > 0 { Grant(g, PETAL_WONDER_SEED_ITEM, count); }
  }

  /** What is granted for the inactive ones of the worlds 1 to `n`. */
  function InactiveGrants(table: Counts, active: set<nat>, n: nat): seq<string>
    requires n <= 6
  {
    if n == 0 then []
    else InactiveGrants(table, active, n - 1)
         + if n in active then [] else Copies(WonderSeed(n), Granted(table, WonderSeed(n)))
  }

  method PrecollectInactiveWonderSeeds(g: Generation, table: Counts, active: set<nat>) returns (granted: nat)
    modifies g
    ensures g.precollected == old(g.precollected) + InactiveGrants(table, active, 6)
    ensures granted == |InactiveGrants(table, active, 6)| && g.pool == old(g.pool)
  {
    granted := 0;
    for n := 1 to 7
      invariant g.precollected == old(g.precollected) + InactiveGrants(table, active, n - 1)
      invariant granted == |InactiveGrants(table, active, n - 1)| && g.pool == old(g.pool)
    {
      if n in active { continue; }
      var name := WonderSeed(n);
      var count := if name in table then table[name].GetOr(0) else 0;
      if count > 0 {
        Grant(g, name, count);
        granted := granted + count;
      }
    }
  }

  method PrecollectStartWorldUnlock(g: Generation, start: nat) returns (moved: bool)
    requires start < 10
    modifies g
    ensures moved == (UnlockItem(start) in old(g.pool))
    ensures moved ==> multiset(g.pool) == multiset(old(g.pool)) - multiset{UnlockItem(start)}
                      && g.precollected == old(g.precollected) + [UnlockItem(start)]
    ensures !moved ==> g.pool == old(g.pool) && g.precollected == old(g.precollected)
  {
    var name := UnlockItem(start);
    for i := 0 to |g.pool|
      invariant g.pool == old(g.pool) && g.precollected == old(g.precollected)
      invariant name !in g.pool[..i]
    {
      if g.pool[i] == name {
        RemoveMultiset(g.pool, name);
        g.pool := Remove(g.pool, name);
        g.precollected := g.precollected + [name];
        return true;
      }
    }
    return false;
  }

  // ---- The hook -------------------------------------------------------------------

  datatype Stock = Stock(pool: multiset<string>, precollected: multiset<string>) {
    /** Every copy that is somewhere. */
    function Total(name: string): nat {
      pool[name] + precollected[name]
    }
  }

  predicate IsInactiveSeed(active: set<nat>, n: nat, name: string) {
    var w := WorldOf(name);
    w.Some? && 1 <= w.value <= n && w.value !in active && w.value < 10 && name == WonderSeed(w.value)
  }

  /** How the hook before the filler step changes the counts of one name. */
  function GrantOf(table: Counts, active: set<nat>, name: string): nat {
    if name == PETAL_WONDER_SEED_ITEM then Granted(table, name)
    else if IsInactiveSeed(active, 6, name) then Granted(table, name)
    else 0
  }

  ghost predicate CountStep(before: Stock, after: Stock, table: Counts, active: set<nat>, start: Option<nat>, x: string)
    requires start.Some? ==> start.value < 10
  {
    var kept := if Keep(active, x) then before.pool[x] else 0;
    var moved := if start.Some? && x == UnlockItem(start.value) && kept > 0 then 1 else 0;
    && after.pool[x] == kept - moved
    && after.precollected[x] == before.precollected[x] + GrantOf(table, active, x) + moved
  }

  ghost predicate HookStep(before: Stock, after: Stock, table: Counts, active: set<nat>, start: Option<nat>)
    requires start.Some? ==> start.value < 10
  {
    forall x :: CountStep(before, after, table, active, start, x)
  }

  function StockOf(pool: seq<string>, precollected: seq<string>): Stock {
    Stock(multiset(pool), multiset(precollected))
  }

  lemma WonderSeedNames(n: nat)
    requires n < 10
    ensures WorldOf(WonderSeed(n)) == Some(n) && WonderSeed(n) != PETAL_WONDER_SEED_ITEM
    ensures forall m | m < 10 :: WonderSeed(n) != UnlockItem(m)
  {
    assert WonderSeed(n)[0] == 'W' && PETAL_WONDER_SEED_ITEM[0] == 'P';
    forall m | m < 10 ensures WonderSeed(n) != UnlockItem(m) {
      assert |WonderSeed(n)| == 14 && |UnlockItem(m)| == 9;
    }
  }

  lemma {:induction false} GrantCounts(table: Counts, active: set<nat>, n: nat, name: string)
    requires n <= 6
    ensures multiset(InactiveGrants(table, active, n))[name]
         == if IsInactiveSeed(active, n, name) then Granted(table, name) else 0
  {
    hide WonderSeed, WorldOf, Granted, Copies;
    if n > 0 {
      GrantCounts(table, active, n - 1, name);
      WonderSeedNames(n);
      var prev, copies := InactiveGrants(table, active, n - 1), Copies(WonderSeed(n), Granted(table, WonderSeed(n)));
      CopiesCount(WonderSeed(n), Granted(table, WonderSeed(n)), name);
      assert multiset(prev + copies)[name] == multiset(prev)[name] + multiset(copies)[name];
      assert prev + [] == prev;
      assert IsInactiveSeed(active, n, name) == (IsInactiveSeed(active, n - 1, name) || (n !in active && name == WonderSeed(n)));
    }
  }

  /** The part of the hook that runs in open-world mode. */
  method BeforeCreateItemsFiller(g: Generation, table: Counts, active: set<nat>, start: Option<nat>)
    requires start.Some? ==> start.value < 10
    modifies g
    ensures HookStep(StockOf(old(g.pool), old(g.precollected)), StockOf(g.pool, g.precollected), table, active, start)
  {
    hide Filter, Keep, InactiveGrants, Copies, HookStep;
    g.pool := InactiveItemPool(g.pool, active);
    var _ := PrecollectPetalWonderSeeds(g, table);
    var _ := PrecollectInactiveWonderSeeds(g, table, active);
    var moved := false;
    if start.Some? {
      moved := PrecollectStartWorldUnlock(g, start.value);
    }
    HookCounts(old(g.pool), old(g.precollected), g.pool, g.precollected, table, active, start, moved);
  }

  /** The start world's unlock item, if it was moved. */
  ghost function MovedItem(start: Option<nat>, moved: bool): multiset<string>
    requires start.Some? ==> start.value < 10
  {
    if start.Some? && moved then multiset{UnlockItem(start.value)} else multiset{}
  }

  lemma PetalIsNoSeed()
    ensures WorldOf(PETAL_WONDER_SEED_ITEM).None?
  {
    assert PETAL_WONDER_SEED_ITEM[0] == 'P';
  }

  lemma HookCounts(pool: seq<string>, pre: seq<string>, pool': seq<string>, pre': seq<string>,
                   table: Counts, active: set<nat>, start: Option<nat>, moved: bool)
    requires (start.Some? ==> start.value < 10)
    requires moved == (start.Some? && UnlockItem(start.value) in InactiveItemPool(pool, active))
    requires multiset(pool') == multiset(InactiveItemPool(pool, active)) - MovedItem(start, moved)
    requires multiset(pre') == multiset(pre) + multiset(Copies(PETAL_WONDER_SEED_ITEM, Granted(table, PETAL_WONDER_SEED_ITEM)))
                               + multiset(InactiveGrants(table, active, 6)) + MovedItem(start, moved)
    ensures HookStep(StockOf(pool, pre), StockOf(pool', pre'), table, active, start)
  {
    hide Filter, Keep, InactiveGrants, Copies, Granted, GrantOf;
    forall x ensures CountStep(StockOf(pool, pre), StockOf(pool', pre'), table, active, start, x) {
      hide UnlockItem;
      FilterCount(pool, Keeping(active), x);
      GrantsTogether(table, active, x);
    }
  }

  lemma GrantsTogether(table: Counts, active: set<nat>, x: string)
    ensures multiset(Copies(PETAL_WONDER_SEED_ITEM, Granted(table, PETAL_WONDER_SEED_ITEM)))[x]
            + multiset(InactiveGrants(table, active, 6))[x] == GrantOf(table, active, x)
  {
    hide Copies, InactiveGrants, Granted;
    CopiesCount(PETAL_WONDER_SEED_ITEM, Granted(table, PETAL_WONDER_SEED_ITEM), x);
    GrantCounts(table, active, 6, x);
    PetalIsNoSeed();
  }

  // ---- Conservation ---------------------------------------------------------------

  /** A Wonder Seed count is conserved exactly for the active worlds, and for an inactive world
      or the Petal Isles when the pool held as many as the table grants. */
  lemma WonderSeedsConservedIff(before: Stock, after: Stock, table: Counts, active: set<nat>, start: Option<nat>, n: nat)
    requires (start.Some? ==> start.value < 10) && HookStep(before, after, table, active, start) && 1 <= n <= 6
    ensures after.Total(WonderSeed(n)) == before.Total(WonderSeed(n))
       <==> n in active || before.pool[WonderSeed(n)] == Granted(table, WonderSeed(n))
    ensures after.Total(PETAL_WONDER_SEED_ITEM) == before.Total(PETAL_WONDER_SEED_ITEM)
       <==> before.pool[PETAL_WONDER_SEED_ITEM] == Granted(table, PETAL_WONDER_SEED_ITEM)
  {
    KeptNames(active, n);
    WonderSeedNames(n);
    assert start.Some? ==> UnlockItem(start.value)[0] == 'W' && PETAL_WONDER_SEED_ITEM[0] == 'P';
    assert CountStep(before, after, table, active, start, WonderSeed(n));
    assert CountStep(before, after, table, active, start, PETAL_WONDER_SEED_ITEM);
  }

  /** Every name the filter keeps is conserved; the Royal Seeds and the castle unlock do not
      even move. */
  lemma KeptConserved(before: Stock, after: Stock, table: Counts, active: set<nat>, start: Option<nat>, name: string)
    requires (start.Some? ==> start.value < 10) && HookStep(before, after, table, active, start)
    requires Keep(active, name) && GrantOf(table, active, name) == 0
    ensures after.Total(name) == before.Total(name)
    ensures start.None? || name != UnlockItem(start.value) ==>
              after.pool[name] == before.pool[name] && after.precollected[name] == before.precollected[name]
  {
    assert CountStep(before, after, table, active, start, name);
  }

  /** After the hook none of the seeds that an open world grants or leaves out is in the pool. */
  lemma FreeSeedsLeave(before: Stock, after: Stock, table: Counts, active: set<nat>, start: Option<nat>, name: string)
    requires (start.Some? ==> start.value < 10) && HookStep(before, after, table, active, start)
    requires name in FREE_SEEDS
    ensures after.pool[name] == 0
  {
    assert CountStep(before, after, table, active, start, name);
    assert start.Some? ==> UnlockItem(start.value)[0] == 'W';
    NotFreeSeeds("W");
    assert name[0] == 'P' || name[0] == 'S';
  }

  /** Every name that is no seed and no unlock item keeps both counts. */
  lemma OrdinaryStays(before: Stock, after: Stock, table: Counts, active: set<nat>, start: Option<nat>, name: string)
    requires (start.Some? ==> start.value < 10) && HookStep(before, after, table, active, start)
    requires name !in FREE_SEEDS && !EndsWith(name, " Wonder Seed") && !EndsWith(name, " Unlock")
    ensures after.pool[name] == before.pool[name] && after.precollected[name] == before.precollected[name]
  {
    assert CountStep(before, after, table, active, start, name);
    if start.Some? { assert EndsWith(UnlockItem(start.value), " Unlock") by { assert UnlockItem(start.value)[2..] == " Unlock"; } }
    var w := WorldOf(name);
    if w.Some? && w.value < 10 {
      assert EndsWith(WonderSeed(w.value), " Wonder Seed") by { assert WonderSeed(w.value)[2..] == " Wonder Seed"; }
    }
  }

  lemma RoyalSeedsAndCastleStay(before: Stock, after: Stock, table: Counts, active: set<nat>, start: Option<nat>, n: nat)
    requires (start.Some? ==> start.value < 10) && HookStep(before, after, table, active, start) && 1 <= n <= 6
    ensures after.pool[RoyalSeed(n)] == before.pool[RoyalSeed(n)]
    ensures after.precollected[RoyalSeed(n)] == before.precollected[RoyalSeed(n)]
    ensures after.pool[CASTLE_UNLOCK_ITEM] == before.pool[CASTLE_UNLOCK_ITEM]
    ensures after.precollected[CASTLE_UNLOCK_ITEM] == before.precollected[CASTLE_UNLOCK_ITEM]
  {
    KeptNames(active, n);
    var royal := RoyalSeed(n);
    assert royal[0] == 'W' && |royal| == 13 && PETAL_WONDER_SEED_ITEM[0] == 'P' && CASTLE_UNLOCK_ITEM[0] == 'B';
    assert |WonderSeed(n)| == 14;
    KeptConserved(before, after, table, active, start, royal);
    KeptConserved(before, after, table, active, start, CASTLE_UNLOCK_ITEM);
  }

  /** From a pool with one Unlock per world, exactly the start world's is precollected, those of
      the other active worlds stay in the pool, and those of the inactive worlds are gone. */
  lemma OneUnlockPrecollected(before: Stock, after: Stock, table: Counts, active: set<nat>, start: nat, n: nat)
    requires start < 10 && HookStep(before, after, table, active, Some(start)) && 1 <= n <= 6 && start in active
    requires before.pool[UnlockItem(n)] == 1 && before.precollected[UnlockItem(n)] == 0
    ensures after.precollected[UnlockItem(n)] == (if n == start then 1 else 0)
    ensures after.pool[UnlockItem(n)] == (if n in active && n != start then 1 else 0)
  {
    KeptNames(active, n);
    var name := UnlockItem(n);
    assert name[0] == 'W' && |name| == 9 && PETAL_WONDER_SEED_ITEM[0] == 'P' && |WonderSeed(n)| == 14;
    assert name[1] == DigitChar(n) && UnlockItem(start)[1] == DigitChar(start);
    assert WorldOf(name) == Some(n);
    assert CountStep(before, after, table, active, Some(start), name);
  }

  /** Over the whole of item creation: the pool is built from the table, some items are started,
      then the hook runs.  An inactive world's Wonder Seeds are conserved exactly when their entry
      has its count written out and none of them was a starting item, or has no count and none is in
      the pool; of an entry that is not made (disabled, or the filler), when it has no count to grant. */
  lemma CreatedSeedsConservedIff(e: Entry, filler: string, built: seq<string>, pool: seq<string>, started: seq<string>,
                                 after: Stock, table: Counts, active: set<nat>, start: Option<nat>, n: nat)
    requires 1 <= n <= 6 && n !in active && e.name == WonderSeed(n)
    requires e.name in table && table[e.name] == e.count
    requires multiset(built)[e.name] == Made(e, filler) && multiset(pool) + multiset(started) == multiset(built)
    requires start.Some? ==> start.value < 10
    requires HookStep(StockOf(pool, started), after, table, active, start)
    ensures after.Total(e.name) == multiset(built)[e.name] <==>
            if !e.enabled || e.name == filler then e.count.GetOr(0) <= 0
            else if e.count.Some? then multiset(started)[e.name] == 0
            else multiset(pool)[e.name] == 0
  {
    hide HookStep, Keep;
    WonderSeedsConservedIff(StockOf(pool, started), after, table, active, start, n);
    assert multiset(built)[e.name] == multiset(pool)[e.name] + multiset(started)[e.name];
    assert e.name[0] == 'W' && "__Victory__"[0] == '_';
  }
}
