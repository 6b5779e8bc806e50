/** `adjust_filler_items`: the pool is made as long as there are locations to fill. */
module FillerItems {
  import opened Wrappers
  import opened Lists
  import opened ItemPool

  datatype Kind = Filler | Trap | Useful | Other

  /** What `create_item` makes of a name; progression items of either sort are `Other`. */
  type Kinds = string -> Kind

  function Of(kinds: Kinds, k: Kind): string -> bool {
    name => kinds(name) == k
  }

  function Tally(pool: seq<string>, kinds: Kinds, k: Kind): nat {
    |Filter(pool, Of(kinds, k))|
  }

  /** How many items may be removed at all. */
  function Removable(pool: seq<string>, kinds: Kinds): nat {
    Tally(pool, kinds, Filler) + Tally(pool, kinds, Trap) + Tally(pool, kinds, Useful)
  }

  function Min(a: int, b: int): int {
    if a < b then a else b
  }

  function AtLeastZero(x: int): nat {
    if x < 0 then 0 else x
  }

  /** `extras * trap_percent // 100`; no trap without a trap name. */
  function TrapCount(extras: int, percent: int, traps: seq<string>): int {
    if traps == [] then 0 else extras * percent / 100
  }

  /** The traps are the percentage of the extras, rounded down. */
  lemma TrapShare(extras: int, percent: int, traps: seq<string>)
    ensures traps != [] ==> 100 * TrapCount(extras, percent, traps) <= extras * percent < 100 * TrapCount(extras, percent, traps) + 100
    ensures traps == [] || percent == 0 ==> TrapCount(extras, percent, traps) == 0
  {
    var x := extras * percent;
    assert x / 100 * 100 <= x < x / 100 * 100 + 100;
  }

  ghost predicate AllOf(s: seq<string>, kinds: Kinds, k: Kind) {
    forall x :: x in s ==> kinds(x) == k
  }

  /** A pool put together from the four kinds has just those tallies. */
  lemma TallyOfParts(pool: seq<string>, kinds: Kinds, f: seq<string>, t: seq<string>, u: seq<string>, o: seq<string>)
    requires AllOf(f, kinds, Filler) && AllOf(t, kinds, Trap) && AllOf(u, kinds, Useful) && AllOf(o, kinds, Other)
    requires multiset(pool) == multiset(f) + multiset(t) + multiset(u) + multiset(o)
    ensures Tally(pool, kinds, Filler) == |f| && Tally(pool, kinds, Trap) == |t| && Tally(pool, kinds, Useful) == |u|
    ensures multiset(Filter(pool, Of(kinds, Other))) == multiset(o)
    ensures |pool| == |f| + |t| + |u| + |o|
  {
    hide Filter, Tally;
    PartIs(pool, kinds, Filler, f, multiset(t) + multiset(u) + multiset(o));
    PartIs(pool, kinds, Trap, t, multiset(f) + multiset(u) + multiset(o));
    PartIs(pool, kinds, Useful, u, multiset(f) + multiset(t) + multiset(o));
    PartIs(pool, kinds, Other, o, multiset(f) + multiset(t) + multiset(u));
    assert |multiset(pool)| == |multiset(f)| + |multiset(t)| + |multiset(u)| + |multiset(o)|;
  }

  lemma PartIs(pool: seq<string>, kinds: Kinds, k: Kind, part: seq<string>, rest: multiset<string>)
    requires AllOf(part, kinds, k) && multiset(pool) == multiset(part) + rest
    requires forall x :: x in rest ==> kinds(x) != k
    ensures multiset(Filter(pool, Of(kinds, k))) == multiset(part)
    ensures Tally(pool, kinds, k) == |part|
  {
    hide Filter;
    var a, b := multiset(Filter(pool, Of(kinds, k))), multiset(part);
    forall x ensures a[x] == b[x] {
      FilterCount(pool, Of(kinds, k), x);
      if b[x] > 0 { assert x in part; }
    }
    SameCounts(a, b);
  }

  lemma FourParts(pool: seq<string>, kinds: Kinds)
    ensures multiset(pool) == multiset(Filter(pool, Of(kinds, Filler))) + multiset(Filter(pool, Of(kinds, Trap)))
                            + multiset(Filter(pool, Of(kinds, Useful))) + multiset(Filter(pool, Of(kinds, Other)))
  {
    hide Filter;
    var f, t := multiset(Filter(pool, Of(kinds, Filler))), multiset(Filter(pool, Of(kinds, Trap)));
    var u, o := multiset(Filter(pool, Of(kinds, Useful))), multiset(Filter(pool, Of(kinds, Other)));
    var a, b := multiset(pool), f + t + u + o;
    forall x ensures a[x] == b[x] {
      FilterCount(pool, Of(kinds, Filler), x);
      FilterCount(pool, Of(kinds, Trap), x);
      FilterCount(pool, Of(kinds, Useful), x);
      FilterCount(pool, Of(kinds, Other), x);
      assert a[x] == f[x] + t[x] + u[x] + o[x];
    }
    SameCounts(a, b);
  }

  lemma Popped(s: seq<string>)
    requires s != []
    ensures multiset(s) == multiset(s[..|s| - 1]) + multiset{s[|s| - 1]}
  {
    assert s == s[..|s| - 1] + [s[|s| - 1]];
  }

  /** The length of the adjusted pool. */
  function FinalSize(unfilled: nat, percent: int, traps: seq<string>, pool: seq<string>, kinds: Kinds): nat {
    var extras := unfilled - |pool|;
    if extras <= 0 then |pool| - Min(-extras, Removable(pool, kinds))
    else |pool| + AtLeastZero(TrapCount(extras, percent, traps)) + AtLeastZero(extras - TrapCount(extras, percent, traps))
  }

  /** What remains of a pool when `n` items are taken away: fillers go before traps, traps before
      useful items, and the others stay. */
  ghost predicate Surplused(before: seq<string>, after: seq<string>, n: nat, kinds: Kinds) {
    && |after| == |before| - Min(n, Removable(before, kinds))
    && multiset(after) <= multiset(before)
    && Tally(after, kinds, Filler) == AtLeastZero(Tally(before, kinds, Filler) - n)
    && (Tally(after, kinds, Filler) > 0 ==> Tally(after, kinds, Trap) == Tally(before, kinds, Trap))
    && (Tally(after, kinds, Trap) > 0 ==> Tally(after, kinds, Useful) == Tally(before, kinds, Useful))
    && multiset(Filter(after, Of(kinds, Other))) == multiset(Filter(before, Of(kinds, Other)))
  }

  /** So what goes of each kind is what the kinds before it could not give. */
  lemma SurplusTallies(before: seq<string>, after: seq<string>, n: nat, kinds: Kinds)
    requires Surplused(before, after, n, kinds)
    ensures var f, t, u := Tally(before, kinds, Filler), Tally(before, kinds, Trap), Tally(before, kinds, Useful);
      && Tally(after, kinds, Filler) == Max(f - n, 0)
      && Tally(after, kinds, Trap) == Max(Min(t, f + t - n), 0)
      && Tally(after, kinds, Useful) == Max(Min(u, f + t + u - n), 0)
  {
    hide Filter, Tally;
    FourParts(before, kinds);
    FourParts(after, kinds);
    PartsLength(before, kinds);
    PartsLength(after, kinds);
    KindsShrink(before, after, kinds, Trap);
    KindsShrink(before, after, kinds, Useful);
  }

  lemma KindsShrink(before: seq<string>, after: seq<string>, kinds: Kinds, k: Kind)
    requires multiset(after) <= multiset(before)
    ensures Tally(after, kinds, k) <= Tally(before, kinds, k)
  {
    hide Filter;
    FilterMonotone(after, before, Of(kinds, k));
    var a, b := multiset(Filter(after, Of(kinds, k))), multiset(Filter(before, Of(kinds, k)));
    assert b == a + (b - a);
  }

  lemma PartsLength(pool: seq<string>, kinds: Kinds)
    ensures |pool| == Removable(pool, kinds) + |Filter(pool, Of(kinds, Other))|
  {
    hide Filter;
    FourParts(pool, kinds);
    assert |multiset(pool)| == Removable(pool, kinds) + |Filter(pool, Of(kinds, Other))|;
  }

  function Max(a: int, b: int): int {
    if a < b then b else a
  }

  lemma RemovableBounded(pool: seq<string>, kinds: Kinds)
    ensures Removable(pool, kinds) <= |pool|
  {
    hide Filter;
    FourParts(pool, kinds);
    TallyOfParts(pool, kinds, Filter(pool, Of(kinds, Filler)), Filter(pool, Of(kinds, Trap)),
                 Filter(pool, Of(kinds, Useful)), Filter(pool, Of(kinds, Other)));
  }

  /** The pool ends as long as there are locations, or as the items that must stay, exactly when
      the percentage does not ask for a negative number of traps or for more than fit. */
  lemma SizeIff(unfilled: nat, percent: int, traps: seq<string>, pool: seq<string>, kinds: Kinds)
    ensures var extras := unfilled - |pool|;
      FinalSize(unfilled, percent, traps, pool, kinds) == Max(unfilled, AtLeastZero(|pool| - Removable(pool, kinds)))
      <==> extras <= 0 || traps == [] || 0 <= extras * percent < 100 * (extras + 1)
  {
    hide Tally;
    RemovableBounded(pool, kinds);
  }

  /** With any percentage the option allows the pool ends at just that length. */
  lemma SizeWithinOption(unfilled: nat, percent: int, traps: seq<string>, pool: seq<string>, kinds: Kinds)
    requires 0 <= percent <= 100
    ensures FinalSize(unfilled, percent, traps, pool, kinds) == Max(unfilled, AtLeastZero(|pool| - Removable(pool, kinds)))
  {
    hide FinalSize, Removable;
    SizeIff(unfilled, percent, traps, pool, kinds);
    var extras := unfilled - |pool|;
    if extras > 0 { Share(extras, percent); }
  }

  lemma Share(extras: nat, percent: int)
    requires 0 <= percent <= 100
    ensures 0 <= extras * percent < 100 * (extras + 1)
  {
  }

  ghost function Together(f: seq<string>, t: seq<string>, u: seq<string>): multiset<string> {
    multiset(f) + multiset(t) + multiset(u)
  }

  /** The next item to go, and the buckets without it. */
  method Pop(fillers: seq<string>, traps: seq<string>, useful: seq<string>)
      returns (popped: Option<string>, f: seq<string>, t: seq<string>, u: seq<string>)
    ensures popped.None? <==> fillers == traps == useful == []
    ensures f <= fillers && t <= traps && u <= useful
    ensures |f| == AtLeastZero(|fillers| - 1) && (fillers != [] ==> t == traps) && (t != [] || traps == [] < fillers ==> u == useful)
    ensures popped.Some? ==> Together(fillers, traps, useful) == Together(f, t, u) + multiset{popped.value}
    ensures popped.Some? ==> |f| + |t| + |u| + 1 == |fillers| + |traps| + |useful|
  {
    popped, f, t, u := None, fillers, traps, useful;
    if fillers != [] {
      Popped(fillers);
      popped, f := Some(fillers[|fillers| - 1]), fillers[..|fillers| - 1];
    } else if traps != [] {
      Popped(traps);
      popped, t := Some(traps[|traps| - 1]), traps[..|traps| - 1];
    } else if useful != [] {
      Popped(useful);
      popped, u := Some(useful[|useful| - 1]), useful[..|useful| - 1];
    }
  }

  /** The state of the removal loop after `i` items have gone. */
  ghost predicate Buckets(before: seq<string>, pool: seq<string>, i: nat, kinds: Kinds,
                          f: seq<string>, t: seq<string>, u: seq<string>) {
    && i + |f| + |t| + |u| == Removable(before, kinds)
    && |f| == AtLeastZero(Tally(before, kinds, Filler) - i)
    && (f != [] ==> |t| == Tally(before, kinds, Trap))
    && (t != [] ==> |u| == Tally(before, kinds, Useful))
    && AllOf(f, kinds, Filler) && AllOf(t, kinds, Trap) && AllOf(u, kinds, Useful)
    && multiset(pool) == Together(f, t, u) + multiset(Filter(before, Of(kinds, Other)))
    && multiset(pool) <= multiset(before)
  }

  lemma ShuffledAllOf(pool: seq<string>, kinds: Kinds, k: Kind, s: seq<string>)
    requires multiset(s) == multiset(Filter(pool, Of(kinds, k)))
    ensures AllOf(s, kinds, k)
  {
    forall x | x in s ensures kinds(x) == k {
      assert x in multiset(s);
      assert x in Filter(pool, Of(kinds, k));
    }
  }

  lemma DropOne(all: multiset<string>, rest: multiset<string>, o: multiset<string>, x: string)
    requires all == rest + multiset{x}
    ensures all + o - multiset{x} == rest + o && x in all + o
  {
  }

  lemma ShuffledBuckets(pool: seq<string>, kinds: Kinds, f: seq<string>, t: seq<string>, u: seq<string>)
    requires multiset(f) == multiset(Filter(pool, Of(kinds, Filler)))
    requires multiset(t) == multiset(Filter(pool, Of(kinds, Trap)))
    requires multiset(u) == multiset(Filter(pool, Of(kinds, Useful)))
    ensures Buckets(pool, pool, 0, kinds, f, t, u)
  {
    hide Filter;
    FourParts(pool, kinds);
    assert |f| == |multiset(f)| && |t| == |multiset(t)| && |u| == |multiset(u)|;
    ShuffledAllOf(pool, kinds, Filler, f);
    ShuffledAllOf(pool, kinds, Trap, t);
    ShuffledAllOf(pool, kinds, Useful, u);
  }

  lemma NextBuckets(before: seq<string>, pool: seq<string>, i: nat, kinds: Kinds,
                    f: seq<string>, t: seq<string>, u: seq<string>,
                    popped: string, f': seq<string>, t': seq<string>, u': seq<string>)
    requires Buckets(before, pool, i, kinds, f, t, u)
    requires f' <= f && t' <= t && u' <= u && |f'| == AtLeastZero(|f| - 1)
    requires (f != [] ==> t' == t) && (t' != [] || t == [] < f ==> u' == u)
    requires Together(f, t, u) == Together(f', t', u') + multiset{popped}
    requires |f'| + |t'| + |u'| + 1 == |f| + |t| + |u|
    ensures popped in pool && Buckets(before, Remove(pool, popped), i + 1, kinds, f', t', u')
  {
    hide Filter, Tally, Together;
    DropOne(Together(f, t, u), Together(f', t', u'), multiset(Filter(before, Of(kinds, Other))), popped);
    assert popped in multiset(pool);
    RemoveMultiset(pool, popped);
  }

  /** What the removal loop leaves is what `Surplused` says. */
  lemma LeftOver(before: seq<string>, after: seq<string>, n: nat, i: nat, kinds: Kinds,
                 f: seq<string>, t: seq<string>, u: seq<string>)
    requires Buckets(before, after, i, kinds, f, t, u) && i <= n && (i < n ==> f == t == u == [])
    ensures Surplused(before, after, n, kinds)
  {
    hide Filter, Tally;
    var o := Filter(before, Of(kinds, Other));
    TallyOfParts(after, kinds, f, t, u, o);
    FourParts(before, kinds);
    TallyOfParts(before, kinds, Filter(before, Of(kinds, Filler)), Filter(before, Of(kinds, Trap)),
                 Filter(before, Of(kinds, Useful)), o);
  }

  class Adjuster {
    var pool: seq<string>

    constructor (pool: seq<string>)
      ensures this.pool == pool
    {
      this.pool := pool;
    }

    method AppendExtras(extras: int, percent: int, traps: seq<string>, filler: string) returns (ghost made: seq<string>)
      modifies this
      ensures pool == old(pool) + made + Copies(filler, AtLeastZero(extras - TrapCount(extras, percent, traps)))
      ensures |made| == AtLeastZero(TrapCount(extras, percent, traps)) && forall x :: x in made ==> x in traps
    {
      var trapPercent := percent;
      if traps == [] { trapPercent := 0; }
      var trapCount := extras * trapPercent / 100;
      var fillerCount := extras - trapCount;
      made := [];
      var i := 0;
      while i < trapCount
        invariant 0 <= i && i <= AtLeastZero(trapCount) && |made| == i && pool == old(pool) + made
        invariant forall x :: x in made ==> x in traps
      {
        var j: nat := *;
        var extra := traps[j % |traps|];
        pool := pool + [extra];
        made := made + [extra];
        i := i + 1;
      }
      i := 0;
      while i < fillerCount
        invariant 0 <= i <= AtLeastZero(fillerCount) && pool == old(pool) + made + Copies(filler, i)
      {
        pool := pool + [filler];
        i := i + 1;
      }
    }

    /** Takes `n` removable items away, the fillers first, then traps, then useful items. */
    method RemoveSurplus(n: nat, kinds: Kinds)
      modifies this
      ensures Surplused(old(pool), pool, n, kinds)
    {
      hide Filter, Surplused, Buckets;
      var fillers := Filter(pool, Of(kinds, Filler));
      var traps := Filter(pool, Of(kinds, Trap));
      var useful := Filter(pool, Of(kinds, Useful));
      fillers := Shuffle(fillers);
      traps := Shuffle(traps);
      useful := Shuffle(useful);
      ShuffledBuckets(pool, kinds, fillers, traps, useful);
      var i := 0;
      while i < n
        invariant 0 <= i <= n && Buckets(old(pool), pool, i, kinds, fillers, traps, useful)
      {
        var popped, f, t, u := Pop(fillers, traps, useful);
        if popped.None? { break; }
        NextBuckets(old(pool), pool, i, kinds, fillers, traps, useful, popped.value, f, t, u);
        pool := Remove(pool, popped.value);
        fillers, traps, useful := f, t, u;
        i := i + 1;
      }
      LeftOver(old(pool), pool, n, i, kinds, fillers, traps, useful);
    }

    /** The method: the pool ends as long as there are locations, or as what must stay. */
    method AdjustFillerItems(unfilled: nat, percent: int, traps: seq<string>, filler: string, kinds: Kinds)
        returns (ghost made: seq<string>)
      modifies this
      ensures |pool| == FinalSize(unfilled, percent, traps, old(pool), kinds)
      ensures |old(pool)| < unfilled ==>
                var extras := unfilled - |old(pool)|;
                && pool == old(pool) + made + Copies(filler, AtLeastZero(extras - TrapCount(extras, percent, traps)))
                && |made| == AtLeastZero(TrapCount(extras, percent, traps))
                && forall x :: x in made ==> x in traps
      ensures |old(pool)| == unfilled ==> pool == old(pool)
      ensures |old(pool)| > unfilled ==> Surplused(old(pool), pool, |old(pool)| - unfilled, kinds)
    {
      hide Tally, TrapCount;
      var extras := unfilled - |pool|;
      made := [];
      if extras > 0 {
        made := AppendExtras(extras, percent, traps, filler);
      } else if extras < 0 {
        RemoveSurplus(-extras, kinds);
      }
    }
  }
}
