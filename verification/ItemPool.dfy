/** Building the item pool: the items of the table, the starting-item blocks, and the
    filler adjustment.  An item is its name: equal items have equal names, and `create_item`
    looks the classification up by name. */
module ItemPool {
  import opened Wrappers
  import opened Lists

  /** `random.shuffle`: some permutation. */
  method Shuffle(s: seq<string>) returns (r: seq<string>)
    ensures multiset(r) == multiset(s) && forall x :: x in r <==> x in s
  {
    r := *;
    if multiset(r) != multiset(s) { r := s; }
    assert forall x :: x in r <==> x in multiset(r);
    assert forall x :: x in s <==> x in multiset(s);
  }

  // ---- The pool before starting items ---------------------------------------------

  datatype Entry = Entry(name: string, count: Option<int>, trap: bool, enabled: bool)

  /** How many copies of an entry are made. */
  function Made(e: Entry, filler: string): nat {
    if e.name == "__Victory__" || e.name == filler || !e.enabled || e.count.GetOr(1) < 0 then 0 else e.count.GetOr(1)
  }

  predicate IsTrap(e: Entry, filler: string) {
    e.name != "__Victory__" && e.name != filler && e.trap
  }

  method BuildPool(table: seq<Entry>, filler: string) returns (pool: seq<string>, traps: seq<string>)
    requires forall i, j :: 0 <= i < j < |table| ==> table[i].name != table[j].name
    ensures forall e :: e in table ==> multiset(pool)[e.name] == Made(e, filler)
    ensures forall x :: x in pool ==> exists e :: e in table && e.name == x
    ensures forall x :: x in traps <==> exists e :: e in table && e.name == x && IsTrap(e, filler)
  {
    pool, traps := [], [];
    for i := 0 to |table|
      invariant forall j :: 0 <= j < i ==> multiset(pool)[table[j].name] == Made(table[j], filler)
      invariant forall x :: x in pool ==> exists j :: 0 <= j < i && table[j].name == x
      invariant forall x :: x in traps <==> exists j :: 0 <= j < i && table[j].name == x && IsTrap(table[j], filler)
    {
      var e := table[i];
      assert e.name !in pool;
      if e.name == "__Victory__" || e.name == filler { continue; }
      if e.trap { traps := traps + [e.name]; }
      var itemCount := e.count.GetOr(1);
      if !e.enabled { itemCount := 0; }
      if itemCount == 0 { continue; }
      ghost var before := pool;
      assert multiset(before)[e.name := 0] == multiset(before);
      var made := 0;
      while made < itemCount
        invariant 0 <= made && (0 <= itemCount ==> made <= itemCount) && (itemCount < 0 ==> made == 0)
        invariant multiset(pool) == multiset(before)[e.name := made]
      {
        pool := pool + [e.name];
        made := made + 1;
      }
      assert forall x :: x in pool ==> x in multiset(pool);
      assert forall x :: x in pool ==> x in before || x == e.name;
    }
  }

  // ---- Starting items -------------------------------------------------------------

  datatype Block = Block(ifPrevious: Option<seq<string>>, items: Option<seq<string>>,
                         categories: Option<seq<string>>, random: Option<int>)
  {
    predicate IsCharacters() {
      categories.Some? && "Character" in categories.value
    }

    /** Neither `items` nor `item_categories`: the block works on the pool object itself. */
    predicate Unrestricted() {
      items.None? && categories.None?
    }
  }

  /** The categories of the table's items. */
  type Categories = map<string, seq<string>>

  /** The later test of the two decides when a block has both. */
  predicate Matches(b: Block, table: Categories, name: string) {
    if b.categories.Some? then name in table && exists c :: c in table[name] && c in b.categories.value
    else b.items.Some? ==> name in b.items.value
  }

  function Matching(b: Block, table: Categories): string -> bool {
    name => Matches(b, table, name)
  }

  function AmongNames(names: seq<string>): string -> bool {
    name => name in names
  }

  /** `items[0:k]` */
  function Slice(s: seq<string>, k: int): (r: seq<string>)
    ensures r <= s
  {
    s[..if k < -|s| then 0 else if k < 0 then |s| + k else if k < |s| then k else |s|]
  }

  /** A positive bound keeps that many, a negative one leaves off that many. */
  lemma SliceLength(s: seq<string>, k: int)
    ensures k >= |s| ==> Slice(s, k) == s
    ensures 0 <= k <= |s| ==> |Slice(s, k)| == k
    ensures -|s| <= k < 0 ==> |Slice(s, k)| == |s| + k
    ensures k < -|s| ==> Slice(s, k) == []
  {
  }

  predicate Applies(b: Block, started: seq<string>) {
    b.ifPrevious.Some? ==> exists name :: name in started && name in b.ifPrevious.value
  }

  /** What one block may move from `pool` to the starting inventory. */
  ghost predicate BlockTakes(b: Block, table: Categories, pinned: Option<seq<string>>,
                             pool: seq<string>, started: seq<string>, taken: seq<string>) {
    var candidates := Filter(pool, Matching(b, table));
    if !Applies(b, started) then taken == []
    else if pinned.Some? && b.IsCharacters() then taken == Filter(candidates, AmongNames(pinned.value))
    else if b.random.Some? then
      multiset(taken) <= multiset(candidates) && |taken| == |Slice(candidates, b.random.value)|
    else if b.Unrestricted() then
      // the loop walks the list it removes from, so it passes over every other item
      multiset(taken) <= multiset(candidates) && |taken| == (|pool| + 1) / 2
    else multiset(taken) == multiset(candidates)
  }

  /** One block as a step on the pool and the started items. */
  ghost predicate BlockStep(b: Block, table: Categories, pinned: Option<seq<string>>,
                            before: (seq<string>, seq<string>), after: (seq<string>, seq<string>)) {
    && before.1 <= after.1
    && var taken := after.1[|before.1|..];
    && multiset(after.0) + multiset(taken) == multiset(before.0)
    && BlockTakes(b, table, pinned, before.0, before.1, taken)
  }

  /** Pool and started items after each of the blocks. */
  ghost predicate Run(blocks: seq<Block>, table: Categories, pinned: Option<seq<string>>,
                      run: seq<(seq<string>, seq<string>)>) {
    && |run| == |blocks| + 1
    && forall i :: 0 <= i < |blocks| ==> BlockStep(blocks[i], table, pinned, run[i], run[i + 1])
  }

  /** Pinned starters: a block of the Character category starts just those characters of the pool that
      are pinned, whatever number it asks for. */
  lemma PinnedStarters(b: Block, table: Categories, pinned: seq<string>,
                       before: (seq<string>, seq<string>), after: (seq<string>, seq<string>))
    requires b.categories == Some(["Character"]) && b.ifPrevious.None? && BlockStep(b, table, Some(pinned), before, after)
    ensures forall x :: x in after.1[|before.1|..] <==> x in before.0 && x in pinned && x in table && "Character" in table[x]
  {
    var candidates := Filter(before.0, Matching(b, table));
    forall x ensures x in candidates <==> x in before.0 && x in table && "Character" in table[x] {
      assert b.categories.value[0] == "Character";
      assert Matching(b, table)(x) <==> x in table && "Character" in table[x];
    }
    forall x ensures x in Filter(candidates, AmongNames(pinned)) <==> x in candidates && x in pinned {
      assert AmongNames(pinned)(x) <==> x in pinned;
    }
  }

  /** A block that waits for an earlier item takes nothing until one of them was started. */
  lemma WaitsForPrevious(b: Block, table: Categories, pinned: Option<seq<string>>,
                         before: (seq<string>, seq<string>), after: (seq<string>, seq<string>))
    requires b.ifPrevious.Some? && BlockStep(b, table, pinned, before, after)
    requires forall x :: x in before.1 ==> x !in b.ifPrevious.value
    ensures after.1 == before.1 && multiset(after.0) == multiset(before.0)
  {
    assert after.1 == before.1 + after.1[|before.1|..];
  }

  /** A block by name alone starts every copy of those names, and nothing else. */
  lemma NamedStarters(b: Block, table: Categories, before: (seq<string>, seq<string>), after: (seq<string>, seq<string>), x: string)
    requires b == Block(None, b.items, None, None) && b.items.Some? && BlockStep(b, table, None, before, after)
    ensures multiset(after.0)[x] == if x in b.items.value then 0 else multiset(before.0)[x]
  {
    FilterCount(before.0, Matching(b, table), x);
    assert multiset(after.0)[x] + multiset(after.1[|before.1|..])[x] == multiset(before.0)[x];
  }

  /** A block that asks for one item of its kind starts exactly one, if there is any. */
  lemma OneStarter(b: Block, table: Categories, before: (seq<string>, seq<string>), after: (seq<string>, seq<string>))
    requires b.ifPrevious.None? && b.random == Some(1) && BlockStep(b, table, None, before, after)
    requires exists x :: x in before.0 && Matches(b, table, x)
    ensures |after.1| == |before.1| + 1
    ensures var x := after.1[|before.1|]; x in before.0 && Matches(b, table, x)
  {
    var candidates := Filter(before.0, Matching(b, table));
    var x :| x in before.0 && Matches(b, table, x);
    assert Matching(b, table)(x) && x in candidates;
    var taken := after.1[|before.1|..];
    assert taken[0] in multiset(taken) && taken[0] in multiset(candidates);
  }

  /** A block without any restriction starts the whole pool only when that is one item or none. */
  lemma WholePoolIff(b: Block, table: Categories, before: (seq<string>, seq<string>), after: (seq<string>, seq<string>))
    requires b.Unrestricted() && b.random.None? && b.ifPrevious.None? && BlockStep(b, table, None, before, after)
    ensures after.0 == [] <==> |before.0| <= 1
  {
    assert |multiset(after.0)| + |multiset(after.1[|before.1|..])| == |multiset(before.0)|;
  }

  lemma FilterAll(s: seq<string>, p: string -> bool)
    requires forall x :: p(x)
    ensures Filter(s, p) == s
  {
    if s != [] {
      assert s == s[..|s| - 1] + [s[|s| - 1]];
      FilterAll(s[..|s| - 1], p);
    }
  }

  lemma PrefixSub(s: seq<string>, r: seq<string>)
    requires r <= s
    ensures multiset(r) <= multiset(s)
  {
    assert s == r + s[|r|..];
  }

  lemma ShuffledSlice(s: seq<string>, t: seq<string>, k: int)
    requires multiset(s) == multiset(t)
    ensures |s| == |t| && |Slice(s, k)| == |Slice(t, k)| && multiset(Slice(s, k)) <= multiset(t)
  {
    assert |multiset(s)| == |multiset(t)|;
    PrefixSub(s, Slice(s, k));
  }

  /** The next of a list of pool members is still in the pool. */
  lemma NextInPool(pool: seq<string>, items: seq<string>, i: nat, now: seq<string>)
    requires i < |items| && multiset(items) <= multiset(pool)
    requires multiset(now) + multiset(items[..i]) == multiset(pool)
    ensures items[i] in now && items[..i + 1] == items[..i] + [items[i]]
  {
    var x := items[i];
    PrefixSub(items, items[..i + 1]);
    assert items[..i + 1] == items[..i] + [x];
    assert multiset(items[..i + 1])[x] <= multiset(pool)[x];
    assert x in multiset(now);
  }

  class Generation {
    var pool: seq<string>
    var started: seq<string>
    var precollected: seq<string>
    var startInventory: map<string, nat>

    constructor (pool: seq<string>)
      ensures this.pool == pool && started == [] && precollected == [] && startInventory == map[]
    {
      this.pool := pool;
      started, precollected, startInventory := [], [], map[];
    }

    method Move(x: string)
      requires x in pool
      modifies this
      ensures pool == Remove(old(pool), x) && multiset(pool) == multiset(old(pool)) - multiset{x}
      ensures started == old(started) + [x] && precollected == old(precollected) + [x]
      ensures startInventory == old(startInventory)
    {
      RemoveMultiset(pool, x);
      started := started + [x];
      precollected := precollected + [x];
      pool := Remove(pool, x);
    }

    /** `for starting_item in items`, for a list of its own. */
    method MoveAll(items: seq<string>)
      requires multiset(items) <= multiset(pool)
      modifies this
      ensures started == old(started) + items && precollected == old(precollected) + items
      ensures multiset(pool) + multiset(items) == multiset(old(pool))
      ensures startInventory == old(startInventory)
    {
      for i := 0 to |items|
        invariant started == old(started) + items[..i] && precollected == old(precollected) + items[..i]
        invariant multiset(pool) + multiset(items[..i]) == multiset(old(pool))
        invariant startInventory == old(startInventory)
      {
        NextInPool(old(pool), items, i, pool);
        Move(items[i]);
      }
      assert items[..|items|] == items;
    }

    /** The same loop when `items` is the pool itself. */
    method MoveLive() returns (ghost taken: seq<string>)
      modifies this
      ensures started == old(started) + taken && precollected == old(precollected) + taken
      ensures multiset(pool) + multiset(taken) == multiset(old(pool))
      ensures |taken| == (|old(pool)| + 1) / 2
      ensures startInventory == old(startInventory)
    {
      taken := [];
      var i := 0;
      while i < |pool|
        invariant started == old(started) + taken && precollected == old(precollected) + taken
        invariant multiset(pool) + multiset(taken) == multiset(old(pool))
        invariant i == |taken| && i + |pool| == |old(pool)| && i <= |pool| + 1
        invariant startInventory == old(startInventory)
        decreases |pool|
      {
        var x := pool[i];
        Move(x);
        taken := taken + [x];
        i := i + 1;
      }
    }

    method Select(b: Block, table: Categories) returns (items: seq<string>)
      ensures items == Filter(pool, Matching(b, table)) && multiset(items) <= multiset(pool)
      ensures b.Unrestricted() ==> items == pool
    {
      items := pool;
      if b.items.Some? { items := Filter(pool, AmongNames(b.items.value)); }
      if b.categories.Some? { items := Filter(pool, Matching(b, table)); }
      SameCandidates(b, table, pool, items);
      FilterMonotone(pool, pool, Matching(b, table));
    }

    /** A block without pinned starters: shuffle, cut, move. */
    method TakeShuffled(b: Block, candidates: seq<string>) returns (ghost taken: seq<string>)
      requires multiset(candidates) <= multiset(pool) && (b.Unrestricted() ==> candidates == pool)
      modifies this
      ensures started == old(started) + taken && precollected == old(precollected) + taken
      ensures multiset(pool) + multiset(taken) == multiset(old(pool)) && multiset(taken) <= multiset(candidates)
      ensures |taken| == if b.random.Some? then |Slice(candidates, b.random.value)|
                         else if b.Unrestricted() then (|old(pool)| + 1) / 2 else |candidates|
      ensures b.random.None? && !b.Unrestricted() ==> multiset(taken) == multiset(candidates)
      ensures startInventory == old(startInventory)
    {
      hide Slice;
      var items := Shuffle(candidates);
      ShuffledSlice(items, candidates, b.random.GetOr(0));
      if b.Unrestricted() { pool := items; }
      if b.random.Some? {
        var chosen := Slice(items, b.random.value);
        MoveAll(chosen);
        taken := chosen;
      } else if b.Unrestricted() {
        taken := MoveLive();
      } else {
        MoveAll(items);
        taken := items;
      }
    }

    method StartBlock(b: Block, table: Categories, pinned: Option<seq<string>>) returns (ghost taken: seq<string>)
      modifies this
      ensures started == old(started) + taken && precollected == old(precollected) + taken
      ensures multiset(pool) + multiset(taken) == multiset(old(pool))
      ensures BlockTakes(b, table, pinned, old(pool), old(started), taken)
      ensures startInventory == old(startInventory)
    {
      hide Filter, Slice, Matches;
      taken := [];
      if !Applies(b, started) { return; }
      var items := Select(b, table);
      if pinned.Some? && b.IsCharacters() {
        var chosen := Filter(items, AmongNames(pinned.value));
        FilterMonotone(items, items, AmongNames(pinned.value));
        MoveAll(chosen);
        taken := chosen;
      } else {
        taken := TakeShuffled(b, items);
      }
    }

    method RunBlocks(blocks: seq<Block>, table: Categories, pinned: Option<seq<string>>)
        returns (ghost run: seq<(seq<string>, seq<string>)>)
      modifies this
      ensures Run(blocks, table, pinned, run)
      ensures run[0] == (old(pool), old(started)) && run[|blocks|] == (pool, started)
      ensures multiset(pool) + multiset(started) == multiset(old(pool)) + multiset(old(started))
      ensures |old(started)| <= |started| && precollected == old(precollected) + started[|old(started)|..]
    {
      hide BlockTakes;
      run := [(pool, started)];
      for i := 0 to |blocks|
        invariant Run(blocks[..i], table, pinned, run)
        invariant run[0] == (old(pool), old(started)) && run[i] == (pool, started)
        invariant multiset(pool) + multiset(started) == multiset(old(pool)) + multiset(old(started))
        invariant |old(started)| <= |started| && precollected == old(precollected) + started[|old(started)|..]
      {
        var taken := StartBlock(blocks[i], table, pinned);
        assert started[|run[i].1|..] == taken;
        run := run + [(pool, started)];
        assert blocks[..i + 1][i] == blocks[i] && forall j :: 0 <= j < i ==> blocks[..i + 1][j] == blocks[..i][j];
      }
      assert blocks[..|blocks|] == blocks;
    }

    /** The starting-item loop: every block in turn, nothing lost or made. */
    method StartingItems(blocks: seq<Block>, table: Categories, pinned: Option<seq<string>>)
        returns (ghost run: seq<(seq<string>, seq<string>)>)
      modifies this
      ensures Run(blocks, table, pinned, run) && run[0] == (old(pool), []) && run[|blocks|] == (pool, started)
      ensures multiset(pool) + multiset(started) == multiset(old(pool))
      ensures precollected == old(precollected) + started
      ensures startInventory.Keys == set x | x in started
      ensures forall x :: x in startInventory ==> startInventory[x] == multiset(started)[x]
    {
      started := [];
      run := RunBlocks(blocks, table, pinned);
      assert started[0..] == started;
      startInventory := map x | x in started :: multiset(started)[x];
    }
  }

  lemma SameCandidates(b: Block, table: Categories, pool: seq<string>, items: seq<string>)
    requires if b.categories.Some? then items == Filter(pool, Matching(b, table))
             else if b.items.Some? then items == Filter(pool, AmongNames(b.items.value)) else items == pool
    ensures items == Filter(pool, Matching(b, table))
  {
    if b.Unrestricted() {
      FilterAll(pool, Matching(b, table));
    } else if b.categories.None? {
      FilterSame(pool, AmongNames(b.items.value), Matching(b, table));
    }
  }

  lemma {:induction false} FilterSame(s: seq<string>, p: string -> bool, q: string -> bool)
    requires forall x :: p(x) == q(x)
    ensures Filter(s, p) == Filter(s, q)
  {
    if s != [] { FilterSame(s[..|s| - 1], p, q); }
  }
}
