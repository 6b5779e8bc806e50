/** The depth-first order in which the generator emits its region functions. */
module TopoOrder {
  import opened Reachability

  predicate NoDuplicates(s: seq<string>) {
    s == [] || (NoDuplicates(s[..|s| - 1]) && s[|s| - 1] !in s[..|s| - 1])
  }

  /** Every region comes after all its parents. */
  ghost predicate ParentsFirst(t: Table, order: seq<string>)
    requires t.Valid()
  {
    order == [] ||
    (&& ParentsFirst(t, order[..|order| - 1])
     && Elements(Parents(t, order[|order| - 1])) <= Elements(order[..|order| - 1]))
  }

  ghost predicate Acyclic(t: Table)
    requires t.Valid()
  {
    exists rank :: Ranked(t, rank)
  }

  function Elements(s: seq<string>): set<string> {
    set x | x in s
  }

  /** `r` may be visited without meeting the call stack: the graph is acyclic and `r`
      ranks below everything on it. */
  ghost predicate Below(t: Table, rank: map<string, nat>, r: string, stack: set<string>)
    requires t.Valid()
  {
    Ranked(t, rank) && forall g :: g in stack ==> g in rank && r in rank && rank[r] < rank[g]
  }

  lemma ParentBelow(t: Table, rank: map<string, nat>, r: string, p: string, stack: set<string>)
    requires t.Valid() && r in t.info && p in Parents(t, r) && Below(t, rank, r, stack)
    ensures Below(t, rank, p, stack + {r})
  {
  }

  lemma ListRegion(t: Table, order: seq<string>, r: string)
    requires t.Valid() && NoDuplicates(order) && r !in order && r in t.info
    ensures NoDuplicates(order + [r]) && Elements(order + [r]) == Elements(order) + {r}
    ensures ParentsFirst(t, order) && Elements(Parents(t, r)) <= Elements(order)
            ==> ParentsFirst(t, order + [r])
  {
    assert (order + [r])[..|order|] == order;
  }

  lemma ElementsSnoc(s: seq<string>, i: nat)
    requires i < |s|
    ensures Elements(s[..i + 1]) == Elements(s[..i]) + {s[i]}
  {
    assert s[..i + 1] == s[..i] + [s[i]];
  }

  /** The locals of `topo_order` that the nested `visit` updates. */
  class Sorter {
    const t: Table
    var order: seq<string>
    var seen: set<string>

    constructor (t: Table)
      ensures this.t == t && order == [] && seen == {}
    {
      this.t := t;
      order := [];
      seen := {};
    }

    ghost predicate Valid()
      reads this
    {
      t.Valid() && seen <= t.info.Keys && Elements(order) <= seen && NoDuplicates(order)
    }

    /** Visited but not yet listed: the regions on the call stack. */
    ghost function OnStack(): set<string>
      reads this
    {
      seen - Elements(order)
    }

    /** Lists exactly the regions newly seen, whatever the graph; when `r` is below the
        stack, lists `r` and keeps parents first. */
    method Visit(r: string, ghost rank: map<string, nat>)
      requires Valid() && r in t.info
      modifies this
      ensures Valid()
      ensures r in seen && old(seen) <= seen
      ensures Elements(old(order)) <= Elements(order) && OnStack() == old(OnStack())
      ensures ParentsFirst(t, old(order)) && Below(t, rank, r, old(OnStack()))
              ==> ParentsFirst(t, order) && r in order
      decreases t.info.Keys - seen
    {
      if r in seen {
        return;
      }
      ghost var stack := OnStack();
      ghost var calm := ParentsFirst(t, order) && Below(t, rank, r, stack);
      seen := seen + {r};
      assert OnStack() == stack + {r};
      var ps := Parents(t, r);
      for i := 0 to |ps|
        invariant Valid() && r in seen && old(seen) <= seen
        invariant Elements(old(order)) <= Elements(order) && OnStack() == stack + {r}
        invariant calm ==> ParentsFirst(t, order) && Elements(ps[..i]) <= Elements(order)
      {
        if calm {
          ParentBelow(t, rank, r, ps[i], stack);
        }
        Visit(ps[i], rank);
        ElementsSnoc(ps, i);
      }
      assert ps[..|ps|] == ps;
      assert r !in order by { assert r in OnStack(); }
      ListRegion(t, order, r);
      order := order + [r];
      assert OnStack() == stack;
    }
  }

  /** The position of each listed region. */
  function Positions(order: seq<string>): (rank: map<string, nat>)
    requires NoDuplicates(order)
    ensures rank.Keys == Elements(order)
    ensures forall r :: r in rank ==> rank[r] < |order|
  {
    if order == [] then map[]
    else
      var init, last := order[..|order| - 1], order[|order| - 1];
      Positions(init)[last := |order| - 1]
  }

  /** An order with parents first is itself a certificate that the graph is acyclic. */
  lemma {:induction false} OrderIsRank(t: Table, order: seq<string>)
    requires t.Valid() && NoDuplicates(order) && ParentsFirst(t, order)
    ensures var rank := Positions(order);
            forall r, p :: r in rank && p in Parents(t, r) ==> p in rank && rank[p] < rank[r]
  {
    if order != [] {
      var init, last := order[..|order| - 1], order[|order| - 1];
      OrderIsRank(t, init);
      var rank := Positions(order);
      forall r, p | r in rank && p in Parents(t, r) ensures p in rank && rank[p] < rank[r] {
        if r == last {
          assert p in Elements(Parents(t, r));
        } else {
          assert p in Positions(init);
        }
      }
    }
  }

  /** Terminates on every graph and lists every region exactly once; parents come before
      their children exactly when the graph is acyclic, so that each emitted function
      calls only functions defined above it. */
  method TopologicalOrder(t: Table) returns (order: seq<string>)
    requires t.Valid()
    ensures NoDuplicates(order) && Elements(order) == t.info.Keys
    ensures ParentsFirst(t, order) <==> Acyclic(t)
  {
    ghost var rank: map<string, nat> := map[];
    if Acyclic(t) {
      rank :| Ranked(t, rank);
    }
    var s := new Sorter(t);
    for i := 0 to |t.names|
      invariant s.Valid() && fresh(s) && s.t == t
      invariant s.OnStack() == {}
      invariant Elements(t.names[..i]) <= s.seen
      invariant Acyclic(t) ==> ParentsFirst(t, s.order)
    {
      assert t.names[i] in t.names;
      assert Acyclic(t) ==> Below(t, rank, t.names[i], {});
      s.Visit(t.names[i], rank);
      ElementsSnoc(t.names, i);
    }
    order := s.order;
    assert t.names[..|t.names|] == t.names;
    forall r | r in s.seen ensures r in Elements(order) {
      assert r !in s.OnStack();
    }
    forall r | r in t.info ensures r in s.seen {
      assert r in Elements(t.names);
    }
    assert Elements(order) == t.info.Keys;
    if ParentsFirst(t, order) {
      OrderIsRank(t, order);
      assert Ranked(t, Positions(order));
    }
  }
}
