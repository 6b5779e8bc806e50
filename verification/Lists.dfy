/** Python list operations on sequences. */
module Lists {

  ghost predicate Distinct<T>(s: seq<T>) {
    forall i, j :: 0 <= i < j < |s| ==> s[i] != s[j]
  }

  /** `list.remove`: drops the first occurrence. */
  function Remove<T(==)>(s: seq<T>, x: T): (r: seq<T>)
    requires x in s
    ensures |r| == |s| - 1
  {
    if s[0] == x then s[1..] else [s[0]] + Remove(s[1..], x)
  }

  lemma {:induction false} RemoveMultiset<T>(s: seq<T>, x: T)
    requires x in s
    ensures multiset(Remove(s, x)) == multiset(s) - multiset{x}
  {
    assert s == [s[0]] + s[1..];
    if s[0] != x {
      RemoveMultiset(s[1..], x);
    }
  }

  lemma {:induction false} RemoveAt<T>(a: seq<T>, x: T, b: seq<T>)
    requires x !in a
    ensures Remove(a + [x] + b, x) == a + b
  {
    if a == [] {
      assert (a + [x] + b)[1..] == b;
      assert a + b == b;
    } else {
      var tail := a[1..] + [x] + b;
      assert a + [x] + b == [a[0]] + tail;
      RemoveAt(a[1..], x, b);
      RemoveStep(a[0], tail, x);
      assert a + b == [a[0]] + (a[1..] + b);
    }
  }

  lemma RemoveStep<T>(y: T, s: seq<T>, x: T)
    requires x in s && x != y
    ensures Remove([y] + s, x) == [y] + Remove(s, x)
  {
    assert ([y] + s)[1..] == s;
  }

  lemma DistinctParts<T>(a: seq<T>, x: T, b: seq<T>)
    requires Distinct(a + [x] + b)
    ensures Distinct(a + b) && x !in a && x !in b
    ensures forall y :: y in a + [x] + b <==> y == x || y in a + b
  {
    var s := a + [x] + b;
    assert s[|a|] == x;
    forall i | 0 <= i < |a| ensures a[i] != x { assert s[i] == a[i]; }
    forall i | 0 <= i < |b| ensures b[i] != x { assert s[|a| + 1 + i] == b[i]; }
    forall i, j | 0 <= i < j < |a + b| ensures (a + b)[i] != (a + b)[j] {
      var i', j' := if i < |a| then i else i + 1, if j < |a| then j else j + 1;
      assert s[i'] == (a + b)[i] && s[j'] == (a + b)[j];
    }
  }

  /** Removing from a list without repetitions leaves exactly the others. */
  lemma RemoveDistinct<T>(s: seq<T>, x: T)
    requires Distinct(s) && x in s
    ensures Distinct(Remove(s, x))
    ensures forall y :: y in Remove(s, x) <==> y in s && y != x
  {
    var i :| 0 <= i < |s| && s[i] == x;
    var a, b := s[..i], s[i + 1..];
    assert s == a + [x] + b;
    DistinctParts(a, x, b);
    RemoveAt(a, x, b);
  }

  function Copies<T>(x: T, n: nat): (r: seq<T>)
    ensures |r| == n && forall y :: y in r ==> y == x
  {
    if n == 0 then [] else Copies(x, n - 1) + [x]
  }

  lemma {:induction false} CopiesCount<T>(x: T, n: nat, y: T)
    ensures multiset(Copies(x, n))[y] == if y == x then n else 0
  {
    if n > 0 { CopiesCount(x, n - 1, y); }
  }

  // ---- Filtering ------------------------------------------------------------------

  function Filter<T>(s: seq<T>, p: T -> bool): (r: seq<T>)
    ensures forall x :: x in r ==> x in s && p(x)
    ensures forall x :: x in s && p(x) ==> x in r
  {
    if s == [] then []
    else
      var init, last := s[..|s| - 1], s[|s| - 1];
      assert s == init + [last];
      Filter(init, p) + if p(last) then [last] else []
  }

  lemma FilterSnoc<T>(s: seq<T>, i: nat, p: T -> bool)
    requires i < |s|
    ensures Filter(s[..i + 1], p) == if p(s[i]) then Filter(s[..i], p) + [s[i]] else Filter(s[..i], p)
  {
    assert s[..i + 1][..i] == s[..i];
    assert Filter(s[..i], p) + [] == Filter(s[..i], p);
  }

  /** One turn of `for x in list(s): if not keep(x): s.remove(x)`, which removes from the
      live list while walking a copy. */
  lemma FilterInPlace<T>(s: seq<T>, i: nat, p: T -> bool)
    requires i < |s|
    ensures p(s[i]) ==> Filter(s[..i], p) + s[i..] == Filter(s[..i + 1], p) + s[i + 1..]
    ensures !p(s[i]) ==> s[i] in Filter(s[..i], p) + s[i..]
                         && Remove(Filter(s[..i], p) + s[i..], s[i]) == Filter(s[..i + 1], p) + s[i + 1..]
  {
    var kept, rest := Filter(s[..i], p), s[i + 1..];
    FilterSnoc(s, i, p);
    assert s[i..] == [s[i]] + rest;
    assert kept + s[i..] == kept + [s[i]] + rest;
    if !p(s[i]) {
      RemoveAt(kept, s[i], rest);
    }
  }

  lemma {:induction false} FilterParts<T>(s: seq<T>, p: T -> bool, q: T -> bool)
    requires forall x :: x in s ==> q(x) == !p(x)
    ensures multiset(Filter(s, p)) + multiset(Filter(s, q)) == multiset(s)
  {
    if s != [] {
      var init, last := s[..|s| - 1], s[|s| - 1];
      assert s == init + [last];
      FilterParts(init, p, q);
    }
  }

  lemma {:induction false} FilterCount<T>(s: seq<T>, p: T -> bool, x: T)
    ensures multiset(Filter(s, p))[x] == if p(x) then multiset(s)[x] else 0
  {
    if s != [] {
      var init, last := s[..|s| - 1], s[|s| - 1];
      assert s == init + [last];
      FilterCount(init, p, x);
    }
  }

  lemma Pointwise<T>(a: multiset<T>, b: multiset<T>)
    requires forall x :: a[x] <= b[x]
    ensures a <= b
  {
  }

  lemma SameCounts<T>(a: multiset<T>, b: multiset<T>)
    requires forall x :: a[x] == b[x]
    ensures a == b && |a| == |b|
  {
    Pointwise(a, b);
    Pointwise(b, a);
    assert a == b;
  }

  /** What a filter keeps grows with the list, and does not depend on the order. */
  lemma FilterMonotone<T>(s: seq<T>, t: seq<T>, p: T -> bool)
    requires multiset(s) <= multiset(t)
    ensures multiset(Filter(s, p)) <= multiset(Filter(t, p)) <= multiset(t)
  {
    hide Filter;
    var a, b, c := multiset(Filter(s, p)), multiset(Filter(t, p)), multiset(t);
    forall x ensures a[x] <= b[x] <= c[x] {
      FilterCount(s, p, x);
      FilterCount(t, p, x);
    }
    Pointwise(a, b);
    Pointwise(b, c);
  }
}
