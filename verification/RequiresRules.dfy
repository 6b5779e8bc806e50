/** `requires` as Rules.py evaluates it: token substitution, then the postfix machine;
    and the list form of `requires`. */
module RequiresRules {
  import opened Wrappers
  import opened RequiresSyntax
  import opened RequiresTokens
  import opened PostfixEvaluator
  import opened DoubleNots

  type Inventory = map<string, nat>

  function Count(inv: Inventory, name: string): nat {
    if name in inv then inv[name] else 0
  }

  /** `pool`: how many of each item `get_item_counts` finds; `started`: how many of each the player
      starts with, which it does not; `categories`: the items of each category. */
  datatype World = World(pool: map<string, nat>, started: Inventory, categories: map<string, seq<string>>)
  {
    function Members(category: string): seq<string> {
      if category in categories then categories[category] else []
    }
  }

  function Total(inv: Inventory, names: seq<string>): nat {
    if names == [] then 0 else Total(inv, names[..|names| - 1]) + Count(inv, names[|names| - 1])
  }

  // ---- Thresholds -----------------------------------------------------------------

  function Clamp(x: real): real {
    if x < 0.0 then 0.0 else if x > 1.0 then 1.0 else x
  }

  function Ceil(x: real): int {
    -((-x).Floor)
  }

  /** The number of items a reference asks for, given how many exist. */
  function Threshold(amount: Amount, existing: nat): Result<int> {
    match amount
    case All => Ok(existing)
    case Half => Ok(existing / 2)
    case Percent(p) => Ok(Ceil(existing as real * Clamp(p / 100.0)))
    case Number(n) => Ok(n)
    case Unreadable => Raised
  }

  function Existing(w: World, ref: ItemRef): nat {
    if ref.category then Total(w.pool, w.Members(ref.name)) else Count(w.pool, ref.name)
  }

  function Holding(w: World, ref: ItemRef, inv: Inventory): nat {
    if ref.category then Total(inv, w.Members(ref.name)) else Count(inv, ref.name)
  }

  /** Relative thresholds never ask for more than exists, so the whole pool meets them. */
  lemma RelativeThresholdReachable(w: World, ref: ItemRef)
    requires ref.amount.All? || ref.amount.Half? || ref.amount.Percent?
    ensures var t := Threshold(ref.amount, Existing(w, ref));
            t.Ok? && 0 <= t.value <= Existing(w, ref) && Holding(w, ref, w.pool) >= t.value
  {
    RelativeThreshold(ref.amount, Existing(w, ref));
  }

  /** All of them; half, rounded down; a percentage between 0 and 100 rounded up, others taken for
      those bounds; a number as it is. */
  lemma ThresholdMeaning(e: nat, p: real, n: int)
    ensures Threshold(All, e) == Ok(e) && Threshold(Number(n), e) == Ok(n) && Threshold(Unreadable, e) == Raised
    ensures Threshold(Half, e).Ok? && 2 * Threshold(Half, e).value <= e <= 2 * Threshold(Half, e).value + 1
    ensures Threshold(Percent(p), e).Ok?
    ensures 0.0 <= p <= 100.0 ==>
              (Threshold(Percent(p), e).value as real - 1.0) < e as real * (p / 100.0) <= Threshold(Percent(p), e).value as real
    ensures p < 0.0 ==> Threshold(Percent(p), e) == Ok(0)
    ensures p > 100.0 ==> Threshold(Percent(p), e) == Ok(e)
  {
    CeilBounds(e as real * Clamp(p / 100.0));
    CeilWhole(0);
    CeilWhole(e);
  }

  lemma CeilBounds(x: real)
    ensures Ceil(x) as real - 1.0 < x <= Ceil(x) as real
  {
    var y: int := (-x).Floor;
    assert y as real <= -x < y as real + 1.0;
  }

  lemma CeilWhole(n: int)
    ensures Ceil(n as real) == n
  {
    CeilBounds(n as real);
  }

  lemma RelativeThreshold(amount: Amount, n: nat)
    requires amount.All? || amount.Half? || amount.Percent?
    ensures Threshold(amount, n).Ok? && 0 <= Threshold(amount, n).value <= n
  {
    if amount.Percent? {
      PercentWithin(n, Clamp(amount.p / 100.0));
    }
  }

  lemma PercentWithin(n: nat, f: real)
    requires 0.0 <= f <= 1.0
    ensures 0 <= Ceil(n as real * f) <= n
  {
    ScaleWithin(n as real, f);
    CeilWithin(n as real * f, n);
  }

  lemma ScaleWithin(n: real, f: real)
    requires 0.0 <= n && 0.0 <= f <= 1.0
    ensures 0.0 <= n * f <= n
  {
  }

  lemma CeilWithin(x: real, n: nat)
    requires 0.0 <= x <= n as real
    ensures 0 <= Ceil(x) <= n
  {
    var y: int, m: int := (-x).Floor, n;
    assert y as real <= -x < y as real + 1.0;
    assert -m as real <= -x;
  }

  // ---- OptOne ---------------------------------------------------------------------

  /** `OptOne` clamps a plain number to how many exist; other amounts pass through. */
  function Expand(w: World, leaf: Atomic): ItemRef {
    if leaf.optional && leaf.ref.amount.Number? && leaf.ref.amount.n >= 0 then
      var n, e := leaf.ref.amount.n, Existing(w, leaf.ref);
      leaf.ref.(amount := Number(if n > e then e else n))
    else
      leaf.ref
  }

  function ExpandToks(w: World, ts: seq<Tok>): (r: seq<Tok>)
    ensures |r| == |ts|
  {
    seq(|ts|, i requires 0 <= i < |ts| =>
          if ts[i].Ref? then Ref(Atomic(false, Expand(w, ts[i].leaf))) else ts[i])
  }

  // ---- Token substitution ---------------------------------------------------------

  /** `requires_list.replace(item_base, c)` */
  function Replace(ts: seq<Tok>, t: Tok, c: char): (r: seq<Tok>)
    ensures |r| == |ts|
  {
    seq(|ts|, i requires 0 <= i < |ts| => if ts[i] == t then Ch(c) else ts[i])
  }

  /** A reference to a category nothing belongs to can never be met. */
  predicate Met(w: World, ref: ItemRef, inv: Inventory) {
    && Threshold(ref.amount, Existing(w, ref)).Ok?
    && (ref.category ==> w.Members(ref.name) != [])
    && Holding(w, ref, inv) >= Threshold(ref.amount, Existing(w, ref)).value
  }

  /** The one reference the loop leaves in place: an empty category below zero. */
  predicate Stuck(w: World, ref: ItemRef) {
    && Threshold(ref.amount, Existing(w, ref)).Ok?
    && ref.category && w.Members(ref.name) == []
    && Threshold(ref.amount, Existing(w, ref)).value < 0
  }

  function Digit(w: World, t: Tok, inv: Inventory): Tok {
    if !t.Ref? || Stuck(w, t.leaf.ref) then t
    else if Met(w, t.leaf.ref, inv) then Ch('1')
    else Ch('0')
  }

  predicate Readable(w: World, ts: seq<Tok>) {
    forall t :: t in ts && t.Ref? ==> Threshold(t.leaf.ref.amount, Existing(w, t.leaf.ref)).Ok?
  }

  function Digits(w: World, ts: seq<Tok>, inv: Inventory): (r: seq<Tok>)
    ensures |r| == |ts|
  {
    seq(|ts|, i requires 0 <= i < |ts| => Digit(w, ts[i], inv))
  }

  lemma {:induction false} TotalGrows(inv: Inventory, names: seq<string>, k: nat)
    requires k <= |names|
    ensures Total(inv, names[..k]) <= Total(inv, names)
    decreases |names|
  {
    if k < |names| {
      TotalGrows(inv, names[..|names| - 1], k);
      assert names[..|names| - 1][..k] == names[..k];
    } else {
      assert names[..k] == names;
    }
  }

  /** The substitution loop, whatever duplicates occur and in whatever order, gives
      each reference the digit 1 exactly when it is met. */
  method Substitute(w: World, ts: seq<Tok>, inv: Inventory) returns (r: Result<seq<Tok>>)
    ensures r.Ok? <==> Readable(w, ts)
    ensures r.Ok? ==> r.value == Digits(w, ts, inv)
  {
    var list := ts;
    for k := 0 to |ts|
      invariant |list| == |ts|
      invariant Readable(w, ts[..k])
      invariant forall i :: 0 <= i < |ts| ==>
                  list[i] == if ts[i] in ts[..k] then Digit(w, ts[i], inv) else ts[i]
    {
      assert ts[..k + 1] == ts[..k] + [ts[k]];
      if ts[k].Ref? {
        var ref := ts[k].leaf.ref;
        var t := Threshold(ref.amount, Existing(w, ref));
        if t.Raised? {
          return Raised;
        }
        ghost var before := list;
        var total := 0;
        if ref.category {
          var members := w.Members(ref.name);
          for m := 0 to |members|
            invariant total == Total(inv, members[..m])
            invariant m == 0 ==> list == before
            invariant m > 0 && total < t.value ==> list == before
            invariant m > 0 && total >= t.value ==> list == Replace(before, ts[k], '1')
          {
            assert members[..m + 1][..m] == members[..m];
            total := total + Count(inv, members[m]);
            if total >= t.value {
              list := Replace(list, ts[k], '1');
            }
          }
          assert members[..|members|] == members;
        } else {
          total := Count(inv, ref.name);
          if total >= t.value {
            list := Replace(list, ts[k], '1');
          }
        }
        if total <= t.value {
          list := Replace(list, ts[k], '0');
        }
      }
    }
    assert ts[..|ts|] == ts;
    return Ok(list);
  }

  // ---- The whole check ------------------------------------------------------------

  function NatText(n: nat): string {
    if n < 10 then [('0' as int + n) as char] else NatText(n / 10) + NatText(n % 10)
  }

  /** A reference as text, as it stands when it is left in place. */
  function RefText(ref: ItemRef): string {
    (if ref.category then "|@" else "|") + ref.name + ":" +
    (if ref.amount.Number? then
       if ref.amount.n < 0 then "-" + NatText(-ref.amount.n) else NatText(ref.amount.n)
     else "") + "|"
  }

  function Render(ts: seq<Tok>): string {
    if ts == [] then "" else
      (match ts[0]
       case Ref(l) => RefText(l.ref)
       case Kw(op) => [OpChar(op)]
       case Ch(c) => [c]) + Render(ts[1..])
  }

  /** `checkRequireStringForArea` */
  function CheckString(w: World, ts: seq<Tok>, inv: Inventory): Result<bool> {
    if ts == [] then Ok(true)
    else if !Readable(w, ExpandToks(w, ts)) then Raised
    else RunRules(Render(Digits(w, ExpandToks(w, ts), inv)))
  }

  method CheckRequireString(w: World, ts: seq<Tok>, inv: Inventory) returns (r: Result<bool>)
    ensures r == CheckString(w, ts, inv)
  {
    if ts == [] {
      return Ok(true);
    }
    var s := Substitute(w, ExpandToks(w, ts), inv);
    if s.Raised? {
      return Raised;
    }
    var p := InfixToPostfix(Render(s.value));
    if p.Raised? {
      return Raised;
    }
    r := EvaluatePostfix(p.value);
  }

  // ---- Its meaning on expressions -------------------------------------------------

  /** What a leaf is worth. */
  predicate Holds(w: World, leaf: Atomic, inv: Inventory) {
    Met(w, Expand(w, leaf), inv)
  }

  predicate Usable(w: World, leaf: Atomic) {
    var ref := Expand(w, leaf);
    Threshold(ref.amount, Existing(w, ref)).Ok? && !Stuck(w, ref)
  }

  function Settle(w: World, ts: seq<Tok>, inv: Inventory): seq<Tok> {
    Digits(w, ExpandToks(w, ts), inv)
  }

  lemma {:induction false} RenderAppend(a: seq<Tok>, b: seq<Tok>)
    ensures Render(a + b) == Render(a) + Render(b)
  {
    if a == [] {
      assert a + b == b;
    } else {
      assert (a + b)[1..] == a[1..] + b;
      RenderAppend(a[1..], b);
    }
  }

  lemma SettleAppend(w: World, a: seq<Tok>, b: seq<Tok>, inv: Inventory)
    ensures Settle(w, a + b, inv) == Settle(w, a, inv) + Settle(w, b, inv)
    ensures Render(Settle(w, a + b, inv)) == Render(Settle(w, a, inv)) + Render(Settle(w, b, inv))
  {
    assert Settle(w, a + b, inv) == Settle(w, a, inv) + Settle(w, b, inv);
    RenderAppend(Settle(w, a, inv), Settle(w, b, inv));
  }

  function Text(w: World, ts: seq<Tok>, inv: Inventory): string {
    Render(Settle(w, ts, inv))
  }

  lemma OneTok(w: World, t: Tok, inv: Inventory)
    requires t.Ref? ==> Usable(w, t.leaf)
    ensures Text(w, [t], inv) ==
            match t
            case Ref(l) => if Holds(w, l, inv) then "1" else "0"
            case Kw(op) => [OpChar(op)]
            case Ch(c) => [c]
  {
    var s := Settle(w, [t], inv);
    assert s[1..] == [];
    assert Render(s[1..]) == "";
    assert s[0] == Digit(w, if t.Ref? then Ref(Atomic(false, Expand(w, t.leaf))) else t, inv);
  }

  lemma {:induction false} MarksText(w: World, n: nat, inv: Inventory)
    ensures Text(w, MarkToks(n), inv) == Marks(n)
  {
    if n > 0 {
      MarksText(w, n - 1, inv);
      OneTok(w, Ch('!'), inv);
      SettleAppend(w, [Ch('!')], MarkToks(n - 1), inv);
    }
  }

  lemma {:induction false} OperandText(w: World, o: Operand<Atomic>, inv: Inventory)
    requires EveryOperandLeaf(o, l => Usable(w, l))
    ensures Text(w, OperandToks(o), inv) == ShowOperand(MapOperand(o, l => Holds(w, l, inv)))
    decreases o, 0
  {
    MarksText(w, o.nots, inv);
    SettleAppend(w, MarkToks(o.nots), AtomToks(o.atom), inv);
    match o.atom
    case Leaf(a) =>
      OneTok(w, Ref(a), inv);
    case Group(c) =>
      ChainText(w, c, inv);
      OneTok(w, Ch('('), inv);
      OneTok(w, Ch(')'), inv);
      SettleAppend(w, [Ch('(')] + Toks(c), [Ch(')')], inv);
      SettleAppend(w, [Ch('(')], Toks(c), inv);
  }

  lemma {:induction false} ChainText(w: World, c: Chain<Atomic>, inv: Inventory)
    requires EveryLeaf(c, l => Usable(w, l))
    ensures Text(w, Toks(c), inv) == Show(MapChain(c, l => Holds(w, l, inv)))
    decreases c, 1
  {
    match c
    case One(o) => OperandText(w, o, inv);
    case More(i, op, o) =>
      ChainText(w, i, inv);
      OperandText(w, o, inv);
      OneTok(w, Kw(op), inv);
      SettleAppend(w, Toks(i) + [Kw(op)], OperandToks(o), inv);
      SettleAppend(w, Toks(i), [Kw(op)], inv);
  }

  /** On every expression whose references are usable the check is the evaluator on the values
      of its leaves, whatever the runs of `!`. */
  lemma CheckStringComputes(w: World, c: Chain<Atomic>, inv: Inventory)
    requires EveryLeaf(c, l => Usable(w, l))
    ensures CheckString(w, Toks(c), inv) == RunRules(Show(MapChain(c, l => Holds(w, l, inv))))
  {
    ToksReadable(w, c);
    ChainText(w, c, inv);
  }

  /** If besides the evaluator reads the expression from left to right, the check does not raise
      and gives the left-to-right value of its leaves. */
  lemma CheckStringMeaning(w: World, c: Chain<Atomic>, inv: Inventory)
    requires !LeadingDoubleNot(c) && ChainSense(c) == Same
    requires EveryLeaf(c, l => Usable(w, l))
    ensures CheckString(w, Toks(c), inv) == Ok(LeftToRight(c, l => Holds(w, l, inv)))
  {
    var val := l => Holds(w, l, inv);
    CheckStringComputes(w, c, inv);
    ReadLeftToRightIff(c);
    MapValues(c, val);
  }

  lemma {:induction false} ToksReadable(w: World, c: Chain<Atomic>)
    requires EveryLeaf(c, l => Usable(w, l))
    ensures Readable(w, ExpandToks(w, Toks(c)))
  {
    forall t | t in ExpandToks(w, Toks(c)) && t.Ref?
      ensures Threshold(t.leaf.ref.amount, Existing(w, t.leaf.ref)).Ok?
    {
      var i :| 0 <= i < |Toks(c)| && ExpandToks(w, Toks(c))[i] == t;
      LeafTok(w, c, Toks(c)[i]);
    }
  }

  lemma {:induction false} LeafTok(w: World, c: Chain<Atomic>, t: Tok)
    requires EveryLeaf(c, l => Usable(w, l)) && t in Toks(c) && t.Ref?
    ensures Usable(w, t.leaf)
    decreases c, 1
  {
    match c
    case One(o) => OperandLeafTok(w, o, t);
    case More(i, op, o) =>
      if t in Toks(i) { LeafTok(w, i, t); } else { OperandLeafTok(w, o, t); }
  }

  lemma {:induction false} OperandLeafTok(w: World, o: Operand<Atomic>, t: Tok)
    requires EveryOperandLeaf(o, l => Usable(w, l)) && t in OperandToks(o) && t.Ref?
    ensures Usable(w, t.leaf)
    decreases o, 0
  {
    NoRefInMarks(o.nots, t);
    match o.atom
    case Leaf(a) =>
    case Group(c) => LeafTok(w, c, t);
  }

  lemma {:induction false} NoRefInMarks(n: nat, t: Tok)
    requires t.Ref?
    ensures t !in MarkToks(n)
  {
    if n > 0 { NoRefInMarks(n - 1, t); }
  }

  // ---- Monotonicity ---------------------------------------------------------------

  ghost predicate Grows(lo: Inventory, hi: Inventory) {
    forall name :: Count(lo, name) <= Count(hi, name)
  }

  lemma {:induction false} TotalMonotone(lo: Inventory, hi: Inventory, names: seq<string>)
    requires Grows(lo, hi)
    ensures Total(lo, names) <= Total(hi, names)
  {
    if names != [] {
      TotalMonotone(lo, hi, names[..|names| - 1]);
    }
  }

  lemma HoldsMonotone(w: World, leaf: Atomic, lo: Inventory, hi: Inventory)
    requires Grows(lo, hi)
    ensures Holds(w, leaf, lo) ==> Holds(w, leaf, hi)
  {
    TotalMonotone(lo, hi, w.Members(leaf.ref.name));
  }

  /** More items never turn a `!`-free string requirement from true to false. */
  lemma CheckStringMonotone(w: World, c: Chain<Atomic>, lo: Inventory, hi: Inventory)
    requires NotsAtMost(c, 0)
    requires EveryLeaf(c, l => Usable(w, l))
    requires Grows(lo, hi)
    requires CheckString(w, Toks(c), lo) == Ok(true)
    ensures CheckString(w, Toks(c), hi) == Ok(true)
  {
    NotsWeaken(c);
    SingleNotsSame(c);
    CheckStringMeaning(w, c, lo);
    CheckStringMeaning(w, c, hi);
    forall l ensures Holds(w, l, lo) ==> Holds(w, l, hi) {
      HoldsMonotone(w, l, lo, hi);
    }
    LeftToRightMonotone(c, l => Holds(w, l, lo), l => Holds(w, l, hi));
  }

  lemma {:induction false} NotsWeaken<A>(c: Chain<A>)
    requires NotsAtMost(c, 0)
    ensures NotsAtMost(c, 1)
    decreases c
  {
    match c
    case One(o) =>
      if o.atom.Group? { NotsWeaken(o.atom.inner); }
    case More(i, op, o) =>
      NotsWeaken(i);
      if o.atom.Group? { NotsWeaken(o.atom.inner); }
  }

  // ---- The list form --------------------------------------------------------------

  /** `name` or `name:count` */
  datatype Need = Need(name: string, count: int)

  /** An entry of the list: an or-group, or one plain item. */
  datatype Entry = OrGroup(needs: seq<Need>) | Plain(need: Need)

  predicate Has(inv: Inventory, n: Need) {
    Count(inv, n.name) >= n.count
  }

  predicate GroupHeld(inv: Inventory, needs: seq<Need>) {
    forall n :: n in needs ==> Has(inv, n)
  }

  /** Some or-group is fully held, or every plain item is: in particular a list of
      or-groups alone always passes. */
  predicate ListMet(req: seq<Entry>, inv: Inventory) {
    || (exists e :: e in req && e.OrGroup? && GroupHeld(inv, e.needs))
    || (forall e :: e in req && e.Plain? ==> Has(inv, e.need))
  }

  /** `checkRequireDictForArea`: the or-group that is met ends the loop. */
  method CheckRequireList(req: seq<Entry>, inv: Inventory) returns (canAccess: bool)
    ensures canAccess == ListMet(req, inv)
  {
    canAccess := true;
    for i := 0 to |req|
      invariant forall e :: e in req[..i] && e.OrGroup? ==> !GroupHeld(inv, e.needs)
      invariant canAccess == forall e :: e in req[..i] && e.Plain? ==> Has(inv, e.need)
    {
      assert req[..i + 1] == req[..i] + [req[i]];
      match req[i]
      case OrGroup(needs) =>
        var canAccessOr := true;
        for j := 0 to |needs|
          invariant canAccessOr == GroupHeld(inv, needs[..j])
        {
          assert needs[..j + 1] == needs[..j] + [needs[j]];
          if !Has(inv, needs[j]) {
            canAccessOr := false;
          }
        }
        assert needs[..|needs|] == needs;
        if canAccessOr {
          assert req[i] in req;
          canAccess := true;
          break;
        }
      case Plain(need) =>
        if !Has(inv, need) {
          canAccess := false;
        }
    }
    assert req[..|req|] == req;
  }

  /** A list of or-groups alone always passes; one of plain items needs them all; and in a mixed one an
      or-group that is fully held is enough. */
  lemma ListForms(req: seq<Entry>, needs: seq<Need>, inv: Inventory)
    ensures (forall e :: e in req ==> e.OrGroup?) ==> ListMet(req, inv)
    ensures (forall e :: e in req ==> e.Plain?) ==>
              (ListMet(req, inv) <==> forall e :: e in req ==> Count(inv, e.need.name) >= e.need.count)
    ensures OrGroup(needs) in req && (forall n :: n in needs ==> Count(inv, n.name) >= n.count) ==> ListMet(req, inv)
  {
    if OrGroup(needs) in req && forall n :: n in needs ==> Count(inv, n.name) >= n.count {
      assert GroupHeld(inv, OrGroup(needs).needs);
    }
  }

  lemma ListMonotone(req: seq<Entry>, lo: Inventory, hi: Inventory)
    requires Grows(lo, hi) && ListMet(req, lo)
    ensures ListMet(req, hi)
  {
    if e :| e in req && e.OrGroup? && GroupHeld(lo, e.needs) {
      assert GroupHeld(hi, e.needs);
    }
  }
}
