/** `requires` strings as token sequences: the input both evaluators read. */
module RequiresTokens {
  import opened RequiresSyntax

  /** What stands after the `:` of a reference. */
  datatype Amount = All | Half | Percent(p: real) | Number(n: int) | Unreadable

  /** `|name:amount|`, or `|@name:amount|` for a category. */
  datatype ItemRef = ItemRef(category: bool, name: string, amount: Amount)

  /** A reference, or one wrapped as `{OptOne(...)}`. */
  datatype Atomic = Atomic(optional: bool, ref: ItemRef)

  datatype Tok = Ref(leaf: Atomic) | Kw(op: BinOp) | Ch(c: char)

  // ---- Expressions as tokens ------------------------------------------------------

  function MarkToks(n: nat): seq<Tok> {
    if n == 0 then [] else [Ch('!')] + MarkToks(n - 1)
  }

  function OperandToks(o: Operand<Atomic>): seq<Tok>
    decreases o, 0
  {
    MarkToks(o.nots) + AtomToks(o.atom)
  }

  function AtomToks(t: Atom<Atomic>): seq<Tok>
    decreases t, 0
  {
    match t
    case Leaf(a) => [Ref(a)]
    case Group(c) => [Ch('(')] + Toks(c) + [Ch(')')]
  }

  function Toks(c: Chain<Atomic>): (ts: seq<Tok>)
    ensures ts != []
    decreases c, 0
  {
    match c
    case One(o) =>
      assert o.atom.Leaf? ==> Ref(o.atom.a) in OperandToks(o);
      assert o.atom.Group? ==> Ch('(') in OperandToks(o);
      OperandToks(o)
    case More(i, op, o) => Toks(i) + [Kw(op)] + OperandToks(o)
  }

  /** Every leaf satisfies `p`. */
  ghost predicate EveryLeaf<A>(c: Chain<A>, p: A -> bool)
    decreases c, 1
  {
    match c
    case One(o) => EveryOperandLeaf(o, p)
    case More(i, _, o) => EveryLeaf(i, p) && EveryOperandLeaf(o, p)
  }

  ghost predicate EveryOperandLeaf<A>(o: Operand<A>, p: A -> bool)
    decreases o, 0
  {
    match o.atom
    case Leaf(a) => p(a)
    case Group(c) => EveryLeaf(c, p)
  }

  // ---- Replacing every leaf -------------------------------------------------------

  function MapChain<A, B>(c: Chain<A>, f: A -> B): (d: Chain<B>)
    ensures SameShape(c, d)
    decreases c, 0
  {
    match c
    case One(o) => One(MapOperand(o, f))
    case More(i, op, o) => More(MapChain(i, f), op, MapOperand(o, f))
  }

  function MapOperand<A, B>(o: Operand<A>, f: A -> B): (p: Operand<B>)
    ensures OperandSameShape(o, p)
    decreases o, 0
  {
    Operand(o.nots, match o.atom
                    case Leaf(a) => Leaf(f(a))
                    case Group(c) => Group(MapChain(c, f)))
  }

  lemma {:induction false} MapValues<A>(c: Chain<A>, val: A -> bool)
    ensures LeftToRight(MapChain(c, val), Id) == LeftToRight(c, val)
    decreases c, 1
  {
    match c
    case One(o) => MapOperandValues(o, val);
    case More(i, op, o) => MapValues(i, val); MapOperandValues(o, val);
  }

  lemma {:induction false} MapOperandValues<A>(o: Operand<A>, val: A -> bool)
    ensures OperandL2R(MapOperand(o, val), Id) == OperandL2R(o, val)
    decreases o, 0
  {
    if o.atom.Group? { MapValues(o.atom.inner, val); }
  }

  lemma {:induction false} ShapeKeepsNots<A, B>(c: Chain<A>, d: Chain<B>, k: nat)
    requires SameShape(c, d)
    ensures NotsAtMost(c, k) == NotsAtMost(d, k)
    decreases c
  {
    match c
    case One(o) =>
      if o.atom.Group? { ShapeKeepsNots(o.atom.inner, d.o.atom.inner, k); }
    case More(i, op, o) =>
      ShapeKeepsNots(i, d.init, k);
      if o.atom.Group? { ShapeKeepsNots(o.atom.inner, d.last.atom.inner, k); }
  }

  /** Without `!`, raising leaves from false to true cannot lower the value. */
  lemma {:induction false} LeftToRightMonotone<A(!new)>(c: Chain<A>, lo: A -> bool, hi: A -> bool)
    requires NotsAtMost(c, 0)
    requires forall a :: lo(a) ==> hi(a)
    ensures LeftToRight(c, lo) ==> LeftToRight(c, hi)
    decreases c, 1
  {
    match c
    case One(o) =>
      OperandMonotone(o, lo, hi);
    case More(i, op, o) =>
      LeftToRightMonotone(i, lo, hi);
      OperandMonotone(o, lo, hi);
  }

  lemma {:induction false} OperandMonotone<A(!new)>(o: Operand<A>, lo: A -> bool, hi: A -> bool)
    requires OperandNotsAtMost(o, 0)
    requires forall a :: lo(a) ==> hi(a)
    ensures OperandL2R(o, lo) ==> OperandL2R(o, hi)
    decreases o, 0
  {
    match o.atom
    case Leaf(a) =>
      assert AtomL2R(o.atom, lo) == lo(a) && AtomL2R(o.atom, hi) == hi(a);
    case Group(c) =>
      LeftToRightMonotone(c, lo, hi);
      assert AtomL2R(o.atom, lo) == LeftToRight(c, lo) && AtomL2R(o.atom, hi) == LeftToRight(c, hi);
  }
}
