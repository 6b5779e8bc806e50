/** The shape of a `requires` expression and its two readings.

    Operands are joined by AND and OR, may be wrapped in parentheses to any depth,
    and (in the generator's own dialect only) may carry `!` marks.  Both evaluators
    of the repository read this one shape, but not with the same precedence. */
module RequiresSyntax {

  datatype BinOp = And | Or

  /** `!` repeated `nots` times, then an atom. */
  datatype Operand<A> = Operand(nots: nat, atom: Atom<A>)

  datatype Atom<A> = Leaf(a: A) | Group(inner: Chain<A>)

  /** One parenthesis level: `o1 op o2 op ... op on`, grouped from the left. */
  datatype Chain<A> = One(o: Operand<A>) | More(init: Chain<A>, op: BinOp, last: Operand<A>)

  function Apply(op: BinOp, x: bool, y: bool): bool {
    match op
    case And => x && y
    case Or => x || y
  }

  // ---- Reading 1: AND and OR have equal precedence, left to right -----------------

  function OperandL2R<A>(o: Operand<A>, val: A -> bool): bool
    decreases o, 0
  {
    (o.nots % 2 == 1) != AtomL2R(o.atom, val)
  }

  function AtomL2R<A>(t: Atom<A>, val: A -> bool): bool
    decreases t, 0
  {
    match t
    case Leaf(a) => val(a)
    case Group(c) => LeftToRight(c, val)
  }

  function LeftToRight<A>(c: Chain<A>, val: A -> bool): bool
    decreases c, 0
  {
    match c
    case One(o) => OperandL2R(o, val)
    case More(i, op, o) => Apply(op, LeftToRight(i, val), OperandL2R(o, val))
  }

  // ---- Reading 2: AND binds tighter than OR ---------------------------------------

  function OperandPrec<A>(o: Operand<A>, val: A -> bool): bool
    decreases o, 0
  {
    (o.nots % 2 == 1) != AtomPrec(o.atom, val)
  }

  function AtomPrec<A>(t: Atom<A>, val: A -> bool): bool
    decreases t, 0
  {
    match t
    case Leaf(a) => val(a)
    case Group(c) => Precedence(c, val)
  }

  /** The disjunction of the finished conjunctions, and the conjunction still open. */
  function OrOfAnds<A>(c: Chain<A>, val: A -> bool): (bool, bool)
    decreases c, 0
  {
    match c
    case One(o) => (false, OperandPrec(o, val))
    case More(i, And, o) => (OrOfAnds(i, val).0, OrOfAnds(i, val).1 && OperandPrec(o, val))
    case More(i, Or, o) => (OrOfAnds(i, val).0 || OrOfAnds(i, val).1, OperandPrec(o, val))
  }

  function Precedence<A>(c: Chain<A>, val: A -> bool): bool
    decreases c, 1
  {
    OrOfAnds(c, val).0 || OrOfAnds(c, val).1
  }

  // ---- Syntactic conditions -------------------------------------------------------

  /** No operand carries more than `k` marks. */
  predicate NotsAtMost<A>(c: Chain<A>, k: nat)
    decreases c, 1
  {
    match c
    case One(o) => OperandNotsAtMost(o, k)
    case More(i, _, o) => NotsAtMost(i, k) && OperandNotsAtMost(o, k)
  }

  predicate OperandNotsAtMost<A>(o: Operand<A>, k: nat)
    decreases o, 0
  {
    o.nots <= k && (o.atom.Group? ==> NotsAtMost(o.atom.inner, k))
  }

  predicate HasOr<A>(c: Chain<A>) {
    c.More? && (c.op == Or || HasOr(c.init))
  }

  /** No AND comes after an OR at the same parenthesis level, at any level. */
  predicate NoAndAfterOr<A>(c: Chain<A>)
    decreases c, 1
  {
    match c
    case One(o) => OperandNoAndAfterOr(o)
    case More(i, op, o) =>
      NoAndAfterOr(i) && OperandNoAndAfterOr(o) && (op == And ==> !HasOr(i))
  }

  predicate OperandNoAndAfterOr<A>(o: Operand<A>)
    decreases o, 0
  {
    o.atom.Group? ==> NoAndAfterOr(o.atom.inner)
  }

  // ---- When the two readings agree ------------------------------------------------

  lemma {:induction false} NoOrNoOpenDisjunct<A>(c: Chain<A>, val: A -> bool)
    requires !HasOr(c)
    ensures !OrOfAnds(c, val).0
  {
    if c.More? {
      NoOrNoOpenDisjunct(c.init, val);
    }
  }

  lemma {:induction false} ReadingsAgree<A>(c: Chain<A>, val: A -> bool)
    requires NoAndAfterOr(c)
    ensures LeftToRight(c, val) == Precedence(c, val)
    decreases c, 1
  {
    match c
    case One(o) => OperandReadingsAgree(o, val);
    case More(i, op, o) =>
      ReadingsAgree(i, val);
      OperandReadingsAgree(o, val);
      if op == And {
        NoOrNoOpenDisjunct(i, val);
      }
  }

  lemma {:induction false} OperandReadingsAgree<A>(o: Operand<A>, val: A -> bool)
    requires OperandNoAndAfterOr(o)
    ensures OperandL2R(o, val) == OperandPrec(o, val)
    decreases o, 0
  {
    if o.atom.Group? {
      ReadingsAgree(o.atom.inner, val);
    }
  }

  // ---- ... and only then ----------------------------------------------------------

  /** The same expression up to the values at its leaves. */
  predicate SameShape<A, B>(c: Chain<A>, d: Chain<B>)
    decreases c, 1
  {
    match c
    case One(o) => d.One? && OperandSameShape(o, d.o)
    case More(i, op, o) =>
      d.More? && d.op == op && SameShape(i, d.init) && OperandSameShape(o, d.last)
  }

  predicate OperandSameShape<A, B>(o: Operand<A>, p: Operand<B>)
    decreases o, 0
  {
    && o.nots == p.nots
    && (o.atom.Group? <==> p.atom.Group?)
    && (o.atom.Group? ==> SameShape(o.atom.inner, p.atom.inner))
  }

  function Id(b: bool): bool { b }

  /** Every leaf set to `b`. */
  function Fill<A>(c: Chain<A>, b: bool): (d: Chain<bool>)
    ensures SameShape(c, d)
    ensures NotsAtMost(c, 0) ==> LeftToRight(d, Id) == Precedence(d, Id) == b
    ensures NotsAtMost(c, 0) ==> OrOfAnds(d, Id) == (HasOr(c) && b, b)
    decreases c, 1
  {
    match c
    case One(o) => One(FillOperand(o, b))
    case More(i, op, o) => More(Fill(i, b), op, FillOperand(o, b))
  }

  function FillOperand<A>(o: Operand<A>, b: bool): (p: Operand<bool>)
    ensures OperandSameShape(o, p)
    ensures OperandNotsAtMost(o, 0) ==> OperandL2R(p, Id) == OperandPrec(p, Id) == b
    decreases o, 0
  {
    Operand(o.nots, match o.atom
                    case Leaf(_) => Leaf(b)
                    case Group(c) => Group(Fill(c, b)))
  }

  /** Leaf values on which the readings differ, for an AND after an OR. */
  function Separator<A>(c: Chain<A>): (d: Chain<bool>)
    requires NotsAtMost(c, 0) && !NoAndAfterOr(c)
    ensures SameShape(c, d)
    ensures LeftToRight(d, Id) != Precedence(d, Id)
    decreases c, 1
  {
    match c
    case One(o) => One(SeparatorOperand(o))
    case More(i, op, o) =>
      if !NoAndAfterOr(i) then
        // keep the difference: the neutral value of the operator on the right
        var d := Separator(i);
        More(d, op, FillOperand(o, op == And))
      else if op == And && HasOr(i) then
        More(Fill(i, true), And, FillOperand(o, false))
      else
        More(Fill(i, op == And), op, SeparatorOperand(o))
  }

  function SeparatorOperand<A>(o: Operand<A>): (p: Operand<bool>)
    requires OperandNotsAtMost(o, 0) && !OperandNoAndAfterOr(o)
    ensures OperandSameShape(o, p)
    ensures OperandL2R(p, Id) != OperandPrec(p, Id)
    decreases o, 0
  {
    Operand(o.nots, Group(Separator(o.atom.inner)))
  }

  lemma {:induction false} ShapeKeepsNoAndAfterOr<A, B>(c: Chain<A>, d: Chain<B>)
    requires SameShape(c, d)
    ensures HasOr(c) == HasOr(d) && NoAndAfterOr(c) == NoAndAfterOr(d)
    decreases c
  {
    match c
    case One(o) =>
      if o.atom.Group? { ShapeKeepsNoAndAfterOr(o.atom.inner, d.o.atom.inner); }
    case More(i, op, o) =>
      ShapeKeepsNoAndAfterOr(i, d.init);
      if o.atom.Group? { ShapeKeepsNoAndAfterOr(o.atom.inner, d.last.atom.inner); }
  }

  ghost predicate ReadingsAlwaysAgree<A>(c: Chain<A>) {
    forall d: Chain<bool> :: SameShape(c, d) ==> LeftToRight(d, Id) == Precedence(d, Id)
  }

  /** The readings agree whatever the leaves are worth exactly when no AND follows
      an OR at the same parenthesis level. */
  lemma ReadingsAgreeIff<A>(c: Chain<A>)
    requires NotsAtMost(c, 0)
    ensures NoAndAfterOr(c) <==> ReadingsAlwaysAgree(c)
  {
    if NoAndAfterOr(c) {
      forall d: Chain<bool> | SameShape(c, d)
        ensures LeftToRight(d, Id) == Precedence(d, Id)
      {
        ShapeKeepsNoAndAfterOr(c, d);
        ReadingsAgree(d, Id);
      }
    } else {
      var d := Separator(c);
      assert SameShape(c, d) && LeftToRight(d, Id) != Precedence(d, Id);
    }
  }
}
