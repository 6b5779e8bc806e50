/** Which expressions with repeated `!` the Rules.py evaluator reads from left to right.  In a run
    of `!` only the innermost reaches its operand; each of the others negates the value completed
    before it, so a run may be harmless, and two wrong runs may cancel. */
module DoubleNots {
  import opened Wrappers
  import opened RequiresSyntax
  import opened PostfixEvaluator

  // ---- What a run does, by its shape ----------------------------------------------

  /** A run of an even number of `!` loses one negation of its operand and adds one below. */
  predicate EvenRun<A>(o: Operand<A>) {
    o.nots >= 2 && o.nots % 2 == 0
  }

  /** The operand negates the value completed before it. */
  predicate Flips<A>(o: Operand<A>)
    decreases o, 0
  {
    EvenRun(o) != (o.atom.Group? && ChainFlips(o.atom.inner))
  }

  predicate ChainFlips<A>(c: Chain<A>)
    decreases c, 1
  {
    match c
    case One(o) => Flips(o)
    case More(i, _, _) => ChainFlips(i)
  }

  /** How the machine's value relates to the left-to-right one: it is the same for all leaf values,
      the opposite for all, or neither. */
  datatype Sense = Same | Opposite | Mixed

  function Turned(s: Sense): Sense {
    match s
    case Same => Opposite
    case Opposite => Same
    case Mixed => Mixed
  }

  function OperandSense<A>(o: Operand<A>): Sense
    decreases o, 0
  {
    var s := if o.atom.Leaf? then Same else ChainSense(o.atom.inner);
    if EvenRun(o) then Turned(s) else s
  }

  /** A chain of two is read rightly when the operand on the right is, and undoes with its own
      run whatever went wrong on the left. */
  function ChainSense<A>(c: Chain<A>): Sense
    decreases c, 1
  {
    match c
    case One(o) => OperandSense(o)
    case More(i, _, o) =>
      if OperandSense(o) == Same && ChainSense(i) == (if Flips(o) then Opposite else Same) then Same else Mixed
  }

  // ---- The machine as a value and a flip ------------------------------------------

  function OperandValue(o: Operand<bool>): bool
    decreases o, 0
  {
    (o.nots >= 1) != AtomValue(o.atom)
  }

  function AtomValue(t: Atom<bool>): bool
    decreases t, 0
  {
    match t
    case Leaf(b) => b
    case Group(c) => ChainValue(c)
  }

  function ChainValue(c: Chain<bool>): bool
    decreases c, 0
  {
    match c
    case One(o) => OperandValue(o)
    case More(i, op, o) => Apply(op, ChainValue(i) != Flips(o), OperandValue(o))
  }

  function Below(below: Option<bool>, flip: bool): Option<bool> {
    if below.Some? then Some(below.value != flip) else None
  }

  lemma {:induction false} MachineIsValue(c: Chain<bool>, below: Option<bool>)
    requires below.Some? || !LeadingDoubleNot(c)
    ensures Machine(c, below) == Ok((Below(below, ChainFlips(c)), ChainValue(c)))
    decreases c, 1
  {
    match c
    case One(o) => MachineOperandIsValue(o, below);
    case More(i, op, o) =>
      MachineIsValue(i, below);
      MachineOperandIsValue(o, Some(ChainValue(i)));
  }

  lemma {:induction false} MachineOperandIsValue(o: Operand<bool>, below: Option<bool>)
    requires below.Some? || !OperandLeadingDoubleNot(o)
    ensures MachineOperand(o, below) == Ok((Below(below, Flips(o)), OperandValue(o)))
    decreases o, 0
  {
    if o.atom.Group? {
      var below1 := if EvenRun(o) then Some(!below.value) else below;
      MachineIsValue(o.atom.inner, below1);
    }
  }

  lemma {:induction false} ShapeKeepsSense<A, B>(c: Chain<A>, d: Chain<B>)
    requires SameShape(c, d)
    ensures ChainFlips(c) == ChainFlips(d) && ChainSense(c) == ChainSense(d)
    ensures LeadingDoubleNot(c) == LeadingDoubleNot(d)
    decreases c
  {
    match c
    case One(o) => if o.atom.Group? { ShapeKeepsSense(o.atom.inner, d.o.atom.inner); }
    case More(i, op, o) =>
      ShapeKeepsSense(i, d.init);
      if o.atom.Group? { ShapeKeepsSense(o.atom.inner, d.last.atom.inner); }
  }

  // ---- The sense is right ---------------------------------------------------------

  lemma {:induction false} SenseHolds(c: Chain<bool>)
    ensures ChainSense(c) == Same ==> ChainValue(c) == LeftToRight(c, Id)
    ensures ChainSense(c) == Opposite ==> ChainValue(c) != LeftToRight(c, Id)
    decreases c, 1
  {
    match c
    case One(o) => OperandSenseHolds(o);
    case More(i, op, o) =>
      SenseHolds(i);
      OperandSenseHolds(o);
  }

  lemma {:induction false} OperandSenseHolds(o: Operand<bool>)
    ensures OperandSense(o) == Same ==> OperandValue(o) == OperandL2R(o, Id)
    ensures OperandSense(o) == Opposite ==> OperandValue(o) != OperandL2R(o, Id)
    decreases o, 0
  {
    if o.atom.Group? { SenseHolds(o.atom.inner); }
  }

  // ---- And no less: leaf values that show it --------------------------------------

  /** Leaf values for which the left-to-right value is `b`. */
  function Reading<A>(c: Chain<A>, b: bool): (d: Chain<bool>)
    ensures SameShape(c, d) && LeftToRight(d, Id) == b
    decreases c, 1
  {
    match c
    case One(o) => One(OperandReading(o, b))
    case More(i, op, o) => More(Reading(i, b), op, OperandReading(o, b))
  }

  function OperandReading<A>(o: Operand<A>, b: bool): (p: Operand<bool>)
    ensures OperandSameShape(o, p) && OperandL2R(p, Id) == b
    decreases o, 0
  {
    var inner := b != (o.nots % 2 == 1);
    Operand(o.nots, match o.atom
                    case Leaf(_) => Leaf(inner)
                    case Group(c) => Group(Reading(c, inner)))
  }

  /** Leaf values for which the machine's value is `b`. */
  function Valued<A>(c: Chain<A>, b: bool): (d: Chain<bool>)
    ensures SameShape(c, d) && ChainValue(d) == b && ChainFlips(d) == ChainFlips(c)
    decreases c, 1
  {
    match c
    case One(o) => One(OperandValued(o, b))
    case More(i, op, o) => More(Valued(i, b != Flips(o)), op, OperandValued(o, b))
  }

  function OperandValued<A>(o: Operand<A>, b: bool): (p: Operand<bool>)
    ensures OperandSameShape(o, p) && OperandValue(p) == b && Flips(p) == Flips(o)
    decreases o, 0
  {
    var inner := b != (o.nots >= 1);
    Operand(o.nots, match o.atom
                    case Leaf(_) => Leaf(inner)
                    case Group(c) => Group(Valued(c, inner)))
  }

  /** The machine's value and the left-to-right one are equal, or different, on these values. */
  predicate Shows(d: Chain<bool>, equal: bool) {
    (ChainValue(d) == LeftToRight(d, Id)) == equal
  }

  predicate OperandShows(p: Operand<bool>, equal: bool) {
    (OperandValue(p) == OperandL2R(p, Id)) == equal
  }

  /** Leaf values that show any relation the sense does not rule out. */
  function Witness<A>(c: Chain<A>, equal: bool): (d: Chain<bool>)
    requires ChainSense(c) != if equal then Opposite else Same
    ensures SameShape(c, d) && Shows(d, equal)
    decreases c, 1
  {
    match c
    case One(o) => One(OperandWitness(o, equal))
    case More(i, op, o) =>
      if equal then
        // the operand on either side settles the result
        More(Reading(i, op == Or), op, OperandValued(o, op == Or))
      else if OperandSense(o) != Same then
        var p := OperandWitness(o, false);
        var settled := OperandValue(p) == (op == Or);
        if settled then More(Reading(i, op == And), op, p)
        else ShapeFlips(o, p); More(Valued(i, (op == And) != Flips(o)), op, p)
      else
        // the right side is neutral, so the left one shows
        var p := OperandReading(o, op == And);
        OperandSenseKept(o, p);
        More(Witness(i, Flips(o)), op, p)
  }

  function OperandWitness<A>(o: Operand<A>, equal: bool): (p: Operand<bool>)
    requires OperandSense(o) != if equal then Opposite else Same
    ensures OperandSameShape(o, p) && OperandShows(p, equal)
    decreases o, 0
  {
    Operand(o.nots, match o.atom
                    case Leaf(_) => Leaf(true)
                    case Group(c) => Group(Witness(c, equal != EvenRun(o))))
  }

  lemma ShapeFlips<A, B>(o: Operand<A>, p: Operand<B>)
    requires OperandSameShape(o, p)
    ensures Flips(o) == Flips(p)
  {
    if o.atom.Group? { ShapeKeepsSense(o.atom.inner, p.atom.inner); }
  }

  lemma OperandSenseKept<A>(o: Operand<A>, p: Operand<bool>)
    requires OperandSameShape(o, p) && OperandSense(o) == Same
    ensures OperandValue(p) == OperandL2R(p, Id) && Flips(o) == Flips(p)
  {
    if o.atom.Group? { ShapeKeepsSense(o.atom.inner, p.atom.inner); }
    OperandSenseHolds(p);
  }

  // ---- The exact condition --------------------------------------------------------

  ghost predicate AlwaysReadLeftToRight<A>(c: Chain<A>) {
    forall d: Chain<bool> :: SameShape(c, d) ==> RunRules(Show(d)) == Ok(LeftToRight(d, Id))
  }

  /** The evaluator gives the left-to-right value for all leaf values exactly when no run of two or
      more `!` comes before any completed operand, and the runs of even length cancel. */
  lemma ReadLeftToRightIff<A>(c: Chain<A>)
    ensures AlwaysReadLeftToRight(c) <==> !LeadingDoubleNot(c) && ChainSense(c) == Same
  {
    if !LeadingDoubleNot(c) && ChainSense(c) == Same {
      forall d: Chain<bool> | SameShape(c, d) ensures RunRules(Show(d)) == Ok(LeftToRight(d, Id)) {
        ShapeKeepsSense(c, d);
        RulesComputesMachine(d);
        MachineIsValue(d, None);
        SenseHolds(d);
      }
    }
    if AlwaysReadLeftToRight(c) {
      var d := Reading(c, true);
      ShapeKeepsSense(c, d);
      RulesRaisesIff(d);
      if ChainSense(c) != Same {
        var e := Witness(c, false);
        ShapeKeepsSense(c, e);
        RulesComputesMachine(e);
        MachineIsValue(e, None);
      }
    }
  }

  /** Without adjacent `!` there is nothing to cancel. */
  lemma {:induction false} SingleNotsSame<A>(c: Chain<A>)
    requires NotsAtMost(c, 1)
    ensures !LeadingDoubleNot(c) && ChainSense(c) == Same && !ChainFlips(c)
    decreases c
  {
    match c
    case One(o) => if o.atom.Group? { SingleNotsSame(o.atom.inner); }
    case More(i, _, o) =>
      SingleNotsSame(i);
      if o.atom.Group? { SingleNotsSame(o.atom.inner); }
  }

  /** So without adjacent `!` the evaluator never raises and reads `&` and `|` from left to right
      with equal precedence, `!` tightest, parentheses to any depth. */
  lemma RulesReadsLeftToRight(c: Chain<bool>)
    requires NotsAtMost(c, 1)
    ensures RunRules(Show(c)) == Ok(LeftToRight(c, Id))
  {
    SingleNotsSame(c);
    ReadLeftToRightIff(c);
    SameShapeSelf(c);
  }

  lemma {:induction false} SameShapeSelf<A>(c: Chain<A>)
    ensures SameShape(c, c)
    decreases c
  {
    match c
    case One(o) => if o.atom.Group? { SameShapeSelf(o.atom.inner); }
    case More(i, _, o) =>
      SameShapeSelf(i);
      if o.atom.Group? { SameShapeSelf(o.atom.inner); }
  }
}
