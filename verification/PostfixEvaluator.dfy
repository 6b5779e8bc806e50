/** The shunting-yard and the postfix stack machine of Rules.py. */
module PostfixEvaluator {
  import opened Wrappers
  import opened RequiresSyntax

  // ---- The two machines, character by character -----------------------------------

  predicate IsNumeric(c: char) {
    '0' <= c <= '9'
  }

  predicate IsOperator(c: char) {
    c in ['&', '|', '!']
  }

  function Prec(c: char): nat {
    if c == '!' then 3 else 2
  }

  /** The stack holds pending operators and open parentheses; its top is the last element. */
  datatype Yard = Yard(stack: string, postfix: string)

  /** `while stack and stack[-1] != "(" and prec[c] <= prec[stack[-1]]` */
  predicate Pops(y: Yard, c: char) {
    |y.stack| > 0 && y.stack[|y.stack| - 1] != '(' && Prec(c) <= Prec(y.stack[|y.stack| - 1])
  }

  function Pop(y: Yard): Yard
    requires |y.stack| > 0
  {
    Yard(y.stack[..|y.stack| - 1], y.postfix + [y.stack[|y.stack| - 1]])
  }

  function PopHigher(y: Yard, c: char): Yard
    decreases |y.stack|
  {
    if Pops(y, c) then PopHigher(Pop(y), c) else y
  }

  function PopGroup(y: Yard): Yard
    decreases |y.stack|
  {
    if |y.stack| > 0 && y.stack[|y.stack| - 1] != '(' then PopGroup(Pop(y)) else y
  }

  function PopAll(y: Yard): Yard
    decreases |y.stack|
  {
    if |y.stack| > 0 then PopAll(Pop(y)) else y
  }

  function Feed(y: Yard, c: char): Result<Yard> {
    if IsNumeric(c) then
      Ok(y.(postfix := y.postfix + [c]))
    else if IsOperator(c) then
      var z := PopHigher(y, c);
      Ok(z.(stack := z.stack + [c]))
    else if c == '(' then
      Ok(y.(stack := y.stack + [c]))
    else if c == ')' then
      var z := PopGroup(y);
      if z.stack == "" then Raised else Ok(z.(stack := z.stack[..|z.stack| - 1]))
    else
      Ok(y)
  }

  function FeedAll(y: Yard, expr: string): Result<Yard>
    decreases |expr|
  {
    if expr == "" then Ok(y) else
      var z :- Feed(y, expr[0]);
      FeedAll(z, expr[1..])
  }

  function ToPostfix(expr: string): Result<string> {
    var y :- FeedAll(Yard("", ""), expr);
    Ok(PopAll(y).postfix)
  }

  function Exec(stack: seq<bool>, c: char): Result<seq<bool>> {
    var n := |stack|;
    if c == '0' then Ok(stack + [false])
    else if c == '1' then Ok(stack + [true])
    else if c == '&' then
      if n < 2 then Raised else Ok(stack[..n - 2] + [stack[n - 2] && stack[n - 1]])
    else if c == '|' then
      if n < 2 then Raised else Ok(stack[..n - 2] + [stack[n - 2] || stack[n - 1]])
    else if c == '!' then
      if n < 1 then Raised else Ok(stack[..n - 1] + [!stack[n - 1]])
    else Ok(stack)
  }

  function ExecAll(stack: seq<bool>, postfix: string): Result<seq<bool>>
    decreases |postfix|
  {
    if postfix == "" then Ok(stack) else
      var s :- Exec(stack, postfix[0]);
      ExecAll(s, postfix[1..])
  }

  function Evaluate(postfix: string): Result<bool> {
    var s :- ExecAll([], postfix);
    if |s| != 1 then Raised else Ok(s[0])
  }

  /** `evaluate_postfix(infix_to_postfix(expr))` */
  function RunRules(expr: string): Result<bool> {
    var p :- ToPostfix(expr);
    Evaluate(p)
  }

  // ---- The loops of the source ----------------------------------------------------

  method InfixToPostfix(expr: string) returns (r: Result<string>)
    ensures r == ToPostfix(expr)
  {
    var stack := "";
    var postfix := "";
    for i := 0 to |expr|
      invariant FeedAll(Yard("", ""), expr) == FeedAll(Yard(stack, postfix), expr[i..])
    {
      var c := expr[i];
      assert expr[i..][0] == c && expr[i..][1..] == expr[i + 1..];
      ghost var y := Yard(stack, postfix);
      if IsNumeric(c) {
        postfix := postfix + [c];
      } else if IsOperator(c) {
        while |stack| > 0 && stack[|stack| - 1] != '(' && Prec(c) <= Prec(stack[|stack| - 1])
          invariant PopHigher(y, c) == PopHigher(Yard(stack, postfix), c)
          decreases |stack|
        {
          postfix := postfix + [stack[|stack| - 1]];
          stack := stack[..|stack| - 1];
        }
        stack := stack + [c];
      } else if c == '(' {
        stack := stack + [c];
      } else if c == ')' {
        while |stack| > 0 && stack[|stack| - 1] != '('
          invariant PopGroup(y) == PopGroup(Yard(stack, postfix))
          decreases |stack|
        {
          postfix := postfix + [stack[|stack| - 1]];
          stack := stack[..|stack| - 1];
        }
        if stack == "" {
          return Raised;
        }
        stack := stack[..|stack| - 1];
      }
    }
    ghost var y := Yard(stack, postfix);
    while |stack| > 0
      invariant PopAll(y) == PopAll(Yard(stack, postfix))
      decreases |stack|
    {
      postfix := postfix + [stack[|stack| - 1]];
      stack := stack[..|stack| - 1];
    }
    return Ok(postfix);
  }

  method EvaluatePostfix(expr: string) returns (r: Result<bool>)
    ensures r == Evaluate(expr)
  {
    var stack: seq<bool> := [];
    for i := 0 to |expr|
      invariant ExecAll([], expr) == ExecAll(stack, expr[i..])
    {
      var c := expr[i];
      assert expr[i..][0] == c && expr[i..][1..] == expr[i + 1..];
      var next := Exec(stack, c);
      if next.Raised? {
        return Raised;
      }
      stack := next.value;
    }
    if |stack| != 1 {
      return Raised;
    }
    return Ok(stack[0]);
  }

  // ---- Rendering an expression whose leaves are already 0 or 1 ---------------------

  function Marks(n: nat): (s: string)
    ensures |s| == n
  {
    if n == 0 then "" else "!" + Marks(n - 1)
  }

  function OpChar(op: BinOp): char {
    if op == And then '&' else '|'
  }

  function ShowOperand(o: Operand<bool>): string
    decreases o, 0
  {
    Marks(o.nots) + ShowAtom(o.atom)
  }

  function ShowAtom(t: Atom<bool>): string
    decreases t, 0
  {
    match t
    case Leaf(b) => if b then "1" else "0"
    case Group(c) => "(" + Show(c) + ")"
  }

  function Show(c: Chain<bool>): string
    decreases c, 0
  {
    match c
    case One(o) => ShowOperand(o)
    case More(i, op, o) => Show(i) + [OpChar(op)] + ShowOperand(o)
  }

  // ---- What the shunting-yard emits ----------------------------------------------

  /** All but the innermost `!` are emitted before the operand they precede. */
  function Early(o: Operand<bool>): string
    decreases o, 1
  {
    Marks(if o.nots == 0 then 0 else o.nots - 1) + PostAtom(o.atom)
  }

  function Bang(o: Operand<bool>): string
    decreases o, 1
  {
    if o.nots == 0 then "" else "!"
  }

  function PostAtom(t: Atom<bool>): string
    decreases t, 0
  {
    match t
    case Leaf(b) => if b then "1" else "0"
    case Group(c) => Post(c)
  }

  function Post(c: Chain<bool>): string
    decreases c, 1
  {
    match c
    case One(o) => Early(o) + Bang(o)
    case More(i, op, o) => Post(i) + Early(o) + Bang(o) + [OpChar(op)]
  }

  /** What is still on the operator stack after the last operand ... */
  function Pending(c: Chain<bool>): string {
    match c
    case One(o) => Bang(o)
    case More(_, op, o) => [OpChar(op)] + Bang(o)
  }

  /** ... and what has been emitted by then. */
  function Emitted(c: Chain<bool>): string {
    match c
    case One(o) => Early(o)
    case More(i, _, o) => Post(i) + Early(o)
  }

  predicate Fresh(s: string) {
    s == "" || s[|s| - 1] == '('
  }

  lemma {:induction false} FeedAllAppend(y: Yard, a: string, b: string)
    ensures FeedAll(y, a + b) ==
            if FeedAll(y, a).Ok? then FeedAll(FeedAll(y, a).value, b) else Raised
    decreases |a|
  {
    if a == "" {
      assert a + b == b;
    } else {
      assert (a + b)[1..] == a[1..] + b;
      var z := Feed(y, a[0]);
      if z.Ok? {
        FeedAllAppend(z.value, a[1..], b);
      }
    }
  }

  lemma FeedOne(y: Yard, c: char)
    ensures FeedAll(y, [c]) == Feed(y, c)
  {
    var z := Feed(y, c);
    assert [c][1..] == "";
    if z.Ok? {
      assert FeedAll(z.value, "") == z;
    }
  }

  /** One turn of each pop loop. */
  lemma PopTop(s: string, x: char, out: string, c: char)
    requires x != '('
    ensures PopGroup(Yard(s + [x], out)) == PopGroup(Yard(s, out + [x]))
    ensures PopAll(Yard(s + [x], out)) == PopAll(Yard(s, out + [x]))
    ensures Prec(c) <= Prec(x) ==> PopHigher(Yard(s + [x], out), c) == PopHigher(Yard(s, out + [x]), c)
  {
    assert Pop(Yard(s + [x], out)) == Yard(s, out + [x]);
  }

  lemma PopNothing(s: string, out: string, c: char)
    requires s == "" || s[|s| - 1] == '(' || Prec(c) > Prec(s[|s| - 1])
    ensures PopHigher(Yard(s, out), c) == Yard(s, out)
  {
  }

  lemma {:induction false} FeedMarks(s: string, out: string, n: nat)
    requires s == "" || s[|s| - 1] != '!'
    ensures FeedAll(Yard(s, out), Marks(n)) ==
            if n == 0 then Ok(Yard(s, out)) else Ok(Yard(s + "!", out + Marks(n - 1)))
  {
    if n == 1 {
      FeedOne(Yard(s, out), '!');
      PopNothing(s, out, '!');
      assert out + Marks(0) == out;
    } else if n > 1 {
      var y := Yard(s + "!", out + Marks(n - 2));
      assert FeedAll(Yard(s, out), Marks(n - 1)) == Ok(y) by { FeedMarks(s, out, n - 1); }
      assert Feed(y, '!') == Ok(Yard(s + "!", out + Marks(n - 1))) by {
        MarksSnoc(n - 2);
        PopTop(s, '!', out + Marks(n - 2), '!');
        assert out + Marks(n - 2) + "!" == out + Marks(n - 1);
        PopNothing(s, out + Marks(n - 1), '!');
      }
      MarksSnoc(n - 1);
      FeedAllAppend(Yard(s, out), Marks(n - 1), "!");
      FeedOne(y, '!');
    }
  }

  lemma {:induction false} MarksSnoc(n: nat)
    ensures Marks(n + 1) == Marks(n) + "!"
  {
    if n > 0 {
      MarksSnoc(n - 1);
    }
  }

  lemma {:induction false} FeedOperand(s: string, out: string, o: Operand<bool>)
    requires s == "" || s[|s| - 1] != '!'
    ensures FeedAll(Yard(s, out), ShowOperand(o)) == Ok(Yard(s + Bang(o), out + Early(o)))
    decreases o, 1
  {
    hide FeedAll, ShowAtom, PostAtom;
    var k := if o.nots == 0 then 0 else o.nots - 1;
    var mid := Yard(s + Bang(o), out + Marks(k));
    assert FeedAll(Yard(s, out), Marks(o.nots)) == Ok(mid) by {
      FeedMarks(s, out, o.nots);
      if o.nots == 0 {
        assert s + Bang(o) == s && out + Marks(0) == out;
      }
    }
    FeedAllAppend(Yard(s, out), Marks(o.nots), ShowAtom(o.atom));
    FeedAtom(s + Bang(o), out + Marks(k), o.atom);
    assert out + Marks(k) + PostAtom(o.atom) == out + Early(o);
  }

  lemma {:induction false} FeedAtom(s: string, out: string, t: Atom<bool>)
    ensures FeedAll(Yard(s, out), ShowAtom(t)) == Ok(Yard(s, out + PostAtom(t)))
    decreases t, 0
  {
    match t
    case Leaf(b) =>
      FeedOne(Yard(s, out), if b then '1' else '0');
    case Group(c) =>
      var open := Yard(s + "(", out);
      var inner := Yard(s + "(" + Pending(c), out + Emitted(c));
      FeedOne(Yard(s, out), '(');
      FeedChain(s + "(", out, c);
      CloseGroup(s, out, c);
      FeedAllAppend(open, Show(c), ")");
      assert FeedAll(open, Show(c) + ")") == FeedAll(inner, ")");
      FeedAllAppend(Yard(s, out), "(", Show(c) + ")");
      assert ShowAtom(t) == "(" + (Show(c) + ")");
  }

  /** The closing parenthesis flushes the pending operators, last pushed first. */
  lemma CloseGroup(s: string, out: string, c: Chain<bool>)
    ensures FeedAll(Yard(s + "(" + Pending(c), out + Emitted(c)), ")") == Ok(Yard(s, out + Post(c)))
  {
    var y := Yard(s + "(" + Pending(c), out + Emitted(c));
    FlushPending(s + "(", out, c, '&');
    var z := Yard(s + "(", out + Post(c));
    assert PopGroup(z) == z;
    assert z.stack[..|z.stack| - 1] == s;
    FeedOne(y, ')');
  }

  /** Popping everything above a fresh stack, by any of the three pop loops. */
  lemma FlushPending(s: string, out: string, c: Chain<bool>, k: char)
    requires k != '!'
    ensures var y := Yard(s + Pending(c), out + Emitted(c)); var z := Yard(s, out + Post(c));
            PopGroup(y) == PopGroup(z) && PopHigher(y, k) == PopHigher(z, k) && PopAll(y) == PopAll(z)
  {
    var o := if c.One? then c.o else c.last;
    var o1 := out + Emitted(c);
    if c.One? {
      assert o1 + Bang(o) == out + Post(c);
      FlushBang(s, o1, o, k);
    } else {
      var s1 := s + [OpChar(c.op)];
      assert s + Pending(c) == s1 + Bang(o);
      var o2 := o1 + Bang(o);
      assert o2 + [OpChar(c.op)] == out + Post(c);
      FlushBang(s1, o1, o, k);
      PopTop(s, OpChar(c.op), o2, k);
    }
  }

  lemma FlushBang(s: string, out: string, o: Operand<bool>, k: char)
    requires k != '!'
    ensures var y := Yard(s + Bang(o), out); var z := Yard(s, out + Bang(o));
            PopGroup(y) == PopGroup(z) && PopHigher(y, k) == PopHigher(z, k) && PopAll(y) == PopAll(z)
  {
    if o.nots == 0 {
      assert s + Bang(o) == s && out + Bang(o) == out;
    } else {
      PopTop(s, '!', out, k);
    }
  }

  lemma {:induction false} FeedChain(s: string, out: string, c: Chain<bool>)
    requires Fresh(s)
    ensures FeedAll(Yard(s, out), Show(c)) == Ok(Yard(s + Pending(c), out + Emitted(c)))
    decreases c, 2
  {
    match c
    case One(o) =>
      FeedOperand(s, out, o);
    case More(i, op, o) =>
      var y := Yard(s, out);
      var z := Yard(s + [OpChar(op)], out + Post(i));
      assert FeedAll(y, Show(i) + [OpChar(op)]) == Ok(z) by {
        FeedChain(s, out, i);
        FeedOperator(s, out, i, op);
        FeedAllAppend(y, Show(i), [OpChar(op)]);
      }
      assert FeedAll(z, ShowOperand(o)) == Ok(Yard(s + Pending(c), out + Emitted(c))) by {
        FeedOperand(z.stack, z.postfix, o);
        assert z.stack + Bang(o) == s + Pending(c);
        assert z.postfix + Early(o) == out + Emitted(c);
      }
      FeedAllAppend(y, Show(i) + [OpChar(op)], ShowOperand(o));
  }

  lemma FeedOperator(s: string, out: string, i: Chain<bool>, op: BinOp)
    requires Fresh(s)
    ensures FeedAll(Yard(s + Pending(i), out + Emitted(i)), [OpChar(op)]) ==
            Ok(Yard(s + [OpChar(op)], out + Post(i)))
  {
    FlushPending(s, out, i, OpChar(op));
    PopNothing(s, out + Post(i), OpChar(op));
    FeedOne(Yard(s + Pending(i), out + Emitted(i)), OpChar(op));
  }

  lemma PostfixOf(c: Chain<bool>)
    ensures ToPostfix(Show(c)) == Ok(Post(c))
  {
    FeedChain("", "", c);
    FlushPending("", "", c, '&');
    assert "" + Pending(c) == Pending(c) && "" + Emitted(c) == Emitted(c) && "" + Post(c) == Post(c);
  }

  // ---- What the stack machine makes of it -----------------------------------------

  /** The value the machine computes for any run of `!`.  A `!` that is not the
      innermost of its run does not reach its operand: it negates `below`, the value
      completed just before the operand, and raises when there is none. */
  function MachineOperand(o: Operand<bool>, below: Option<bool>): (r: Result<(Option<bool>, bool)>)
    ensures r.Ok? ==> (r.value.0.Some? <==> below.Some?)
    decreases o, 0
  {
    if o.nots >= 2 && below.None? then Raised else
      var below1 := if o.nots >= 2 && o.nots % 2 == 0 then Some(!below.value) else below;
      var (b, v) :- MachineAtom(o.atom, below1);
      Ok((b, if o.nots >= 1 then !v else v))
  }

  function MachineAtom(t: Atom<bool>, below: Option<bool>): (r: Result<(Option<bool>, bool)>)
    ensures r.Ok? ==> (r.value.0.Some? <==> below.Some?)
    decreases t, 0
  {
    match t
    case Leaf(b) => Ok((below, b))
    case Group(c) => Machine(c, below)
  }

  function Machine(c: Chain<bool>, below: Option<bool>): (r: Result<(Option<bool>, bool)>)
    ensures r.Ok? ==> (r.value.0.Some? <==> below.Some?)
    decreases c, 0
  {
    match c
    case One(o) => MachineOperand(o, below)
    case More(i, op, o) =>
      var (b, v) :- Machine(i, below);
      var (w, x) :- MachineOperand(o, Some(v));
      Ok((b, Apply(op, w.value, x)))
  }

  /** The operand stack after its top was replaced by `r`'s first half and the second pushed. */
  function Push(st: seq<bool>, r: Result<(Option<bool>, bool)>): Result<seq<bool>>
    requires r.Ok? ==> (r.value.0.Some? <==> |st| > 0)
  {
    var (b, v) :- r;
    Ok(SetTop(st, b) + [v])
  }

  function SetTop(st: seq<bool>, b: Option<bool>): (r: seq<bool>)
    requires b.Some? ==> |st| > 0
    ensures |r| == |st|
  {
    if b.None? then st else st[|st| - 1 := b.value]
  }

  function Top(st: seq<bool>): Option<bool> {
    if st == [] then None else Some(st[|st| - 1])
  }

  lemma {:induction false} ExecAllAppend(st: seq<bool>, a: string, b: string)
    ensures ExecAll(st, a + b) ==
            if ExecAll(st, a).Ok? then ExecAll(ExecAll(st, a).value, b) else Raised
    decreases |a|
  {
    if a == "" {
      assert a + b == b;
    } else {
      assert (a + b)[1..] == a[1..] + b;
      var z := Exec(st, a[0]);
      if z.Ok? {
        ExecAllAppend(z.value, a[1..], b);
      }
    }
  }

  lemma ExecOne(st: seq<bool>, c: char)
    ensures ExecAll(st, [c]) == Exec(st, c)
  {
    var z := Exec(st, c);
    assert [c][1..] == "";
    if z.Ok? {
      assert ExecAll(z.value, "") == z;
    }
  }

  lemma {:induction false} ExecMarks(st: seq<bool>, n: nat)
    ensures ExecAll(st, Marks(n)) ==
            if n == 0 then Ok(st)
            else if st == [] then Raised
            else Ok(st[|st| - 1 := st[|st| - 1] != (n % 2 == 1)])
    decreases n
  {
    if n > 0 && st != [] {
      var st1 := st[|st| - 1 := !st[|st| - 1]];
      assert st[..|st| - 1] + [!st[|st| - 1]] == st1;
      assert Marks(n)[0] == '!';
      ExecMarks(st1, n - 1);
      assert st1[|st| - 1 := st[|st| - 1] != (n % 2 == 1)] == st[|st| - 1 := st[|st| - 1] != (n % 2 == 1)];
      assert Marks(n)[1..] == Marks(n - 1);
    }
  }

  lemma {:induction false} ExecOperand(st: seq<bool>, o: Operand<bool>)
    ensures ExecAll(st, Early(o) + Bang(o)) == Push(st, MachineOperand(o, Top(st)))
    decreases o, 1
  {
    hide PostAtom, MachineAtom, Marks;
    var k := if o.nots == 0 then 0 else o.nots - 1;
    var mid := ExecAll(st, Marks(k));
    ExecMarks(st, k);
    ExecAllAppend(st, Marks(k), PostAtom(o.atom));
    ExecAllAppend(st, Early(o), Bang(o));
    if mid.Ok? {
      assert Top(mid.value) == if k % 2 == 1 then Some(!Top(st).value) else Top(st);
      ExecAtom(mid.value, o.atom);
      var end := ExecAll(mid.value, PostAtom(o.atom));
      if end.Ok? {
        var r := MachineAtom(o.atom, Top(mid.value)).value;
        assert SetTop(mid.value, r.0) == SetTop(st, r.0);
        if o.nots > 0 {
          NegateTop(st, r);
          ExecOne(end.value, '!');
        }
      }
    }
  }

  lemma NegateTop(st: seq<bool>, r: (Option<bool>, bool))
    requires r.0.Some? <==> |st| > 0
    ensures Exec(Push(st, Ok(r)).value, '!') == Push(st, Ok((r.0, !r.1)))
  {
    var s := Push(st, Ok(r)).value;
    assert s[..|s| - 1] == SetTop(st, r.0);
  }

  lemma {:induction false} ExecAtom(st: seq<bool>, t: Atom<bool>)
    ensures ExecAll(st, PostAtom(t)) == Push(st, MachineAtom(t, Top(st)))
    decreases t, 0
  {
    match t
    case Leaf(b) =>
      ExecOne(st, if b then '1' else '0');
      assert SetTop(st, Top(st)) == st;
    case Group(c) => ExecPost(st, c);
  }

  lemma {:induction false} ExecPost(st: seq<bool>, c: Chain<bool>)
    ensures ExecAll(st, Post(c)) == Push(st, Machine(c, Top(st)))
    decreases c, 2
  {
    match c
    case One(o) => ExecOperand(st, o);
    case More(i, op, o) =>
      var last := Early(o) + Bang(o);
      assert Post(c) == Post(i) + last + [OpChar(op)];
      ExecPost(st, i);
      ExecAllAppend(st, Post(i), last);
      ExecAllAppend(st, Post(i) + last, [OpChar(op)]);
      var left := ExecAll(st, Post(i));
      if left.Ok? {
        var b, v := Machine(i, Top(st)).value.0, Machine(i, Top(st)).value.1;
        ExecOperand(left.value, o);
        var right := MachineOperand(o, Some(v));
        var both := ExecAll(left.value, last);
        if both.Ok? {
          ExecOne(both.value, OpChar(op));
          CombineTop(st, (b, v), right.value, op);
        }
      }
  }

  lemma CombineTop(st: seq<bool>, r: (Option<bool>, bool), q: (Option<bool>, bool), op: BinOp)
    requires (r.0.Some? <==> |st| > 0) && q.0.Some?
    ensures Exec(Push(Push(st, Ok(r)).value, Ok(q)).value, OpChar(op)) ==
            Push(st, Ok((r.0, Apply(op, q.0.value, q.1))))
  {
    var s := Push(Push(st, Ok(r)).value, Ok(q)).value;
    assert s[..|s| - 2] == SetTop(st, r.0);
  }

  // ---- What the Rules.py evaluator computes ---------------------------------------

  /** For every expression, marks and nesting included: exactly what comes out. */
  lemma RulesComputesMachine(c: Chain<bool>)
    ensures RunRules(Show(c)) ==
            if Machine(c, None).Ok? then Ok(Machine(c, None).value.1) else Raised
  {
    PostfixOf(c);
    ExecPost([], c);
  }

  /** The very first operand, at every nesting level it opens, carries two or more marks. */
  predicate LeadingDoubleNot<A>(c: Chain<A>)
    decreases c, 1
  {
    match c
    case One(o) => OperandLeadingDoubleNot(o)
    case More(i, _, _) => LeadingDoubleNot(i)
  }

  predicate OperandLeadingDoubleNot<A>(o: Operand<A>)
    decreases o, 0
  {
    o.nots >= 2 || (o.atom.Group? && LeadingDoubleNot(o.atom.inner))
  }

  lemma {:induction false} MachineRaises(c: Chain<bool>, below: Option<bool>)
    ensures Machine(c, below).Raised? <==> below.None? && LeadingDoubleNot(c)
    decreases c, 1
  {
    match c
    case One(o) => MachineOperandRaises(o, below);
    case More(i, op, o) =>
      MachineRaises(i, below);
      var left := Machine(i, below);
      if left.Ok? {
        MachineOperandRaises(o, Some(left.value.1));
      }
  }

  lemma {:induction false} MachineOperandRaises(o: Operand<bool>, below: Option<bool>)
    ensures MachineOperand(o, below).Raised? <==> below.None? && OperandLeadingDoubleNot(o)
    decreases o, 0
  {
    if o.atom.Group? {
      var below1 := if o.nots >= 2 && o.nots % 2 == 0 && below.Some? then Some(!below.value) else below;
      MachineRaises(o.atom.inner, below1);
    }
  }

  /** The evaluator raises on a well-formed expression exactly when a run of two or
      more `!` comes before any operand has been completed. */
  lemma RulesRaisesIff(c: Chain<bool>)
    ensures RunRules(Show(c)).Raised? <==> LeadingDoubleNot(c)
  {
    RulesComputesMachine(c);
    MachineRaises(c, None);
  }

  /** `1&!!1` is read as `(!1)&(!1)`. */
  lemma DoubleNotMisread()
    ensures var c := More(One(Operand(0, Leaf(true))), And, Operand(2, Leaf(true)));
            Show(c) == "1&!!1" && RunRules("1&!!1") == Ok(false) && LeftToRight(c, Id)
  {
    var c := More(One(Operand(0, Leaf(true))), And, Operand(2, Leaf(true)));
    assert Marks(2) == "!!" && Marks(0) == "";
    assert Show(c) == "1&!!1";
    RulesComputesMachine(c);
  }
}
