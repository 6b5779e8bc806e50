/** The `requires` compiler of generate_tracker_logic.py: tokenizer, recursive descent,
    simplifying emitter, and the meaning of the Lua expression it emits. */
module TrackerCompiler {
  import opened Wrappers
  import opened RequiresSyntax
  import opened RequiresTokens

  // ---- Emitted expressions --------------------------------------------------------

  /** A Lua expression: `true`, a count test, a sum test, or ALL/ANY of some. */
  datatype Lua =
    | True
    | Has(code: string, n: int)
    | Royal(n: int)
    | Cat(n: int, codes: seq<string>)
    | AllOf(args: seq<Lua>)
    | AnyOf(args: seq<Lua>)

  const ROYAL_CODES :=
    ["w1royalseed", "w2royalseed", "w3royalseed", "w4royalseed", "w5royalseed", "w6royalseed"]

  /** `Tracker:ProviderCountForCode` */
  type Provider = map<string, nat>

  function CodeCount(p: Provider, code: string): nat {
    if code in p then p[code] else 0
  }

  function CodeTotal(p: Provider, codes: seq<string>): nat {
    if codes == [] then 0 else CodeTotal(p, codes[..|codes| - 1]) + CodeCount(p, codes[|codes| - 1])
  }

  predicate Eval(e: Lua, p: Provider) {
    match e
    case True => true
    case Has(code, n) => CodeCount(p, code) >= n
    case Royal(n) => CodeTotal(p, ROYAL_CODES) >= n
    case Cat(n, codes) => CodeTotal(p, codes) >= n
    case AllOf(args) => forall a :: a in args ==> Eval(a, p)
    case AnyOf(args) => exists a :: a in args && Eval(a, p)
  }

  /** The item codes an expression reads. */
  function CodesOf(e: Lua): set<string> {
    match e
    case True => {}
    case Has(code, _) => {code}
    case Royal(_) => set c | c in ROYAL_CODES
    case Cat(_, codes) => set c | c in codes
    case AllOf(args) => set a, c | a in args && c in CodesOf(a) :: c
    case AnyOf(args) => set a, c | a in args && c in CodesOf(a) :: c
  }

  /** They are all it reads: trackers that count these alike give it the same value. */
  lemma {:induction false} SameCodesSameValue(e: Lua, p: Provider, p': Provider)
    requires forall c :: c in CodesOf(e) ==> CodeCount(p, c) == CodeCount(p', c)
    ensures Eval(e, p) == Eval(e, p')
    decreases e
  {
    match e
    case True =>
    case Has(code, n) => assert code in CodesOf(e);
    case Royal(n) =>
      assert forall c :: c in ROYAL_CODES ==> c in CodesOf(e);
      SameTotals(ROYAL_CODES, p, p');
    case Cat(n, codes) =>
      assert forall c :: c in codes ==> c in CodesOf(e);
      SameTotals(codes, p, p');
    case AllOf(args) =>
      forall a | a in args ensures Eval(a, p) == Eval(a, p') { SameCodesSameValue(a, p, p'); }
    case AnyOf(args) =>
      forall a | a in args ensures Eval(a, p) == Eval(a, p') { SameCodesSameValue(a, p, p'); }
  }

  lemma {:induction false} SameTotals(codes: seq<string>, p: Provider, p': Provider)
    requires forall c :: c in codes ==> CodeCount(p, c) == CodeCount(p', c)
    ensures CodeTotal(p, codes) == CodeTotal(p', codes)
  {
    if codes != [] {
      var init, last := codes[..|codes| - 1], codes[|codes| - 1];
      assert last in codes && forall c :: c in init ==> c in codes;
      SameTotals(init, p, p');
    }
  }

  // ---- Atoms ----------------------------------------------------------------------

  datatype Tables = Tables(name2code: map<string, string>, name2count: map<string, int>,
                           always: set<string>, cat2names: map<string, seq<string>>)

  function CountAlways(t: Tables, names: seq<string>): nat {
    if names == [] then 0
    else
      var init, last := names[..|names| - 1], names[|names| - 1];
      CountAlways(t, init) + if last in t.always then 1 else 0
  }

  function GatedCodes(t: Tables, names: seq<string>): seq<string> {
    if names == [] then []
    else
      var init, last := names[..|names| - 1], names[|names| - 1];
      GatedCodes(t, init) + if last !in t.always && last in t.name2code then [t.name2code[last]] else []
  }

  function PoolCount(t: Tables, name: string): int {
    if name in t.name2count then t.name2count[name] else 0
  }

  function Min(a: int, b: int): int {
    if a <= b then a else b
  }

  /** `_item_atom` */
  function ItemAtom(t: Tables, leaf: Atomic): Result<Lua> {
    var name, amount := leaf.ref.name, leaf.ref.amount;
    if leaf.ref.category then
      if name == "Royal Seed" then
        if amount.Number? then Ok(Royal(amount.n)) else Raised
      else if name !in t.cat2names || t.cat2names[name] == [] || !amount.Number? then Raised
      else
        var names := t.cat2names[name];
        var aa := CountAlways(t, names);
        if aa >= amount.n then Ok(True) else Ok(Cat(amount.n - aa, GatedCodes(t, names)))
    else if name in t.always then Ok(True)
    else if name !in t.name2code || !amount.Number? then Raised
    else
      var n := if leaf.optional then Min(amount.n, PoolCount(t, name)) else amount.n;
      if leaf.optional && n <= 0 then Ok(True)
      else Ok(Has(t.name2code[name], if n <= 1 then 1 else n))
  }

  // ---- Tokens ---------------------------------------------------------------------

  datatype Token = LParen | RParen | AND | OR | ATOM(lua: Lua)

  /** `_tokenize`, one token: white space yields nothing. */
  function TokenOf(t: Tables, tok: Tok): Result<seq<Token>> {
    match tok
    case Ref(leaf) =>
      var e :- ItemAtom(t, leaf);
      Ok([ATOM(e)])
    case Kw(And) => Ok([AND])
    case Kw(Or) => Ok([OR])
    case Ch(c) =>
      if c == '(' then Ok([LParen])
      else if c == ')' then Ok([RParen])
      else if c in [' ', '\t', '\n', '\r'] then Ok([])
      else Raised
  }

  /** Parentheses are tokens, white space is skipped, and any other character is refused. */
  lemma CharTokens(t: Tables, c: char)
    ensures TokenOf(t, Ch('(')) == Ok([LParen]) && TokenOf(t, Ch(')')) == Ok([RParen])
    ensures c == ' ' || c == '\t' || c == '\n' || c == '\r' <==> TokenOf(t, Ch(c)) == Ok([])
    ensures c !in "() \t\n\r" ==> TokenOf(t, Ch(c)).Raised?
  {
  }

  function Tokenize(t: Tables, toks: seq<Tok>): Result<seq<Token>> {
    if toks == [] then Ok([]) else
      var first :- TokenOf(t, toks[0]);
      var rest :- Tokenize(t, toks[1..]);
      Ok(first + rest)
  }

  // ---- Recursive descent ----------------------------------------------------------

  datatype Node = Atm(lua: Lua) | OrN(nodes: seq<Node>) | AndN(nodes: seq<Node>)

  datatype Parsed<T> = Parsed(got: T, rest: seq<Token>)

  function MkOr(nodes: seq<Node>): Node
    requires nodes != []
  {
    if |nodes| > 1 then OrN(nodes) else nodes[0]
  }

  function MkAnd(nodes: seq<Node>): Node
    requires nodes != []
  {
    if |nodes| > 1 then AndN(nodes) else nodes[0]
  }

  /** Each parsing function consumes at least one token. */
  function ParseOr(ts: seq<Token>): (r: Result<Parsed<Node>>)
    ensures r.Ok? ==> |r.value.rest| < |ts|
    decreases |ts|, 5
  {
    var first :- ParseAnd(ts);
    FinishOr(first.rest, [first.got])
  }

  function FinishOr(ts: seq<Token>, nodes: seq<Node>): (r: Result<Parsed<Node>>)
    requires nodes != []
    ensures r.Ok? ==> |r.value.rest| <= |ts|
    decreases |ts|, 4
  {
    var all :- OrRest(ts, nodes);
    Ok(Parsed(MkOr(all.got), all.rest))
  }

  function OrRest(ts: seq<Token>, nodes: seq<Node>): (r: Result<Parsed<seq<Node>>>)
    requires nodes != []
    ensures r.Ok? ==> |r.value.rest| <= |ts| && r.value.got != []
    decreases |ts|, 3
  {
    if ts != [] && ts[0] == OR then
      var next :- ParseAnd(ts[1..]);
      OrRest(next.rest, nodes + [next.got])
    else Ok(Parsed(nodes, ts))
  }

  function ParseAnd(ts: seq<Token>): (r: Result<Parsed<Node>>)
    ensures r.Ok? ==> |r.value.rest| < |ts|
    decreases |ts|, 2
  {
    var first :- ParseAtom(ts);
    FinishAnd(first.rest, [first.got])
  }

  function FinishAnd(ts: seq<Token>, nodes: seq<Node>): (r: Result<Parsed<Node>>)
    requires nodes != []
    ensures r.Ok? ==> |r.value.rest| <= |ts|
    decreases |ts|, 2
  {
    var all :- AndRest(ts, nodes);
    Ok(Parsed(MkAnd(all.got), all.rest))
  }

  function AndRest(ts: seq<Token>, nodes: seq<Node>): (r: Result<Parsed<seq<Node>>>)
    requires nodes != []
    ensures r.Ok? ==> |r.value.rest| <= |ts| && r.value.got != []
    decreases |ts|, 1
  {
    if ts != [] && ts[0] == AND then
      var next :- ParseAtom(ts[1..]);
      AndRest(next.rest, nodes + [next.got])
    else Ok(Parsed(nodes, ts))
  }

  function ParseAtom(ts: seq<Token>): (r: Result<Parsed<Node>>)
    ensures r.Ok? ==> |r.value.rest| < |ts|
    decreases |ts|, 0
  {
    if ts == [] then Raised
    else if ts[0] == LParen then
      var inner :- ParseOr(ts[1..]);
      if inner.rest != [] && inner.rest[0] == RParen then Ok(Parsed(inner.got, inner.rest[1..]))
      else Raised
    else if ts[0].ATOM? then Ok(Parsed(Atm(ts[0].lua), ts[1..]))
    else Raised
  }

  // ---- Emission -------------------------------------------------------------------

  function EmitAll(nodes: seq<Node>): (r: seq<Lua>)
    ensures |r| == |nodes|
  {
    if nodes == [] then [] else [Emit(nodes[0])] + EmitAll(nodes[1..])
  }

  function DropTrue(args: seq<Lua>): seq<Lua> {
    if args == [] then []
    else (if args[0] == True then [] else [args[0]]) + DropTrue(args[1..])
  }

  /** `_emit` */
  function Emit(node: Node): Lua {
    match node
    case Atm(lua) => lua
    case OrN(nodes) =>
      var args := EmitAll(nodes);
      if True in args then True
      else if args == [] then True
      else if |args| == 1 then args[0]
      else AnyOf(args)
    case AndN(nodes) =>
      var args := DropTrue(EmitAll(nodes));
      if args == [] then True
      else if |args| == 1 then args[0]
      else AllOf(args)
  }

  /** `Compiler.compile` */
  function Compile(t: Tables, toks: seq<Tok>): Result<Lua> {
    if toks == [] then Ok(True) else
      var ts :- Tokenize(t, toks);
      var p :- ParseOr(ts);
      if p.rest != [] then Raised else Ok(Emit(p.got))
  }

  // ---- The compiler object --------------------------------------------------------

  /** Every code a leaf's atom registers in `used_codes`. */
  function Registers(t: Tables, toks: seq<Tok>): set<string> {
    set i, c | 0 <= i < |toks| && toks[i].Ref? && ItemAtom(t, toks[i].leaf).Ok?
               && c in CodesOf(ItemAtom(t, toks[i].leaf).value) :: c
  }

  class Compiler {
    const tables: Tables
    var usedCodes: set<string>
    var toks: seq<Token>
    var pos: nat

    constructor (t: Tables)
      ensures tables == t && usedCodes == {} && toks == [] && pos == 0
    {
      tables := t;
      usedCodes := {};
      toks := [];
      pos := 0;
    }

    predicate Valid()
      reads this
    {
      pos <= |toks|
    }

    function Rest(): seq<Token>
      requires Valid()
      reads this
    {
      toks[pos..]
    }

    /** `_tokenize`: the atoms of the tokens read register their codes. */
    method TokenizeAll(input: seq<Tok>) returns (r: Result<seq<Token>>)
      modifies this`usedCodes
      ensures r == Tokenize(tables, input)
      ensures r.Ok? ==> usedCodes == old(usedCodes) + Registers(tables, input)
    {
      var out := [];
      assert input[0..] == input;
      assert Tokenize(tables, input).Ok? ==> [] + Tokenize(tables, input).value == Tokenize(tables, input).value;
      for i := 0 to |input|
        invariant Tokenize(tables, input) ==
                  if Tokenize(tables, input[i..]).Ok? then Ok(out + Tokenize(tables, input[i..]).value) else Raised
        invariant usedCodes == old(usedCodes) + Registers(tables, input[..i])
      {
        assert input[i..][0] == input[i] && input[i..][1..] == input[i + 1..];
        var t := TokenOf(tables, input[i]);
        if t.Raised? {
          return Raised;
        }
        RegistersSnoc(tables, input, i);
        if input[i].Ref? {
          usedCodes := usedCodes + CodesOf(ItemAtom(tables, input[i].leaf).value);
        }
        ghost var tail := Tokenize(tables, input[i + 1..]);
        assert tail.Ok? ==> out + (t.value + tail.value) == out + t.value + tail.value;
        out := out + t.value;
      }
      assert input[..|input|] == input && Tokenize(tables, input[|input|..]) == Ok([]);
      assert out + [] == out;
      return Ok(out);
    }

    method ParseOrExpr() returns (r: Result<Node>)
      requires Valid()
      modifies this`pos
      ensures Valid()
      ensures ParseOr(old(Rest())) == if r.Ok? then Ok(Parsed(r.value, Rest())) else Raised
      decreases |toks| - pos, 2
    {
      hide ParseAtom, ParseAnd;
      var first := ParseAndExpr();
      if first.Raised? {
        return Raised;
      }
      var nodes := [first.value];
      while pos < |toks| && toks[pos] == OR
        invariant Valid() && nodes != [] && pos > old(pos)
        invariant ParseOr(old(Rest())) == FinishOr(Rest(), nodes)
        decreases |toks| - pos
      {
        assert Rest()[0] == OR && Rest()[1..] == toks[pos + 1..];
        pos := pos + 1;
        var next := ParseAndExpr();
        if next.Raised? {
          return Raised;
        }
        nodes := nodes + [next.value];
      }
      return Ok(MkOr(nodes));
    }

    method ParseAndExpr() returns (r: Result<Node>)
      requires Valid()
      modifies this`pos
      ensures Valid()
      ensures r.Ok? ==> pos > old(pos)
      ensures ParseAnd(old(Rest())) == if r.Ok? then Ok(Parsed(r.value, Rest())) else Raised
      decreases |toks| - pos, 1
    {
      hide ParseAtom, ParseOr;
      var first := ParseAtomExpr();
      if first.Raised? {
        return Raised;
      }
      var nodes := [first.value];
      while pos < |toks| && toks[pos] == AND
        invariant Valid() && nodes != [] && pos > old(pos)
        invariant ParseAnd(old(Rest())) == FinishAnd(Rest(), nodes)
        decreases |toks| - pos
      {
        assert Rest()[0] == AND && Rest()[1..] == toks[pos + 1..];
        pos := pos + 1;
        var next := ParseAtomExpr();
        if next.Raised? {
          return Raised;
        }
        nodes := nodes + [next.value];
      }
      return Ok(MkAnd(nodes));
    }

    method ParseAtomExpr() returns (r: Result<Node>)
      requires Valid()
      modifies this`pos
      ensures Valid()
      ensures r.Ok? ==> pos > old(pos)
      ensures ParseAtom(old(Rest())) == if r.Ok? then Ok(Parsed(r.value, Rest())) else Raised
      decreases |toks| - pos, 0
    {
      if pos == |toks| {
        return Raised;
      }
      if toks[pos] == LParen {
        assert Rest()[1..] == toks[pos + 1..];
        pos := pos + 1;
        var node := ParseOrExpr();
        if node.Raised? || pos == |toks| || toks[pos] != RParen {
          return Raised;
        }
        assert Rest()[1..] == toks[pos + 1..];
        pos := pos + 1;
        return node;
      }
      if toks[pos].ATOM? {
        var lua := toks[pos].lua;
        assert Rest()[1..] == toks[pos + 1..];
        pos := pos + 1;
        return Ok(Atm(lua));
      }
      return Raised;
    }

    /** `compile`: the emitted expression, and every code it reads is registered. */
    method CompileExpr(input: seq<Tok>) returns (r: Result<Lua>)
      requires Valid()
      modifies this
      ensures Valid()
      ensures r == Compile(tables, input)
      ensures r.Ok? ==> usedCodes == old(usedCodes) + Registers(tables, input)
      ensures r.Ok? ==> CodesOf(r.value) <= usedCodes
    {
      if input == [] {
        return Ok(True);
      }
      var ts := TokenizeAll(input);
      if ts.Raised? {
        return Raised;
      }
      pos := 0;
      toks := ts.value;
      assert Rest() == toks;
      var node := ParseOrExpr();
      if node.Raised? || pos != |toks| {
        return Raised;
      }
      CompiledCodesRegistered(tables, input);
      return Ok(Emit(node.value));
    }
  }

  lemma RegistersSnoc(t: Tables, toks: seq<Tok>, i: nat)
    requires i < |toks|
    ensures Registers(t, toks[..i + 1]) ==
            Registers(t, toks[..i]) +
            if toks[i].Ref? && ItemAtom(t, toks[i].leaf).Ok?
            then CodesOf(ItemAtom(t, toks[i].leaf).value) else {}
  {
    var a, b := Registers(t, toks[..i]), Registers(t, toks[..i + 1]);
    forall c | c in b
      ensures c in a || (toks[i].Ref? && ItemAtom(t, toks[i].leaf).Ok?
                         && c in CodesOf(ItemAtom(t, toks[i].leaf).value))
    {
      var j :| 0 <= j < i + 1 && toks[..i + 1][j].Ref? && ItemAtom(t, toks[..i + 1][j].leaf).Ok?
               && c in CodesOf(ItemAtom(t, toks[..i + 1][j].leaf).value);
      if j < i {
        assert toks[..i][j] == toks[..i + 1][j];
      }
    }
    forall c | c in a ensures c in b {
      var j :| 0 <= j < i && toks[..i][j].Ref? && ItemAtom(t, toks[..i][j].leaf).Ok?
               && c in CodesOf(ItemAtom(t, toks[..i][j].leaf).value);
      assert toks[..i][j] == toks[..i + 1][j];
    }
    assert toks[..i + 1][i] == toks[i];
  }

  // ---- Codes read by the output are registered ------------------------------------

  ghost predicate Within(ts: seq<Token>, s: set<string>) {
    forall t :: t in ts && t.ATOM? ==> CodesOf(t.lua) <= s
  }

  ghost predicate NodeWithin(n: Node, s: set<string>) {
    match n
    case Atm(lua) => CodesOf(lua) <= s
    case OrN(nodes) => forall m :: m in nodes ==> NodeWithin(m, s)
    case AndN(nodes) => forall m :: m in nodes ==> NodeWithin(m, s)
  }

  lemma {:induction false} ParseOrWithin(ts: seq<Token>, s: set<string>)
    requires Within(ts, s) && ParseOr(ts).Ok?
    ensures NodeWithin(ParseOr(ts).value.got, s) && Within(ParseOr(ts).value.rest, s)
    decreases |ts|, 4
  {
    ParseAndWithin(ts, s);
    var first := ParseAnd(ts).value;
    OrRestWithin(first.rest, [first.got], s);
  }

  lemma {:induction false} OrRestWithin(ts: seq<Token>, nodes: seq<Node>, s: set<string>)
    requires Within(ts, s) && nodes != [] && OrRest(ts, nodes).Ok?
    requires forall m :: m in nodes ==> NodeWithin(m, s)
    ensures forall m :: m in OrRest(ts, nodes).value.got ==> NodeWithin(m, s)
    ensures Within(OrRest(ts, nodes).value.rest, s)
    decreases |ts|, 3
  {
    if ts != [] && ts[0] == OR {
      ParseAndWithin(ts[1..], s);
      var next := ParseAnd(ts[1..]).value;
      OrRestWithin(next.rest, nodes + [next.got], s);
    }
  }

  lemma {:induction false} ParseAndWithin(ts: seq<Token>, s: set<string>)
    requires Within(ts, s) && ParseAnd(ts).Ok?
    ensures NodeWithin(ParseAnd(ts).value.got, s) && Within(ParseAnd(ts).value.rest, s)
    decreases |ts|, 2
  {
    ParseAtomWithin(ts, s);
    var first := ParseAtom(ts).value;
    AndRestWithin(first.rest, [first.got], s);
  }

  lemma {:induction false} AndRestWithin(ts: seq<Token>, nodes: seq<Node>, s: set<string>)
    requires Within(ts, s) && nodes != [] && AndRest(ts, nodes).Ok?
    requires forall m :: m in nodes ==> NodeWithin(m, s)
    ensures forall m :: m in AndRest(ts, nodes).value.got ==> NodeWithin(m, s)
    ensures Within(AndRest(ts, nodes).value.rest, s)
    decreases |ts|, 1
  {
    if ts != [] && ts[0] == AND {
      ParseAtomWithin(ts[1..], s);
      var next := ParseAtom(ts[1..]).value;
      AndRestWithin(next.rest, nodes + [next.got], s);
    }
  }

  lemma {:induction false} ParseAtomWithin(ts: seq<Token>, s: set<string>)
    requires Within(ts, s) && ParseAtom(ts).Ok?
    ensures NodeWithin(ParseAtom(ts).value.got, s) && Within(ParseAtom(ts).value.rest, s)
    decreases |ts|, 0
  {
    if ts[0] == LParen {
      ParseOrWithin(ts[1..], s);
    }
  }

  lemma {:induction false} EmitWithin(n: Node, s: set<string>)
    requires NodeWithin(n, s)
    ensures CodesOf(Emit(n)) <= s
    decreases n
  {
    if !n.Atm? {
      EmitAllWithin(n.nodes, s);
      DropTrueKeeps(EmitAll(n.nodes));
    }
  }

  lemma {:induction false} EmitAllWithin(nodes: seq<Node>, s: set<string>)
    requires forall m :: m in nodes ==> NodeWithin(m, s)
    ensures forall a :: a in EmitAll(nodes) ==> CodesOf(a) <= s
    decreases nodes
  {
    if nodes != [] {
      EmitWithin(nodes[0], s);
      EmitAllWithin(nodes[1..], s);
    }
  }

  lemma {:induction false} DropTrueKeeps(args: seq<Lua>)
    ensures forall a :: a in DropTrue(args) <==> a in args && a != True
  {
    if args != [] {
      DropTrueKeeps(args[1..]);
    }
  }

  lemma {:induction false} TokenizeWithin(t: Tables, toks: seq<Tok>)
    requires Tokenize(t, toks).Ok?
    ensures Within(Tokenize(t, toks).value, Registers(t, toks))
  {
    if toks != [] {
      TokenizeWithin(t, toks[1..]);
      var r := Registers(t, toks);
      assert Registers(t, toks[1..]) <= r by {
        forall c | c in Registers(t, toks[1..]) ensures c in r {
          var j :| 0 <= j < |toks| - 1 && toks[1..][j].Ref? && ItemAtom(t, toks[1..][j].leaf).Ok?
                   && c in CodesOf(ItemAtom(t, toks[1..][j].leaf).value);
          assert toks[1..][j] == toks[j + 1];
        }
      }
    }
  }

  lemma CompiledCodesRegistered(t: Tables, toks: seq<Tok>)
    requires Compile(t, toks).Ok?
    ensures CodesOf(Compile(t, toks).value) <= Registers(t, toks)
  {
    if toks != [] {
      TokenizeWithin(t, toks);
      var ts := Tokenize(t, toks).value;
      ParseOrWithin(ts, Registers(t, toks));
      EmitWithin(ParseOr(ts).value.got, Registers(t, toks));
    }
  }

  // ---- What the parser builds -----------------------------------------------------

  function OpToken(op: BinOp): Token {
    if op == And then AND else OR
  }

  function OperandTokens(o: Operand<Lua>): seq<Token>
    decreases o, 0
  {
    match o.atom
    case Leaf(l) => [ATOM(l)]
    case Group(c) => [LParen] + ChainTokens(c) + [RParen]
  }

  function ChainTokens(c: Chain<Lua>): seq<Token>
    decreases c, 0
  {
    match c
    case One(o) => OperandTokens(o)
    case More(i, op, o) => ChainTokens(i) + [OpToken(op)] + OperandTokens(o)
  }

  function OperandNode(o: Operand<Lua>): Node
    decreases o, 0
  {
    match o.atom
    case Leaf(l) => Atm(l)
    case Group(c) => NodeOf(c)
  }

  /** The disjuncts finished so far, and the conjuncts of the one still open. */
  function Parts(c: Chain<Lua>): (r: (seq<Node>, seq<Node>))
    ensures r.1 != []
    decreases c, 0
  {
    match c
    case One(o) => ([], [OperandNode(o)])
    case More(i, And, o) => (Parts(i).0, Parts(i).1 + [OperandNode(o)])
    case More(i, Or, o) => (Parts(i).0 + [MkAnd(Parts(i).1)], [OperandNode(o)])
  }

  function NodeOf(c: Chain<Lua>): Node
    decreases c, 1
  {
    MkOr(Parts(c).0 + [MkAnd(Parts(c).1)])
  }

  /** The parser in mid-expression: finish the open conjunction, then the disjunction. */
  function Continue(rest: seq<Token>, done: seq<Node>, open: seq<Node>): Result<Parsed<Node>>
    requires open != []
  {
    var a :- FinishAnd(rest, open);
    FinishOr(a.rest, done + [a.got])
  }

  lemma {:induction false} ParseReads(c: Chain<Lua>, rest: seq<Token>)
    ensures ParseOr(ChainTokens(c) + rest) == Continue(rest, Parts(c).0, Parts(c).1)
    decreases c, 1
  {
    match c
    case One(o) =>
      AtomReads(o, rest);
      var a := ParseAnd(ChainTokens(c) + rest);
      assert a == FinishAnd(rest, [OperandNode(o)]);
      if a.Ok? {
        assert [] + [a.value.got] == [a.value.got];
      }
    case More(i, op, o) =>
      var last := OperandTokens(o) + rest;
      var more := [OpToken(op)] + last;
      assert ChainTokens(c) + rest == ChainTokens(i) + more;
      assert more[1..] == last;
      ParseReads(i, more);
      AtomReads(o, rest);
      if op == Or {
        var done := Parts(i).0 + [MkAnd(Parts(i).1)];
        assert AndRest(more, Parts(i).1) == Ok(Parsed(Parts(i).1, more));
        OrContinues(rest, done, OperandNode(o), last);
      }
  }

  lemma OrContinues(rest: seq<Token>, done: seq<Node>, n: Node, last: seq<Token>)
    requires done != [] && ParseAtom(last) == Ok(Parsed(n, rest))
    ensures Continue(rest, done, [n]) == FinishOr([OR] + last, done)
  {
    assert ([OR] + last)[1..] == last;
    var a := ParseAnd(last);
    assert a == FinishAnd(rest, [n]);
    if a.Ok? {
      assert OrRest([OR] + last, done) == OrRest(a.value.rest, done + [a.value.got]);
    }
  }

  lemma {:induction false} AtomReads(o: Operand<Lua>, rest: seq<Token>)
    ensures ParseAtom(OperandTokens(o) + rest) == Ok(Parsed(OperandNode(o), rest))
    decreases o, 0
  {
    var ts := OperandTokens(o) + rest;
    match o.atom
    case Leaf(l) =>
      assert ts[1..] == rest;
    case Group(c) =>
      var close := [RParen] + rest;
      assert ts[1..] == ChainTokens(c) + close;
      ParseReads(c, close);
      StopsAt(close, Parts(c).0, Parts(c).1);
      assert close[1..] == rest;
  }

  lemma StopsAt(rest: seq<Token>, done: seq<Node>, open: seq<Node>)
    requires open != [] && (rest == [] || rest[0] == RParen)
    ensures Continue(rest, done, open) == Ok(Parsed(MkOr(done + [MkAnd(open)]), rest))
  {
    assert AndRest(rest, open) == Ok(Parsed(open, rest));
    assert OrRest(rest, done + [MkAnd(open)]) == Ok(Parsed(done + [MkAnd(open)], rest));
  }

  /** The parser consumes every token of an expression and builds its AND/OR tree. */
  lemma ParseChain(c: Chain<Lua>)
    ensures ParseOr(ChainTokens(c)) == Ok(Parsed(NodeOf(c), []))
  {
    ParseReads(c, []);
    assert ChainTokens(c) + [] == ChainTokens(c);
    StopsAt([], Parts(c).0, Parts(c).1);
  }

  // ---- Round trip -----------------------------------------------------------------

  /** Every operator has at least two children. */
  predicate Branching(n: Node) {
    match n
    case Atm(_) => true
    case OrN(nodes) => |nodes| >= 2 && forall m :: m in nodes ==> Branching(m)
    case AndN(nodes) => |nodes| >= 2 && forall m :: m in nodes ==> Branching(m)
  }

  /** Prints a tree, putting parentheses around every compound child. */
  function Print(n: Node): Chain<Lua>
    requires Branching(n)
    decreases n, 0
  {
    match n
    case Atm(l) => One(Operand(0, Leaf(l)))
    case OrN(nodes) => PrintAll(nodes, Or)
    case AndN(nodes) => PrintAll(nodes, And)
  }

  function PrintAll(nodes: seq<Node>, op: BinOp): Chain<Lua>
    requires nodes != [] && forall m :: m in nodes ==> Branching(m)
    decreases nodes, 0
  {
    var last := nodes[|nodes| - 1];
    assert last in nodes;
    if |nodes| == 1 then One(PrintChild(last))
    else More(PrintAll(nodes[..|nodes| - 1], op), op, PrintChild(last))
  }

  function PrintChild(m: Node): Operand<Lua>
    requires Branching(m)
    decreases m, 1
  {
    Operand(0, if m.Atm? then Leaf(m.lua) else Group(Print(m)))
  }

  lemma {:induction false} PrintIsInverse(n: Node)
    requires Branching(n)
    ensures NodeOf(Print(n)) == n
    decreases n, 0
  {
    match n
    case Atm(l) =>
      assert Parts(Print(n)) == ([], [n]);
    case OrN(nodes) =>
      PrintAllParts(nodes, Or);
      assert nodes[..|nodes| - 1] + [nodes[|nodes| - 1]] == nodes;
    case AndN(nodes) =>
      PrintAllParts(nodes, And);
  }

  lemma {:induction false} PrintAllParts(nodes: seq<Node>, op: BinOp)
    requires nodes != [] && forall m :: m in nodes ==> Branching(m)
    ensures Parts(PrintAll(nodes, op)) ==
            if op == And then ([], nodes) else (nodes[..|nodes| - 1], [nodes[|nodes| - 1]])
    decreases nodes, 0
  {
    var last := nodes[|nodes| - 1];
    assert last in nodes;
    if last.Atm? {
    } else {
      PrintIsInverse(last);
    }
    assert OperandNode(PrintChild(last)) == last;
    var init := nodes[..|nodes| - 1];
    assert init + [last] == nodes;
    if |nodes| > 1 {
      PrintAllParts(init, op);
      if op == Or {
        assert init[..|init| - 1] + [init[|init| - 1]] == init;
      }
    }
  }

  /** Parsing a printed tree gives the tree back and leaves no token over. */
  lemma RoundTrip(n: Node)
    requires Branching(n)
    ensures ParseOr(ChainTokens(Print(n))) == Ok(Parsed(n, []))
  {
    ParseChain(Print(n));
    PrintIsInverse(n);
  }

  // ---- Simplification keeps the meaning -------------------------------------------

  predicate EvalNode(n: Node, p: Provider) {
    match n
    case Atm(lua) => Eval(lua, p)
    case OrN(nodes) => exists m :: m in nodes && EvalNode(m, p)
    case AndN(nodes) => forall m :: m in nodes ==> EvalNode(m, p)
  }

  predicate NoEmptyOr(n: Node) {
    match n
    case Atm(_) => true
    case OrN(nodes) => nodes != [] && forall m :: m in nodes ==> NoEmptyOr(m)
    case AndN(nodes) => forall m :: m in nodes ==> NoEmptyOr(m)
  }

  /** Dropping `true` from ALL, collapsing ANY on `true`, and unwrapping singletons
      change no value. */
  lemma {:induction false} EmitMeaning(n: Node, p: Provider)
    requires NoEmptyOr(n)
    ensures Eval(Emit(n), p) == EvalNode(n, p)
    decreases n
  {
    match n
    case Atm(_) =>
    case OrN(nodes) =>
      EmitAllMeaning(nodes, p);
      AnyMeaning(nodes, EmitAll(nodes), p);
      hide EvalNode, NoEmptyOr, EmitAll;
    case AndN(nodes) =>
      EmitAllMeaning(nodes, p);
      AllMeaning(nodes, EmitAll(nodes), p);
      AllOfKept(EmitAll(nodes), p);
      hide EvalNode, NoEmptyOr, EmitAll, DropTrue;
  }

  /** ALL without the always-true terms, however many are left. */
  lemma AllOfKept(args: seq<Lua>, p: Provider)
    ensures var kept := DropTrue(args);
      && Eval(AllOf(kept), p) == Eval(AllOf(args), p)
      && (|kept| == 1 ==> Eval(AllOf(kept), p) == Eval(kept[0], p))
      && Eval(AllOf([]), p) && Eval(True, p)
  {
    hide DropTrue;
    DropTrueKeeps(args);
    assert Eval(True, p);
  }

  lemma {:induction false} EmitAllMeaning(nodes: seq<Node>, p: Provider)
    requires forall m :: m in nodes ==> NoEmptyOr(m)
    ensures forall i :: 0 <= i < |nodes| ==> Eval(EmitAll(nodes)[i], p) == EvalNode(nodes[i], p)
    decreases nodes
  {
    if nodes != [] {
      EmitMeaning(nodes[0], p);
      EmitAllMeaning(nodes[1..], p);
    }
  }

  lemma AnyMeaning(nodes: seq<Node>, args: seq<Lua>, p: Provider)
    requires |nodes| == |args| > 0
    requires forall i :: 0 <= i < |nodes| ==> Eval(args[i], p) == EvalNode(nodes[i], p)
    ensures EvalNode(OrN(nodes), p) == Eval(AnyOf(args), p)
    ensures True in args ==> Eval(AnyOf(args), p)
    ensures |args| == 1 ==> Eval(AnyOf(args), p) == Eval(args[0], p)
  {
    assert True in args ==> Eval(True, p);
    if m :| m in nodes && EvalNode(m, p) {
      var i :| 0 <= i < |nodes| && nodes[i] == m;
      assert args[i] in args;
    }
    if a :| a in args && Eval(a, p) {
      var i :| 0 <= i < |args| && args[i] == a;
      assert nodes[i] in nodes;
    }
  }

  lemma AllMeaning(nodes: seq<Node>, args: seq<Lua>, p: Provider)
    requires |nodes| == |args|
    requires forall i :: 0 <= i < |nodes| ==> Eval(args[i], p) == EvalNode(nodes[i], p)
    ensures EvalNode(AndN(nodes), p) == Eval(AllOf(args), p)
  {
    if forall a :: a in args ==> Eval(a, p) {
      forall m | m in nodes ensures EvalNode(m, p) {
        var i :| 0 <= i < |nodes| && nodes[i] == m;
        assert args[i] in args;
      }
    }
    if forall m :: m in nodes ==> EvalNode(m, p) {
      forall a | a in args ensures Eval(a, p) {
        var i :| 0 <= i < |args| && args[i] == a;
        assert nodes[i] in nodes;
      }
    }
  }

  // ---- The compiler reads AND tighter than OR -------------------------------------

  ghost predicate AnyNode(nodes: seq<Node>, p: Provider) {
    exists m :: m in nodes && EvalNode(m, p)
  }

  ghost predicate AllNodes(nodes: seq<Node>, p: Provider) {
    forall m :: m in nodes ==> EvalNode(m, p)
  }

  lemma {:induction false} PartsMeaning(c: Chain<Lua>, p: Provider)
    requires NotsAtMost(c, 0)
    ensures OrOfAnds(c, l => Eval(l, p)) == (AnyNode(Parts(c).0, p), AllNodes(Parts(c).1, p))
    ensures forall m :: m in Parts(c).0 + Parts(c).1 ==> NoEmptyOr(m)
    decreases c, 2
  {
    match c
    case One(o) =>
      OperandNodeMeaning(o, p);
    case More(i, op, o) =>
      PartsMeaning(i, p);
      OperandNodeMeaning(o, p);
      forall m | m in Parts(i).0 + Parts(i).1 ensures NoEmptyOr(m) {}
      if op == Or {
        MkAndMeaning(Parts(i).1, p);
        AnySnoc(Parts(i).0, MkAnd(Parts(i).1), p);
      } else {
        AllSnoc(Parts(i).1, OperandNode(o), p);
      }
  }

  lemma AnySnoc(nodes: seq<Node>, m: Node, p: Provider)
    ensures AnyNode(nodes + [m], p) == (AnyNode(nodes, p) || EvalNode(m, p))
  {
    if AnyNode(nodes, p) {
      var k :| k in nodes && EvalNode(k, p);
      assert k in nodes + [m];
    }
    assert m in nodes + [m];
  }

  lemma AllSnoc(nodes: seq<Node>, m: Node, p: Provider)
    ensures AllNodes(nodes + [m], p) == (AllNodes(nodes, p) && EvalNode(m, p))
  {
    assert m in nodes + [m];
    assert forall k :: k in nodes ==> k in nodes + [m];
  }

  lemma MkAndMeaning(nodes: seq<Node>, p: Provider)
    requires nodes != [] && forall m :: m in nodes ==> NoEmptyOr(m)
    ensures EvalNode(MkAnd(nodes), p) == AllNodes(nodes, p) && NoEmptyOr(MkAnd(nodes))
  {
    assert nodes[0] in nodes;
  }

  lemma MkOrMeaning(nodes: seq<Node>, p: Provider)
    requires nodes != [] && forall m :: m in nodes ==> NoEmptyOr(m)
    ensures EvalNode(MkOr(nodes), p) == AnyNode(nodes, p) && NoEmptyOr(MkOr(nodes))
  {
    assert nodes[0] in nodes;
  }

  lemma {:induction false} NodeMeaning(c: Chain<Lua>, p: Provider)
    requires NotsAtMost(c, 0)
    ensures EvalNode(NodeOf(c), p) == Precedence(c, l => Eval(l, p)) && NoEmptyOr(NodeOf(c))
    decreases c, 3
  {
    PartsMeaning(c, p);
    var done, open := Parts(c).0, Parts(c).1;
    forall m | m in done || m in open ensures NoEmptyOr(m) { assert m in done + open; }
    MkAndMeaning(open, p);
    MkOrMeaning(done + [MkAnd(open)], p);
    AnySnoc(done, MkAnd(open), p);
  }

  lemma {:induction false} OperandNodeMeaning(o: Operand<Lua>, p: Provider)
    requires OperandNotsAtMost(o, 0)
    ensures EvalNode(OperandNode(o), p) == OperandPrec(o, l => Eval(l, p)) && NoEmptyOr(OperandNode(o))
    decreases o, 0
  {
    match o.atom
    case Leaf(l) => assert AtomPrec(o.atom, l => Eval(l, p)) == Eval(l, p);
    case Group(c) => NodeMeaning(c, p);
  }

  /** Compiling an expression gives Lua with the value of its precedence reading. */
  lemma CompiledMeaning(c: Chain<Lua>, p: Provider)
    requires NotsAtMost(c, 0)
    ensures var n := ParseOr(ChainTokens(c));
            n.Ok? && n.value.rest == [] && Eval(Emit(n.value.got), p) == Precedence(c, l => Eval(l, p))
  {
    ParseChain(c);
    NodeMeaning(c, p);
    EmitMeaning(NodeOf(c), p);
  }
}
