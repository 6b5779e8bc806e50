/** Reconstructing 32-bit constants from A64 mov/movz/movk/movn sequences: the walk backward
    from a call site, the scan forward over a function, and the machine both speak about
    (section C6.2 of the Arm Architecture Reference Manual, DDI 0487). */
module ConstantReconstruction {
  import opened Wrappers
  import opened Bits

  // ---- Words as 16-bit lanes ------------------------------------------------------

  type Lane = x: nat | x < 0x1_0000

  /** A 64-bit word; every shift of a move-wide instruction is a multiple of 16. */
  datatype Word = Word(a0: Lane, a1: Lane, a2: Lane, a3: Lane)

  /** The low 32 bits, which is all the scripts keep. */
  datatype Half = Half(lo: Lane, hi: Lane)

  function Low(w: Word): Half {
    Half(w.a0, w.a1)
  }

  /** `imm << 16 * hw` in 64 bits */
  function Place(imm: Word, hw: nat): Word {
    if hw == 0 then imm
    else if hw == 1 then Word(0, imm.a0, imm.a1, imm.a2)
    else if hw == 2 then Word(0, 0, imm.a0, imm.a1)
    else if hw == 3 then Word(0, 0, 0, imm.a0)
    else Word(0, 0, 0, 0)
  }

  function OrLane(a: Lane, b: Lane): Lane {
    Powers();
    OrBound(a, b, 16);
    Or(a, b)
  }

  function Not(a: Lane): Lane {
    0xFFFF - a
  }

  function OrHalf(a: Half, b: Half): Half {
    Half(OrLane(a.lo, b.lo), OrLane(a.hi, b.hi))
  }

  function NotHalf(a: Half): Half {
    Half(Not(a.lo), Not(a.hi))
  }

  lemma LaneLaws(a: Lane, b: Lane, c: Lane)
    ensures OrLane(OrLane(a, b), c) == OrLane(a, OrLane(b, c)) && OrLane(a, b) == OrLane(b, a) && OrLane(a, a) == a
    ensures OrLane(a, 0) == a && OrLane(0, a) == a
  {
    hide Or;
    OrLaws(a, b, c);
    OrZero(a);
  }

  // ---- The lanes as numbers -------------------------------------------------------

  function Number(h: Half): nat {
    h.hi * 0x1_0000 + h.lo
  }

  function Number64(w: Word): nat {
    w.a3 * 0x1_0000_0000_0000 + w.a2 * 0x1_0000_0000 + w.a1 * 0x1_0000 + w.a0
  }

  /** `|` lane by lane is `|` on the numbers. */
  lemma OrIsOr(a: Half, b: Half)
    ensures Number(OrHalf(a, b)) == Or(Number(a), Number(b))
  {
    hide Or, Pow2;
    Powers();
    OrConcat(a.hi, a.lo, b.hi, b.lo, 16);
  }

  /** The low lanes are `x & 0xFFFFFFFF`. */
  lemma LowIsMask(w: Word)
    ensures Number(Low(w)) == Number64(w) % 0x1_0000_0000
  {
    assert Number64(w) == (w.a3 * 0x1_0000 + w.a2) * 0x1_0000_0000 + Number(Low(w));
  }

  /** Moving lanes is shifting in 64 bits. */
  lemma PlaceIsShift(w: Word, hw: nat)
    requires hw < 4
    ensures Number64(Place(w, hw)) == Shl(Number64(w), 16 * hw) % 0x1_0000_0000_0000_0000
  {
    hide Pow2;
    Powers();
    PowSum(16, 16);
    PowSum(32, 16);
    if hw == 0 {
      Mod64(Number64(w), 0, Number64(w));
    } else if hw == 1 {
      Mod64(Number64(w) * 0x1_0000, w.a3, Number64(Place(w, 1)));
    } else if hw == 2 {
      Mod64(Number64(w) * 0x1_0000_0000, w.a3 * 0x1_0000 + w.a2, Number64(Place(w, 2)));
    } else {
      Mod64(Number64(w) * 0x1_0000_0000_0000, w.a3 * 0x1_0000_0000 + w.a2 * 0x1_0000 + w.a1, Number64(Place(w, 3)));
    }
  }

  lemma Mod64(x: nat, q: nat, r: nat)
    requires x == q * 0x1_0000_0000_0000_0000 + r && r < 0x1_0000_0000_0000_0000
    ensures x % 0x1_0000_0000_0000_0000 == r
  {
  }

  // ---- Instructions and the machine -----------------------------------------------

  /** wN and xN are one register. */
  type Reg = string

  /** What the disassembler tells: mnemonic, register of operand 0, scalar and register of
      operand 1, and the `LSL` amount in lanes.  `writes` are the registers the instruction may change on
      the machine, which the scripts do not look at: a store or a comparison has a register as operand
      0 and writes none, a call has none and writes many. */
  datatype Insn = Insn(mnem: string, dst: Option<Reg>, wide: bool, imm: Option<Word>, hw: nat, src: Option<Reg>,
                       writes: set<Reg>)

  type Regs = Reg -> Word

  /** The zero register; the scripts do not take its two names for one. */
  const ZERO: set<Reg> := {"wzr", "xzr"}

  function Truncated(w: Word, wide: bool): Word {
    if wide then w else Word(w.a0, w.a1, 0, 0)
  }

  /** A write to the 32-bit name of a register clears the upper half. */
  lemma TruncatedIsMask(w: Word)
    ensures Number64(Truncated(w, false)) == Number64(w) % 0x1_0000_0000 && Truncated(w, true) == w
  {
    LowIsMask(w);
  }

  function SetLane(w: Word, v: Lane, hw: nat): Word {
    if hw == 0 then w.(a0 := v)
    else if hw == 1 then w.(a1 := v)
    else if hw == 2 then w.(a2 := v)
    else w.(a3 := v)
  }

  /** A movk puts its lane and leaves the other three. */
  lemma SetLaneIs(w: Word, v: Lane, hw: nat)
    requires hw < 4
    ensures Number64(SetLane(w, v, hw))
         == Number64(w) - (if hw == 0 then w.a0 else if hw == 1 then w.a1 * 0x1_0000
                           else if hw == 2 then w.a2 * 0x1_0000_0000 else w.a3 * 0x1_0000_0000_0000)
            + (if hw == 0 then v else if hw == 1 then v * 0x1_0000
               else if hw == 2 then v * 0x1_0000_0000 else v * 0x1_0000_0000_0000)
  {
  }

  /** The value the instruction leaves in its destination, for the moves. */
  function Effect(i: Insn, s: Regs): Option<Word> {
    if i.mnem == "mov" && i.imm.Some? then Some(Truncated(Place(i.imm.value, i.hw), i.wide))
    else if i.mnem == "mov" && i.src.Some? then Some(Truncated(s(i.src.value), i.wide))
    else if i.mnem == "movz" && i.imm.Some? then Some(Truncated(Place(i.imm.value, i.hw), i.wide))
    else if i.mnem == "movk" && i.imm.Some? && i.dst.Some? then
      Some(Truncated(SetLane(s(i.dst.value), i.imm.value.a0, i.hw), i.wide))
    else if i.mnem == "movn" && i.imm.Some? then
      var p := Place(i.imm.value, i.hw);
      Some(Truncated(Word(Not(p.a0), Not(p.a1), Not(p.a2), Not(p.a3)), i.wide))
    else None
  }

  /** An instruction changes no register but those it writes, which may then hold anything; a move
      writes its value. */
  ghost predicate Exec(i: Insn, s: Regs, s': Regs) {
    && (forall r :: r !in i.writes ==> s'(r) == s(r))
    && (i.dst.Some? && i.dst.value in i.writes && Effect(i, s).Some? ==> s'(i.dst.value) == Effect(i, s).value)
  }

  /** An execution: the zero register is zero throughout. */
  ghost predicate Trace(w: seq<Insn>, states: seq<Regs>) {
    && |states| == |w| + 1
    && (forall k :: 0 <= k < |w| ==> Exec(w[k], states[k], states[k + 1]))
    && (forall k, z :: 0 <= k <= |w| && z in ZERO ==> states[k](z) == Filled(0))
  }

  function Filled(u: Lane): Word {
    Word(u, u, u, u)
  }

  /** The registers a called procedure may leave changed (section 6.1.1 of the Procedure Call
      Standard for the Arm 64-bit Architecture), with the link register. */
  const CALLER_SAVED: set<Reg> :=
    {"x0", "x1", "x2", "x3", "x4", "x5", "x6", "x7", "x8", "x9", "x10", "x11", "x12", "x13", "x14", "x15", "x16",
     "x17", "x18", "x30"}

  /** A move writes operand 0 alone, and that is not the zero register; the move-wide instructions
      carry a 16-bit immediate and a lane of their register; a call has a code address as operand 0
      and writes what it may. */
  predicate Encodable(i: Insn) {
    && (i.mnem in {"mov", "movz", "movk", "movn"} && i.dst.Some? ==> i.dst.value !in ZERO && i.writes == {i.dst.value})
    && (i.mnem in {"movz", "movk", "movn"} ==>
          && i.dst.Some? && i.imm.Some? && i.imm.value == Word(i.imm.value.a0, 0, 0, 0)
          && i.hw < if i.wide then 4 else 2)
    && (i.mnem == "bl" ==> i.dst.None? && CALLER_SAVED <= i.writes)
  }

  // ---- Walking backward -----------------------------------------------------------

  const BACKWALK_INSNS := 20

  datatype Outcome = Found(value: Half, at: nat) | Unknown

  function OrPending(v: Half, pending: Option<Half>): Half {
    if pending.Some? then OrHalf(v, pending.value) else v
  }

  /** The walk from instruction `n - 1` on, with `left` steps to go. */
  function Back(w: seq<Insn>, n: nat, target: Reg, pending: Option<Half>, left: nat): Outcome
    requires n <= |w|
    decreases n
  {
    if n == 0 || left == 0 then Unknown
    else
      var i := w[n - 1];
      if i.dst != Some(target) then Back(w, n - 1, target, pending, left - 1)
      else if i.mnem == "mov" then
        if i.imm.Some? then Found(OrPending(Low(Place(i.imm.value, i.hw)), pending), n - 1)
        else if i.src.Some? && i.src.value != target then Back(w, n - 1, i.src.value, pending, left - 1)
        else Unknown
      else if i.mnem == "movz" && i.imm.Some? then Found(OrPending(Low(Place(i.imm.value, i.hw)), pending), n - 1)
      else if i.mnem == "movk" && i.imm.Some? then
        Back(w, n - 1, target, Some(OrHalf(pending.GetOr(Half(0, 0)), Low(Place(i.imm.value, i.hw)))), left - 1)
      else if i.mnem == "movn" && i.imm.Some? then Found(NotHalf(Low(Place(i.imm.value, i.hw))), n - 1)
      else Unknown
  }

  method ReconstructRegAt(w: seq<Insn>, initial: Reg) returns (r: Outcome)
    ensures r == Back(w, |w|, initial, None, BACKWALK_INSNS)
  {
    var target := initial;
    var pending: Option<Half> := None;
    var cur := |w|;
    var walked := 0;
    while cur > 0 && walked < BACKWALK_INSNS
      invariant 0 <= cur <= |w| && 0 <= walked <= BACKWALK_INSNS
      invariant Back(w, cur, target, pending, BACKWALK_INSNS - walked) == Back(w, |w|, initial, None, BACKWALK_INSNS)
    {
      var i := w[cur - 1];
      if i.dst == Some(target) {
        if i.mnem == "mov" {
          if i.imm.Some? {
            var val := Low(Place(i.imm.value, i.hw));
            if pending.Some? { val := OrHalf(val, pending.value); }
            return Found(val, cur - 1);
          }
          if i.src.Some? && i.src.value != target {
            target := i.src.value;
            cur, walked := cur - 1, walked + 1;
            continue;
          }
          return Unknown;
        } else if i.mnem == "movz" {
          if i.imm.None? { return Unknown; }
          var val := Low(Place(i.imm.value, i.hw));
          if pending.Some? { val := OrHalf(val, pending.value); }
          return Found(val, cur - 1);
        } else if i.mnem == "movk" {
          if i.imm.None? { return Unknown; }
          var shifted := Low(Place(i.imm.value, i.hw));
          pending := Some(OrHalf(pending.GetOr(Half(0, 0)), shifted));
          cur, walked := cur - 1, walked + 1;
          continue;
        } else if i.mnem == "movn" {
          if i.imm.None? { return Unknown; }
          return Found(NotHalf(Low(Place(i.imm.value, i.hw))), cur - 1);
        } else {
          return Unknown;
        }
      }
      cur, walked := cur - 1, walked + 1;
    }
    return Unknown;
  }

  // ---- What is written lane by lane -----------------------------------------------

  /** The values put into the two low lanes of a register, in program order, from the instruction
      that sets it whole.  `negated`: that instruction is a movn. */
  datatype Chain = Chain(negated: bool, lo: seq<Lane>, hi: seq<Lane>, base: nat)

  function Writes(w: seq<Insn>, n: nat, r: Reg): (c: Option<Chain>)
    requires n <= |w|
    ensures c.Some? ==> c.value.lo != [] && c.value.hi != [] && c.value.base < n
  {
    if n == 0 then None
    else
      var i := w[n - 1];
      if i.dst != Some(r) then Writes(w, n - 1, r)
      else if i.mnem == "mov" && i.imm.None? then
        if i.src.Some? && i.src.value != r then Writes(w, n - 1, i.src.value) else None
      else if i.imm.None? then None
      else
        var p := Low(Place(i.imm.value, i.hw));
        if i.mnem in {"mov", "movz"} then Some(Chain(false, [p.lo], [p.hi], n - 1))
        else if i.mnem == "movn" then Some(Chain(true, [Not(p.lo)], [Not(p.hi)], n - 1))
        else if i.mnem == "movk" then
          var c := Writes(w, n - 1, r);
          if c.None? then None
          else if i.hw == 0 then Some(c.value.(lo := c.value.lo + [i.imm.value.a0]))
          else if i.hw == 1 then Some(c.value.(hi := c.value.hi + [i.imm.value.a0]))
          else c
        else None
  }

  function Last(s: seq<Lane>): Lane
    requires s != []
  {
    s[|s| - 1]
  }

  /** What the machine holds: the last value put into each lane. */
  function Actual(c: Chain): Half
    requires c.lo != [] && c.hi != []
  {
    Half(Last(c.lo), Last(c.hi))
  }

  function OrAll(s: seq<Lane>): Lane {
    if s == [] then 0 else OrLane(OrAll(s[..|s| - 1]), s[|s| - 1])
  }

  /** What the backward walk reports: everything put into a lane at once; after a movn the
      movk instructions are lost. */
  function Reported(c: Chain): Half
    requires c.lo != [] && c.hi != []
  {
    if c.negated then Half(c.lo[0], c.hi[0]) else Half(OrAll(c.lo), OrAll(c.hi))
  }

  /** No value put into the lane has a bit that the last one lacks. */
  predicate Covered(s: seq<Lane>)
    requires s != []
  {
    forall k :: 0 <= k < |s| ==> OrLane(s[k], Last(s)) == Last(s)
  }

  /** The chains on which the walk is right. */
  predicate Faithful(c: Chain)
    requires c.lo != [] && c.hi != []
  {
    if c.negated then c.lo[0] == Last(c.lo) && c.hi[0] == Last(c.hi) else Covered(c.lo) && Covered(c.hi)
  }

  /** The walk is right exactly on these. */
  lemma ReportedIsActualIff(c: Chain)
    requires c.lo != [] && c.hi != []
    ensures Reported(c) == Actual(c) <==> Faithful(c)
  {
    OrAllIsLastIff(c.lo);
    OrAllIsLastIff(c.hi);
  }

  lemma {:induction false} OrAllAbove(s: seq<Lane>, k: nat)
    requires k < |s|
    ensures OrLane(s[k], OrAll(s)) == OrAll(s)
  {
    var init, last := OrAll(s[..|s| - 1]), s[|s| - 1];
    LaneLaws(last, init, last);
    if k < |s| - 1 {
      OrAllAbove(s[..|s| - 1], k);
      LaneLaws(s[k], init, last);
    } else {
      LaneLaws(init, last, last);
    }
  }

  lemma {:induction false} OrAllBelow(s: seq<Lane>, m: Lane)
    requires forall k :: 0 <= k < |s| ==> OrLane(s[k], m) == m
    ensures OrLane(OrAll(s), m) == m
  {
    if s == [] {
      LaneLaws(m, m, m);
    } else {
      OrAllBelow(s[..|s| - 1], m);
      LaneLaws(OrAll(s[..|s| - 1]), s[|s| - 1], m);
    }
  }

  lemma OrAllIsLastIff(s: seq<Lane>)
    requires s != []
    ensures OrAll(s) == Last(s) <==> Covered(s)
  {
    if OrAll(s) == Last(s) {
      forall k | 0 <= k < |s| ensures OrLane(s[k], Last(s)) == Last(s) { OrAllAbove(s, k); }
    }
    if Covered(s) {
      OrAllBelow(s, Last(s));
      OrAllAbove(s, |s| - 1);
      LaneLaws(OrAll(s), Last(s), Last(s));
    }
  }

  // ---- The backward walk against the machine --------------------------------------

  ghost predicate AllEncodable(w: seq<Insn>) {
    forall i :: i in w ==> Encodable(i)
  }

  /** What is reported from a chain with movk values already pending. */
  function WithPending(c: Chain, pending: Option<Half>): Half
    requires c.lo != [] && c.hi != []
  {
    if c.negated then Reported(c) else OrPending(Reported(c), pending)
  }

  /** The walk finds a value exactly when the chain begins within its reach, and then it is the
      disjunction of what was put into the lanes. */
  lemma {:induction false} BackReports(w: seq<Insn>, n: nat, r: Reg, pending: Option<Half>, left: nat)
    requires n <= |w| && AllEncodable(w)
    ensures var c := Writes(w, n, r);
      Back(w, n, r, pending, left)
      == if c.Some? && n - c.value.base <= left then Found(WithPending(c.value, pending), c.value.base) else Unknown
  {
    hide Place, OrAll, OrLane;
    if n > 0 && left > 0 {
      var i := w[n - 1];
      assert Encodable(i);
      if i.dst != Some(r) {
        BackReports(w, n - 1, r, pending, left - 1);
      } else if i.mnem == "mov" && i.imm.None? && i.src.Some? && i.src.value != r {
        BackReports(w, n - 1, i.src.value, pending, left - 1);
      } else if i.mnem == "movk" {
        var p, x := pending.GetOr(Half(0, 0)), i.imm.value.a0;
        var next := OrHalf(p, Low(Place(i.imm.value, i.hw)));
        BackReports(w, n - 1, r, Some(next), left - 1);
        var c := Writes(w, n - 1, r);
        if c.Some? {
          MovkPending(c.value, pending, i.imm.value, i.hw);
        }
      } else if i.mnem != "mov" || i.imm.Some? {
        SingleWrites(w, n, r);
      }
    }
  }

  lemma MovkPending(c: Chain, pending: Option<Half>, imm: Word, hw: nat)
    requires c.lo != [] && c.hi != [] && imm == Word(imm.a0, 0, 0, 0)
    ensures var next := Some(OrHalf(pending.GetOr(Half(0, 0)), Low(Place(imm, hw))));
            var longer := if hw == 0 then c.(lo := c.lo + [imm.a0]) else if hw == 1 then c.(hi := c.hi + [imm.a0]) else c;
            WithPending(c, next) == WithPending(longer, pending)
  {
    var p := pending.GetOr(Half(0, 0));
    LaneStep(c.lo, imm.a0, p.lo);
    LaneStep(c.hi, imm.a0, p.hi);
    hide OrAll;
  }

  /** A value appended to a lane, or put into what is pending for it. */
  lemma LaneStep(s: seq<Lane>, x: Lane, p: Lane)
    ensures OrLane(OrAll(s), OrLane(p, x)) == OrLane(OrAll(s + [x]), p)
    ensures OrLane(OrAll(s), OrLane(0, x)) == OrAll(s + [x])
    ensures OrLane(OrAll(s), OrLane(p, 0)) == OrLane(OrAll(s), p) && OrLane(OrAll(s), OrLane(0, 0)) == OrAll(s)
  {
    assert (s + [x])[..|s|] == s;
    hide OrLane;
    var o := OrAll(s);
    LaneLaws(o, x, p);
    LaneLaws(x, p, p);
    LaneLaws(p, o, 0);
    LaneLaws(0, x, 0);
  }

  lemma OrAllOne(s: seq<Lane>)
    requires |s| == 1
    ensures OrAll(s) == s[0]
  {
    assert s[..0] == [];
    LaneLaws(s[0], 0, 0);
  }

  /** Where the chain begins it is a single value a lane. */
  lemma SingleWrites(w: seq<Insn>, n: nat, r: Reg)
    requires 0 < n <= |w| && w[n - 1].dst == Some(r) && w[n - 1].mnem != "movk"
    requires w[n - 1].mnem != "mov" || w[n - 1].imm.Some?
    ensures var c := Writes(w, n, r);
      c.Some? ==> c.value.base == n - 1 && |c.value.lo| == |c.value.hi| == 1
                  && Reported(c.value) == Actual(c.value) == Half(c.value.lo[0], c.value.hi[0])
  {
    var c := Writes(w, n, r);
    if c.Some? {
      OrAllOne(c.value.lo);
      OrAllOne(c.value.hi);
    }
  }

  function LaneOf(h: Half, lane: nat): Lane {
    if lane == 0 then h.lo else h.hi
  }

  /** What a lane holds on every execution, if that is determined: what was put there last, possibly
      through register copies, unless the register may have been changed otherwise since. */
  function Put(w: seq<Insn>, n: nat, r: Reg, lane: nat): Option<Lane>
    requires n <= |w|
  {
    if r in ZERO then Some(0)
    else if n == 0 then None
    else
      var i := w[n - 1];
      if r !in i.writes then Put(w, n - 1, r, lane)
      else if i.dst != Some(r) then None
      else if i.mnem == "mov" && i.imm.None? then
        if i.src.Some? then Put(w, n - 1, i.src.value, lane) else None
      else if i.imm.None? then None
      else if i.mnem == "movk" then
        if i.hw == lane then Some(i.imm.value.a0) else Put(w, n - 1, r, lane)
      else
        var p := LaneOf(Low(Place(i.imm.value, i.hw)), lane);
        if i.mnem in {"mov", "movz"} then Some(p) else if i.mnem == "movn" then Some(Not(p)) else None
  }

  predicate BothLanesKnown(w: seq<Insn>, r: Reg) {
    Put(w, |w|, r, 0).Some? && Put(w, |w|, r, 1).Some?
  }

  /** On every execution a determined lane is what was put there last. */
  lemma {:induction false} MachineHoldsPut(w: seq<Insn>, states: seq<Regs>, n: nat, r: Reg, lane: nat)
    requires n <= |w| && lane < 2 && AllEncodable(w) && Trace(w, states) && Put(w, n, r, lane).Some?
    ensures LaneOf(Low(states[n](r)), lane) == Put(w, n, r, lane).value
  {
    if r !in ZERO {
      var i := w[n - 1];
      assert Encodable(i) && Exec(i, states[n - 1], states[n]);
      if r !in i.writes {
        MachineHoldsPut(w, states, n - 1, r, lane);
      } else if i.mnem == "mov" && i.imm.None? {
        MachineHoldsPut(w, states, n - 1, i.src.value, lane);
      } else if i.mnem == "movk" && i.hw != lane {
        MachineHoldsPut(w, states, n - 1, r, lane);
      }
    }
  }

  /** An execution in which everything the instructions do not determine is `u`. */
  function FilledAfter(w: seq<Insn>, n: nat, u: Lane): Regs
    requires n <= |w|
  {
    if n == 0 then (r: Reg) => if r in ZERO then Filled(0) else Filled(u)
    else
      var s, i := FilledAfter(w, n - 1, u), w[n - 1];
      (r: Reg) =>
        if r in ZERO then Filled(0)
        else if r !in i.writes then s(r)
        else if i.dst == Some(r) then Effect(i, s).GetOr(Filled(u))
        else Filled(u)
  }

  lemma {:induction false} FilledZero(w: seq<Insn>, n: nat, u: Lane, z: Reg)
    requires n <= |w| && z in ZERO
    ensures FilledAfter(w, n, u)(z) == Filled(0)
  {
  }

  lemma FilledExec(w: seq<Insn>, n: nat, u: Lane)
    requires n < |w| && Encodable(w[n])
    ensures Exec(w[n], FilledAfter(w, n, u), FilledAfter(w, n + 1, u))
  {
    hide Place, Truncated;
    var i, s, s' := w[n], FilledAfter(w, n, u), FilledAfter(w, n + 1, u);
    forall r | r !in i.writes ensures s'(r) == s(r) {
      if r in ZERO { FilledZero(w, n, u, r); }
    }
  }

  function FilledRun(w: seq<Insn>, u: Lane): (states: seq<Regs>)
    requires AllEncodable(w)
    ensures Trace(w, states)
  {
    var states := seq(|w| + 1, n requires 0 <= n <= |w| => FilledAfter(w, n, u));
    FilledIsTrace(w, u, states);
    states
  }

  lemma FilledIsTrace(w: seq<Insn>, u: Lane, states: seq<Regs>)
    requires AllEncodable(w) && |states| == |w| + 1
    requires forall n :: 0 <= n <= |w| ==> states[n] == FilledAfter(w, n, u)
    ensures Trace(w, states)
  {
    hide FilledAfter, Exec, Encodable;
    forall k | 0 <= k < |w| ensures Exec(w[k], states[k], states[k + 1]) { FilledExec(w, k, u); }
    forall k, z | 0 <= k <= |w| && z in ZERO ensures states[k](z) == Filled(0) { FilledZero(w, k, u, z); }
  }

  /** What the moves that keep a lane leave in it. */
  lemma MovkKeeps(i: Insn, s: Regs, lane: nat)
    requires Encodable(i) && lane < 2 && i.mnem == "movk" && i.hw != lane
    ensures Effect(i, s).Some? && LaneOf(Low(Effect(i, s).value), lane) == LaneOf(Low(s(i.dst.value)), lane)
  {
  }

  lemma CopyKeeps(i: Insn, s: Regs, lane: nat)
    requires i.mnem == "mov" && i.imm.None? && i.src.Some? && lane < 2
    ensures Effect(i, s).Some? && LaneOf(Low(Effect(i, s).value), lane) == LaneOf(Low(s(i.src.value)), lane)
  {
  }

  lemma OtherEffect(i: Insn, s: Regs)
    requires i.mnem !in {"movz", "movk", "movn"} && (i.mnem == "mov" ==> i.imm.None? && i.src.None?)
    ensures Effect(i, s).None?
  {
  }

  lemma EncodableAt(w: seq<Insn>, k: nat)
    requires k < |w| && AllEncodable(w)
    ensures Encodable(w[k])
  {
  }

  /** What an undetermined lane was before the instruction, and what the instruction was. */
  lemma PutNone(w: seq<Insn>, n: nat, r: Reg, lane: nat)
    requires 0 < n <= |w| && Encodable(w[n - 1]) && Put(w, n, r, lane).None?
    ensures r !in ZERO
    ensures var i := w[n - 1];
      && (r !in i.writes || (i.dst == Some(r) && i.mnem == "movk") ==> Put(w, n - 1, r, lane).None?)
      && (r in i.writes && i.dst == Some(r) && i.mnem == "movk" ==> i.hw != lane)
      && (r in i.writes && i.dst == Some(r) && i.mnem == "mov" ==>
            i.imm.None? && (i.src.Some? ==> Put(w, n - 1, i.src.value, lane).None?))
      && (r in i.writes && i.dst == Some(r) ==> i.mnem !in {"movz", "movn"})
  {
    hide Place, Low;
  }

  lemma FilledStart(w: seq<Insn>, r: Reg, u: Lane)
    requires r !in ZERO
    ensures FilledAfter(w, 0, u)(r) == Filled(u)
  {
  }

  lemma FilledStep(w: seq<Insn>, n: nat, r: Reg, u: Lane)
    requires 0 < n <= |w| && r !in ZERO
    ensures var i, s := w[n - 1], FilledAfter(w, n - 1, u);
      FilledAfter(w, n, u)(r)
      == if r !in i.writes then s(r) else if i.dst == Some(r) then Effect(i, s).GetOr(Filled(u)) else Filled(u)
  {
    hide Effect;
  }

  lemma {:induction false} UnknownLaneIsFilled(w: seq<Insn>, n: nat, r: Reg, lane: nat, u: Lane)
    requires n <= |w| && lane < 2 && AllEncodable(w) && Put(w, n, r, lane).None?
    ensures LaneOf(Low(FilledAfter(w, n, u)(r)), lane) == u
  {
    hide AllEncodable, FilledAfter, Place;
    if n == 0 {
      FilledStart(w, r, u);
    } else {
      EncodableAt(w, n - 1);
      PutNone(w, n, r, lane);
      FilledStep(w, n, r, u);
    }
    hide Put, Encodable, Effect;
    if n > 0 {
      var i, s := w[n - 1], FilledAfter(w, n - 1, u);
      if r !in i.writes {
        UnknownLaneIsFilled(w, n - 1, r, lane, u);
      } else if i.dst == Some(r) {
        if i.mnem == "movk" {
          MovkKeeps(i, s, lane);
          UnknownLaneIsFilled(w, n - 1, r, lane, u);
        } else if i.mnem == "mov" && i.src.Some? {
          CopyKeeps(i, s, lane);
          UnknownLaneIsFilled(w, n - 1, i.src.value, lane, u);
        } else {
          OtherEffect(i, s);
        }
      }
    }
  }

  ghost predicate AlwaysHolds(w: seq<Insn>, r: Reg, v: Half) {
    forall states: seq<Regs> :: Trace(w, states) ==> Low(states[|w|](r)) == v
  }

  /** No value is right on every execution when a lane is not determined. */
  lemma UnknownNeverHolds(w: seq<Insn>, r: Reg, v: Half)
    requires AllEncodable(w) && !BothLanesKnown(w, r)
    ensures !AlwaysHolds(w, r, v)
  {
    var lane := if Put(w, |w|, r, 0).Some? then 1 else 0;
    var u := if LaneOf(v, lane) == 0 then 1 else 0;
    UnknownLaneIsFilled(w, |w|, r, lane, u);
    var states := FilledRun(w, u);
    assert Trace(w, states) && Low(states[|w|](r)) != v;
  }

  /** A value is what the register holds on every execution exactly when it was put there, lane by
      lane. */
  lemma AlwaysHoldsIff(w: seq<Insn>, r: Reg, v: Half)
    requires AllEncodable(w)
    ensures AlwaysHolds(w, r, v) <==> Put(w, |w|, r, 0) == Some(v.lo) && Put(w, |w|, r, 1) == Some(v.hi)
  {
    hide Exec, Put, AllEncodable;
    if BothLanesKnown(w, r) {
      forall states: seq<Regs> | Trace(w, states)
        ensures Low(states[|w|](r)) == Half(Put(w, |w|, r, 0).value, Put(w, |w|, r, 1).value)
      {
        MachineHoldsPut(w, states, |w|, r, 0);
        MachineHoldsPut(w, states, |w|, r, 1);
      }
      assert Trace(w, FilledRun(w, 0));
    } else {
      UnknownNeverHolds(w, r, v);
    }
  }

  /** A determined lane of a chain is the last of it. */
  lemma {:induction false} PutIsActual(w: seq<Insn>, n: nat, r: Reg, lane: nat)
    requires n <= |w| && lane < 2 && AllEncodable(w) && Writes(w, n, r).Some? && Put(w, n, r, lane).Some?
    ensures Put(w, n, r, lane).value == LaneOf(Actual(Writes(w, n, r).value), lane)
  {
    var i := w[n - 1];
    assert Encodable(i);
    if i.dst != Some(r) {
      PutIsActual(w, n - 1, r, lane);
    } else if i.mnem == "mov" && i.imm.None? {
      PutIsActual(w, n - 1, i.src.value, lane);
    } else if i.mnem == "movk" {
      if i.hw != lane { PutIsActual(w, n - 1, r, lane); }
    } else {
      SingleWrites(w, n, r);
    }
  }

  /** On every execution a determined lane of the register is the last value of its chain. */
  lemma MachineHoldsActual(w: seq<Insn>, states: seq<Regs>, n: nat, r: Reg, lane: nat)
    requires n <= |w| && lane < 2 && AllEncodable(w) && Trace(w, states)
    requires Writes(w, n, r).Some? && Put(w, n, r, lane).Some?
    ensures LaneOf(Low(states[n](r)), lane) == LaneOf(Actual(Writes(w, n, r).value), lane)
  {
    hide Put, Writes, AllEncodable, Trace;
    MachineHoldsPut(w, states, n, r, lane);
    PutIsActual(w, n, r, lane);
  }

  /** A value the walk returns is what the register holds at the call site, on every execution,
      exactly when no value put into a lane has a bit that the last one lacks (after a movn: when
      the movk instructions change nothing), and both lanes are determined: no call or other
      instruction has changed the register since that they are followed in. */
  lemma ReconstructionSoundIff(w: seq<Insn>, r: Reg, v: Half, at: nat)
    requires AllEncodable(w) && Back(w, |w|, r, None, BACKWALK_INSNS) == Found(v, at)
    ensures Writes(w, |w|, r).Some?
    ensures AlwaysHolds(w, r, v) <==> Faithful(Writes(w, |w|, r).value) && BothLanesKnown(w, r)
  {
    hide Faithful, AlwaysHolds, Put, Writes, AllEncodable;
    BackReports(w, |w|, r, None, BACKWALK_INSNS);
    var c := Writes(w, |w|, r).value;
    ReportedIsActualIff(c);
    AlwaysHoldsIff(w, r, v);
    if BothLanesKnown(w, r) {
      PutIsActual(w, |w|, r, 0);
      PutIsActual(w, |w|, r, 1);
    }
  }

  /** The walk finds the chain exactly when it begins at most twenty instructions before the call site. */
  lemma WalkReach(w: seq<Insn>, r: Reg)
    requires AllEncodable(w)
    ensures Back(w, |w|, r, None, BACKWALK_INSNS).Found? <==>
            Writes(w, |w|, r).Some? && |w| - Writes(w, |w|, r).value.base <= 20
  {
    hide Writes, AllEncodable, Back;
    BackReports(w, |w|, r, None, BACKWALK_INSNS);
  }

  /** Each lane is put at most once after a base that holds zero there. */
  predicate DistinctZeroLanes(c: Chain)
    requires c.lo != [] && c.hi != []
  {
    && (|c.lo| == 1 || (!c.negated && |c.lo| == 2 && c.lo[0] == 0))
    && (|c.hi| == 1 || (!c.negated && |c.hi| == 2 && c.hi[0] == 0))
  }

  /** The usual way to build a constant is such a chain. */
  lemma DistinctZeroLanesFaithful(c: Chain)
    requires c.lo != [] && c.hi != [] && DistinctZeroLanes(c)
    ensures Faithful(c)
  {
    LaneLaws(Last(c.lo), 0, 0);
    LaneLaws(Last(c.hi), 0, 0);
  }

  /** A call has no register as operand 0, so the walk passes over it: the branch for calls is
      never taken, and what the call leaves in the register is not seen. */
  lemma CallsPassedOver(w: seq<Insn>, call: Insn, r: Reg, pending: Option<Half>, left: nat)
    requires call.mnem == "bl" && Encodable(call)
    ensures Back(w + [call], |w| + 1, r, pending, left + 1) == Back(w, |w|, r, pending, left)
  {
    BackPrefix(w, [call], |w|, r, pending, left);
  }

  /** So a value found before a call is reported for a register that the call may have changed,
      although its chain is faithful: no such report is right on every execution. */
  lemma CallBreaksReport(w: seq<Insn>, call: Insn, r: Reg, v: Half, at: nat)
    requires AllEncodable(w) && call.mnem == "bl" && Encodable(call) && r in CALLER_SAVED
    requires Back(w, |w|, r, None, BACKWALK_INSNS - 1) == Found(v, at)
    ensures Back(w + [call], |w| + 1, r, None, BACKWALK_INSNS) == Found(v, at)
    ensures !AlwaysHolds(w + [call], r, v)
  {
    CallsPassedOver(w, call, r, None, BACKWALK_INSNS - 1);
    CallLeavesUnknown(w, call, r);
    hide Back, Put, AlwaysHolds, Encodable;
    UnknownNeverHolds(w + [call], r, v);
  }

  lemma CallLeavesUnknown(w: seq<Insn>, call: Insn, r: Reg)
    requires call.mnem == "bl" && Encodable(call) && r in CALLER_SAVED
    ensures !BothLanesKnown(w + [call], r)
  {
    assert (w + [call])[|w|] == call;
    assert r !in ZERO && r in call.writes;
    assert Put(w + [call], |w| + 1, r, 0) == None;
  }

  /** `movz x0, #1; bl f` is such a window. */
  lemma MovzThenCall(call: Insn)
    requires call.mnem == "bl" && Encodable(call)
    ensures var w := [Insn("movz", Some("x0"), true, Some(Word(1, 0, 0, 0)), 0, None, {"x0"}), call];
      && Back(w, 2, "x0", None, BACKWALK_INSNS) == Found(Half(1, 0), 0)
      && Writes(w, 2, "x0").Some? && Faithful(Writes(w, 2, "x0").value)
      && !AlwaysHolds(w, "x0", Half(1, 0))
  {
    var movz := Insn("movz", Some("x0"), true, Some(Word(1, 0, 0, 0)), 0, None, {"x0"});
    var w := [movz, call];
    assert w == [movz] + [call];
    assert Back([movz], 1, "x0", None, BACKWALK_INSNS - 1) == Found(Half(1, 0), 0);
    CallBreaksReport([movz], call, "x0", Half(1, 0), 0);
    SingleWrites([movz], 1, "x0");
    assert w[0] == movz && Writes(w, 1, "x0") == Some(Chain(false, [1], [0], 0));
    LaneLaws(1, 0, 0);
    LaneLaws(0, 0, 0);
  }

  lemma {:induction false} BackPrefix(w: seq<Insn>, more: seq<Insn>, n: nat, r: Reg, pending: Option<Half>, left: nat)
    requires n <= |w|
    ensures Back(w + more, n, r, pending, left) == Back(w, n, r, pending, left)
  {
    if n > 0 && left > 0 {
      var i := w[n - 1];
      BackPrefix(w, more, n - 1, r, pending, left - 1);
      if i.src.Some? { BackPrefix(w, more, n - 1, i.src.value, pending, left - 1); }
      if i.imm.Some? {
        BackPrefix(w, more, n - 1, r, Some(OrHalf(pending.GetOr(Half(0, 0)), Low(Place(i.imm.value, i.hw)))), left - 1);
      }
    }
  }

  // ---- Scanning forward -----------------------------------------------------------

  type Pending = map<Reg, Half>

  function AndLane(a: Lane, b: Lane): Lane {
    AndBound(a, b);
    And(a, b)
  }

  /** The value after a movk: `(base & mask) | contrib`. */
  function Inserted(base: Half, imm: Word, hw: nat): Half {
    var mask := NotHalf(Low(Place(Word(0xFFFF, 0, 0, 0), hw)));
    OrHalf(Half(AndLane(base.lo, mask.lo), AndLane(base.hi, mask.hi)), Low(Place(imm, hw)))
  }

  function ScanStep(pending: Pending, i: Insn): Pending {
    if i.dst.None? then pending
    else
      var dst := i.dst.value;
      if i.mnem in {"mov", "movz"} then
        if i.imm.Some? then pending[dst := Low(Place(i.imm.value, i.hw))]
        else if i.src.Some? && i.src.value in pending then pending[dst := pending[i.src.value]]
        else pending - {dst}
      else if i.mnem == "movk" then
        if i.imm.Some? then
          pending[dst := Inserted(if dst in pending then pending[dst] else Half(0, 0), i.imm.value, i.hw)]
        else pending
      else if i.mnem == "movn" then
        if i.imm.Some? then pending[dst := NotHalf(Low(Place(i.imm.value, i.hw)))] else pending
      else pending - {dst}
  }

  function Forward(w: seq<Insn>, n: nat): Pending
    requires n <= |w|
  {
    if n == 0 then map[] else ScanStep(Forward(w, n - 1), w[n - 1])
  }

  /** The instructions after which the scanner compares the value with its targets. */
  predicate BuildsConstant(i: Insn) {
    i.dst.Some? && i.imm.Some? && i.mnem in {"mov", "movz", "movk", "movn"}
  }

  ghost predicate IsHit(w: seq<Insn>, targets: set<Half>, k: nat, v: Half) {
    && k < |w| && BuildsConstant(w[k]) && v in targets
    && w[k].dst.value in Forward(w, k + 1) && Forward(w, k + 1)[w[k].dst.value] == v
  }

  /** The scan of one function body: the hits are exactly the places where a target is completed. */
  method ScanFunction(w: seq<Insn>, targets: set<Half>) returns (pending: Pending, hits: seq<(nat, Half)>)
    ensures pending == Forward(w, |w|)
    ensures forall k: nat, v: Half :: (k, v) in hits <==> IsHit(w, targets, k, v)
    ensures forall j, k :: 0 <= j < k < |hits| ==> hits[j].0 < hits[k].0
  {
    pending, hits := map[], [];
    for n := 0 to |w|
      invariant pending == Forward(w, n)
      invariant forall k: nat, v: Half :: (k, v) in hits <==> k < n && IsHit(w, targets, k, v)
      invariant forall j :: 0 <= j < |hits| ==> hits[j].0 < n
      invariant forall j, k :: 0 <= j < k < |hits| ==> hits[j].0 < hits[k].0
    {
      hide Place, Inserted, NotHalf;
      var i := w[n];
      ghost var before := hits;
      if i.dst.None? { continue; }
      var dst := i.dst.value;
      var val: Option<Half> := None;
      if i.mnem in {"mov", "movz"} {
        if i.imm.Some? {
          val := Some(Low(Place(i.imm.value, i.hw)));
        } else if i.src.Some? && i.src.value in pending {
          pending := pending[dst := pending[i.src.value]];
        } else {
          pending := pending - {dst};
        }
      } else if i.mnem == "movk" {
        if i.imm.Some? {
          var base := if dst in pending then pending[dst] else Half(0, 0);
          val := Some(Inserted(base, i.imm.value, i.hw));
        }
      } else if i.mnem == "movn" {
        if i.imm.Some? { val := Some(NotHalf(Low(Place(i.imm.value, i.hw)))); }
      } else {
        pending := pending - {dst};
      }
      if val.Some? {
        pending := pending[dst := val.value];
        if val.value in targets { hits := hits + [(n, val.value)]; }
      }
      assert val.Some? <==> BuildsConstant(i);
    }
  }

  // ---- The forward scan against the machine ---------------------------------------

  lemma AndBound(a: Lane, b: Lane)
    ensures And(a, b) < 0x1_0000
  {
    Powers();
    AndSmall(a, b, 16);
  }

  lemma InsertedLanes(base: Half, imm: Word, hw: nat, lane: nat)
    requires imm == Word(imm.a0, 0, 0, 0) && hw < 4 && lane < 2
    ensures LaneOf(Inserted(base, imm, hw), lane) == if hw == lane then imm.a0 else LaneOf(base, lane)
  {
    hide And, OrLane, Pow2;
    Powers();
    AndOnes(base.lo, 16);
    AndOnes(base.hi, 16);
    LaneLaws(base.lo, 0, 0);
    LaneLaws(base.hi, 0, 0);
    LaneLaws(imm.a0, 0, 0);
  }

  /** What a movk finds pending: a register that is not pending counts as zero. */
  function Scanned(w: seq<Insn>, n: nat, r: Reg): Half
    requires n <= |w|
  {
    if r in Forward(w, n) then Forward(w, n)[r] else Half(0, 0)
  }

  /** The scanner has not dropped what was put into the lane, as it does at every instruction with
      the register as operand 0 that is not a move. */
  predicate Kept(w: seq<Insn>, n: nat, r: Reg, lane: nat)
    requires n <= |w|
  {
    if n == 0 then false
    else
      var i := w[n - 1];
      if i.dst != Some(r) then Kept(w, n - 1, r, lane)
      else if i.mnem == "mov" && i.imm.None? then i.src.Some? && Kept(w, n - 1, i.src.value, lane)
      else if i.mnem == "movk" then i.hw == lane || Kept(w, n - 1, r, lane)
      else i.mnem in {"mov", "movz", "movn"}
  }

  /** A lane the scanner kept is what the machine holds there, if that is determined; any other
      lane it takes for zero. */
  lemma {:induction false} ScannedLane(w: seq<Insn>, n: nat, r: Reg, lane: nat)
    requires n <= |w| && lane < 2 && AllEncodable(w)
    ensures !Kept(w, n, r, lane) ==> LaneOf(Scanned(w, n, r), lane) == 0
    ensures Kept(w, n, r, lane) ==> r in Forward(w, n)
    ensures Kept(w, n, r, lane) && Put(w, n, r, lane).Some? ==> LaneOf(Scanned(w, n, r), lane) == Put(w, n, r, lane).value
  {
    hide Inserted;
    if n > 0 {
      var i := w[n - 1];
      assert Encodable(i);
      if i.dst != Some(r) {
        ScannedLane(w, n - 1, r, lane);
      } else if i.mnem == "mov" && i.imm.None? && i.src.Some? {
        ScannedLane(w, n - 1, i.src.value, lane);
      } else if i.mnem == "movk" {
        InsertedLanes(Scanned(w, n - 1, r), i.imm.value, i.hw, lane);
        ScannedLane(w, n - 1, r, lane);
      }
    }
  }

  /** A kept lane of a pending value that is determined is the lane the register holds, on every
      execution. */
  lemma KnownLaneHolds(w: seq<Insn>, states: seq<Regs>, n: nat, r: Reg, lane: nat)
    requires n <= |w| && lane < 2 && AllEncodable(w) && Trace(w, states)
    requires Kept(w, n, r, lane) && Put(w, n, r, lane).Some?
    ensures r in Forward(w, n) && LaneOf(Forward(w, n)[r], lane) == LaneOf(Low(states[n](r)), lane)
  {
    hide Forward, Put, Trace, AllEncodable, Kept;
    ScannedLane(w, n, r, lane);
    MachineHoldsPut(w, states, n, r, lane);
  }

  /** The scanner has the lane right: it is determined, and kept since or zero. */
  predicate ScannedRight(w: seq<Insn>, r: Reg, lane: nat) {
    Put(w, |w|, r, lane).Some? && (Kept(w, |w|, r, lane) || Put(w, |w|, r, lane).value == 0)
  }

  /** A pending value is right on every execution exactly when both its lanes are.  The scanner
      keeps what was pending across a call, and drops what a store leaves alone. */
  lemma PendingSoundIff(w: seq<Insn>, r: Reg)
    requires AllEncodable(w) && r in Forward(w, |w|)
    ensures AlwaysHolds(w, r, Forward(w, |w|)[r]) <==> ScannedRight(w, r, 0) && ScannedRight(w, r, 1)
  {
    hide AlwaysHolds, Forward, Put, AllEncodable, Kept;
    AlwaysHoldsIff(w, r, Forward(w, |w|)[r]);
    ScannedLane(w, |w|, r, 0);
    ScannedLane(w, |w|, r, 1);
  }

  /** `movz r, #a`, `movk r, #a, lsl #16`, and a store of `r` */
  function Movz(r: Reg, a: Lane): Insn {
    Insn("movz", Some(r), false, Some(Word(a, 0, 0, 0)), 0, None, {r})
  }

  function MovkHigh(r: Reg, a: Lane): Insn {
    Insn("movk", Some(r), false, Some(Word(a, 0, 0, 0)), 1, None, {r})
  }

  function Store(r: Reg): Insn {
    Insn("str", Some(r), false, None, 0, None, {})
  }

  /** After `mov r, z; movk r, #a, lsl #16`, for either name `z` of the zero register, the pending value is
      right. */
  lemma MovkAfterZero(r: Reg, z: Reg, a: Lane)
    requires r !in ZERO && (z == "wzr" || z == "xzr")
    ensures var w := [Insn("mov", Some(r), false, None, 0, Some(z), {r}), MovkHigh(r, a)];
      r in Forward(w, 2) && Forward(w, 2)[r] == Half(0, a) && AlwaysHolds(w, r, Half(0, a))
  {
    hide AlwaysHolds, Inserted;
    var w := [Insn("mov", Some(r), false, None, 0, Some(z), {r}), MovkHigh(r, a)];
    InsertedLanes(Half(0, 0), Word(a, 0, 0, 0), 1, 0);
    InsertedLanes(Half(0, 0), Word(a, 0, 0, 0), 1, 1);
    assert Forward(w, 0) == map[] && Forward(w, 1) == map[];
    assert w[0].src == Some(z) && Put(w, 1, r, 0) == Put(w, 0, z, 0) == Some(0);
    AlwaysHoldsIff(w, r, Half(0, a));
  }

  /** After `movz r, #a; str r, [...]; movk r, #b, lsl #16` it is right only if `a` is zero. */
  lemma StoreDropsLane(r: Reg, a: Lane, b: Lane)
    requires r !in ZERO
    ensures var w := [Movz(r, a), Store(r), MovkHigh(r, b)];
      r in Forward(w, 3) && Forward(w, 3)[r] == Half(0, b) && (AlwaysHolds(w, r, Half(0, b)) <==> a == 0)
  {
    hide AlwaysHolds, Inserted;
    var w := [Movz(r, a), Store(r), MovkHigh(r, b)];
    InsertedLanes(Half(0, 0), Word(b, 0, 0, 0), 1, 0);
    InsertedLanes(Half(0, 0), Word(b, 0, 0, 0), 1, 1);
    assert Forward(w, 2) == ScanStep(Forward(w, 1), w[1]) && r !in Forward(w, 2);
    assert Put(w, 1, r, 0) == Some(a) && Put(w, 2, r, 0) == Some(a);
    AlwaysHoldsIff(w, r, Half(0, b));
  }

  /** The scanner holds, lane by lane, what was put last. */
  lemma {:induction false} ScanHoldsActual(w: seq<Insn>, n: nat, r: Reg)
    requires n <= |w| && AllEncodable(w) && Writes(w, n, r).Some?
    ensures r in Forward(w, n) && Forward(w, n)[r] == Actual(Writes(w, n, r).value)
  {
    hide Inserted;
    var i := w[n - 1];
    assert Encodable(i);
    if i.dst != Some(r) {
      ScanHoldsActual(w, n - 1, r);
    } else if i.mnem == "mov" && i.imm.None? {
      ScanHoldsActual(w, n - 1, i.src.value);
    } else if i.mnem == "movk" {
      ScanHoldsActual(w, n - 1, r);
      var p := Forward(w, n - 1);
      InsertedLanes(p[r], i.imm.value, i.hw, 0);
      InsertedLanes(p[r], i.imm.value, i.hw, 1);
    } else {
      SingleWrites(w, n, r);
    }
  }

  /** Where the backward walk finds a value, the scanner has the register pending, and the two
      values are equal exactly when the chain is faithful, calls or not. */
  lemma WalkMatchesScanIff(w: seq<Insn>, r: Reg, v: Half, at: nat)
    requires AllEncodable(w) && Back(w, |w|, r, None, BACKWALK_INSNS) == Found(v, at)
    ensures Writes(w, |w|, r).Some? && r in Forward(w, |w|)
    ensures v == Forward(w, |w|)[r] <==> Faithful(Writes(w, |w|, r).value)
  {
    BackReports(w, |w|, r, None, BACKWALK_INSNS);
    ScanHoldsActual(w, |w|, r);
    ReportedIsActualIff(Writes(w, |w|, r).value);
  }
}
