/** Comparing two saves: the changed pairs of the pair region, the changed runs outside it, and
    when the two reports together say everything. */
module SaveDiff {
  import opened Wrappers
  import opened ByteOrder

  const PAIR_REGION_OFFSET := 0x28
  const PAIR_REGION_END_HINT := 0xbf0

  // ---- The pair region ------------------------------------------------------------

  datatype Pair = Pair(index: nat, key: nat, value: nat)

  datatype PairChange = PairChange(index: nat, offset: nat, key: nat, beforeValue: nat, afterValue: nat, keyChanged: bool)

  datatype RegionChange = RegionChange(offset: nat, before: Bytes, after: Bytes)

  function EndOfPairs(n: nat): nat {
    if n < PAIR_REGION_END_HINT then n else PAIR_REGION_END_HINT
  }

  /** How many whole pairs a save of length `n` has. */
  function PairCount(n: nat): nat {
    if EndOfPairs(n) < PAIR_REGION_OFFSET then 0 else (EndOfPairs(n) - PAIR_REGION_OFFSET) / 8
  }

  lemma PairFits(n: nat, i: nat)
    requires i < PairCount(n)
    ensures PAIR_REGION_OFFSET + 8 * i + 8 <= EndOfPairs(n) <= n
  {
  }

  function U32At(buf: Bytes, o: nat): nat
    requires o + 4 <= |buf|
  {
    LittleEndian(buf[o..o + 4])
  }

  function PairAt(buf: Bytes, i: nat): Pair
    requires i < PairCount(|buf|)
  {
    PairFits(|buf|, i);
    var off := PAIR_REGION_OFFSET + 8 * i;
    Pair(i, U32At(buf, off), U32At(buf, off + 4))
  }

  method IterPairRegion(buf: Bytes) returns (pairs: seq<Pair>)
    ensures |pairs| == PairCount(|buf|) && forall i :: 0 <= i < |pairs| ==> pairs[i] == PairAt(buf, i)
  {
    hide LittleEndian;
    var end := if |buf| < PAIR_REGION_END_HINT then |buf| else PAIR_REGION_END_HINT;
    pairs := [];
    var off := PAIR_REGION_OFFSET;
    while off < end - 7
      invariant off == PAIR_REGION_OFFSET + 8 * |pairs| && |pairs| <= PairCount(|buf|)
      invariant forall i :: 0 <= i < |pairs| ==> pairs[i] == PairAt(buf, i)
    {
      pairs := pairs + [Pair(|pairs|, U32At(buf, off), U32At(buf, off + 4))];
      off := off + 8;
    }
  }

  function Min(a: nat, b: nat): nat {
    if a < b then a else b
  }

  /** What is reported of the `i`-th pair. */
  function ChangeOf(before: Bytes, after: Bytes, i: nat): Option<PairChange>
    requires i < PairCount(|before|) && i < PairCount(|after|)
  {
    var b, a := PairAt(before, i), PairAt(after, i);
    if b == a then None
    else Some(PairChange(i, PAIR_REGION_OFFSET + 8 * i, b.key, b.value, a.value, b.key != a.key))
  }

  /** The changes are those of all the pairs both saves have, in order. */
  method DiffPairs(before: Bytes, after: Bytes) returns (changes: seq<PairChange>)
    ensures forall c :: c in changes <==>
              c.index < Min(PairCount(|before|), PairCount(|after|)) && ChangeOf(before, after, c.index) == Some(c)
    ensures forall j, k :: 0 <= j < k < |changes| ==> changes[j].index < changes[k].index
  {
    hide LittleEndian, PairCount;
    var bs := IterPairRegion(before);
    var as_ := IterPairRegion(after);
    changes := [];
    var i := 0;
    while i < |bs| && i < |as_|
      invariant i <= |bs| && i <= |as_|
      invariant forall c :: c in changes <==> c.index < i && ChangeOf(before, after, c.index) == Some(c)
      invariant forall j, k :: 0 <= j < k < |changes| ==> changes[j].index < changes[k].index
    {
      var b, a := bs[i], as_[i];
      var off := PAIR_REGION_OFFSET + 8 * b.index;
      if b.key != a.key {
        changes := changes + [PairChange(b.index, off, b.key, b.value, a.value, true)];
      } else if b.value != a.value {
        changes := changes + [PairChange(b.index, off, b.key, b.value, a.value, false)];
      }
      i := i + 1;
    }
  }

  /** What a reported pair says: its place, the key and value that were there, the value that is there
      now, and whether the key is another one. */
  lemma ChangeSays(before: Bytes, after: Bytes, i: nat)
    requires i < PairCount(|before|) && i < PairCount(|after|) && ChangeOf(before, after, i).Some?
    ensures 0x28 + 8 * i + 8 <= |before| && 0x28 + 8 * i + 8 <= |after|
    ensures var c, o := ChangeOf(before, after, i).value, 0x28 + 8 * i;
      && c.offset == o
      && before[o..o + 8] == Encoded(false, c.key, 4) + Encoded(false, c.beforeValue, 4)
      && after[o + 4..o + 8] == Encoded(false, c.afterValue, 4)
      && (c.keyChanged <==> before[o..o + 4] != after[o..o + 4])
  {
    hide Encoded, LittleEndian;
    PairFits(|before|, i);
    PairFits(|after|, i);
    var o := PAIR_REGION_OFFSET + 8 * i;
    EncodeDecoded(false, before[o..o + 4]);
    EncodeDecoded(false, before[o + 4..o + 8]);
    EncodeDecoded(false, after[o..o + 4]);
    EncodeDecoded(false, after[o + 4..o + 8]);
    assert before[o..o + 8] == before[o..o + 4] + before[o + 4..o + 8];
  }

  // ---- Runs outside it ------------------------------------------------------------

  type Mask = seq<(int, int)>

  predicate Covers(m: (int, int), i: nat) {
    m.0 <= i < m.0 + m.1
  }

  predicate Masked(mask: Mask, i: nat) {
    exists m :: m in mask && Covers(m, i)
  }

  method IsMasked(i: nat, mask: Mask) returns (r: bool)
    ensures r == Masked(mask, i)
  {
    for k := 0 to |mask|
      invariant forall j :: 0 <= j < k ==> !Covers(mask[j], i)
    {
      if mask[k].0 <= i < mask[k].0 + mask[k].1 {
        assert Covers(mask[k], i) && mask[k] in mask;
        return true;
      }
    }
    return false;
  }

  predicate InPairRegion(n: nat, i: nat) {
    PAIR_REGION_OFFSET <= i < EndOfPairs(n)
  }

  /** The bytes the run finder looks for. */
  predicate Differs(before: Bytes, after: Bytes, mask: Mask, i: nat)
    requires |before| == |after|
  {
    i < |before| && !InPairRegion(|before|, i) && before[i] != after[i] && !Masked(mask, i)
  }

  predicate InRun(r: RegionChange, i: nat) {
    r.offset <= i < r.offset + |r.before|
  }

  /** A run: the bytes of both saves there, all of them different, and no longer run around it. */
  ghost predicate MaximalRun(before: Bytes, after: Bytes, mask: Mask, r: RegionChange)
    requires |before| == |after|
  {
    && |r.before| > 0 && r.offset + |r.before| <= |before|
    && r.before == before[r.offset..r.offset + |r.before|] && r.after == after[r.offset..r.offset + |r.before|]
    && (forall i :: InRun(r, i) ==> Differs(before, after, mask, i))
    && (r.offset > 0 ==> !Differs(before, after, mask, r.offset - 1))
    && !Differs(before, after, mask, r.offset + |r.before|)
  }

  /** So a reported run has as many bytes of one save as of the other, at least one, and they differ at
      each end and throughout. */
  lemma RunSays(before: Bytes, after: Bytes, mask: Mask, r: RegionChange, k: nat)
    requires |before| == |after| && MaximalRun(before, after, mask, r)
    ensures |r.before| == |r.after| > 0
    ensures r.offset > 0 ==> !Differs(before, after, mask, r.offset - 1)
    ensures k < |r.before| ==> r.before[k] == before[r.offset + k] != after[r.offset + k] == r.after[k]
  {
    if k < |r.before| { assert InRun(r, r.offset + k); }
  }

  /** Sorted and apart. */
  ghost predicate Apart(runs: seq<RegionChange>) {
    forall j, k :: 0 <= j < k < |runs| ==> runs[j].offset + |runs[j].before| < runs[k].offset
  }

  /** Between two runs there is at least one byte. */
  lemma RunsApart(runs: seq<RegionChange>, j: nat, k: nat)
    requires Apart(runs) && j < k < |runs|
    ensures runs[j].offset + |runs[j].before| + 1 <= runs[k].offset
  {
  }

  ghost predicate Found(runs: seq<RegionChange>, i: nat) {
    exists r :: r in runs && InRun(r, i)
  }

  method DiffOutsidePairs(before: Bytes, after: Bytes, mask: Mask) returns (regions: seq<RegionChange>)
    ensures |before| != |after| ==> regions == [RegionChange(0, before, after)]
    ensures |before| == |after| ==>
              && Apart(regions)
              && (forall r :: r in regions ==> MaximalRun(before, after, mask, r))
              && forall i :: 0 <= i < |before| ==> (Found(regions, i) <==> Differs(before, after, mask, i))
  {
    regions := [];
    if |before| != |after| { return [RegionChange(0, before, after)]; }
    var n := |before|;
    var endOfPairs := if n < PAIR_REGION_END_HINT then n else PAIR_REGION_END_HINT;
    var inRun, runStart := false, 0;
    for i := 0 to n
      invariant RunState(before, after, mask, regions, inRun, runStart, i)
    {
      hide RunState;
      if PAIR_REGION_OFFSET <= i < endOfPairs {
        if inRun {
          CloseRun(before, after, mask, regions, runStart, i);
          regions := regions + [RegionChange(runStart, before[runStart..i], after[runStart..i])];
          inRun := false;
        } else {
          StayOut(before, after, mask, regions, runStart, i);
        }
        continue;
      }
      var differs := before[i] != after[i];
      if differs {
        var masked := IsMasked(i, mask);
        if masked { differs := false; }
      }
      assert differs == Differs(before, after, mask, i);
      if differs && !inRun {
        OpenRun(before, after, mask, regions, runStart, i);
        runStart, inRun := i, true;
      } else if !differs && inRun {
        CloseRun(before, after, mask, regions, runStart, i);
        regions := regions + [RegionChange(runStart, before[runStart..i], after[runStart..i])];
        inRun := false;
      } else if differs {
        StayIn(before, after, mask, regions, runStart, i);
      } else {
        StayOut(before, after, mask, regions, runStart, i);
      }
    }
    if inRun {
      CloseRun(before, after, mask, regions, runStart, n);
      assert before[runStart..] == before[runStart..n] && after[runStart..] == after[runStart..n];
      regions := regions + [RegionChange(runStart, before[runStart..], after[runStart..])];
    }
  }

  /** The finder's state before byte `i`: the closed runs tell all up to where a run is open, and
      an open run has differed since it was opened. */
  ghost predicate RunState(before: Bytes, after: Bytes, mask: Mask, regions: seq<RegionChange>,
                           inRun: bool, runStart: nat, i: nat)
    requires |before| == |after|
  {
    var told := if inRun then runStart else i;
    && i <= |before| && told <= i && Apart(regions)
    && (forall r :: r in regions ==> MaximalRun(before, after, mask, r) && r.offset + |r.before| <= told)
    && (forall j :: 0 <= j < told ==> (Found(regions, j) <==> Differs(before, after, mask, j)))
    && (inRun ==>
          && runStart < i && (forall j :: runStart <= j < i ==> Differs(before, after, mask, j))
          && (runStart > 0 ==> !Differs(before, after, mask, runStart - 1)))
  }

  lemma StayOut(before: Bytes, after: Bytes, mask: Mask, regions: seq<RegionChange>, runStart: nat, i: nat)
    requires |before| == |after| && i < |before| && RunState(before, after, mask, regions, false, runStart, i)
    requires !Differs(before, after, mask, i)
    ensures RunState(before, after, mask, regions, false, runStart, i + 1)
  {
  }

  lemma StayIn(before: Bytes, after: Bytes, mask: Mask, regions: seq<RegionChange>, runStart: nat, i: nat)
    requires |before| == |after| && i < |before| && RunState(before, after, mask, regions, true, runStart, i)
    requires Differs(before, after, mask, i)
    ensures RunState(before, after, mask, regions, true, runStart, i + 1)
  {
  }

  lemma OpenRun(before: Bytes, after: Bytes, mask: Mask, regions: seq<RegionChange>, runStart: nat, i: nat)
    requires |before| == |after| && i < |before| && RunState(before, after, mask, regions, false, runStart, i)
    requires Differs(before, after, mask, i)
    ensures RunState(before, after, mask, regions, true, i, i + 1)
  {
    // had the byte before differed, a closed run would end there and this byte would not differ
    assert i > 0 && Differs(before, after, mask, i - 1) ==> Found(regions, i - 1);
  }

  lemma CloseRun(before: Bytes, after: Bytes, mask: Mask, regions: seq<RegionChange>, runStart: nat, i: nat)
    requires |before| == |after| && i <= |before| && RunState(before, after, mask, regions, true, runStart, i)
    requires !Differs(before, after, mask, i)
    ensures var r := RegionChange(runStart, before[runStart..i], after[runStart..i]);
            RunState(before, after, mask, regions + [r], false, runStart, if i < |before| then i + 1 else i)
  {
    hide Differs;
    var r := RegionChange(runStart, before[runStart..i], after[runStart..i]);
    var all := regions + [r];
    assert all[|regions|] == r && forall k :: 0 <= k < |regions| ==> all[k] == regions[k] && regions[k] in regions;
    forall j | 0 <= j < |before| && j <= i ensures Found(all, j) <==> Differs(before, after, mask, j) {
      FoundSnoc(regions, r, j);
      if j >= runStart {
        assert !Found(regions, j);
      }
    }
  }

  lemma FoundSnoc(regions: seq<RegionChange>, r: RegionChange, i: nat)
    ensures Found(regions + [r], i) <==> Found(regions, i) || InRun(r, i)
  {
    if Found(regions, i) {
      var q :| q in regions && InRun(q, i);
      assert q in regions + [r];
    }
    assert r in regions + [r];
  }

  // ---- What the two reports say together ------------------------------------------

  datatype Edit = Edit(offset: nat, bytes: Bytes)

  predicate Touches(e: Edit, i: nat) {
    e.offset <= i < e.offset + |e.bytes|
  }

  function ApplyEdit(b: Bytes, e: Edit): Bytes {
    seq(|b|, i requires 0 <= i < |b| => if Touches(e, i) then e.bytes[i - e.offset] else b[i])
  }

  /** Lays the edits over a save. */
  function Apply(b: Bytes, edits: seq<Edit>): (r: Bytes)
    ensures |r| == |b|
    decreases edits
  {
    if edits == [] then b else ApplyEdit(Apply(b, edits[..|edits| - 1]), edits[|edits| - 1])
  }

  /** The value a changed pair is reported to have now, or, going `back`, to have had; the report has
      one key only. */
  function PairEdit(c: PairChange, back: bool): Edit {
    Edit(c.offset + 4, Encoded(false, if back then c.beforeValue else c.afterValue, 4))
  }

  function RegionEdit(r: RegionChange, back: bool): Edit {
    Edit(r.offset, if back then r.before else r.after)
  }

  function PairEdits(changes: seq<PairChange>, back: bool): (edits: seq<Edit>)
    ensures |edits| == |changes| && forall i :: 0 <= i < |edits| ==> edits[i] == PairEdit(changes[i], back)
  {
    seq(|changes|, i requires 0 <= i < |changes| => PairEdit(changes[i], back))
  }

  function RegionEdits(regions: seq<RegionChange>, back: bool): (edits: seq<Edit>)
    ensures |edits| == |regions| && forall i :: 0 <= i < |edits| ==> edits[i] == RegionEdit(regions[i], back)
  {
    seq(|regions|, i requires 0 <= i < |regions| => RegionEdit(regions[i], back))
  }

  /** Both reports as edits. */
  function Reports(changes: seq<PairChange>, regions: seq<RegionChange>, back: bool): seq<Edit> {
    PairEdits(changes, back) + RegionEdits(regions, back)
  }

  ghost predicate Touched(edits: seq<Edit>, i: nat) {
    exists e :: e in edits && Touches(e, i)
  }

  predicate TakenFrom(e: Edit, after: Bytes) {
    e.offset + |e.bytes| <= |after| && e.bytes == after[e.offset..e.offset + |e.bytes|]
  }

  /** Edits taken from `after` turn just the bytes they touch into those of `after`. */
  lemma {:induction false} ApplyAt(before: Bytes, after: Bytes, edits: seq<Edit>, i: nat)
    requires |before| == |after| && i < |before|
    requires forall e :: e in edits ==> TakenFrom(e, after)
    ensures Apply(before, edits)[i] == if Touched(edits, i) then after[i] else before[i]
  {
    if edits != [] {
      var init, last := edits[..|edits| - 1], edits[|edits| - 1];
      ApplyAt(before, after, init, i);
      assert edits == init + [last];
      assert Touched(edits, i) <==> Touched(init, i) || Touches(last, i) by {
        if Touched(init, i) {
          var e :| e in init && Touches(e, i);
          assert e in edits;
        }
      }
    }
  }

  /** A byte of the value of a whole pair. */
  predicate InValue(n: nat, i: nat) {
    InPairRegion(n, i) && (i - PAIR_REGION_OFFSET) / 8 < PairCount(n) && (i - PAIR_REGION_OFFSET) % 8 >= 4
  }

  /** The reports have a place for a change of byte `i`: outside the pair region unless it is
      masked, inside it only for the value of a whole pair. */
  predicate Reportable(n: nat, mask: Mask, i: nat) {
    if InPairRegion(n, i) then InValue(n, i) else !Masked(mask, i)
  }

  ghost predicate ChangesOf(before: Bytes, after: Bytes, changes: seq<PairChange>) {
    forall c :: c in changes <==>
      c.index < Min(PairCount(|before|), PairCount(|after|)) && ChangeOf(before, after, c.index) == Some(c)
  }

  ghost predicate RegionsOf(before: Bytes, after: Bytes, mask: Mask, regions: seq<RegionChange>)
    requires |before| == |after|
  {
    && (forall r :: r in regions ==> MaximalRun(before, after, mask, r))
    && forall i :: 0 <= i < |before| ==> (Found(regions, i) <==> Differs(before, after, mask, i))
  }

  /** Laying both reports over the first save rebuilds the second, and what they say was there before
      over the second rebuilds the first, exactly when every byte that changed is one the reports have
      a place for: no key changed, no masked byte changed, and no byte of an incomplete last pair. */
  lemma OverlayRebuildsIff(before: Bytes, after: Bytes, mask: Mask, changes: seq<PairChange>, regions: seq<RegionChange>)
    requires |before| == |after|
    requires ChangesOf(before, after, changes) && RegionsOf(before, after, mask, regions)
    ensures Apply(before, Reports(changes, regions, false)) == after
       <==> forall i :: 0 <= i < |before| && before[i] != after[i] ==> Reportable(|before|, mask, i)
    ensures Apply(after, Reports(changes, regions, true)) == before
       <==> forall i :: 0 <= i < |before| && before[i] != after[i] ==> Reportable(|before|, mask, i)
  {
    Rebuilds(before, after, mask, changes, regions, false);
    Rebuilds(before, after, mask, changes, regions, true);
  }

  lemma Rebuilds(before: Bytes, after: Bytes, mask: Mask, changes: seq<PairChange>, regions: seq<RegionChange>, back: bool)
    requires |before| == |after|
    requires ChangesOf(before, after, changes) && RegionsOf(before, after, mask, regions)
    ensures Apply(if back then after else before, Reports(changes, regions, back)) == (if back then before else after)
       <==> forall i :: 0 <= i < |before| && before[i] != after[i] ==> Reportable(|before|, mask, i)
  {
    hide Apply, Differs, Reportable, Reports;
    var from, to := if back then after else before, if back then before else after;
    var edits := Reports(changes, regions, back);
    EditsTaken(before, after, mask, changes, regions, back);
    forall i | 0 <= i < |before|
      ensures Apply(from, edits)[i] == to[i] <==> before[i] == after[i] || Reportable(|before|, mask, i)
    {
      ApplyAt(from, to, edits, i);
      if before[i] != after[i] { TouchedIff(before, after, mask, changes, regions, back, i); }
    }
  }

  lemma PairEditTaken(before: Bytes, after: Bytes, c: PairChange, back: bool)
    requires |before| == |after| && c.index < PairCount(|before|) && ChangeOf(before, after, c.index) == Some(c)
    ensures TakenFrom(PairEdit(c, back), if back then before else after)
  {
    hide Encoded, LittleEndian;
    PairFits(|before|, c.index);
    EncodeDecoded(false, after[c.offset + 4..c.offset + 8]);
    EncodeDecoded(false, before[c.offset + 4..c.offset + 8]);
  }

  lemma EditsTaken(before: Bytes, after: Bytes, mask: Mask, changes: seq<PairChange>, regions: seq<RegionChange>, back: bool)
    requires |before| == |after|
    requires ChangesOf(before, after, changes) && RegionsOf(before, after, mask, regions)
    ensures forall e :: e in Reports(changes, regions, back) ==> TakenFrom(e, if back then before else after)
  {
    hide ChangeOf, PairCount, Differs, TakenFrom;
    var ps, rs, src := PairEdits(changes, back), RegionEdits(regions, back), if back then before else after;
    forall i | 0 <= i < |ps| ensures TakenFrom(ps[i], src) {
      assert changes[i] in changes;
      PairEditTaken(before, after, changes[i], back);
    }
    forall i | 0 <= i < |rs| ensures TakenFrom(rs[i], src) {
      assert regions[i] in regions;
      RegionEditTaken(before, after, mask, regions[i], back);
    }
  }

  lemma RegionEditTaken(before: Bytes, after: Bytes, mask: Mask, r: RegionChange, back: bool)
    requires |before| == |after| && MaximalRun(before, after, mask, r)
    ensures TakenFrom(RegionEdit(r, back), if back then before else after)
  {
  }

  /** A changed byte is touched exactly when the reports have a place for it. */
  lemma TouchedIff(before: Bytes, after: Bytes, mask: Mask, changes: seq<PairChange>, regions: seq<RegionChange>,
                   back: bool, i: nat)
    requires |before| == |after| && i < |before| && before[i] != after[i]
    requires ChangesOf(before, after, changes) && RegionsOf(before, after, mask, regions)
    ensures Touched(Reports(changes, regions, back), i) <==> Reportable(|before|, mask, i)
  {
    hide ChangeOf, PairCount, InValue, PairEdits, RegionEdits;
    TouchedByEither(PairEdits(changes, back), RegionEdits(regions, back), i);
    TouchedByPairIff(before, after, changes, back, i);
    TouchedByRegionIff(before, after, mask, regions, back, i);
    ValueInRegion(|before|, i);
  }

  lemma ValueInRegion(n: nat, i: nat)
    ensures InValue(n, i) ==> InPairRegion(n, i)
  {
  }

  lemma TouchedByEither(a: seq<Edit>, b: seq<Edit>, i: nat)
    ensures Touched(a + b, i) <==> Touched(a, i) || Touched(b, i)
  {
    if Touched(a, i) {
      var e :| e in a && Touches(e, i);
      assert e in a + b;
    }
    if Touched(b, i) {
      var e :| e in b && Touches(e, i);
      assert e in a + b;
    }
  }

  lemma TouchedByRegionIff(before: Bytes, after: Bytes, mask: Mask, regions: seq<RegionChange>, back: bool, i: nat)
    requires |before| == |after| && i < |before| && RegionsOf(before, after, mask, regions)
    ensures Touched(RegionEdits(regions, back), i) <==> Differs(before, after, mask, i)
  {
    hide Differs;
    var edits := RegionEdits(regions, back);
    assert forall r :: r in regions ==> |r.before| == |r.after|;
    if Touched(edits, i) {
      var k :| 0 <= k < |edits| && Touches(edits[k], i);
      assert regions[k] in regions && InRun(regions[k], i);
    }
    if Found(regions, i) {
      var k :| 0 <= k < |regions| && InRun(regions[k], i);
      assert regions[k] in regions;
      assert Touches(edits[k], i) && edits[k] in edits;
    }
  }

  lemma TouchedByPairIff(before: Bytes, after: Bytes, changes: seq<PairChange>, back: bool, i: nat)
    requires |before| == |after| && i < |before| && before[i] != after[i] && ChangesOf(before, after, changes)
    ensures Touched(PairEdits(changes, back), i) <==> InValue(|before|, i)
  {
    hide ChangeOf, InValue, PairCount;
    var edits := PairEdits(changes, back);
    if Touched(edits, i) {
      var k :| 0 <= k < |edits| && Touches(edits[k], i);
      assert changes[k] in changes;
      PairTouches(before, after, changes[k], back, i);
    }
    if InValue(|before|, i) {
      ValueChanged(before, after, i);
      var c := ChangeOf(before, after, PairOf(|before|, i)).value;
      assert c in changes;
      PairTouches(before, after, c, back, i);
      var j :| 0 <= j < |changes| && changes[j] == c;
      assert Touches(edits[j], i) && edits[j] in edits;
    }
  }

  /** The pair a value byte belongs to. */
  function PairOf(n: nat, i: nat): (k: nat)
    requires InValue(n, i)
    ensures k < PairCount(n)
  {
    (i - PAIR_REGION_OFFSET) / 8
  }

  lemma PairTouches(before: Bytes, after: Bytes, c: PairChange, back: bool, i: nat)
    requires |before| == |after| && c.index < PairCount(|before|) && ChangeOf(before, after, c.index) == Some(c)
    ensures Touches(PairEdit(c, back), i) <==> InValue(|before|, i) && PairOf(|before|, i) == c.index
  {
    hide ChangeOf;
    ChangeFields(before, after, c);
    PairFits(|before|, c.index);
  }

  lemma ChangeFields(before: Bytes, after: Bytes, c: PairChange)
    requires |before| == |after| && c.index < PairCount(|before|) && ChangeOf(before, after, c.index).Some?
    ensures var r := ChangeOf(before, after, c.index).value; r.index == c.index && r.offset == PAIR_REGION_OFFSET + 8 * c.index
  {
    hide LittleEndian;
  }

  /** A changed byte of a value is a changed value. */
  lemma ValueChanged(before: Bytes, after: Bytes, i: nat)
    requires |before| == |after| && i < |before| && before[i] != after[i] && InValue(|before|, i)
    ensures var k := PairOf(|before|, i);
            ChangeOf(before, after, k).Some? && ChangeOf(before, after, k).value.index == k
  {
    hide LittleEndian, Encoded;
    var k := (i - PAIR_REGION_OFFSET) / 8;
    PairFits(|before|, k);
    var o := PAIR_REGION_OFFSET + 8 * k + 4;
    assert before[o..o + 4][i - o] != after[o..o + 4][i - o];
    EncodeDecoded(false, before[o..o + 4]);
    EncodeDecoded(false, after[o..o + 4]);
  }

  /** For saves that hold the whole pair region, without a mask: the reports rebuild the second
      save exactly when no key of the pair region changed. */
  lemma WholeRegionRebuildsIff(before: Bytes, after: Bytes, changes: seq<PairChange>, regions: seq<RegionChange>)
    requires |before| == |after| >= PAIR_REGION_END_HINT
    requires ChangesOf(before, after, changes) && RegionsOf(before, after, [], regions)
    ensures Apply(before, Reports(changes, regions, false)) == after
       <==> forall i :: 0 <= i < 377 ==> PairAt(before, i).key == PairAt(after, i).key
    ensures Apply(after, Reports(changes, regions, true)) == before
       <==> forall i :: 0 <= i < 377 ==> PairAt(before, i).key == PairAt(after, i).key
  {
    hide Apply, PairAt, Differs;
    OverlayRebuildsIff(before, after, [], changes, regions);
    assert forall i :: !Masked([], i);
    if forall i :: 0 <= i < 377 ==> PairAt(before, i).key == PairAt(after, i).key {
      forall i | 0 <= i < |before| && before[i] != after[i] ensures Reportable(|before|, [], i) {
        if InPairRegion(|before|, i) && !InValue(|before|, i) {
          KeysDiffer(before, after, i);
        }
      }
    }
    forall k | 0 <= k < 377 && PairAt(before, k).key != PairAt(after, k).key
      ensures exists i :: 0 <= i < |before| && before[i] != after[i] && !Reportable(|before|, [], i)
    {
      var i := KeyByte(before, after, k);
      assert before[i] != after[i] && !Reportable(|before|, [], i);
    }
  }

  lemma KeysDiffer(before: Bytes, after: Bytes, i: nat)
    requires |before| == |after| >= PAIR_REGION_END_HINT && InPairRegion(|before|, i) && !InValue(|before|, i)
    requires i < |before| && before[i] != after[i]
    ensures var k := (i - PAIR_REGION_OFFSET) / 8; 0 <= k < 377 && PairAt(before, k).key != PairAt(after, k).key
  {
    hide LittleEndian, Encoded;
    var k := (i - PAIR_REGION_OFFSET) / 8;
    var o := PAIR_REGION_OFFSET + 8 * k;
    assert before[o..o + 4][i - o] != after[o..o + 4][i - o];
    EncodeDecoded(false, before[o..o + 4]);
    EncodeDecoded(false, after[o..o + 4]);
  }

  lemma KeyByte(before: Bytes, after: Bytes, k: nat) returns (i: nat)
    requires |before| == |after| >= PAIR_REGION_END_HINT && k < 377 && PairAt(before, k).key != PairAt(after, k).key
    ensures i < |before| && before[i] != after[i] && InPairRegion(|before|, i) && !InValue(|before|, i)
  {
    hide LittleEndian;
    var o := PAIR_REGION_OFFSET + 8 * k;
    var b, a := before[o..o + 4], after[o..o + 4];
    assert b != a;
    var j :| 0 <= j < 4 && b[j] != a[j];
    i := o + j;
  }
}
