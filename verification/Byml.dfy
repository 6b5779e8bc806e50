/** The BYML reader: what it makes of the bytes of a document, and when those bytes are the
    layout of a document tree. */
module Byml {
  import opened Wrappers
  import opened Bits
  import opened ByteOrder

  /** Strings are the bytes of their text; floats their bit patterns. */
  datatype Tree =
    | Str(text: Bytes) | Binary(bytes: Bytes) | Array(items: seq<Tree>) | Dict(entries: seq<Entry>)
    | Bool(truth: bool) | S32(s32: int) | F32(f32: nat) | U32(u32: nat)
    | S64(s64: int) | U64(u64: nat) | F64(f64: nat) | Null

  datatype Entry = Entry(key: Bytes, value: Tree)

  /** A file whose header and string tables have been read. */
  datatype Doc = Doc(d: Bytes, big: bool, keys: seq<Bytes>, strings: seq<Bytes>, root: nat)

  // ---- Reading numbers ------------------------------------------------------------

  /** The `k` bytes at `o`, as `struct.unpack_from` takes them. */
  function ReadInt(d: Bytes, big: bool, o: nat, k: nat): Result<nat> {
    if o + k <= |d| then Ok(Decoded(big, d[o..o + k])) else Raised
  }

  /** Two's complement. */
  function Signed(n: nat, bits: nat): int {
    if 2 * n >= Pow2(bits) then n - Pow2(bits) else n
  }

  function ReadSigned(d: Bytes, big: bool, o: nat, k: nat): Result<int> {
    var n :- ReadInt(d, big, o, k);
    Ok(Signed(n, 8 * k))
  }

  function U8(d: Bytes, o: nat): Result<Byte> {
    if o < |d| then Ok(d[o]) else Raised
  }

  function U24(d: Bytes, big: bool, o: nat): Result<nat> {
    if o + 3 > |d| then Raised
    else if big then Ok(Or(Or(Shl(d[o], 16), Shl(d[o + 1], 8)), d[o + 2]))
    else Ok(Or(Or(d[o], Shl(d[o + 1], 8)), Shl(d[o + 2], 16)))
  }

  lemma U24IsInt(d: Bytes, big: bool, o: nat)
    ensures U24(d, big, o) == ReadInt(d, big, o, 3)
  {
    hide Or, BigEndian, LittleEndian;
    if o + 3 <= |d| {
      var b := d[o..o + 3];
      Assembled(d[o], d[o + 1], d[o + 2], 0);
      AssembledDown(d[o + 2], d[o + 1], d[o]);
      LittleEndianParts(b);
      BigEndianThree(b);
    }
  }

  function ReadU32(d: Bytes, big: bool, o: nat): Result<nat> {
    ReadInt(d, big, o, 4)
  }

  // ---- Tables and header ----------------------------------------------------------

  /** `bytes.index(0, o)` */
  function IndexOfZero(d: Bytes, o: nat): (r: Result<nat>)
    ensures r.Ok? ==> o <= r.value < |d| && d[r.value] == 0 && 0 !in d[o..r.value]
    decreases |d| - o
  {
    if o >= |d| then Raised
    else if d[o] == 0 then Ok(o)
    else
      var r := IndexOfZero(d, o + 1);
      assert r.Ok? ==> d[o..r.value] == [d[o]] + d[o + 1..r.value];
      r
  }

  /** The `i`-th string of the table at `off`. */
  function TableString(d: Bytes, big: bool, off: nat, i: nat): Result<Bytes> {
    var rel :- ReadU32(d, big, off + 4 + 4 * i);
    var eo :- IndexOfZero(d, off + rel);
    Ok(d[off + rel..eo])
  }

  function TableStrings(d: Bytes, big: bool, off: nat, n: nat): Result<seq<Bytes>> {
    if n == 0 then Ok([])
    else
      var init :- TableStrings(d, big, off, n - 1);
      var s :- TableString(d, big, off, n - 1);
      Ok(init + [s])
  }

  function StringTable(d: Bytes, big: bool, off: nat): Result<seq<Bytes>> {
    var tag :- U8(d, off);
    if tag != 0xC2 then Raised
    else
      var n :- U24(d, big, off + 1);
      TableStrings(d, big, off, n)
  }

  method ReadStringTable(d: Bytes, big: bool, off: nat) returns (r: Result<seq<Bytes>>)
    ensures r == StringTable(d, big, off)
  {
    hide U24, ReadInt, IndexOfZero;
    var tag :- U8(d, off);
    if tag != 0xC2 { return Raised; }
    var n :- U24(d, big, off + 1);
    var out := [];
    for i := 0 to n
      invariant TableStrings(d, big, off, i) == Ok(out)
    {
      var rel := ReadU32(d, big, off + 4 + 4 * i);
      var eo := if rel.Ok? then IndexOfZero(d, off + rel.value) else Raised;
      if eo.Raised? {
        TableFails(d, big, off, i, n);
        return Raised;
      }
      out := out + [d[off + rel.value..eo.value]];
    }
    return Ok(out);
  }

  lemma {:induction false} TableFails(d: Bytes, big: bool, off: nat, i: nat, n: nat)
    requires i < n && TableString(d, big, off, i).Raised?
    ensures TableStrings(d, big, off, n).Raised?
  {
    if i < n - 1 { TableFails(d, big, off, i, n - 1); }
  }

  function TableOrEmpty(d: Bytes, big: bool, off: nat): Result<seq<Bytes>> {
    if off == 0 then Ok([]) else StringTable(d, big, off)
  }

  /** `BY` and `YB` */
  const BIG_MAGIC: Bytes := [0x42, 0x59]
  const LITTLE_MAGIC: Bytes := [0x59, 0x42]

  /** The constructor. */
  function Open(d: Bytes): Result<Doc> {
    if |d| < 16 || (d[..2] != BIG_MAGIC && d[..2] != LITTLE_MAGIC) then Raised
    else
      var big := d[..2] == BIG_MAGIC;
      var hashOff :- ReadU32(d, big, 4);
      var strOff :- ReadU32(d, big, 8);
      var root :- ReadU32(d, big, 12);
      var keys :- TableOrEmpty(d, big, hashOff);
      var strings :- TableOrEmpty(d, big, strOff);
      Ok(Doc(d, big, keys, strings, root))
  }

  // ---- Values and nodes -----------------------------------------------------------

  /** `out[key] = value` on a dict, which keeps the place of a key it has. */
  function Put(out: seq<Entry>, e: Entry): seq<Entry> {
    if out == [] then [e]
    else if out[0].key == e.key then [e] + out[1..]
    else [out[0]] + Put(out[1..], e)
  }

  /** The value found under a key. */
  function Find(out: seq<Entry>, key: Bytes): Option<Tree> {
    if out == [] then None else if out[0].key == key then Some(out[0].value) else Find(out[1..], key)
  }

  /** Afterwards the key has the new value, every other key the old one, and the dict is longer only by
      a key it did not have. */
  lemma {:induction false} PutFinds(out: seq<Entry>, e: Entry, key: Bytes)
    ensures Find(Put(out, e), key) == if key == e.key then Some(e.value) else Find(out, key)
    ensures |Put(out, e)| == |out| + if Find(out, e.key).Some? then 0 else 1
  {
    if out != [] {
      PutFinds(out[1..], e, key);
      var more := Put(out[1..], e);
      assert ([out[0]] + more)[1..] == more && ([e] + out[1..])[1..] == out[1..];
    } else {
      assert [e][1..] == [];
    }
  }

  /** An inline value of type `t` at `off`; `depth` bounds the nesting, as the interpreter does. */
  function Value(x: Doc, off: nat, t: Byte, depth: nat): Result<Tree>
    decreases depth, 1, 0
  {
    if t == 0xA0 then
      var i :- ReadU32(x.d, x.big, off);
      if i < |x.strings| then Ok(Str(x.strings[i])) else Raised
    else if t == 0xD0 then
      var n :- ReadU32(x.d, x.big, off);
      Ok(Bool(n != 0))
    else if t == 0xD1 then
      var n :- ReadSigned(x.d, x.big, off, 4);
      Ok(S32(n))
    else if t == 0xD2 then
      var n :- ReadU32(x.d, x.big, off);
      Ok(F32(n))
    else if t == 0xD3 then
      var n :- ReadU32(x.d, x.big, off);
      Ok(U32(n))
    else if t in {0xC0, 0xC1, 0xA1} then
      var o :- ReadU32(x.d, x.big, off);
      if depth == 0 then Raised else Container(x, o, t, depth - 1)
    else if t == 0xD4 then
      var o :- ReadU32(x.d, x.big, off);
      var n :- ReadSigned(x.d, x.big, o, 8);
      Ok(S64(n))
    else if t == 0xD5 then
      var o :- ReadU32(x.d, x.big, off);
      var n :- ReadInt(x.d, x.big, o, 8);
      Ok(U64(n))
    else if t == 0xD6 then
      var o :- ReadU32(x.d, x.big, off);
      var n :- ReadInt(x.d, x.big, o, 8);
      Ok(F64(n))
    else if t == 0xFF then Ok(Null)
    else Raised
  }

  /** The cells of an array begin where its types, padded to a multiple of four, end. */
  function CellsAt(off: nat, n: nat): nat {
    off + 4 + (n + 3) / 4 * 4
  }

  /** The first `n` items of the array at `off`. */
  function Items(x: Doc, off: nat, count: nat, n: nat, depth: nat): Result<seq<Tree>>
    decreases depth, 2, n
  {
    if n == 0 then Ok([])
    else
      var init :- Items(x, off, count, n - 1, depth);
      var t :- U8(x.d, off + 4 + n - 1);
      var v :- Value(x, CellsAt(off, count) + 4 * (n - 1), t, depth);
      Ok(init + [v])
  }

  /** The `i`-th entry of the dict at `off`. */
  function DictEntry(x: Doc, off: nat, i: nat, depth: nat): Result<Entry>
    decreases depth, 2, 0
  {
    var eo := off + 4 + 8 * i;
    var k :- U24(x.d, x.big, eo);
    if k >= |x.keys| then Raised
    else
      var t :- U8(x.d, eo + 3);
      var v :- Value(x, eo + 4, t, depth);
      Ok(Entry(x.keys[k], v))
  }

  /** The dict after the first `n` entries. */
  function Entries(x: Doc, off: nat, n: nat, depth: nat): Result<seq<Entry>>
    decreases depth, 3, n
  {
    if n == 0 then Ok([])
    else
      var out :- Entries(x, off, n - 1, depth);
      var e :- DictEntry(x, off, n - 1, depth);
      Ok(Put(out, e))
  }

  /** `data[off:off + n]`: a slice stops at the end of the data without complaint. */
  function Slice(d: Bytes, off: nat, n: nat): Bytes {
    if off >= |d| then [] else if off + n > |d| then d[off..] else d[off..off + n]
  }

  /** `_node` for a container. */
  function Container(x: Doc, off: nat, t: Byte, depth: nat): Result<Tree>
    decreases depth, 4, 0
  {
    if t == 0xC0 then
      var n :- U24(x.d, x.big, off + 1);
      var items :- Items(x, off, n, n, depth);
      Ok(Array(items))
    else if t == 0xC1 then
      var n :- U24(x.d, x.big, off + 1);
      var entries :- Entries(x, off, n, depth);
      Ok(Dict(entries))
    else
      var n :- ReadU32(x.d, x.big, off);
      Ok(Binary(Slice(x.d, off + 4, n)))
  }

  function Parse(x: Doc, depth: nat): Result<Tree> {
    var t :- U8(x.d, x.root);
    if t in {0xC0, 0xC1, 0xA1} then Container(x, x.root, t, depth) else Value(x, x.root, t, depth)
  }

  /** The dict branch as it runs. */
  method ReadDict(x: Doc, off: nat, depth: nat) returns (r: Result<Tree>)
    ensures r == Container(x, off, 0xC1, depth)
  {
    hide Or, Decoded, Value;
    var n :- U24(x.d, x.big, off + 1);
    var out: seq<Entry> := [];
    for i := 0 to n
      invariant Entries(x, off, i, depth) == Ok(out)
    {
      var eo := off + 4 + 8 * i;
      var k := U24(x.d, x.big, eo);
      var t := U8(x.d, eo + 3);
      var v := if t.Ok? then Value(x, eo + 4, t.value, depth) else Raised;
      if k.Raised? || k.value >= |x.keys| || v.Raised? {
        EntriesFail(x, off, i, n, depth);
        return Raised;
      }
      out := Put(out, Entry(x.keys[k.value], v.value));
    }
    return Ok(Dict(out));
  }

  lemma {:induction false} EntriesFail(x: Doc, off: nat, i: nat, n: nat, depth: nat)
    requires i < n && DictEntry(x, off, i, depth).Raised?
    ensures Entries(x, off, n, depth).Raised?
  {
    hide DictEntry, Put;
    if i < n - 1 { EntriesFail(x, off, i, n - 1, depth); }
  }

  // ---- The layout of a tree -------------------------------------------------------

  /** The `k` bytes at `o` are the number `n`. */
  ghost predicate IntAt(d: Bytes, big: bool, o: nat, k: nat, n: nat) {
    o + k <= |d| && n < Pow2(8 * k) && d[o..o + k] == Encoded(big, n, k)
  }

  lemma IntAtIff(d: Bytes, big: bool, o: nat, k: nat, n: nat)
    ensures IntAt(d, big, o, k, n) <==> ReadInt(d, big, o, k) == Ok(n)
  {
    hide Pow2, Decoded;
    if o + k <= |d| {
      EncodeDecoded(big, d[o..o + k]);
      if n < Pow2(8 * k) { DecodeEncoded(big, n, k); }
    }
  }

  /** A signed number in `k` bytes of two's complement. */
  ghost predicate SignedAt(d: Bytes, big: bool, o: nat, k: nat, n: int) {
    && 0 <= 2 * n + Pow2(8 * k) && 2 * n < Pow2(8 * k)
    && IntAt(d, big, o, k, if n < 0 then n + Pow2(8 * k) else n)
  }

  lemma SignedAtIff(d: Bytes, big: bool, o: nat, k: nat, n: int)
    requires k > 0
    ensures SignedAt(d, big, o, k, n) <==> ReadSigned(d, big, o, k) == Ok(n)
  {
    hide Decoded, Pow2;
    var p := Pow2(8 * k);
    var r := ReadInt(d, big, o, k);
    if r.Ok? { IntAtIff(d, big, o, k, r.value); }
    if -p <= 2 * n < p { IntAtIff(d, big, o, k, if n < 0 then n + p else n); }
  }

  ghost predicate StringAt(d: Bytes, o: nat, s: Bytes) {
    o + |s| < |d| && d[o..o + |s|] == s && 0 !in s && d[o + |s|] == 0
  }

  lemma StringAtIff(d: Bytes, o: nat, s: Bytes)
    ensures StringAt(d, o, s) <==> IndexOfZero(d, o) == Ok(o + |s|) && d[o..o + |s|] == s
  {
    var r := IndexOfZero(d, o);
    if r.Raised? {
      NoZero(d, o);
    } else if StringAt(d, o, s) {
      var text := d[o..r.value];
      assert forall j :: o <= j < o + |s| ==> d[j] == s[j - o];
      assert forall j :: o <= j < r.value ==> d[j] == text[j - o];
    }
  }

  lemma {:induction false} NoZero(d: Bytes, o: nat)
    requires IndexOfZero(d, o).Raised?
    ensures forall i :: o <= i < |d| ==> d[i] != 0
    decreases |d| - o
  {
    if o < |d| { NoZero(d, o + 1); }
  }

  /** A table: its tag, its count, and for each string the offset from the table to its text. */
  ghost predicate TableAt(d: Bytes, big: bool, off: nat, strings: seq<Bytes>) {
    && off < |d| && d[off] == 0xC2 && IntAt(d, big, off + 1, 3, |strings|)
    && forall i :: 0 <= i < |strings| ==> TableStringAt(d, big, off, i, strings[i])
  }

  ghost predicate TableStringAt(d: Bytes, big: bool, off: nat, i: nat, s: Bytes) {
    exists rel :: StringAtOffset(d, big, off, i, rel, s)
  }

  ghost predicate StringAtOffset(d: Bytes, big: bool, off: nat, i: nat, rel: nat, s: Bytes) {
    IntAt(d, big, off + 4 + 4 * i, 4, rel) && StringAt(d, off + rel, s)
  }

  lemma TableStringIff(d: Bytes, big: bool, off: nat, i: nat, s: Bytes)
    ensures TableStringAt(d, big, off, i, s) <==> TableString(d, big, off, i) == Ok(s)
  {
    hide ReadInt, IndexOfZero, IntAt, StringAt;
    if TableStringAt(d, big, off, i, s) {
      var rel :| StringAtOffset(d, big, off, i, rel, s);
      IntAtIff(d, big, off + 4 + 4 * i, 4, rel);
      StringAtIff(d, off + rel, s);
    }
    if TableString(d, big, off, i) == Ok(s) {
      var rel := ReadU32(d, big, off + 4 + 4 * i).value;
      IntAtIff(d, big, off + 4 + 4 * i, 4, rel);
      StringAtIff(d, off + rel, s);
      assert StringAtOffset(d, big, off, i, rel, s);
    }
  }

  lemma {:induction false} TableStringsIff(d: Bytes, big: bool, off: nat, strings: seq<Bytes>)
    ensures (forall i :: 0 <= i < |strings| ==> TableStringAt(d, big, off, i, strings[i]))
       <==> TableStrings(d, big, off, |strings|) == Ok(strings)
  {
    hide TableString, TableStringAt;
    if strings != [] {
      var n := |strings| - 1;
      TableStringsIff(d, big, off, strings[..n]);
      TableStringIff(d, big, off, n, strings[n]);
      assert strings == strings[..n] + [strings[n]];
    }
  }

  lemma {:induction false} TableLength(d: Bytes, big: bool, off: nat, n: nat)
    ensures TableStrings(d, big, off, n).Ok? ==> |TableStrings(d, big, off, n).value| == n
  {
    hide TableString;
    if n > 0 { TableLength(d, big, off, n - 1); }
  }

  /** The reader returns just the strings that are laid out as a table. */
  lemma TableIff(d: Bytes, big: bool, off: nat, strings: seq<Bytes>)
    ensures TableAt(d, big, off, strings) <==> StringTable(d, big, off) == Ok(strings)
  {
    hide U24, IntAt, ReadInt, TableStrings, TableStringAt;
    U24IsInt(d, big, off + 1);
    IntAtIff(d, big, off + 1, 3, |strings|);
    TableStringsIff(d, big, off, strings);
    var n := U24(d, big, off + 1);
    if n.Ok? { TableLength(d, big, off, n.value); }
  }

  ghost predicate TableOrEmptyAt(d: Bytes, big: bool, off: nat, strings: seq<Bytes>) {
    if off == 0 then strings == [] else TableAt(d, big, off, strings)
  }

  ghost predicate HeaderAt(d: Bytes, x: Doc, hashOff: nat, strOff: nat) {
    && IntAt(d, x.big, 4, 4, hashOff) && IntAt(d, x.big, 8, 4, strOff) && IntAt(d, x.big, 12, 4, x.root)
    && TableOrEmptyAt(d, x.big, hashOff, x.keys) && TableOrEmptyAt(d, x.big, strOff, x.strings)
  }

  /** A file: the magic of its byte order, the three offsets, and the two tables. */
  ghost predicate FileAt(d: Bytes, x: Doc) {
    && |d| >= 16 && x.d == d
    && (if x.big then d[0] == 0x42 && d[1] == 0x59 else d[0] == 0x59 && d[1] == 0x42)
    && exists hashOff, strOff :: HeaderAt(d, x, hashOff, strOff)
  }

  /** The constructor accepts just the files laid out so, and reads them as they are. */
  lemma OpenIff(d: Bytes, x: Doc)
    ensures FileAt(d, x) <==> Open(d) == Ok(x)
  {
    hide ReadInt, IntAt, TableAt, StringTable;
    if FileAt(d, x) {
      var hashOff, strOff :| HeaderAt(d, x, hashOff, strOff);
      HeaderReads(d, x, hashOff, strOff);
      assert x.big ==> d[..2] == BIG_MAGIC;
      assert !x.big ==> d[..2] == LITTLE_MAGIC && d[..2][0] != BIG_MAGIC[0];
    }
    if Open(d) == Ok(x) {
      var hashOff, strOff := ReadU32(d, x.big, 4).value, ReadU32(d, x.big, 8).value;
      HeaderReads(d, x, hashOff, strOff);
      assert HeaderAt(d, x, hashOff, strOff);
      assert d[0] == d[..2][0] && d[1] == d[..2][1];
    }
  }

  /** `BY` is big-endian and `YB` little-endian, and nothing else is accepted. */
  lemma ByteOrderOf(d: Bytes)
    requires Open(d).Ok?
    ensures Open(d).value.big ==> d[0] == 'B' as int && d[1] == 'Y' as int
    ensures !Open(d).value.big ==> d[0] == 'Y' as int && d[1] == 'B' as int
  {
    OpenIff(d, Open(d).value);
  }

  /** A little-endian file that holds an empty dict. */
  const EMPTY_DICT: Bytes := [0x59, 0x42, 7, 0, 0, 0, 0, 0, 0, 0, 0, 0, 0x10, 0, 0, 0, 0xC1, 0, 0, 0]

  lemma EmptyDictOpens()
    ensures Open(EMPTY_DICT) == Ok(Doc(EMPTY_DICT, false, [], [], 16))
  {
    hide ReadInt;
    var d := EMPTY_DICT;
    FourBytes(d, 4, 0);
    FourBytes(d, 8, 0);
    FourBytes(d, 12, 16);
    assert d[..2] == LITTLE_MAGIC && d[..2][0] != BIG_MAGIC[0];
  }

  lemma EmptyDictReads(depth: nat)
    ensures Open(EMPTY_DICT).Ok? && Parse(Open(EMPTY_DICT).value, depth) == Ok(Dict([]))
  {
    EmptyDictOpens();
    hide Open, ReadInt, Value, Items;
    var d := EMPTY_DICT;
    U24IsInt(d, false, 17);
    ThreeBytes(d, 17);
    hide U24;
    var x := Doc(d, false, [], [], 16);
    assert Entries(x, 16, 0, depth) == Ok([]);
    assert Container(x, 16, 0xC1, depth) == Ok(Dict([]));
    assert U8(d, 16) == Ok(0xC1);
  }

  lemma ThreeBytes(d: Bytes, o: nat)
    requires o + 3 <= |d| && d[o] == d[o + 1] == d[o + 2] == 0
    ensures ReadInt(d, false, o, 3) == Ok(0)
  {
    LittleEndianParts(d[o..o + 3]);
  }

  lemma FourBytes(d: Bytes, o: nat, n: Byte)
    requires o + 4 <= |d| && d[o] == n && d[o + 1] == d[o + 2] == d[o + 3] == 0
    ensures ReadU32(d, false, o) == Ok(n)
  {
    LittleEndianParts(d[o..o + 4]);
  }

  lemma HeaderReads(d: Bytes, x: Doc, hashOff: nat, strOff: nat)
    ensures HeaderAt(d, x, hashOff, strOff)
       <==> && ReadU32(d, x.big, 4) == Ok(hashOff) && ReadU32(d, x.big, 8) == Ok(strOff)
            && ReadU32(d, x.big, 12) == Ok(x.root)
            && TableOrEmpty(d, x.big, hashOff) == Ok(x.keys) && TableOrEmpty(d, x.big, strOff) == Ok(x.strings)
  {
    hide ReadInt, IntAt, TableAt, StringTable;
    IntAtIff(d, x.big, 4, 4, hashOff);
    IntAtIff(d, x.big, 8, 4, strOff);
    IntAtIff(d, x.big, 12, 4, x.root);
    TableIff(d, x.big, hashOff, x.keys);
    TableIff(d, x.big, strOff, x.strings);
  }

  /** A number of bytes padded to a multiple of four. */
  function Padded(n: nat): (p: nat)
    ensures n <= p < n + 4 && p % 4 == 0
  {
    n + (4 - n % 4) % 4
  }

  /** The cell at `off` holds the value `v`, whose type byte is `t`. */
  ghost predicate ValueAt(x: Doc, off: nat, t: Byte, v: Tree)
    decreases v, 1
  {
    match v
    case Str(s) => t == 0xA0 && exists i: nat :: IntAt(x.d, x.big, off, 4, i) && i < |x.strings| && x.strings[i] == s
    case Bool(b) => t == 0xD0 && exists n :: IntAt(x.d, x.big, off, 4, n) && (b <==> n != 0)
    case S32(n) => t == 0xD1 && SignedAt(x.d, x.big, off, 4, n)
    case F32(n) => t == 0xD2 && IntAt(x.d, x.big, off, 4, n)
    case U32(n) => t == 0xD3 && IntAt(x.d, x.big, off, 4, n)
    case S64(n) => t == 0xD4 && exists o :: IntAt(x.d, x.big, off, 4, o) && SignedAt(x.d, x.big, o, 8, n)
    case U64(n) => t == 0xD5 && exists o :: IntAt(x.d, x.big, off, 4, o) && IntAt(x.d, x.big, o, 8, n)
    case F64(n) => t == 0xD6 && exists o :: IntAt(x.d, x.big, off, 4, o) && IntAt(x.d, x.big, o, 8, n)
    case Null => t == 0xFF
    case _ => t == ContainerTag(v) && exists o :: IntAt(x.d, x.big, off, 4, o) && NodeAt(x, o, v)
  }

  predicate IsContainer(v: Tree) {
    v.Array? || v.Dict? || v.Binary?
  }

  function ContainerTag(v: Tree): Byte
    requires IsContainer(v)
  {
    if v.Array? then 0xC0 else if v.Dict? then 0xC1 else 0xA1
  }

  /** The container `v` is laid out at `off`: an array as its count, the type bytes padded to four
      and the cells; a dict as its count and eight bytes an entry; a binary as its length and bytes,
      or as many of them as the file has left. */
  ghost predicate NodeAt(x: Doc, off: nat, v: Tree)
    requires IsContainer(v)
    decreases v, 0
  {
    match v
    case Array(items) =>
      && IntAt(x.d, x.big, off + 1, 3, |items|)
      && forall i :: 0 <= i < |items| ==> ItemAt(x, off, |items|, i, items[i])
    case Dict(entries) =>
      && IntAt(x.d, x.big, off + 1, 3, |entries|)
      && forall i :: 0 <= i < |entries| ==> EntryAt(x, off, i, entries[i])
    case Binary(b) =>
      exists n :: IntAt(x.d, x.big, off, 4, n) && BytesAt(x.d, off + 4, b, n)
  }

  /** Item `i` of the array of `n` items at `off`: its type byte, and its cell after the padding. */
  ghost predicate ItemAt(x: Doc, off: nat, n: nat, i: nat, v: Tree)
    decreases v, 2
  {
    off + 4 + i < |x.d| && ValueAt(x, off + 4 + Padded(n) + 4 * i, x.d[off + 4 + i], v)
  }

  /** Entry `i` of the dict at `off`: a key index, a type byte and a cell. */
  ghost predicate EntryAt(x: Doc, off: nat, i: nat, e: Entry)
    decreases e, 2
  {
    var eo := off + 4 + 8 * i;
    KeyAt(x, eo, e.key) && ValueAt(x, eo + 4, x.d[eo + 3], e.value)
  }

  ghost predicate KeyAt(x: Doc, o: nat, key: Bytes) {
    o + 3 < |x.d| && exists k: nat :: IntAt(x.d, x.big, o, 3, k) && k < |x.keys| && x.keys[k] == key
  }

  /** `b` is the `n` bytes at `o`, or those up to the end of the file. */
  predicate BytesAt(d: Bytes, o: nat, b: Bytes, n: nat) {
    if o + n <= |d| then b == d[o..o + n] else b == if o <= |d| then d[o..] else []
  }

  // ---- What is read from a layout -------------------------------------------------

  /** The tree as the reader hands it back: entries with the same key have been put into one. */
  function Loaded(v: Tree): Tree
    decreases v, 0
  {
    match v
    case Array(items) => Array(LoadedItems(items))
    case Dict(entries) => Dict(LoadedEntries(entries))
    case _ => v
  }

  function LoadedItems(items: seq<Tree>): (r: seq<Tree>)
    ensures |r| == |items|
    decreases items, 1
  {
    if items == [] then [] else LoadedItems(items[..|items| - 1]) + [Loaded(items[|items| - 1])]
  }

  function LoadedEntries(entries: seq<Entry>): seq<Entry>
    decreases entries, 1
  {
    if entries == [] then []
    else
      var last := entries[|entries| - 1];
      Put(LoadedEntries(entries[..|entries| - 1]), Entry(last.key, Loaded(last.value)))
  }

  function Max(a: nat, b: nat): nat {
    if a < b then b else a
  }

  /** How deep containers are nested. */
  function Depth(v: Tree): nat
    decreases v, 0
  {
    match v
    case Array(items) => 1 + DepthOfItems(items)
    case Dict(entries) => 1 + DepthOfEntries(entries)
    case Binary(_) => 1
    case _ => 0
  }

  function DepthOfItems(items: seq<Tree>): nat
    decreases items, 1
  {
    if items == [] then 0 else Max(DepthOfItems(items[..|items| - 1]), Depth(items[|items| - 1]))
  }

  function DepthOfEntries(entries: seq<Entry>): nat
    decreases entries, 1
  {
    if entries == [] then 0
    else Max(DepthOfEntries(entries[..|entries| - 1]), Depth(entries[|entries| - 1].value))
  }

  /** A laid-out value is read as what it is, if the nesting is within bounds. */
  lemma {:induction false} ValueReads(x: Doc, off: nat, t: Byte, v: Tree, depth: nat)
    requires ValueAt(x, off, t, v) && Depth(v) <= depth
    ensures Value(x, off, t, depth) == Ok(Loaded(v))
    decreases v, 1
  {
    hide Value, ValueAt, Loaded, Depth;
    if IsContainer(v) {
      ContainerHasDepth(v);
      var o := ContainerCell(x, off, t, v, depth);
      NodeReads(x, o, v, depth - 1);
    } else {
      ScalarReads(x, off, t, v, depth);
    }
  }

  lemma ContainerCell(x: Doc, off: nat, t: Byte, v: Tree, depth: nat) returns (o: nat)
    requires IsContainer(v) && ValueAt(x, off, t, v) && depth > 0
    ensures NodeAt(x, o, v) && Value(x, off, t, depth) == Container(x, o, ContainerTag(v), depth - 1)
  {
    hide IntAt, SignedAt, ReadInt, Signed, NodeAt, Container;
    o :| IntAt(x.d, x.big, off, 4, o) && NodeAt(x, o, v);
    IntAtIff(x.d, x.big, off, 4, o);
  }

  lemma ContainerHasDepth(v: Tree)
    requires IsContainer(v)
    ensures Depth(v) > 0
  {
  }

  lemma ScalarReads(x: Doc, off: nat, t: Byte, v: Tree, depth: nat)
    requires !IsContainer(v) && ValueAt(x, off, t, v)
    ensures Value(x, off, t, depth) == Ok(v) && Loaded(v) == v && t !in {0xC0, 0xC1, 0xA1}
  {
    hide IntAt, SignedAt, ReadInt, Signed;
    match v
    case Str(s) =>
      var i: nat :| IntAt(x.d, x.big, off, 4, i) && i < |x.strings| && x.strings[i] == s;
      IntAtIff(x.d, x.big, off, 4, i);
    case Bool(b) =>
      var n :| IntAt(x.d, x.big, off, 4, n) && (b <==> n != 0);
      IntAtIff(x.d, x.big, off, 4, n);
    case S32(n) => SignedAtIff(x.d, x.big, off, 4, n);
    case F32(n) => IntAtIff(x.d, x.big, off, 4, n);
    case U32(n) => IntAtIff(x.d, x.big, off, 4, n);
    case S64(n) =>
      var o :| IntAt(x.d, x.big, off, 4, o) && SignedAt(x.d, x.big, o, 8, n);
      IntAtIff(x.d, x.big, off, 4, o);
      SignedAtIff(x.d, x.big, o, 8, n);
    case U64(n) =>
      var o :| IntAt(x.d, x.big, off, 4, o) && IntAt(x.d, x.big, o, 8, n);
      IntAtIff(x.d, x.big, off, 4, o);
      IntAtIff(x.d, x.big, o, 8, n);
    case F64(n) =>
      var o :| IntAt(x.d, x.big, off, 4, o) && IntAt(x.d, x.big, o, 8, n);
      IntAtIff(x.d, x.big, off, 4, o);
      IntAtIff(x.d, x.big, o, 8, n);
    case Null =>
  }

  lemma {:induction false} NodeReads(x: Doc, off: nat, v: Tree, depth: nat)
    requires IsContainer(v) && NodeAt(x, off, v) && Depth(v) <= depth + 1
    ensures Container(x, off, ContainerTag(v), depth) == Ok(Loaded(v))
    decreases v, 0
  {
    hide IntAt, ReadInt, U24;
    U24IsInt(x.d, x.big, off + 1);
    match v
    case Array(items) =>
      IntAtIff(x.d, x.big, off + 1, 3, |items|);
      assert items[..|items|] == items;
      ItemsRead(x, off, v, |items|, depth);
    case Dict(entries) =>
      IntAtIff(x.d, x.big, off + 1, 3, |entries|);
      assert entries[..|entries|] == entries;
      EntriesRead(x, off, v, |entries|, depth);
    case Binary(b) =>
      var n :| IntAt(x.d, x.big, off, 4, n) && BytesAt(x.d, off + 4, b, n);
      IntAtIff(x.d, x.big, off, 4, n);
  }

  lemma ItemCell(x: Doc, off: nat, v: Tree, i: nat)
    requires v.Array? && i < |v.items| && NodeAt(x, off, v)
    ensures off + 4 + i < |x.d| && ValueAt(x, CellsAt(off, |v.items|) + 4 * i, x.d[off + 4 + i], v.items[i])
  {
    hide ValueAt, IntAt;
    assert ItemAt(x, off, |v.items|, i, v.items[i]);
    assert CellsAt(off, |v.items|) == off + 4 + Padded(|v.items|);
  }

  lemma {:induction false} ItemsRead(x: Doc, off: nat, v: Tree, n: nat, depth: nat)
    requires v.Array? && n <= |v.items| && NodeAt(x, off, v) && DepthOfItems(v.items[..n]) <= depth
    ensures Items(x, off, |v.items|, n, depth) == Ok(LoadedItems(v.items[..n]))
    decreases v, 0, n
  {
    hide ValueAt, NodeAt, Value, Loaded, Depth, CellsAt;
    if n > 0 {
      assert v.items[..n][..n - 1] == v.items[..n - 1];
      ItemsRead(x, off, v, n - 1, depth);
      ItemCell(x, off, v, n - 1);
      ValueReads(x, CellsAt(off, |v.items|) + 4 * (n - 1), x.d[off + 4 + n - 1], v.items[n - 1], depth);
    }
  }

  lemma EntryCell(x: Doc, off: nat, v: Tree, i: nat)
    requires v.Dict? && i < |v.entries| && NodeAt(x, off, v)
    ensures EntryAt(x, off, i, v.entries[i]) && off + 4 + 8 * i + 3 < |x.d|
  {
    hide ValueAt, IntAt;
    assert EntryAt(x, off, i, v.entries[i]);
  }

  lemma {:induction false} EntriesRead(x: Doc, off: nat, v: Tree, n: nat, depth: nat)
    requires v.Dict? && n <= |v.entries| && NodeAt(x, off, v) && DepthOfEntries(v.entries[..n]) <= depth
    ensures Entries(x, off, n, depth) == Ok(LoadedEntries(v.entries[..n]))
    decreases v, 0, n
  {
    hide ValueAt, NodeAt, Value, U24, Put, Loaded, Depth, KeyAt;
    if n > 0 {
      assert v.entries[..n][..n - 1] == v.entries[..n - 1];
      EntriesRead(x, off, v, n - 1, depth);
      var eo, last := off + 4 + 8 * (n - 1), v.entries[n - 1];
      EntryCell(x, off, v, n - 1);
      KeyReads(x, eo, last.key);
      ValueReads(x, eo + 4, x.d[eo + 3], last.value, depth);
    }
  }

  lemma KeyReads(x: Doc, o: nat, key: Bytes)
    requires KeyAt(x, o, key)
    ensures U24(x.d, x.big, o).Ok? && U24(x.d, x.big, o).value < |x.keys| && x.keys[U24(x.d, x.big, o).value] == key
  {
    hide IntAt, U24, ReadInt;
    var k: nat :| IntAt(x.d, x.big, o, 3, k) && k < |x.keys| && x.keys[k] == key;
    U24IsInt(x.d, x.big, o);
    IntAtIff(x.d, x.big, o, 3, k);
  }

  // ---- Everything that is read was laid out ---------------------------------------

  lemma ValueIsLaidOut(x: Doc, off: nat, t: Byte, depth: nat) returns (v: Tree)
    requires Value(x, off, t, depth).Ok?
    ensures ValueAt(x, off, t, v) && Depth(v) <= depth && Value(x, off, t, depth) == Ok(Loaded(v))
    decreases depth, 1, 0
  {
    hide IntAt, SignedAt, ReadInt, Signed;
    if t in {0xC0, 0xC1, 0xA1} {
      var o := ReadU32(x.d, x.big, off).value;
      IntAtIff(x.d, x.big, off, 4, o);
      v := NodeIsLaidOut(x, o, t, depth - 1);
    } else {
      v := Value(x, off, t, depth).value;
      ScalarIsLaidOut(x, off, t, depth);
    }
  }

  lemma ScalarIsLaidOut(x: Doc, off: nat, t: Byte, depth: nat)
    requires t !in {0xC0, 0xC1, 0xA1} && Value(x, off, t, depth).Ok?
    ensures var v := Value(x, off, t, depth).value; !IsContainer(v) && ValueAt(x, off, t, v) && Loaded(v) == v && Depth(v) == 0
  {
    hide IntAt, SignedAt, ReadInt, Signed;
    var n := ReadU32(x.d, x.big, off);
    if n.Ok? { IntAtIff(x.d, x.big, off, 4, n.value); }
    match Value(x, off, t, depth).value
    case S32(k) => SignedAtIff(x.d, x.big, off, 4, k);
    case S64(k) => SignedAtIff(x.d, x.big, n.value, 8, k);
    case U64(k) => IntAtIff(x.d, x.big, n.value, 8, k);
    case F64(k) => IntAtIff(x.d, x.big, n.value, 8, k);
    case _ =>
  }

  lemma NodeIsLaidOut(x: Doc, off: nat, t: Byte, depth: nat) returns (v: Tree)
    requires t in {0xC0, 0xC1, 0xA1} && Container(x, off, t, depth).Ok?
    ensures IsContainer(v) && ContainerTag(v) == t && NodeAt(x, off, v) && Depth(v) <= depth + 1
    ensures Container(x, off, t, depth) == Ok(Loaded(v))
    decreases depth, 4, 0
  {
    hide IntAt, ReadInt, U24;
    U24IsInt(x.d, x.big, off + 1);
    if t == 0xA1 {
      var n := ReadU32(x.d, x.big, off).value;
      IntAtIff(x.d, x.big, off, 4, n);
      v := Binary(Slice(x.d, off + 4, n));
      assert BytesAt(x.d, off + 4, v.bytes, n);
    } else {
      var n := U24(x.d, x.big, off + 1).value;
      IntAtIff(x.d, x.big, off + 1, 3, n);
      if t == 0xC0 {
        var items := ItemsAreLaidOut(x, off, n, n, depth);
        v := Array(items);
      } else {
        var entries := EntriesAreLaidOut(x, off, n, depth);
        v := Dict(entries);
      }
    }
  }

  lemma ItemsAreLaidOut(x: Doc, off: nat, count: nat, n: nat, depth: nat) returns (items: seq<Tree>)
    requires Items(x, off, count, n, depth).Ok?
    ensures |items| == n && DepthOfItems(items) <= depth && Items(x, off, count, n, depth) == Ok(LoadedItems(items))
    ensures forall i :: 0 <= i < n ==> ItemAt(x, off, count, i, items[i])
    decreases depth, 2, n
  {
    hide Value, ValueAt;
    items := [];
    if n > 0 {
      var init := ItemsAreLaidOut(x, off, count, n - 1, depth);
      assert CellsAt(off, count) == off + 4 + Padded(count);
      var last := ValueIsLaidOut(x, CellsAt(off, count) + 4 * (n - 1), x.d[off + 4 + n - 1], depth);
      items := init + [last];
      assert items[..n - 1] == init;
    }
  }

  lemma EntriesAreLaidOut(x: Doc, off: nat, n: nat, depth: nat) returns (entries: seq<Entry>)
    requires Entries(x, off, n, depth).Ok?
    ensures |entries| == n && DepthOfEntries(entries) <= depth && Entries(x, off, n, depth) == Ok(LoadedEntries(entries))
    ensures forall i :: 0 <= i < n ==> EntryAt(x, off, i, entries[i])
    decreases depth, 3, n
  {
    hide Value, ValueAt, IntAt, U24, ReadInt, Put;
    entries := [];
    if n > 0 {
      var init := EntriesAreLaidOut(x, off, n - 1, depth);
      var eo := off + 4 + 8 * (n - 1);
      var k := U24(x.d, x.big, eo).value;
      U24IsInt(x.d, x.big, eo);
      IntAtIff(x.d, x.big, eo, 3, k);
      var last := ValueIsLaidOut(x, eo + 4, x.d[eo + 3], depth);
      entries := init + [Entry(x.keys[k], last)];
      assert entries[..n - 1] == init && KeyAt(x, eo, x.keys[k]);
    }
  }

  /** A document: its root is a container of the tree, under that container's tag; or the first byte
      of a scalar's own four is its type. */
  ghost predicate DocumentAt(x: Doc, v: Tree) {
    && x.root < |x.d|
    && if IsContainer(v) then x.d[x.root] == ContainerTag(v) && NodeAt(x, x.root, v)
       else ValueAt(x, x.root, x.d[x.root], v)
  }

  /** `parse` returns a value exactly when the bytes are the layout of a tree, nested no deeper than
      the interpreter allows, that loads as that value. */
  lemma ParseIff(x: Doc, depth: nat, r: Tree)
    ensures Parse(x, depth) == Ok(r) <==> exists v :: DocumentAt(x, v) && Depth(v) <= depth + 1 && Loaded(v) == r
  {
    hide Container, Value, NodeAt, ValueAt, Loaded, Depth;
    if v :| DocumentAt(x, v) && Depth(v) <= depth + 1 && Loaded(v) == r {
      if IsContainer(v) {
        NodeReads(x, x.root, v, depth);
      } else {
        ScalarReads(x, x.root, x.d[x.root], v, depth);
      }
    }
    if Parse(x, depth) == Ok(r) {
      var t := x.d[x.root];
      if t in {0xC0, 0xC1, 0xA1} {
        var v := NodeIsLaidOut(x, x.root, t, depth);
        assert DocumentAt(x, v);
      } else {
        ScalarIsLaidOut(x, x.root, t, depth);
        assert DocumentAt(x, r);
      }
    }
  }

  // ---- Distinct keys --------------------------------------------------------------

  ghost predicate DistinctKeys(v: Tree)
    decreases v
  {
    match v
    case Array(items) => forall i :: 0 <= i < |items| ==> DistinctKeys(items[i])
    case Dict(entries) =>
      && (forall i, j :: 0 <= i < j < |entries| ==> entries[i].key != entries[j].key)
      && forall i :: 0 <= i < |entries| ==> DistinctKeys(entries[i].value)
    case _ => true
  }

  /** A tree without repeated keys is read back as it is. */
  lemma {:induction false} DistinctKeysLoad(v: Tree)
    requires DistinctKeys(v)
    ensures Loaded(v) == v
    decreases v, 0
  {
    match v
    case Array(items) =>
      ItemsLoad(v, |items|);
      assert items[..|items|] == items;
    case Dict(entries) =>
      EntriesLoad(v, |entries|);
      assert entries[..|entries|] == entries;
    case _ =>
  }

  lemma {:induction false} ItemsLoad(v: Tree, n: nat)
    requires v.Array? && n <= |v.items| && DistinctKeys(v)
    ensures LoadedItems(v.items[..n]) == v.items[..n]
    decreases v, 0, n
  {
    if n > 0 {
      assert v.items[..n][..n - 1] == v.items[..n - 1];
      ItemsLoad(v, n - 1);
      DistinctKeysLoad(v.items[n - 1]);
    }
  }

  lemma {:induction false} EntriesLoad(v: Tree, n: nat)
    requires v.Dict? && n <= |v.entries| && DistinctKeys(v)
    ensures LoadedEntries(v.entries[..n]) == v.entries[..n]
    decreases v, 0, n
  {
    if n > 0 {
      var init, last := v.entries[..n - 1], v.entries[n - 1];
      assert v.entries[..n][..n - 1] == init;
      EntriesLoad(v, n - 1);
      DistinctKeysLoad(last.value);
      PutNew(init, last);
    }
  }

  lemma {:induction false} PutNew(out: seq<Entry>, e: Entry)
    requires forall i :: 0 <= i < |out| ==> out[i].key != e.key
    ensures Put(out, e) == out + [e]
  {
    if out != [] {
      PutNew(out[1..], e);
      assert out == [out[0]] + out[1..];
    }
  }

  /** From the bytes of a file to its tree: the round trip of a document without repeated keys. */
  lemma DocumentRoundTrip(d: Bytes, x: Doc, v: Tree, depth: nat)
    ensures FileAt(d, x) && DocumentAt(x, v) && DistinctKeys(v) && Depth(v) <= depth + 1 ==>
              Open(d) == Ok(x) && Parse(x, depth) == Ok(v)
  {
    hide FileAt, DocumentAt, DistinctKeys, Depth, Open, Parse, Loaded;
    if FileAt(d, x) && DocumentAt(x, v) && DistinctKeys(v) && Depth(v) <= depth + 1 {
      OpenIff(d, x);
      DistinctKeysLoad(v);
      ParseIff(x, depth, v);
    }
  }

  // ---- Cycles ---------------------------------------------------------------------

  /** Cell `i` of the array or dict of `n` cells at `off` is a container of type `u` at `o`. */
  ghost predicate CellIs(x: Doc, off: nat, t: Byte, n: nat, i: nat, o: nat, u: Byte) {
    && u in {0xC0, 0xC1, 0xA1} && IntAt(x.d, x.big, off + 1, 3, n) && i < n
    && if t == 0xC0 then
         off + 4 + i < |x.d| && x.d[off + 4 + i] == u && IntAt(x.d, x.big, CellsAt(off, n) + 4 * i, 4, o)
       else
         && t == 0xC1 && off + 4 + 8 * i + 3 < |x.d| && x.d[off + 4 + 8 * i + 3] == u
         && IntAt(x.d, x.big, off + 4 + 8 * i + 4, 4, o)
  }

  ghost predicate Contains(x: Doc, c: (nat, Byte), d: (nat, Byte)) {
    exists n, i :: CellIs(x, c.0, c.1, n, i, d.0, d.1)
  }

  /** Each of the containers holds one of them: a cycle of any length, through any cells. */
  ghost predicate Circular(x: Doc, s: set<(nat, Byte)>) {
    forall c :: c in s ==> exists d :: d in s && Contains(x, c, d)
  }

  /** Containers that hold each other in a circle are never read, whatever nesting is allowed: the
      reader raises instead of running on. */
  lemma {:induction false} CircularRaises(x: Doc, s: set<(nat, Byte)>, c: (nat, Byte), depth: nat)
    requires Circular(x, s) && c in s
    ensures Container(x, c.0, c.1, depth).Raised?
    decreases depth
  {
    hide Container, CellIs;
    var d :| d in s && Contains(x, c, d);
    var n, i :| CellIs(x, c.0, c.1, n, i, d.0, d.1);
    if depth > 0 { CircularRaises(x, s, d, depth - 1); }
    CellRaises(x, c.0, c.1, n, i, d.0, d.1, depth);
  }

  /** A cell that cannot be read spoils its container. */
  lemma CellRaises(x: Doc, off: nat, t: Byte, n: nat, i: nat, o: nat, u: Byte, depth: nat)
    requires CellIs(x, off, t, n, i, o, u) && (depth > 0 ==> Container(x, o, u, depth - 1).Raised?)
    ensures Container(x, off, t, depth).Raised?
  {
    hide IntAt, ReadInt, U24;
    U24IsInt(x.d, x.big, off + 1);
    IntAtIff(x.d, x.big, off + 1, 3, n);
    if t == 0xC0 {
      IntAtIff(x.d, x.big, CellsAt(off, n) + 4 * i, 4, o);
      ItemRaises(x, off, n, i, n, depth);
    } else {
      IntAtIff(x.d, x.big, off + 4 + 8 * i + 4, 4, o);
      EntriesFail(x, off, i, n, depth);
    }
  }

  lemma {:induction false} ItemRaises(x: Doc, off: nat, count: nat, i: nat, n: nat, depth: nat)
    requires i < n && off + 4 + i < |x.d| && Value(x, CellsAt(off, count) + 4 * i, x.d[off + 4 + i], depth).Raised?
    ensures Items(x, off, count, n, depth).Raised?
  {
    hide Value;
    if i < n - 1 { ItemRaises(x, off, count, i, n - 1, depth); }
  }
}
