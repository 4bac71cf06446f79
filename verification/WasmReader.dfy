/**
 * Reading the `contractspecv0` custom section of a WebAssembly module
 * (packages/core/src/codegen/wasmParser.ts), and the format it reads, following the WebAssembly Core
 * Specification 1.0: LEB128 integers (section 5.2.2), sections (5.5.2) and custom sections (5.5.3).
 * JavaScript's 32-bit bit operations are spelled out on integers.
 */
module WasmReader {
  import opened Common

  type Byte = b: int | 0 <= b < 256

  const TWO31 := 0x8000_0000
  const TWO32 := 0x1_0000_0000

  // ---------------------------------------------------------------------------
  // JavaScript bit operations
  // ---------------------------------------------------------------------------

  /** x * 2^k, by doubling. */
  function Shift(x: nat, k: nat): nat {
    if k == 0 then x else 2 * Shift(x, k - 1)
  }

  function Pow2(k: nat): nat {
    Shift(1, k)
  }

  function ToInt32(x: int): int {
    var m := x % TWO32;
    if m >= TWO31 then m - TWO32 else m
  }

  function BitOr(a: nat, b: nat): nat
    decreases a
  {
    if a == 0 then b
    else 2 * BitOr(a / 2, b / 2) + if a % 2 == 1 || b % 2 == 1 then 1 else 0
  }

  /** `a << k` as a 32-bit pattern. */
  function Shl32(a: nat, k: nat): nat {
    Shift(a, k % 32) % TWO32
  }

  /** `buf[i]`; an index outside the buffer gives undefined, which bit operations read as 0. */
  function ByteAt(buf: seq<Byte>, i: int): int {
    if 0 <= i < |buf| then buf[i] else 0
  }

  /** `buf.slice(from, to)`: negative positions count from the end, and both are clamped to the buffer. */
  function Slice(buf: seq<Byte>, from: int, to: int): seq<Byte> {
    var a, b := Clamp(|buf|, from), Clamp(|buf|, to);
    Bytes(buf, a, b)
  }

  /** The bytes in [from, to). */
  function Bytes(buf: seq<Byte>, from: nat, to: nat): seq<Byte>
    requires to <= |buf|
    decreases if from < to then to - from else 0
  {
    if from >= to then [] else [buf[from]] + Bytes(buf, from + 1, to)
  }

  function Clamp(length: nat, position: int): (p: nat)
    ensures p <= length
  {
    if position < 0 then (if length + position < 0 then 0 else length + position)
    else if position > length then length
    else position
  }

  /** `buf.readUInt32BE(pos)`; None when it throws a range error. */
  function ReadUInt32BE(buf: seq<Byte>, pos: int): Option<nat> {
    if 0 <= pos && pos + 4 <= |buf|
    then Some(BigEndianAt(buf, pos, 4))
    else None
  }

  /** The number in the `width` bytes from `pos` on, most significant first. */
  function BigEndianAt(buf: seq<Byte>, pos: nat, width: nat): nat
    requires pos + width <= |buf|
  {
    if width == 0 then 0 else BigEndianAt(buf, pos, width - 1) * 256 + buf[pos + width - 1]
  }

  // ---------------------------------------------------------------------------
  // The reader
  // ---------------------------------------------------------------------------

  function Remaining(buf: seq<Byte>, position: int): nat {
    if position < |buf| then |buf| - position else 0
  }

  /** The decoding loop, entered with `bytesRead` bytes consumed. */
  function LebFrom(buf: seq<Byte>, offset: int, bits: nat, shift: nat, bytesRead: nat): (int, nat)
    decreases Remaining(buf, offset + bytesRead)
  {
    var byte := ByteAt(buf, offset + bytesRead);
    var next := BitOr(bits, Shl32(byte % 128, shift));
    if byte < 128 then (ToInt32(next), bytesRead + 1)
    else LebFrom(buf, offset, next, shift + 7, bytesRead + 1)
  }

  function Leb(buf: seq<Byte>, offset: int): (int, nat) {
    LebFrom(buf, offset, 0, 0, 0)
  }

  /** A LEB128 decoder for one buffer: offset to (value, bytes consumed). The section walk is defined for any. */
  type Decoder = int -> (int, nat)

  function DecoderOf(buf: seq<Byte>): Decoder {
    (offset: int) => Leb(buf, offset)
  }

  method ReadLEB128(buf: seq<Byte>, offset: int) returns (value: int, length: nat)
    ensures (value, length) == Leb(buf, offset)
  {
    var result: nat, shift: nat, bytesRead: nat := 0, 0, 0;
    while true
      invariant LebFrom(buf, offset, result, shift, bytesRead) == Leb(buf, offset)
      decreases Remaining(buf, offset + bytesRead)
    {
      var byte := ByteAt(buf, offset + bytesRead);
      bytesRead := bytesRead + 1;
      result := BitOr(result, Shl32(byte % 128, shift));
      shift := shift + 7;
      if byte < 128 {
        break;
      }
    }
    return ToInt32(result), bytesRead;
  }

  /** "contractspecv0" in ASCII. The walk is defined for any section name. */
  const SPEC_SECTION_NAME: seq<Byte> := [99, 111, 110, 116, 114, 97, 99, 116, 115, 112, 101, 99, 118, 48]

  /** Entries are framed by a 4-byte big-endian length. None when the reader throws. */
  function EntriesFrom(wasm: seq<Byte>, pos: int, sectionEnd: int): Option<seq<seq<Byte>>>
    decreases if pos < sectionEnd then sectionEnd - pos else 0
  {
    if pos >= sectionEnd then Some([])
    else
      match ReadUInt32BE(wasm, pos)
      case None => None
      case Some(n) =>
        match EntriesFrom(wasm, pos + 4 + n, sectionEnd)
        case None => None
        case Some(rest) => Some([Slice(wasm, pos + 4, pos + 4 + n)] + rest)
  }

  /** Where the section header at `offset` says the section ends. */
  function SectionEnd(leb: Decoder, offset: int): int {
    var size := leb(offset + 1);
    offset + 1 + size.1 + size.0
  }

  /** `wasm[offset] === 0`, which is false outside the file. */
  predicate IsCustom(wasm: seq<Byte>, offset: int) {
    0 <= offset < |wasm| && wasm[offset] == 0
  }

  /** The entries the section at `offset` contributes. */
  function OwnEntries(wasm: seq<Byte>, leb: Decoder, sectionName: seq<Byte>, offset: int): Option<seq<seq<Byte>>> {
    var bodyStart := offset + 1 + leb(offset + 1).1;
    var nameStart := bodyStart + leb(bodyStart).1;
    var nameLen := leb(bodyStart).0;
    if IsCustom(wasm, offset) && Slice(wasm, nameStart, nameStart + nameLen) == sectionName
    then EntriesFrom(wasm, nameStart + nameLen, SectionEnd(leb, offset))
    else Some([])
  }

  /** The outer loop goes on at `offset`: the file has not ended there and the section does not throw. */
  predicate Running(length: nat, own: int -> Option<seq<seq<Byte>>>, offset: int) {
    offset < length && own(offset).Some?
  }

  /** The outer loop, for any way of finding where a section ends and what it contributes, stops within so many
      rounds. A size whose encoding is 2^31 or more is read as a negative number and can move the offset back, and
      then the loop may never stop. */
  ghost predicate HaltsIn(length: nat, sectionEnd: int -> int, own: int -> Option<seq<seq<Byte>>>, offset: int, rounds: nat)
    decreases rounds
  {
    !Running(length, own, offset) || (rounds > 0 && HaltsIn(length, sectionEnd, own, sectionEnd(offset), rounds - 1))
  }

  function Walk(length: nat, sectionEnd: int -> int, own: int -> Option<seq<seq<Byte>>>, offset: int, ghost rounds: nat)
    : Option<seq<seq<Byte>>>
    requires HaltsIn(length, sectionEnd, own, offset, rounds)
    decreases rounds
  {
    if offset >= length then Some([])
    else
      match own(offset)
      case None => None
      case Some(entries) =>
        match Walk(length, sectionEnd, own, sectionEnd(offset), rounds - 1)
        case None => None
        case Some(rest) => Some(entries + rest)
  }

  function EndOf(wasm: seq<Byte>): int -> int {
    (offset: int) => SectionEnd(DecoderOf(wasm), offset)
  }

  function OwnOf(wasm: seq<Byte>): int -> Option<seq<seq<Byte>>> {
    (offset: int) => OwnEntries(wasm, DecoderOf(wasm), SPEC_SECTION_NAME, offset)
  }

  function Append<T>(before: seq<T>, more: Option<seq<T>>): Option<seq<T>> {
    if more.None? then None else Some(before + more.value)
  }

  /** The inner loop: appends the entries framed between `start` and `sectionEnd`. */
  method ReadEntries(wasm: seq<Byte>, start: int, sectionEnd: int, before: seq<seq<Byte>>)
    returns (result: Option<seq<seq<Byte>>>)
    ensures result == Append(before, EntriesFrom(wasm, start, sectionEnd))
  {
    var pos, entries := start, before;
    while pos < sectionEnd
      invariant Append(entries, EntriesFrom(wasm, pos, sectionEnd)) == Append(before, EntriesFrom(wasm, start, sectionEnd))
      decreases sectionEnd - pos
    {
      var entryLen := ReadUInt32BE(wasm, pos);
      if entryLen.None? {
        return None;
      }
      pos := pos + 4;
      ghost var rest := EntriesFrom(wasm, pos + entryLen.value, sectionEnd);
      if rest.Some? {
        Assoc(entries, [Slice(wasm, pos, pos + entryLen.value)], rest.value);
      }
      entries := entries + [Slice(wasm, pos, pos + entryLen.value)];
      pos := pos + entryLen.value;
    }
    assert entries + [] == entries;
    result := Some(entries);
  }

  /** How a section is read, given what its two leading LEB128 fields decode to. */
  lemma SectionRead(wasm: seq<Byte>, leb: Decoder, sectionName: seq<Byte>, offset: int, size: int, sizeLen: nat,
                    nameLen: int, nameLenBytes: nat)
    requires leb(offset + 1) == (size, sizeLen) && leb(offset + 1 + sizeLen) == (nameLen, nameLenBytes)
    ensures SectionEnd(leb, offset) == offset + 1 + sizeLen + size
    ensures var nameStart := offset + 1 + sizeLen + nameLenBytes;
            OwnEntries(wasm, leb, sectionName, offset)
            == if IsCustom(wasm, offset) && Slice(wasm, nameStart, nameStart + nameLen) == sectionName
               then EntriesFrom(wasm, nameStart + nameLen, offset + 1 + sizeLen + size) else Some([])
  {
  }

  /** One round of the outer loop: the section whose header is at `start`. */
  method ReadSection(wasm: seq<Byte>, sectionName: seq<Byte>, start: int, before: seq<seq<Byte>>)
    returns (entries: Option<seq<seq<Byte>>>, sectionEnd: int)
    ensures entries == Append(before, OwnEntries(wasm, DecoderOf(wasm), sectionName, start))
    ensures sectionEnd == SectionEnd(DecoderOf(wasm), start)
  {
    var isCustom := IsCustom(wasm, start);
    var offset := start + 1;
    var sectionSize, sizeLen := ReadLEB128(wasm, offset);
    offset := offset + sizeLen;
    sectionEnd := offset + sectionSize;
    entries := Some(before);
    ghost var leb := DecoderOf(wasm);
    ghost var name := leb(offset);
    SectionRead(wasm, leb, sectionName, start, sectionSize, sizeLen, name.0, name.1);
    Append0(before);
    ghost var own := OwnEntries(wasm, leb, sectionName, start);
    if isCustom {
      var nameLen, nameLenBytes := ReadLEB128(wasm, offset);
      var nameStart := offset + nameLenBytes;
      var name := Slice(wasm, nameStart, nameStart + nameLen);
      var payloadStart := nameStart + nameLen;
      if name == sectionName {
        assert own == EntriesFrom(wasm, payloadStart, sectionEnd);
        entries := ReadEntries(wasm, payloadStart, sectionEnd, before);
      }
    }
  }

  lemma Append0<T>(before: seq<T>)
    ensures Append(before, Some([])) == Some(before)
  {
    assert before + [] == before;
  }

  /** The loop ends exactly on the files on which `HaltsIn` holds for some number of rounds. */
  method ReadSpecSection(wasm: seq<Byte>, ghost rounds: nat) returns (result: Option<seq<seq<Byte>>>)
    requires HaltsIn(|wasm|, EndOf(wasm), OwnOf(wasm), 8, rounds)
    ensures result == Walk(|wasm|, EndOf(wasm), OwnOf(wasm), 8, rounds)
  {
    var entries: seq<seq<Byte>> := [];
    var offset := 8;
    ghost var sectionEnds, own, left := EndOf(wasm), OwnOf(wasm), rounds;
    ghost var whole := Walk(|wasm|, sectionEnds, own, 8, rounds);
    assert Append([], whole) == whole by {
      if whole.Some? {
        assert [] + whole.value == whole.value;
      }
    }
    while offset < |wasm|
      invariant HaltsIn(|wasm|, sectionEnds, own, offset, left)
      invariant Append(entries, Walk(|wasm|, sectionEnds, own, offset, left)) == whole
      decreases left
    {
      var more, sectionEnd := ReadSection(wasm, SPEC_SECTION_NAME, offset, entries);
      assert sectionEnd == sectionEnds(offset) && more == Append(entries, own(offset));
      if more.None? {
        return None;
      }
      left := left - 1;
      ghost var rest := Walk(|wasm|, sectionEnds, own, sectionEnd, left);
      if rest.Some? {
        Assoc(entries, own(offset).value, rest.value);
      }
      entries := more.value;
      offset := sectionEnd;
    }
    assert entries + [] == entries;
    result := Some(entries);
  }

  // ---------------------------------------------------------------------------
  // The binary format
  // ---------------------------------------------------------------------------

  /** `n` stands at `offset` as a LEB128 number of exactly `width` bytes. Padding is allowed, as in the standard. */
  ghost predicate LebIs(wasm: seq<Byte>, offset: nat, n: nat, width: nat)
    decreases width
  {
    && offset < |wasm|
    && (width == 1 ==> wasm[offset] == n < 128)
    && (width > 1 ==> wasm[offset] == 128 + n % 128 && LebIs(wasm, offset + 1, n / 128, width - 1))
    && width > 0
  }

  /** A u32 below 2^31 in one of the encodings the standard allows. */
  ghost predicate SizeIs(wasm: seq<Byte>, offset: nat, n: nat, width: nat) {
    n < TWO31 && 1 <= width <= 5 && LebIs(wasm, offset, n, width)
  }

  /** The bytes of `text` from index `k` on stand at `from + k`. */
  ghost predicate Spells(wasm: seq<Byte>, from: nat, text: seq<Byte>, k: nat)
    requires from + |text| <= |wasm|
    decreases |text| - k
  {
    k >= |text| || (wasm[from + k] == text[k] && Spells(wasm, from, text, k + 1))
  }

  /** Entries framed by 4-byte big-endian lengths fill [pos, end). */
  ghost predicate FramesAre(wasm: seq<Byte>, pos: nat, entries: seq<seq<Byte>>, end: nat)
    decreases |entries|
  {
    if entries == [] then pos == end
    else
      var next := pos + 4 + |entries[0]|;
      && next <= end <= |wasm|
      && BigEndianAt(wasm, pos, 4) == |entries[0]|
      && Spells(wasm, pos + 4, entries[0], 0)
      && FramesAre(wasm, next, entries[1..], end)
  }

  /** A section with the size field in `sizeWidth` bytes; custom sections carry a name. */
  datatype Section =
    | Plain(id: Byte, sizeWidth: nat)
    | Custom(sizeWidth: nat, nameWidth: nat, name: seq<Byte>)
    | Spec(sizeWidth: nat, nameWidth: nat, entries: seq<seq<Byte>>)

  function SectionId(s: Section): Byte {
    if s.Plain? then s.id else 0
  }

  ghost predicate NameIs(wasm: seq<Byte>, start: nat, name: seq<Byte>, width: nat, end: nat) {
    && SizeIs(wasm, start, |name|, width)
    && start + width + |name| <= end <= |wasm|
    && Spells(wasm, start + width, name, 0)
  }

  /** Section `s` takes up [offset, end). What a plain section or a foreign custom section contains is arbitrary. */
  ghost predicate SectionIs(wasm: seq<Byte>, sectionName: seq<Byte>, offset: nat, s: Section, end: nat) {
    var start := offset + 1 + s.sizeWidth;
    && start <= end <= |wasm|
    && wasm[offset] == SectionId(s)
    && SizeIs(wasm, offset + 1, end - start, s.sizeWidth)
    && match s
       case Plain(id, _) => id != 0
       case Custom(_, nameWidth, name) => name != sectionName && NameIs(wasm, start, name, nameWidth, end)
       case Spec(_, nameWidth, entries) =>
         && NameIs(wasm, start, sectionName, nameWidth, end)
         && FramesAre(wasm, start + nameWidth + |sectionName|, entries, end)
  }

  /** The sections follow each other from `offset` to the end of the file. */
  ghost predicate ModuleIs(wasm: seq<Byte>, sectionName: seq<Byte>, offset: nat, sections: seq<Section>)
    decreases |sections|
  {
    if sections == [] then offset == |wasm|
    else exists end: nat ::
      SectionIs(wasm, sectionName, offset, sections[0], end) && ModuleIs(wasm, sectionName, end, sections[1..])
  }

  /** What the reader is for: the entries of the spec sections, in order. */
  function SpecEntries(sections: seq<Section>): seq<seq<Byte>> {
    if sections == [] then []
    else EntriesOf(sections[0]) + SpecEntries(sections[1..])
  }

  function EntriesOf(s: Section): seq<seq<Byte>> {
    if s.Spec? then s.entries else []
  }

  // ---------------------------------------------------------------------------
  // LEB128
  // ---------------------------------------------------------------------------

  lemma {:induction false} ShiftSeven(x: nat, k: nat)
    ensures Shift(128 * x, k) == Shift(x, k + 7)
  {
    if k == 0 {
      assert Shift(x, 1) == 2 * x;
      assert Shift(x, 4) == 2 * Shift(x, 3) == 4 * Shift(x, 2) == 8 * Shift(x, 1);
      assert Shift(x, 7) == 2 * Shift(x, 6) == 4 * Shift(x, 5) == 8 * Shift(x, 4);
    } else {
      ShiftSeven(x, k - 1);
    }
  }

  lemma {:induction false} ShiftAdd(x: nat, y: nat, k: nat)
    ensures Shift(x + y, k) == Shift(x, k) + Shift(y, k)
  {
    if k == 0 {
    } else {
      ShiftAdd(x, y, k - 1);
    }
  }

  /** Or-ing in bits above all bits set so far is addition. */
  lemma {:induction false} BitOrDisjoint(low: nat, high: nat, k: nat)
    requires low < Pow2(k)
    ensures BitOr(low, Shift(high, k)) == low + Shift(high, k)
  {
    if low == 0 {
    } else {
      BitOrDisjoint(low / 2, high, k - 1);
    }
  }

  /** One round of the loop adds the next seven bits. */
  lemma OrShifted(low: nat, digit: nat, shift: nat)
    requires shift < 32 && low < Pow2(shift) && low + Shift(digit, shift) < TWO32
    ensures BitOr(low, Shl32(digit, shift)) == low + Shift(digit, shift)
  {
    var high := Shift(digit, shift);
    assert shift % 32 == shift;
    assert Shl32(digit, shift) == high % TWO32 == high;
    BitOrDisjoint(low, digit, shift);
  }

  /** What has been read after the next seven bits, and what is still to come. */
  lemma NextDigit(low: nat, n: nat, k: nat) returns (next: nat)
    requires low < Pow2(k)
    ensures next == low + Shift(n % 128, k) < Pow2(k + 7)
    ensures next + Shift(n / 128, k + 7) == low + Shift(n, k)
  {
    next := low + Shift(n % 128, k);
    ShiftAdd(n % 128, 128 * (n / 128), k);
    ShiftSeven(n / 128, k);
    ShiftAdd(n % 128, 1, k);
    ShiftAdd(n % 128 + 1, 127 - n % 128, k);
    ShiftSeven(1, k);
  }

  lemma LebRound(buf: seq<Byte>, offset: nat, low: nat, shift: nat, done: nat, next: nat)
    requires shift < 32 && low < Pow2(shift)
    requires next == low + Shift(ByteAt(buf, offset + done) % 128, shift) < TWO32
    ensures LebFrom(buf, offset, low, shift, done)
         == if ByteAt(buf, offset + done) < 128 then (ToInt32(next), done + 1)
            else LebFrom(buf, offset, next, shift + 7, done + 1)
  {
    OrShifted(low, ByteAt(buf, offset + done) % 128, shift);
  }

  lemma FirstDigit(buf: seq<Byte>, offset: nat, n: nat, width: nat)
    requires LebIs(buf, offset, n, width)
    ensures ByteAt(buf, offset) % 128 == n % 128
    ensures ByteAt(buf, offset) < 128 <==> width == 1
    ensures width == 1 ==> n == n % 128
    ensures width > 1 ==> LebIs(buf, offset + 1, n / 128, width - 1)
  {
  }

  lemma {:induction false} LebDecodesRest(buf: seq<Byte>, offset: nat, low: nat, shift: nat, done: nat, n: nat, width: nat,
                                         total: nat)
    requires done + width <= 5 && shift == 7 * done && LebIs(buf, offset + done, n, width)
    requires low < Pow2(shift) && total == low + Shift(n, shift) < TWO32
    ensures LebFrom(buf, offset, low, shift, done) == (ToInt32(total), done + width)
    decreases width
  {
    FirstDigit(buf, offset + done, n, width);
    var next := NextDigit(low, n, shift);
    LebRound(buf, offset, low, shift, done, next);
    if width == 1 {
      ShiftZero(shift + 7);
    } else {
      LebDecodesRest(buf, offset, next, shift + 7, done + 1, n / 128, width - 1, total);
    }
  }

  lemma {:induction false} ShiftZero(k: nat)
    ensures Shift(0, k) == 0
  {
    if k == 0 {
    } else {
      ShiftZero(k - 1);
    }
  }

  lemma Signed(x: nat)
    requires x < TWO32
    ensures ToInt32(x) == if x < TWO31 then x else x - TWO32
  {
  }

  /** Decoding any encoding of a u32 gives the length of the encoding, and the number itself exactly below 2^31. */
  lemma LebDecodes(buf: seq<Byte>, offset: nat, n: nat, width: nat)
    requires width <= 5 && n < TWO32 && LebIs(buf, offset, n, width)
    ensures Leb(buf, offset) == (if n < TWO31 then n else n - TWO32, width)
  {
    Signed(n);
    assert Shift(n, 0) == n && Pow2(0) == 1;
    LebDecodesRest(buf, offset, 0, 0, 0, n, width, n);
  }

  // ---------------------------------------------------------------------------
  // Reading back a module
  // ---------------------------------------------------------------------------

  lemma {:induction false} SpellsBytes(wasm: seq<Byte>, from: nat, text: seq<Byte>, k: nat)
    requires from + |text| <= |wasm| && k <= |text| && Spells(wasm, from, text, k)
    ensures Bytes(wasm, from + k, from + |text|) == text[k..]
    decreases |text| - k
  {
    if k < |text| {
      SpellsBytes(wasm, from, text, k + 1);
    }
  }

  lemma SpellsSlice(wasm: seq<Byte>, from: nat, text: seq<Byte>)
    requires from + |text| <= |wasm| && Spells(wasm, from, text, 0)
    ensures Slice(wasm, from, from + |text|) == text
  {
    SpellsBytes(wasm, from, text, 0);
  }

  lemma {:induction false} FramesRead(wasm: seq<Byte>, pos: nat, entries: seq<seq<Byte>>, end: nat)
    requires FramesAre(wasm, pos, entries, end)
    ensures EntriesFrom(wasm, pos, end) == Some(entries)
    decreases |entries|
  {
    if entries == [] {
    } else {
      var next := pos + 4 + |entries[0]|;
      FramesRead(wasm, next, entries[1..], end);
      SpellsSlice(wasm, pos + 4, entries[0]);
      assert [entries[0]] + entries[1..] == entries;
    }
  }

  /** A custom section is searched for entries exactly when its name matches. */
  lemma NamedSectionReads(wasm: seq<Byte>, leb: Decoder, sectionName: seq<Byte>, offset: nat, size: nat, sizeLen: nat,
                          name: seq<Byte>, nameWidth: nat)
    requires IsCustom(wasm, offset)
    requires leb(offset + 1) == (size, sizeLen) && leb(offset + 1 + sizeLen) == (|name|, nameWidth)
    requires var nameStart := offset + 1 + sizeLen + nameWidth;
             nameStart + |name| <= |wasm| && Spells(wasm, nameStart, name, 0)
    ensures OwnEntries(wasm, leb, sectionName, offset)
         == if name == sectionName
            then EntriesFrom(wasm, offset + 1 + sizeLen + nameWidth + |name|, offset + 1 + sizeLen + size)
            else Some([])
  {
    SpellsSlice(wasm, offset + 1 + sizeLen + nameWidth, name);
    SectionRead(wasm, leb, sectionName, offset, size, sizeLen, |name|, nameWidth);
  }

  lemma CustomSectionReads(wasm: seq<Byte>, leb: Decoder, sectionName: seq<Byte>, offset: nat, s: Section, end: nat)
    requires s.Custom? && SectionIs(wasm, sectionName, offset, s, end)
    requires leb(offset + 1) == (end - (offset + 1 + s.sizeWidth), s.sizeWidth)
    requires leb(offset + 1 + s.sizeWidth) == (|s.name|, s.nameWidth)
    ensures OwnEntries(wasm, leb, sectionName, offset) == Some([])
  {
    NamedSectionReads(wasm, leb, sectionName, offset, end - (offset + 1 + s.sizeWidth), s.sizeWidth, s.name, s.nameWidth);
  }

  lemma SpecPayloadReads(wasm: seq<Byte>, sectionName: seq<Byte>, offset: nat, s: Section, end: nat)
    requires s.Spec? && SectionIs(wasm, sectionName, offset, s, end)
    ensures EntriesFrom(wasm, offset + 1 + s.sizeWidth + s.nameWidth + |sectionName|, end) == Some(s.entries)
  {
    FramesRead(wasm, offset + 1 + s.sizeWidth + s.nameWidth + |sectionName|, s.entries, end);
  }

  lemma SpecSectionReads(wasm: seq<Byte>, leb: Decoder, sectionName: seq<Byte>, offset: nat, start: nat, nameWidth: nat,
                         payload: nat, entries: seq<seq<Byte>>, end: nat)
    requires IsCustom(wasm, offset) && offset < start <= end && payload == start + nameWidth + |sectionName| <= |wasm|
    requires leb(offset + 1) == (end - start, start - offset - 1) && leb(start) == (|sectionName|, nameWidth)
    requires Spells(wasm, start + nameWidth, sectionName, 0) && EntriesFrom(wasm, payload, end) == Some(entries)
    ensures OwnEntries(wasm, leb, sectionName, offset) == Some(entries)
  {
    NamedSectionReads(wasm, leb, sectionName, offset, end - start, start - offset - 1, sectionName, nameWidth);
  }

  lemma SectionReadsWith(wasm: seq<Byte>, leb: Decoder, sectionName: seq<Byte>, offset: nat, s: Section, end: nat)
    requires SectionIs(wasm, sectionName, offset, s, end)
    requires leb(offset + 1) == (end - (offset + 1 + s.sizeWidth), s.sizeWidth)
    requires !s.Plain? ==> leb(offset + 1 + s.sizeWidth) == (|NameOf(s, sectionName)|, s.nameWidth)
    ensures OwnEntries(wasm, leb, sectionName, offset) == Some(EntriesOf(s))
  {
    if s.Custom? {
      CustomSectionReads(wasm, leb, sectionName, offset, s, end);
    } else if s.Spec? {
      var start := offset + 1 + s.sizeWidth;
      SpecPayloadReads(wasm, sectionName, offset, s, end);
      SpecSectionReads(wasm, leb, sectionName, offset, start, s.nameWidth, start + s.nameWidth + |sectionName|, s.entries, end);
    }
  }

  function NameOf(s: Section, sectionName: seq<Byte>): seq<Byte> {
    if s.Custom? then s.name else sectionName
  }

  /** One section is stepped over exactly, and contributes exactly its entries. */
  lemma SectionReads(wasm: seq<Byte>, sectionName: seq<Byte>, offset: nat, s: Section, end: nat)
    requires SectionIs(wasm, sectionName, offset, s, end)
    ensures SectionEnd(DecoderOf(wasm), offset) == end > offset
    ensures OwnEntries(wasm, DecoderOf(wasm), sectionName, offset) == Some(EntriesOf(s))
  {
    var start := offset + 1 + s.sizeWidth;
    LebDecodes(wasm, offset + 1, end - start, s.sizeWidth);
    if !s.Plain? {
      LebDecodes(wasm, start, |NameOf(s, sectionName)|, s.nameWidth);
    }
    SectionReadsWith(wasm, DecoderOf(wasm), sectionName, offset, s, end);
  }

  lemma SectionSteps(wasm: seq<Byte>, offset: nat, s: Section, end: nat)
    requires SectionIs(wasm, SPEC_SECTION_NAME, offset, s, end)
    ensures offset < end <= |wasm| && EndOf(wasm)(offset) == end && OwnOf(wasm)(offset) == Some(EntriesOf(s))
  {
    SectionReads(wasm, SPEC_SECTION_NAME, offset, s, end);
  }

  /** The walk passes over these sections, one a round, up to the end of the file. */
  ghost predicate PassesOver(length: nat, sectionEnd: int -> int, own: int -> Option<seq<seq<Byte>>>, offset: int,
                             sections: seq<Section>)
    decreases |sections|
  {
    if sections == [] then offset == length
    else
      && offset < length && own(offset) == Some(EntriesOf(sections[0]))
      && PassesOver(length, sectionEnd, own, sectionEnd(offset), sections[1..])
  }

  lemma {:induction false} PassingWalks(length: nat, sectionEnd: int -> int, own: int -> Option<seq<seq<Byte>>>, offset: int,
                                        sections: seq<Section>)
    requires PassesOver(length, sectionEnd, own, offset, sections)
    ensures HaltsIn(length, sectionEnd, own, offset, |sections|)
    ensures Walk(length, sectionEnd, own, offset, |sections|) == Some(SpecEntries(sections))
    decreases |sections|
  {
    if sections == [] {
    } else {
      PassingWalks(length, sectionEnd, own, sectionEnd(offset), sections[1..]);
    }
  }

  lemma {:induction false} ModulePasses(wasm: seq<Byte>, offset: nat, sections: seq<Section>)
    requires ModuleIs(wasm, SPEC_SECTION_NAME, offset, sections)
    ensures PassesOver(|wasm|, EndOf(wasm), OwnOf(wasm), offset, sections)
    decreases |sections|
  {
    if sections == [] {
    } else {
      var end: nat :| SectionIs(wasm, SPEC_SECTION_NAME, offset, sections[0], end)
                      && ModuleIs(wasm, SPEC_SECTION_NAME, end, sections[1..]);
      SectionSteps(wasm, offset, sections[0], end);
      ModulePasses(wasm, end, sections[1..]);
    }
  }

  /** Reading a module ends, does not throw, and gives exactly the entries of its spec sections, in order. */
  lemma ModuleReads(wasm: seq<Byte>, offset: nat, sections: seq<Section>)
    requires ModuleIs(wasm, SPEC_SECTION_NAME, offset, sections)
    ensures HaltsIn(|wasm|, EndOf(wasm), OwnOf(wasm), offset, |sections|)
    ensures Walk(|wasm|, EndOf(wasm), OwnOf(wasm), offset, |sections|) == Some(SpecEntries(sections))
  {
    ModulePasses(wasm, offset, sections);
    PassingWalks(|wasm|, EndOf(wasm), OwnOf(wasm), offset, sections);
  }
}
