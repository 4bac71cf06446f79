/**
 * A printer for the WebAssembly modules that WasmReader.dfy reads, and the proof that reading undoes printing.
 */
module WasmPrinter {
  import opened Common
  import opened WasmReader

  /** `n` in exactly `width` LEB128 bytes. */
  function LebBytes(n: nat, width: nat): seq<Byte>
    requires width >= 1 && n < Pow2(7 * width)
    decreases width
  {
    LebRoom(n, width);
    if width == 1 then [n] else [128 + n % 128] + LebBytes(n / 128, width - 1)
  }

  lemma LebRoom(n: nat, width: nat)
    requires width >= 1 && n < Pow2(7 * width)
    ensures width == 1 ==> n < 128
    ensures width > 1 ==> n / 128 < Pow2(7 * (width - 1))
  {
    ShiftSeven(1, 7 * (width - 1));
    ShiftAdd(127, 1, 7 * (width - 1));
    Pow2Seven(7 * (width - 1));
  }

  lemma Pow2Seven(k: nat)
    ensures Pow2(k + 7) == 128 * Pow2(k)
  {
    assert Shift(1, k + 7) == 2 * Shift(1, k + 6) == 4 * Shift(1, k + 5) == 8 * Shift(1, k + 4);
    assert Shift(1, k + 4) == 2 * Shift(1, k + 3) == 4 * Shift(1, k + 2) == 8 * Shift(1, k + 1);
  }

  /** The low `width` bytes of `n`, most significant first. */
  function BigEndian(n: nat, width: nat): (bytes: seq<Byte>)
    ensures |bytes| == width
  {
    if width == 0 then [] else BigEndian(n / 256, width - 1) + [n % 256]
  }

  lemma {:induction false} LebPrinted(before: seq<Byte>, n: nat, width: nat, after: seq<Byte>)
    requires width >= 1 && n < Pow2(7 * width)
    ensures |LebBytes(n, width)| == width
    ensures LebIs(before + LebBytes(n, width) + after, |before|, n, width)
    decreases width
  {
    LebRoom(n, width);
    var bytes := LebBytes(n, width);
    if width > 1 {
      var first: seq<Byte>, rest := [128 + n % 128], LebBytes(n / 128, width - 1);
      LebPrinted(before + first, n / 128, width - 1, after);
      assert before + (first + rest) + after == (before + first) + rest + after;
    }
  }

  lemma {:induction false} SpellsPrinted(before: seq<Byte>, text: seq<Byte>, after: seq<Byte>, k: nat)
    requires k <= |text|
    ensures Spells(before + text + after, |before|, text, k)
    decreases |text| - k
  {
    if k < |text| {
      SpellsPrinted(before, text, after, k + 1);
    }
  }

  lemma {:induction false} BigEndianPrinted(before: seq<Byte>, n: nat, width: nat, after: seq<Byte>)
    requires n < Pow2(8 * width)
    ensures BigEndianAt(before + BigEndian(n, width) + after, |before|, width) == n
  {
    if width == 0 {
    } else {
      Pow2Seven(8 * (width - 1));
      assert Shift(1, 8 * (width - 1) + 8) == 2 * Shift(1, 8 * (width - 1) + 7);
      var front, last: seq<Byte> := BigEndian(n / 256, width - 1), [n % 256];
      BigEndianPrinted(before, n / 256, width - 1, last + after);
      assert before + (front + last) + after == before + front + (last + after);
    }
  }

  function PrintFrames(entries: seq<seq<Byte>>): seq<Byte> {
    if entries == [] then [] else BigEndian(|entries[0]|, 4) + (entries[0] + PrintFrames(entries[1..]))
  }

  lemma Regroup<T>(p: seq<T>, a: seq<T>, b: seq<T>, c: seq<T>, q: seq<T>)
    ensures p + (a + (b + c)) + q == p + a + (b + c + q)
    ensures p + (a + (b + c)) + q == (p + a) + b + (c + q)
    ensures p + (a + (b + c)) + q == (p + a + b) + c + q
  {
  }

  /** Every entry is short enough for a 4-byte length. */
  ghost predicate Framable(entries: seq<seq<Byte>>) {
    entries == [] || (|entries[0]| < Pow2(32) && Framable(entries[1..]))
  }

  lemma FramesCons(wasm: seq<Byte>, pos: nat, entries: seq<seq<Byte>>, end: nat)
    requires entries != [] && pos + 4 + |entries[0]| <= end <= |wasm|
    requires BigEndianAt(wasm, pos, 4) == |entries[0]| && Spells(wasm, pos + 4, entries[0], 0)
    requires FramesAre(wasm, pos + 4 + |entries[0]|, entries[1..], end)
    ensures FramesAre(wasm, pos, entries, end)
  {
  }

  lemma FramePrinted(wasm: seq<Byte>, before: seq<Byte>, entry: seq<Byte>, rest: seq<Byte>, after: seq<Byte>,
                     passed: seq<Byte>)
    requires |entry| < Pow2(32) && wasm == before + (BigEndian(|entry|, 4) + (entry + rest)) + after
    requires passed == before + BigEndian(|entry|, 4) + entry
    ensures BigEndianAt(wasm, |before|, 4) == |entry|
    ensures Spells(wasm, |before| + 4, entry, 0)
    ensures wasm == passed + rest + after && |passed| == |before| + 4 + |entry|
  {
    var length := BigEndian(|entry|, 4);
    Regroup(before, length, entry, rest, after);
    BigEndianPrinted(before, |entry|, 4, entry + rest + after);
    SpellsPrinted(before + length, entry, rest + after, 0);
  }

  lemma {:induction false} FramesPrinted(wasm: seq<Byte>, before: seq<Byte>, entries: seq<seq<Byte>>, printed: seq<Byte>,
                                         after: seq<Byte>, end: nat)
    requires Framable(entries) && printed == PrintFrames(entries)
    requires wasm == before + printed + after && end == |before| + |printed|
    ensures FramesAre(wasm, |before|, entries, end)
    decreases |entries|
  {
    if entries == [] {
    } else {
      var rest := PrintFrames(entries[1..]);
      var passed := before + BigEndian(|entries[0]|, 4) + entries[0];
      FramePrinted(wasm, before, entries[0], rest, after, passed);
      FramesPrinted(wasm, passed, entries[1..], rest, after, end);
      FramesCons(wasm, |before|, entries, end);
    }
  }

  /** Any number below 2^31, printed in any of the five widths it fits, anywhere in a file, is read back. */
  lemma LebRoundTrip(before: seq<Byte>, n: nat, width: nat, after: seq<Byte>)
    requires n < TWO31 && 1 <= width <= 5 && n < Pow2(7 * width)
    ensures Leb(before + LebBytes(n, width) + after, |before|) == (n, width)
  {
    LebPrinted(before, n, width, after);
    LebDecodes(before + LebBytes(n, width) + after, |before|, n, width);
  }

  /** Any entries, framed and put anywhere in a file, are read back. */
  lemma FramesRoundTrip(before: seq<Byte>, entries: seq<seq<Byte>>, after: seq<Byte>)
    requires Framable(entries)
    ensures EntriesFrom(before + PrintFrames(entries) + after, |before|, |before| + |PrintFrames(entries)|) == Some(entries)
  {
    var wasm := before + PrintFrames(entries) + after;
    FramesPrinted(wasm, before, entries, PrintFrames(entries), after, |before| + |PrintFrames(entries)|);
    FramesRead(wasm, |before|, entries, |before| + |PrintFrames(entries)|);
  }

  // ---------------------------------------------------------------------------
  // Sections and modules
  // ---------------------------------------------------------------------------

  /** A section to print, with the number of bytes each of its LEB128 fields takes. */
  datatype Source =
    | PlainSource(id: Byte, sizeWidth: nat, payload: seq<Byte>)
    | CustomSource(sizeWidth: nat, nameWidth: nat, name: seq<Byte>, payload: seq<Byte>)
    | SpecSource(sizeWidth: nat, nameWidth: nat, entries: seq<seq<Byte>>)

  /** `n` is a size below 2^31 that fits `width` bytes. */
  predicate Fits(n: nat, width: nat) {
    n < TWO31 && 1 <= width <= 5 && n < Pow2(7 * width)
  }

  predicate Named(s: Source, sectionName: seq<Byte>) {
    match s
    case PlainSource(id, _, _) => id != 0
    case CustomSource(_, nameWidth, name, _) => name != sectionName && Fits(|name|, nameWidth)
    case SpecSource(_, nameWidth, _) => Fits(|sectionName|, nameWidth)
  }

  predicate Printable(s: Source, sectionName: seq<Byte>) {
    Named(s, sectionName) && Fits(|Body(s, sectionName)|, s.sizeWidth)
  }

  function Body(s: Source, sectionName: seq<Byte>): seq<Byte>
    requires Named(s, sectionName)
  {
    match s
    case PlainSource(_, _, payload) => payload
    case CustomSource(_, nameWidth, name, payload) => LebBytes(|name|, nameWidth) + (name + payload)
    case SpecSource(_, nameWidth, entries) => LebBytes(|sectionName|, nameWidth) + (sectionName + PrintFrames(entries))
  }

  function IdOf(s: Source): Byte {
    if s.PlainSource? then s.id else 0
  }

  function PrintSection(s: Source, sectionName: seq<Byte>): seq<Byte>
    requires Printable(s, sectionName)
  {
    var body := Body(s, sectionName);
    [IdOf(s)] + (LebBytes(|body|, s.sizeWidth) + body)
  }

  ghost predicate AllPrintable(sources: seq<Source>, sectionName: seq<Byte>) {
    sources == [] || (Printable(sources[0], sectionName) && AllPrintable(sources[1..], sectionName))
  }

  function PrintModule(sources: seq<Source>, sectionName: seq<Byte>): seq<Byte>
    requires AllPrintable(sources, sectionName)
  {
    if sources == [] then [] else PrintSection(sources[0], sectionName) + PrintModule(sources[1..], sectionName)
  }

  /** The entries of the spec sections, in order. */
  function EntriesIn(sources: seq<Source>): seq<seq<Byte>> {
    if sources == [] then []
    else (if sources[0].SpecSource? then sources[0].entries else []) + EntriesIn(sources[1..])
  }

  /** What the format says of a printed section. */
  function Outline(s: Source): Section {
    match s
    case PlainSource(id, sizeWidth, _) => Plain(id, sizeWidth)
    case CustomSource(sizeWidth, nameWidth, name, _) => Custom(sizeWidth, nameWidth, name)
    case SpecSource(sizeWidth, nameWidth, entries) => Spec(sizeWidth, nameWidth, entries)
  }

  function Outlines(sources: seq<Source>): seq<Section> {
    if sources == [] then [] else [Outline(sources[0])] + Outlines(sources[1..])
  }

  lemma HeaderPrinted(wasm: seq<Byte>, before: seq<Byte>, id: Byte, width: nat, body: seq<Byte>, after: seq<Byte>)
    requires Fits(|body|, width) && wasm == before + ([id] + (LebBytes(|body|, width) + body)) + after
    ensures |LebBytes(|body|, width)| == width && |wasm| == |before| + 1 + width + |body| + |after|
    ensures wasm[|before|] == id && SizeIs(wasm, |before| + 1, |body|, width)
    ensures wasm == (before + [id] + LebBytes(|body|, width)) + body + after
  {
    var size := LebBytes(|body|, width);
    Regroup(before, [id], size, body, after);
    LebPrinted(before + [id], |body|, width, body + after);
  }

  lemma NamePrinted(wasm: seq<Byte>, before: seq<Byte>, name: seq<Byte>, width: nat, payload: seq<Byte>, after: seq<Byte>)
    requires Fits(|name|, width) && wasm == before + (LebBytes(|name|, width) + (name + payload)) + after
    ensures |LebBytes(|name|, width)| == width
    ensures NameIs(wasm, |before|, name, width, |before| + width + |name| + |payload|)
    ensures wasm == (before + LebBytes(|name|, width) + name) + payload + after
  {
    var size := LebBytes(|name|, width);
    Regroup(before, size, name, payload, after);
    LebPrinted(before, |name|, width, name + payload + after);
    SpellsPrinted(before + size, name, payload + after, 0);
  }

  lemma Pow2Is32()
    ensures Pow2(32) == TWO32
  {
    Pow2Seven(0);
    Pow2Seven(7);
    Pow2Seven(14);
    Pow2Seven(21);
    assert Pow2(32) == 2 * Pow2(31) == 4 * Pow2(30) == 8 * Pow2(29) == 16 * Pow2(28);
  }

  lemma {:induction false} ShortEnough(entries: seq<seq<Byte>>)
    requires |PrintFrames(entries)| < TWO31
    ensures Framable(entries)
  {
    if entries == [] {
    } else {
      Pow2Is32();
      ShortEnough(entries[1..]);
    }
  }

  lemma SpecPayloadPrinted(wasm: seq<Byte>, sectionName: seq<Byte>, header: seq<Byte>, nameWidth: nat,
                           entries: seq<seq<Byte>>, after: seq<Byte>)
    requires Fits(|sectionName|, nameWidth) && Framable(entries)
    requires wasm == header + (LebBytes(|sectionName|, nameWidth) + (sectionName + PrintFrames(entries))) + after
    ensures |LebBytes(|sectionName|, nameWidth)| == nameWidth
    ensures var end := |header| + nameWidth + |sectionName| + |PrintFrames(entries)|;
            && NameIs(wasm, |header|, sectionName, nameWidth, end)
            && FramesAre(wasm, |header| + nameWidth + |sectionName|, entries, end)
  {
    NamePrinted(wasm, header, sectionName, nameWidth, PrintFrames(entries), after);
    var frames, before := PrintFrames(entries), header + LebBytes(|sectionName|, nameWidth) + sectionName;
    FramesPrinted(wasm, before, entries, frames, after, |before| + |frames|);
  }

  /** What the header of a section says when the body takes up [start, end). */
  ghost predicate HeaderIs(wasm: seq<Byte>, offset: nat, s: Source, start: nat, end: nat) {
    && start == offset + 1 + s.sizeWidth && start <= end <= |wasm|
    && wasm[offset] == IdOf(s)
    && SizeIs(wasm, offset + 1, end - start, s.sizeWidth)
  }

  lemma PlainIs(wasm: seq<Byte>, sectionName: seq<Byte>, offset: nat, s: Source, start: nat, end: nat)
    requires s.PlainSource? && s.id != 0 && HeaderIs(wasm, offset, s, start, end)
    ensures SectionIs(wasm, sectionName, offset, Outline(s), end)
  {
  }

  lemma CustomIs(wasm: seq<Byte>, sectionName: seq<Byte>, offset: nat, s: Source, start: nat, end: nat)
    requires s.CustomSource? && s.name != sectionName && HeaderIs(wasm, offset, s, start, end)
    requires NameIs(wasm, start, s.name, s.nameWidth, end)
    ensures SectionIs(wasm, sectionName, offset, Outline(s), end)
  {
  }

  lemma SpecIs(wasm: seq<Byte>, sectionName: seq<Byte>, offset: nat, s: Source, start: nat, end: nat)
    requires s.SpecSource? && HeaderIs(wasm, offset, s, start, end)
    requires NameIs(wasm, start, sectionName, s.nameWidth, end)
    requires FramesAre(wasm, start + s.nameWidth + |sectionName|, s.entries, end)
    ensures SectionIs(wasm, sectionName, offset, Outline(s), end)
  {
  }

  lemma CustomPrinted(wasm: seq<Byte>, sectionName: seq<Byte>, offset: nat, s: Source, header: seq<Byte>, body: seq<Byte>,
                      after: seq<Byte>, end: nat)
    requires s.CustomSource? && Printable(s, sectionName) && body == Body(s, sectionName)
    requires wasm == header + body + after && end == |header| + |body| && HeaderIs(wasm, offset, s, |header|, end)
    ensures SectionIs(wasm, sectionName, offset, Outline(s), end)
  {
    NamePrinted(wasm, header, s.name, s.nameWidth, s.payload, after);
    CustomIs(wasm, sectionName, offset, s, |header|, end);
  }

  lemma SpecPrinted(wasm: seq<Byte>, sectionName: seq<Byte>, offset: nat, s: Source, header: seq<Byte>, body: seq<Byte>,
                    after: seq<Byte>, end: nat)
    requires s.SpecSource? && Printable(s, sectionName) && body == Body(s, sectionName)
    requires wasm == header + body + after && end == |header| + |body| && HeaderIs(wasm, offset, s, |header|, end)
    ensures SectionIs(wasm, sectionName, offset, Outline(s), end)
  {
    ShortEnough(s.entries);
    SpecPayloadPrinted(wasm, sectionName, header, s.nameWidth, s.entries, after);
    SpecIs(wasm, sectionName, offset, s, |header|, end);
  }

  lemma BodyPrinted(wasm: seq<Byte>, sectionName: seq<Byte>, offset: nat, s: Source, header: seq<Byte>, body: seq<Byte>,
                    after: seq<Byte>, end: nat)
    requires Printable(s, sectionName) && body == Body(s, sectionName)
    requires wasm == header + body + after && end == |header| + |body| && HeaderIs(wasm, offset, s, |header|, end)
    ensures SectionIs(wasm, sectionName, offset, Outline(s), end)
  {
    if s.PlainSource? {
      PlainIs(wasm, sectionName, offset, s, |header|, end);
    } else if s.CustomSource? {
      CustomPrinted(wasm, sectionName, offset, s, header, body, after, end);
    } else {
      SpecPrinted(wasm, sectionName, offset, s, header, body, after, end);
    }
  }

  /** A printed section is a section of the format, wherever it stands. */
  lemma SectionPrinted(wasm: seq<Byte>, sectionName: seq<Byte>, before: seq<Byte>, s: Source, section: seq<Byte>,
                       after: seq<Byte>, end: nat)
    requires Printable(s, sectionName) && section == PrintSection(s, sectionName)
    requires wasm == before + section + after && end == |before| + |section|
    ensures SectionIs(wasm, sectionName, |before|, Outline(s), end)
  {
    var body := Body(s, sectionName);
    var header := before + [IdOf(s)] + LebBytes(|body|, s.sizeWidth);
    HeaderPrinted(wasm, before, IdOf(s), s.sizeWidth, body, after);
    BodyPrinted(wasm, sectionName, |before|, s, header, body, after, end);
  }

  lemma FirstPrinted(wasm: seq<Byte>, sectionName: seq<Byte>, before: seq<Byte>, s: Source, section: seq<Byte>, rest: seq<Byte>)
    requires Printable(s, sectionName) && section == PrintSection(s, sectionName) && wasm == before + (section + rest)
    ensures SectionIs(wasm, sectionName, |before|, Outline(s), |before + section|)
    ensures wasm == (before + section) + rest
  {
    Assoc(before, section, rest);
    SectionPrinted(wasm, sectionName, before, s, section, rest, |before + section|);
  }

  lemma {:induction false} ModulePrinted(wasm: seq<Byte>, sectionName: seq<Byte>, before: seq<Byte>, sources: seq<Source>)
    requires AllPrintable(sources, sectionName) && wasm == before + PrintModule(sources, sectionName)
    ensures ModuleIs(wasm, sectionName, |before|, Outlines(sources))
    decreases |sources|
  {
    if sources == [] {
    } else {
      var first, rest := PrintSection(sources[0], sectionName), PrintModule(sources[1..], sectionName);
      FirstPrinted(wasm, sectionName, before, sources[0], first, rest);
      ModulePrinted(wasm, sectionName, before + first, sources[1..]);
      var outlines := Outlines(sources);
      assert outlines[0] == Outline(sources[0]) && outlines[1..] == Outlines(sources[1..]);
    }
  }

  lemma {:induction false} OutlineEntries(sources: seq<Source>)
    ensures |Outlines(sources)| == |sources| && SpecEntries(Outlines(sources)) == EntriesIn(sources)
  {
    if sources == [] {
    } else {
      OutlineEntries(sources[1..]);
      var rest := Outlines(sources[1..]);
      assert ([Outline(sources[0])] + rest)[1..] == rest;
    }
  }

  /** Reading undoes printing: for any header and any sections with sizes below 2^31, in any widths, the walk over
      the printed file ends without a throw and gives exactly the entries of its spec sections, in order. */
  lemma ModuleRoundTrip(header: seq<Byte>, sources: seq<Source>)
    requires |header| == 8 && AllPrintable(sources, SPEC_SECTION_NAME)
    ensures var wasm := header + PrintModule(sources, SPEC_SECTION_NAME);
            && HaltsIn(|wasm|, EndOf(wasm), OwnOf(wasm), 8, |sources|)
            && Walk(|wasm|, EndOf(wasm), OwnOf(wasm), 8, |sources|) == Some(EntriesIn(sources))
  {
    var wasm := header + PrintModule(sources, SPEC_SECTION_NAME);
    ModulePrinted(wasm, SPEC_SECTION_NAME, header, sources);
    OutlineEntries(sources);
    ModuleReads(wasm, 8, Outlines(sources));
  }
}
