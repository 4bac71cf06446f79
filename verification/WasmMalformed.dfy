/**
 * What the section reader makes of files that are not well-formed: lengths that point past a section or the file, and
 * positions outside it.
 */
module WasmMalformed {
  import opened Common
  import opened WasmReader
  import opened WasmTermination

  /** The name of the section, letter by letter. */
  lemma NameIsSpelled()
    ensures |SPEC_SECTION_NAME| == |"contractspecv0"|
    ensures forall i :: 0 <= i < |SPEC_SECTION_NAME| ==> SPEC_SECTION_NAME[i] == "contractspecv0"[i] as int
  {
  }

  // ---------------------------------------------------------------------------
  // Slices
  // ---------------------------------------------------------------------------

  lemma {:induction false} BytesAre(buf: seq<Byte>, from: nat, to: nat)
    requires to <= |buf|
    ensures Bytes(buf, from, to) == if from <= to then buf[from..to] else []
    decreases if from < to then to - from else 0
  {
    if from < to {
      BytesAre(buf, from + 1, to);
    }
  }

  /** A slice is cut at the end of the file, and a negative position counts from there. */
  lemma SliceMeans(buf: seq<Byte>, from: int, to: int)
    ensures 0 <= from <= to <= |buf| ==> Slice(buf, from, to) == buf[from..to]
    ensures 0 <= from <= |buf| < to ==> Slice(buf, from, to) == buf[from..]
    ensures |buf| <= from || (0 <= to <= from) ==> Slice(buf, from, to) == []
    ensures -|buf| <= from < 0 ==> Slice(buf, from, to) == Slice(buf, |buf| + from, to)
    ensures -|buf| <= to < 0 ==> Slice(buf, from, to) == Slice(buf, from, |buf| + to)
    ensures from < -|buf| ==> Slice(buf, from, to) == Slice(buf, 0, to)
    ensures to < -|buf| ==> Slice(buf, from, to) == []
  {
    BytesAre(buf, Clamp(|buf|, from), Clamp(|buf|, to));
  }

  /** Outside the file there are only zeros to read. */
  lemma LebOutside(buf: seq<Byte>, offset: int)
    requires offset >= |buf| || offset < 0
    ensures Leb(buf, offset) == (0, 1)
  {
    assert ByteAt(buf, offset) == 0 && Shl32(0, 0) == 0 && BitOr(0, 0) == 0;
  }

  // ---------------------------------------------------------------------------
  // Entries
  // ---------------------------------------------------------------------------

  lemma {:induction false} FramesEnd(wasm: seq<Byte>, pos: nat, entries: seq<seq<Byte>>, end: nat)
    requires FramesAre(wasm, pos, entries, end)
    ensures pos <= end
    decreases |entries|
  {
    if entries != [] {
      FramesEnd(wasm, pos + 4 + |entries[0]|, entries[1..], end);
    }
  }

  lemma AppendTwice<T>(a: seq<T>, b: seq<T>, more: Option<seq<T>>)
    ensures Append(a, Append(b, more)) == Append(a + b, more)
  {
    if more.Some? {
      Assoc(a, b, more.value);
    }
  }

  /** Entries that are framed well are read, whatever follows them. */
  lemma {:induction false} FramesThenRest(wasm: seq<Byte>, pos: nat, entries: seq<seq<Byte>>, last: nat, sectionEnd: int)
    requires FramesAre(wasm, pos, entries, last) && last < sectionEnd
    ensures EntriesFrom(wasm, pos, sectionEnd) == Append(entries, EntriesFrom(wasm, last, sectionEnd))
    decreases |entries|
  {
    var rest := EntriesFrom(wasm, last, sectionEnd);
    if entries == [] {
      assert rest.Some? ==> [] + rest.value == rest.value;
    } else {
      var next := pos + 4 + |entries[0]|;
      FramesEnd(wasm, next, entries[1..], last);
      SpellsSlice(wasm, pos + 4, entries[0]);
      FramesThenRest(wasm, next, entries[1..], last, sectionEnd);
      AppendTwice([entries[0]], entries[1..], rest);
      assert [entries[0]] + entries[1..] == entries;
    }
  }

  /** A length that does not fit into the file makes the reader throw, whatever was read before. */
  lemma TruncatedLengthThrows(wasm: seq<Byte>, pos: nat, entries: seq<seq<Byte>>, last: nat, sectionEnd: int)
    requires FramesAre(wasm, pos, entries, last) && last < sectionEnd && |wasm| < last + 4
    ensures EntriesFrom(wasm, pos, sectionEnd) == None
  {
    FramesThenRest(wasm, pos, entries, last, sectionEnd);
  }

  lemma OverlongEntry(wasm: seq<Byte>, last: nat, end: nat, sectionEnd: int)
    requires last < sectionEnd <= end && last + 4 <= |wasm| && end == last + 4 + BigEndianAt(wasm, last, 4)
    ensures EntriesFrom(wasm, last, sectionEnd) == Some([wasm[last + 4..if end <= |wasm| then end else |wasm|]])
  {
    SliceMeans(wasm, last + 4, end);
    var cut := wasm[last + 4..if end <= |wasm| then end else |wasm|];
    assert Slice(wasm, last + 4, end) == cut && EntriesFrom(wasm, end, sectionEnd) == Some([]);
    assert [cut] + [] == [cut];
  }

  /** An entry that reaches to the end of the section or beyond is the last one; it is read past the end of the section
      but not past the end of the file. */
  lemma OverlongEntryIsRead(wasm: seq<Byte>, pos: nat, entries: seq<seq<Byte>>, last: nat, end: nat, sectionEnd: int)
    requires FramesAre(wasm, pos, entries, last) && last < sectionEnd <= end
    requires last + 4 <= |wasm| && end == last + 4 + BigEndianAt(wasm, last, 4)
    ensures EntriesFrom(wasm, pos, sectionEnd)
         == Some(entries + [wasm[last + 4..if end <= |wasm| then end else |wasm|]])
  {
    FramesThenRest(wasm, pos, entries, last, sectionEnd);
    OverlongEntry(wasm, last, end, sectionEnd);
  }

  // ---------------------------------------------------------------------------
  // Numbers in more bytes than the standard allows
  // ---------------------------------------------------------------------------

  /** The i-th binary digit, least significant first. */
  predicate Bit(n: nat, i: nat)
    decreases i
  {
    if i == 0 then n % 2 == 1 else Bit(n / 2, i - 1)
  }

  lemma {:induction false} NoBits(i: nat)
    ensures !Bit(0, i)
    decreases i
  {
    if i > 0 {
      NoBits(i - 1);
    }
  }

  /** Or-ing works digit by digit. */
  lemma {:induction false} OrIsBitwise(a: nat, b: nat, i: nat)
    ensures Bit(BitOr(a, b), i) <==> Bit(a, i) || Bit(b, i)
    decreases i
  {
    if a == 0 {
      NoBits(i);
    } else if i > 0 {
      OrIsBitwise(a / 2, b / 2, i - 1);
    }
  }

  /** A shift multiplies by a power of two, drops what does not fit into 32 bits, and starts again after 31. */
  lemma ShiftWraps(a: nat, k: nat)
    ensures k < 32 ==> Shl32(a, k) == Shift(a, k) % TWO32
    ensures Shl32(a, k + 32) == Shl32(a, k) < TWO32
    ensures Shift(a, 0) == a && Shift(a, k + 1) == 2 * Shift(a, k)
  {
  }

  // ---------------------------------------------------------------------------
  // Sections
  // ---------------------------------------------------------------------------

  /** The walk has come so far, and the section there throws. */
  ghost predicate ThrowsAt(length: nat, sectionEnd: int -> int, own: int -> Option<seq<seq<Byte>>>, offset: int, m: nat) {
    && (m > 0 ==> RunsThrough(length, sectionEnd, own, offset, m - 1))
    && At(sectionEnd, offset, m) < length && own(At(sectionEnd, offset, m)).None?
  }

  lemma ThrowsLater(length: nat, sectionEnd: int -> int, own: int -> Option<seq<seq<Byte>>>, offset: int, m: nat)
    ensures ThrowsAt(length, sectionEnd, own, offset, m + 1)
       <==> Running(length, own, offset) && ThrowsAt(length, sectionEnd, own, sectionEnd(offset), m)
  {
    var next := sectionEnd(offset);
    assert At(sectionEnd, offset, 0) == offset;
    AtNext(sectionEnd, offset, m);
    HaltsOrRuns(length, sectionEnd, own, offset, m);
    if m > 0 {
      HaltsOrRuns(length, sectionEnd, own, next, m - 1);
    }
  }

  lemma ThrowsAtOnce(length: nat, sectionEnd: int -> int, own: int -> Option<seq<seq<Byte>>>, offset: int, m: nat)
    requires !Running(length, own, offset) && ThrowsAt(length, sectionEnd, own, offset, m)
    ensures m == 0 && offset < length
  {
    assert At(sectionEnd, offset, 0) == offset;
  }

  /** A walk throws exactly when a section that it reaches throws; whatever it read before is lost. */
  lemma {:induction false} WalkThrowsExactly(length: nat, sectionEnd: int -> int, own: int -> Option<seq<seq<Byte>>>,
                                             offset: int, rounds: nat)
    requires HaltsIn(length, sectionEnd, own, offset, rounds)
    ensures Walk(length, sectionEnd, own, offset, rounds).None?
       <==> exists m: nat :: ThrowsAt(length, sectionEnd, own, offset, m)
    decreases rounds
  {
    assert At(sectionEnd, offset, 0) == offset;
    if Running(length, own, offset) {
      var next := sectionEnd(offset);
      WalkThrowsExactly(length, sectionEnd, own, next, rounds - 1);
      if m: nat :| ThrowsAt(length, sectionEnd, own, next, m) {
        ThrowsLater(length, sectionEnd, own, offset, m);
      }
      if m: nat :| ThrowsAt(length, sectionEnd, own, offset, m) {
        assert m > 0;
        ThrowsLater(length, sectionEnd, own, offset, m - 1);
      }
    } else {
      if offset < length {
        assert ThrowsAt(length, sectionEnd, own, offset, 0);
      }
      if m: nat :| ThrowsAt(length, sectionEnd, own, offset, m) {
        ThrowsAtOnce(length, sectionEnd, own, offset, m);
      }
    }
  }
}
