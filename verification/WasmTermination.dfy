/**
 * When the section walk of WasmReader.dfy ends. A section size is read as a signed 32-bit number, so the walk can move
 * back in the file.
 */
module WasmTermination {
  import opened Common
  import opened WasmReader

  // ---------------------------------------------------------------------------
  // One section
  // ---------------------------------------------------------------------------

  /** A section moves the offset on exactly when its size is below 2^31, or so close to 2^32 that the two bytes or
      more of its header make up for the negative number. */
  lemma SectionAdvancesExactly(wasm: seq<Byte>, offset: nat, n: nat, width: nat)
    requires width <= 5 && n < TWO32 && LebIs(wasm, offset + 1, n, width)
    ensures SectionEnd(DecoderOf(wasm), offset) == offset + 1 + width + (if n < TWO31 then n else n - TWO32)
    ensures SectionEnd(DecoderOf(wasm), offset) > offset <==> n < TWO31 || n >= TWO32 - width
    ensures SectionEnd(DecoderOf(wasm), offset) == offset <==> n == TWO32 - width - 1
  {
    LebDecodes(wasm, offset + 1, n, width);
  }

  lemma {:induction false} LebFromBounds(buf: seq<Byte>, offset: int, bits: nat, shift: nat, bytesRead: nat)
    ensures var (value, length) := LebFrom(buf, offset, bits, shift, bytesRead);
            -TWO31 <= value < TWO31 && length > bytesRead
    decreases Remaining(buf, offset + bytesRead)
  {
    var byte := ByteAt(buf, offset + bytesRead);
    if byte < 128 {
    } else {
      LebFromBounds(buf, offset, BitOr(bits, Shl32(byte % 128, shift)), shift + 7, bytesRead + 1);
    }
  }

  /** Before the file there are only zeros to read, and every section there is two bytes long. */
  lemma LebBeforeFile(buf: seq<Byte>, offset: int)
    requires offset < 0
    ensures Leb(buf, offset) == (0, 1)
  {
    assert ByteAt(buf, offset) == 0 && Shl32(0, 0) == 0 && BitOr(0, 0) == 0;
  }

  const LOWEST := -TWO31

  lemma StaysAboveLowest(wasm: seq<Byte>, offset: int)
    requires offset >= LOWEST
    ensures EndOf(wasm)(offset) >= LOWEST
  {
    if offset < -1 {
      LebBeforeFile(wasm, offset + 1);
    } else {
      LebFromBounds(wasm, offset + 1, 0, 0, 0);
    }
  }

  // ---------------------------------------------------------------------------
  // The offsets a walk passes through
  // ---------------------------------------------------------------------------

  /** The offset after `n` rounds. */
  function At(sectionEnd: int -> int, offset: int, n: nat): int {
    if n == 0 then offset else sectionEnd(At(sectionEnd, offset, n - 1))
  }

  lemma {:induction false} AtNext(sectionEnd: int -> int, offset: int, n: nat)
    ensures At(sectionEnd, sectionEnd(offset), n) == At(sectionEnd, offset, n + 1)
  {
    if n == 0 {
      assert At(sectionEnd, offset, 1) == sectionEnd(At(sectionEnd, offset, 0));
    } else {
      AtNext(sectionEnd, offset, n - 1);
    }
  }

  ghost predicate RunsThrough(length: nat, sectionEnd: int -> int, own: int -> Option<seq<seq<Byte>>>, offset: int, n: nat) {
    forall m: nat :: m <= n ==> Running(length, own, At(sectionEnd, offset, m))
  }

  /** A walk has not halted within `n` rounds exactly when it is still running at every offset up to then. */
  lemma {:induction false} HaltsOrRuns(length: nat, sectionEnd: int -> int, own: int -> Option<seq<seq<Byte>>>, offset: int, n: nat)
    ensures HaltsIn(length, sectionEnd, own, offset, n) <==> !RunsThrough(length, sectionEnd, own, offset, n)
    decreases n
  {
    assert At(sectionEnd, offset, 0) == offset;
    if n == 0 {
    } else {
      var next := sectionEnd(offset);
      HaltsOrRuns(length, sectionEnd, own, next, n - 1);
      if RunsThrough(length, sectionEnd, own, offset, n) {
        forall m: nat | m <= n - 1 ensures Running(length, own, At(sectionEnd, next, m)) {
          AtNext(sectionEnd, offset, m);
        }
      }
      if Running(length, own, offset) && RunsThrough(length, sectionEnd, own, next, n - 1) {
        forall m: nat | m <= n ensures Running(length, own, At(sectionEnd, offset, m)) {
          if m > 0 {
            AtNext(sectionEnd, offset, m - 1);
          }
        }
      }
    }
  }

  lemma {:induction false} ForwardOffsets(length: nat, sectionEnd: int -> int, own: int -> Option<seq<seq<Byte>>>, offset: int,
                                          n: nat)
    requires RunsThrough(length, sectionEnd, own, offset, n)
    requires forall m: nat :: RunsThrough(length, sectionEnd, own, offset, m) ==> MovesOn(sectionEnd, At(sectionEnd, offset, m))
    ensures At(sectionEnd, offset, n) >= offset + n
  {
    if n == 0 {
    } else {
      assert RunsThrough(length, sectionEnd, own, offset, n - 1);
      ForwardOffsets(length, sectionEnd, own, offset, n - 1);
      assert MovesOn(sectionEnd, At(sectionEnd, offset, n - 1));
    }
  }

  predicate MovesOn(sectionEnd: int -> int, offset: int) {
    sectionEnd(offset) > offset
  }

  /** If every section that the walk reaches and reads moves the offset on, the walk ends. */
  lemma ForwardHalts(length: nat, sectionEnd: int -> int, own: int -> Option<seq<seq<Byte>>>, offset: nat)
    requires forall m: nat :: RunsThrough(length, sectionEnd, own, offset, m) ==> MovesOn(sectionEnd, At(sectionEnd, offset, m))
    ensures HaltsIn(length, sectionEnd, own, offset, length)
  {
    HaltsOrRuns(length, sectionEnd, own, offset, length);
    if RunsThrough(length, sectionEnd, own, offset, length) {
      ForwardOffsets(length, sectionEnd, own, offset, length);
      assert false;
    }
  }

  /** The size field of the section at `offset` is a number below 2^31, or one of the few that still move the walk on. */
  ghost predicate ForwardSize(wasm: seq<Byte>, offset: int) {
    offset >= 0 && exists n: nat, width: nat :: ForwardSizeIs(wasm, offset, n, width)
  }

  ghost predicate ForwardSizeIs(wasm: seq<Byte>, offset: nat, n: nat, width: nat) {
    width <= 5 && (n < TWO31 || TWO32 - width <= n < TWO32) && LebIs(wasm, offset + 1, n, width)
  }

  lemma ForwardSizeMoves(wasm: seq<Byte>, offset: int)
    requires ForwardSize(wasm, offset)
    ensures MovesOn(EndOf(wasm), offset)
  {
    var n: nat, width: nat :| ForwardSizeIs(wasm, offset, n, width);
    SectionAdvancesExactly(wasm, offset, n, width);
  }

  /** A file in which each section that the walk reaches has such a size is read to its end, or to a throw. */
  lemma ForwardSizesHalt(wasm: seq<Byte>)
    requires forall m: nat :: RunsThrough(|wasm|, EndOf(wasm), OwnOf(wasm), 8, m) ==> ForwardSize(wasm, At(EndOf(wasm), 8, m))
    ensures HaltsIn(|wasm|, EndOf(wasm), OwnOf(wasm), 8, |wasm|)
  {
    forall m: nat | RunsThrough(|wasm|, EndOf(wasm), OwnOf(wasm), 8, m) ensures MovesOn(EndOf(wasm), At(EndOf(wasm), 8, m)) {
      ForwardSizeMoves(wasm, At(EndOf(wasm), 8, m));
    }
    ForwardHalts(|wasm|, EndOf(wasm), OwnOf(wasm), 8);
  }

  // ---------------------------------------------------------------------------
  // Endless walks
  // ---------------------------------------------------------------------------

  /** The walk comes back, in round `j`, to where it was in round `i`, without having stopped. */
  ghost predicate Revisits(length: nat, sectionEnd: int -> int, own: int -> Option<seq<seq<Byte>>>, offset: int, i: nat, j: nat) {
    && i < j && At(sectionEnd, offset, i) == At(sectionEnd, offset, j)
    && RunsThrough(length, sectionEnd, own, offset, j)
  }

  lemma {:induction false} SameFromThere(sectionEnd: int -> int, offset: int, i: nat, j: nat, n: nat)
    requires At(sectionEnd, offset, i) == At(sectionEnd, offset, j)
    ensures At(sectionEnd, offset, i + n) == At(sectionEnd, offset, j + n)
  {
    if n == 0 {
    } else {
      SameFromThere(sectionEnd, offset, i, j, n - 1);
    }
  }

  lemma {:induction false} RevisitRuns(length: nat, sectionEnd: int -> int, own: int -> Option<seq<seq<Byte>>>, offset: int,
                                       i: nat, j: nat, n: nat)
    requires Revisits(length, sectionEnd, own, offset, i, j)
    ensures Running(length, own, At(sectionEnd, offset, n))
    decreases n
  {
    if n <= j {
    } else {
      RevisitRuns(length, sectionEnd, own, offset, i, j, n - (j - i));
      SameFromThere(sectionEnd, offset, i, j, n - j);
    }
  }

  lemma SubsetSize<T>(a: set<T>, b: set<T>)
    requires a <= b
    ensures |a| <= |b|
  {
    assert b == a + (b - a);
  }

  function Range(low: int, high: int): (range: set<int>)
    requires low <= high
    ensures forall x :: x in range <==> low <= x < high
    ensures |range| == high - low
    decreases high - low
  {
    if low == high then {} else Range(low, high - 1) + {high - 1}
  }

  function Values(f: nat -> int, n: nat): set<int> {
    if n == 0 then {} else Values(f, n - 1) + {f(n - 1)}
  }

  lemma {:induction false} ValueAt(f: nat -> int, n: nat, x: int) returns (m: nat)
    requires x in Values(f, n)
    ensures m < n && f(m) == x
  {
    if x == f(n - 1) {
      m := n - 1;
    } else {
      m := ValueAt(f, n - 1, x);
    }
  }

  ghost predicate Injective(f: nat -> int, n: nat) {
    forall i: nat, j: nat :: i < j < n ==> f(i) != f(j)
  }

  lemma {:induction false} ValuesSize(f: nat -> int, n: nat)
    requires Injective(f, n)
    ensures |Values(f, n)| == n
  {
    if n == 0 {
    } else {
      ValuesSize(f, n - 1);
      if f(n - 1) in Values(f, n - 1) {
        var m := ValueAt(f, n - 1, f(n - 1));
        assert false;
      }
    }
  }

  lemma {:induction false} ValuesWithin(f: nat -> int, n: nat, low: int, high: int)
    requires low <= high && forall m: nat :: m < n ==> low <= f(m) < high
    ensures Values(f, n) <= Range(low, high)
  {
    if n == 0 {
    } else {
      ValuesWithin(f, n - 1, low, high);
    }
  }

  /** More values than places: two are the same. */
  lemma Pigeonhole(f: nat -> int, low: int, high: int)
    requires low <= high && forall m: nat :: m <= high - low ==> low <= f(m) < high
    ensures !Injective(f, high - low + 1)
  {
    var n := high - low + 1;
    ValuesWithin(f, n, low, high);
    SubsetSize(Values(f, n), Range(low, high));
    if Injective(f, n) {
      ValuesSize(f, n);
      assert false;
    }
  }

  lemma {:induction false} OffsetsAboveLowest(wasm: seq<Byte>, n: nat)
    ensures At(EndOf(wasm), 8, n) >= LOWEST
  {
    if n == 0 {
    } else {
      OffsetsAboveLowest(wasm, n - 1);
      StaysAboveLowest(wasm, At(EndOf(wasm), 8, n - 1));
    }
  }

  lemma RevisitIsEndless(wasm: seq<Byte>, i: nat, j: nat, rounds: nat)
    requires Revisits(|wasm|, EndOf(wasm), OwnOf(wasm), 8, i, j)
    ensures !HaltsIn(|wasm|, EndOf(wasm), OwnOf(wasm), 8, rounds)
  {
    forall m: nat | m <= rounds ensures Running(|wasm|, OwnOf(wasm), At(EndOf(wasm), 8, m)) {
      RevisitRuns(|wasm|, EndOf(wasm), OwnOf(wasm), 8, i, j, m);
    }
    HaltsOrRuns(|wasm|, EndOf(wasm), OwnOf(wasm), 8, rounds);
  }

  lemma EndlessRevisits(wasm: seq<Byte>) returns (i: nat, j: nat)
    requires !HaltsIn(|wasm|, EndOf(wasm), OwnOf(wasm), 8, |wasm| - LOWEST)
    ensures Revisits(|wasm|, EndOf(wasm), OwnOf(wasm), 8, i, j)
  {
    var most := |wasm| - LOWEST;
    HaltsOrRuns(|wasm|, EndOf(wasm), OwnOf(wasm), 8, most);
    var f := (m: nat) => At(EndOf(wasm), 8, m);
    forall m: nat | m <= most ensures LOWEST <= f(m) < |wasm| {
      OffsetsAboveLowest(wasm, m);
      assert Running(|wasm|, OwnOf(wasm), At(EndOf(wasm), 8, m));
    }
    Pigeonhole(f, LOWEST, |wasm|);
    i, j :| i < j < most + 1 && f(i) == f(j);
  }

  ghost predicate Endless(wasm: seq<Byte>) {
    forall rounds: nat :: !HaltsIn(|wasm|, EndOf(wasm), OwnOf(wasm), 8, rounds)
  }

  ghost predicate ComesBack(wasm: seq<Byte>) {
    exists i: nat, j: nat :: Revisits(|wasm|, EndOf(wasm), OwnOf(wasm), 8, i, j)
  }

  /** The walk over a file is endless exactly when it comes back to an offset it has been at. */
  lemma EndlessExactly(wasm: seq<Byte>)
    ensures Endless(wasm) <==> ComesBack(wasm)
  {
    if ComesBack(wasm) {
      var i: nat, j: nat :| Revisits(|wasm|, EndOf(wasm), OwnOf(wasm), 8, i, j);
      forall rounds: nat ensures !HaltsIn(|wasm|, EndOf(wasm), OwnOf(wasm), 8, rounds) {
        RevisitIsEndless(wasm, i, j, rounds);
      }
    }
    if Endless(wasm) {
      var most: nat := |wasm| - LOWEST;
      assert !HaltsIn(|wasm|, EndOf(wasm), OwnOf(wasm), 8, most);
      var i, j := EndlessRevisits(wasm);
    }
  }

  // ---------------------------------------------------------------------------
  // A file on which the walk never ends
  // ---------------------------------------------------------------------------

  /** The header of a module, and a section of id 1 whose five size bytes say 2^32 - 6. */
  const STALLING: seq<Byte> := [0, 97, 115, 109, 1, 0, 0, 0, 1, 250, 255, 255, 255, 15]

  lemma StallingFileNeverEnds()
    ensures EndOf(STALLING)(8) == 8
    ensures Endless(STALLING)
  {
    var wasm := STALLING;
    assert LebIs(wasm, 13, 15, 1) && LebIs(wasm, 12, 2047, 2) && LebIs(wasm, 11, 262143, 3);
    assert LebIs(wasm, 10, 33554431, 4) && LebIs(wasm, 9, TWO32 - 6, 5);
    SectionAdvancesExactly(wasm, 8, TWO32 - 6, 5);
    assert At(EndOf(wasm), 8, 0) == At(EndOf(wasm), 8, 1) == 8;
    assert OwnOf(wasm)(8) == Some([]);
    assert Revisits(|wasm|, EndOf(wasm), OwnOf(wasm), 8, 0, 1);
    EndlessExactly(wasm);
  }
}
