/**
 * Exact fee buffering over decimal fractions (src/client/stellarClient.ts). A multiplier is given by the text that
 * JavaScript prints for the number; only numbers of at least one get past the constructor of the client.
 */
module FeeBuffer {
  import opened Common

  datatype FeeError = NotADecimal | NegativeValue | LimitBelowSimulated | LimitExceeded
  datatype Outcome<+T> = Ok(value: T) | Invalid(error: FeeError)

  // ---------------------------------------------------------------------------
  // Decimal text
  // ---------------------------------------------------------------------------

  predicate Digits(s: string) {
    s == "" || ('0' <= s[0] <= '9' && Digits(s[1..]))
  }

  function DigitValue(c: char): nat
    requires '0' <= c <= '9'
  {
    c as int - '0' as int
  }

  function Pow10(n: nat): Positive
  {
    if n == 0 then 1 else 10 * Pow10(n - 1)
  }

  /** The natural number that a digit string is read as, after digits worth `acc`. */
  function NatOf(s: string, acc: nat := 0): nat
    requires Digits(s)
  {
    if s == "" then acc else NatOf(s[1..], 10 * acc + DigitValue(s[0]))
  }

  /** What the digits after the decimal point denote: each is worth a tenth of the one before it. */
  function FractionalReal(s: string): real
    requires Digits(s)
  {
    if s == "" then 0.0 else (DigitValue(s[0]) as real + FractionalReal(s[1..])) / 10.0
  }

  function DecimalReal(whole: string, fractional: string): real
    requires Digits(whole) && Digits(fractional)
  {
    NatOf(whole) as real + FractionalReal(fractional)
  }

  /** `text` is plain decimal notation with these parts. */
  ghost predicate Plain(text: string, whole: string, fractional: string) {
    && whole != "" && Digits(whole) && Digits(fractional)
    && ((text == whole && fractional == "") || text == whole + "." + fractional)
  }

  /** `text` is plain decimal notation for the number `m`. */
  ghost predicate Denotes(text: string, m: real) {
    exists whole, fractional :: Plain(text, whole, fractional) && m == DecimalReal(whole, fractional)
  }

  // ---------------------------------------------------------------------------
  // The conversion
  // ---------------------------------------------------------------------------

  /** The parts between the points. */
  function Split(s: string): (parts: seq<string>)
    ensures |parts| == Points(s) + 1
  {
    if s == "" then [""]
    else
      var parts := Split(s[1..]);
      if s[0] == '.' then [""] + parts else [[s[0]] + parts[0]] + parts[1..]
  }

  function Points(s: string): nat {
    if s == "" then 0 else (if s[0] == '.' then 1 else 0) + Points(s[1..])
  }

  function StripZeros(s: string): string {
    if s != "" && s[|s| - 1] == '0' then StripZeros(s[..|s| - 1]) else s
  }

  function StripPoint(s: string): string {
    if s != "" && s[|s| - 1] == '.' then s[..|s| - 1] else s
  }

  /** The text the fraction is read from. JavaScript prints a number of at least one with an exponent only from 1e21
      on, and there `toFixed` gives the same text, of which trailing zeros and a trailing point are cut. */
  function DecimalText(multiplier: string): string {
    if 'e' in multiplier then StripPoint(StripZeros(multiplier)) else multiplier
  }

  type Positive = n: nat | n > 0 witness 1

  /** A power of ten is never zero, so the source's fallback to a denominator of one cannot be reached. */
  datatype Fraction = Fraction(numerator: nat, denominator: Positive) {
    ghost predicate Is(m: real) {
      numerator as real == m * denominator as real
    }
  }

  function ToFraction(multiplier: string): Outcome<Fraction> {
    var parts := Split(DecimalText(multiplier));
    FractionOf(parts[0], if |parts| > 1 then parts[1] else "")
  }

  function FractionOf(whole: string, fractional: string): Outcome<Fraction> {
    if whole == "" || !Digits(whole) || !Digits(fractional) then Invalid(NotADecimal)
    else
      DigitsConcat(whole, fractional);
      Ok(Fraction(NatOf(whole + fractional), Pow10(|fractional|)))
  }

  lemma {:induction false} DigitsConcat(a: string, b: string)
    ensures Digits(a + b) <==> Digits(a) && Digits(b)
  {
    if a == "" {
      assert a + b == b;
    } else {
      DigitsConcat(a[1..], b);
      assert (a + b)[1..] == a[1..] + b;
    }
  }

  function CeilTimes(value: nat, fraction: Fraction): int {
    (value * fraction.numerator + (fraction.denominator - 1)) / fraction.denominator
  }

  function MultiplyBy(value: int, multiplier: Outcome<Fraction>): Outcome<int> {
    if value < 0 then Invalid(NegativeValue)
    else
      match multiplier
      case Invalid(error) => Invalid(error)
      case Ok(fraction) => Ok(CeilTimes(value, fraction))
  }

  function MultiplyAndCeil(value: int, multiplier: string): Outcome<int> {
    MultiplyBy(value, ToFraction(multiplier))
  }

  function ScaleBy(multiplier: Outcome<Fraction>): int -> Outcome<int> {
    (value: int) => MultiplyBy(value, multiplier)
  }

  /** `MultiplyAndCeil` at the multiplier of a client. */
  function Scale(multiplier: string): (scale: int -> Outcome<int>)
    ensures forall value :: scale(value) == MultiplyAndCeil(value, multiplier)
  {
    ScaleBy(ToFraction(multiplier))
  }

  // ---------------------------------------------------------------------------
  // The fraction is exact
  // ---------------------------------------------------------------------------

  lemma {:induction false} SplitWhole(s: string)
    requires '.' !in s
    ensures Split(s) == [s]
  {
    if s == "" {
    } else {
      SplitWhole(s[1..]);
      assert [s[0]] + s[1..] == s;
    }
  }

  lemma {:induction false} SplitAtPoint(a: string, rest: string)
    requires '.' !in a
    ensures Split(a + "." + rest) == [a] + Split(rest)
  {
    var s := a + "." + rest;
    if a == "" {
      assert s[1..] == rest;
    } else {
      SplitAtPoint(a[1..], rest);
      assert s[1..] == a[1..] + "." + rest;
      assert [a[0]] + a[1..] == a;
    }
  }

  /** With at most one point, the parts put together again are the text. */
  lemma {:induction false} SplitJoins(s: string)
    requires Points(s) <= 1
    ensures var parts := Split(s);
            s == if |parts| == 1 then parts[0] else parts[0] + "." + parts[1]
  {
    if s == "" {
    } else {
      SplitJoins(s[1..]);
      var parts := Split(s[1..]);
      assert s == [s[0]] + s[1..];
      if s[0] == '.' {
        assert Split(s) == ["", parts[0]];
        assert "" + "." + parts[0] == [s[0]] + parts[0];
      } else if |parts| == 2 {
        assert [s[0]] + (parts[0] + "." + parts[1]) == ([s[0]] + parts[0]) + "." + parts[1];
      }
    }
  }

  lemma {:induction false} NotADigit(s: string, c: char)
    requires Digits(s) && !('0' <= c <= '9')
    ensures c !in s
  {
    if s == "" {
    } else {
      NotADigit(s[1..], c);
      assert s == [s[0]] + s[1..];
    }
  }

  lemma {:induction false} NatOfConcat(a: string, b: string, acc: nat)
    requires Digits(a) && Digits(b)
    ensures Digits(a + b) && NatOf(a + b, acc) == NatOf(b, NatOf(a, acc))
  {
    DigitsConcat(a, b);
    if a == "" {
      assert a + b == b;
    } else {
      NatOfConcat(a[1..], b, 10 * acc + DigitValue(a[0]));
      assert (a + b)[1..] == a[1..] + b;
    }
  }

  lemma DigitStep(n: nat, acc: nat, digit: nat, rest: real, p: nat, all: real, q: nat)
    requires n as real == ((10 * acc + digit) as real + rest) * p as real
    requires all == (digit as real + rest) / 10.0 && q == 10 * p
    ensures n as real == (acc as real + all) * q as real
  {
  }

  /** Reading on after `acc` scales the decimal `acc` with these digits behind the point. */
  lemma {:induction false} ReadsScaled(s: string, acc: nat)
    requires Digits(s)
    ensures NatOf(s, acc) as real == (acc as real + FractionalReal(s)) * Pow10(|s|) as real
  {
    if s == "" {
    } else {
      var digit := DigitValue(s[0]);
      ReadsScaled(s[1..], 10 * acc + digit);
      DigitStep(NatOf(s, acc), acc, digit, FractionalReal(s[1..]), Pow10(|s| - 1), FractionalReal(s), Pow10(|s|));
    }
  }

  lemma ReadsParts(text: string, whole: string, fractional: string)
    requires Plain(text, whole, fractional)
    ensures ToFraction(text) == FractionOf(whole, fractional)
  {
    NotADigit(whole, '.');
    NotADigit(fractional, '.');
    NotADigit(whole, 'e');
    NotADigit(fractional, 'e');
    if text == whole && fractional == "" {
      SplitWhole(text);
    } else {
      SplitAtPoint(whole, fractional);
      SplitWhole(fractional);
    }
  }

  /** Every plain decimal is accepted, and the fraction is the number it denotes. */
  lemma PlainIsExact(text: string, m: real)
    requires Denotes(text, m)
    ensures ToFraction(text).Ok? && ToFraction(text).value.Is(m)
    ensures m >= 0.0
  {
    var whole, fractional :| Plain(text, whole, fractional) && m == DecimalReal(whole, fractional);
    ReadsParts(text, whole, fractional);
    PartsAreExact(whole, fractional);
  }

  lemma PartsAreExact(whole: string, fractional: string)
    requires whole != "" && Digits(whole) && Digits(fractional)
    ensures var r := FractionOf(whole, fractional);
            r.Ok? && r.value.Is(DecimalReal(whole, fractional))
    ensures DecimalReal(whole, fractional) >= 0.0
  {
    FractionalNonNegative(fractional);
    FractionOfParts(whole, fractional);
    ScaledIs(NatOf(whole), fractional);
  }

  lemma FractionOfParts(whole: string, fractional: string)
    requires whole != "" && Digits(whole) && Digits(fractional)
    ensures FractionOf(whole, fractional) == Ok(Fraction(NatOf(fractional, NatOf(whole)), Pow10(|fractional|)))
  {
    NatOfConcat(whole, fractional, 0);
  }

  lemma ScaledIs(acc: nat, s: string)
    requires Digits(s)
    ensures Fraction(NatOf(s, acc), Pow10(|s|)).Is(acc as real + FractionalReal(s))
  {
    ReadsScaled(s, acc);
  }

  lemma {:induction false} FractionalNonNegative(s: string)
    requires Digits(s)
    ensures FractionalReal(s) >= 0.0
  {
    if s == "" {
    } else {
      FractionalNonNegative(s[1..]);
    }
  }

  lemma {:induction false} StripKeepsExponent(s: string)
    requires 'e' in s
    ensures 'e' in StripZeros(s) && Points(StripZeros(s)) <= Points(s)
  {
    if s[|s| - 1] == '0' {
      var front := s[..|s| - 1];
      assert s == front + [s[|s| - 1]];
      StripKeepsExponent(front);
      PointsOfPrefix(front, [s[|s| - 1]]);
    }
  }

  lemma {:induction false} PointsOfPrefix(a: string, b: string)
    ensures Points(a) <= Points(a + b)
  {
    if a == "" {
    } else {
      PointsOfPrefix(a[1..], b);
      assert (a + b)[1..] == a[1..] + b;
    }
  }

  /** Exponent notation keeps its exponent through the cutting of zeros, so it is never a fraction. */
  lemma ExponentIsRejected(text: string)
    requires Points(text) <= 1 && 'e' in text
    ensures ToFraction(text) == Invalid(NotADecimal)
  {
    var cut := StripZeros(text);
    StripKeepsExponent(text);
    var read := StripPoint(cut);
    if read != cut {
      assert cut == read + [cut[|cut| - 1]];
      PointsOfPrefix(read, [cut[|cut| - 1]]);
    }
    assert 'e' in read && read == DecimalText(text);
    ExponentInPart(read);
  }

  lemma ExponentInPart(read: string)
    requires Points(read) <= 1 && 'e' in read
    ensures !Digits(Split(read)[0]) || (|Split(read)| > 1 && !Digits(Split(read)[1]))
  {
  }

  /** The text that JavaScript prints for 10^21, which the constructor of the client accepts. */
  lemma SextillionIsRejected()
    ensures ToFraction("1e+21") == Invalid(NotADecimal)
  {
    var text := "1e+21";
    assert text[1] == 'e' && text[1..] == "e+21" && text[1..][1..] == "+21";
    assert "+21"[1..] == "21" && "21"[1..] == "1" && "1"[1..] == "";
    assert Points("1") == 0 && Points("+21") == 0;
    ExponentIsRejected(text);
  }

  /** The number texts that convert are exactly the plain decimals. */
  lemma AcceptsExactlyPlain(text: string)
    requires Points(text) <= 1
    ensures ToFraction(text).Ok? <==> exists m :: Denotes(text, m)
  {
    if ToFraction(text).Ok? {
      if 'e' in text {
        ExponentIsRejected(text);
        assert false;
      }
      SplitJoins(text);
      var parts := Split(text);
      var fractional := if |parts| > 1 then parts[1] else "";
      assert Plain(text, parts[0], fractional);
      assert Denotes(text, DecimalReal(parts[0], fractional));
    }
    if m :| Denotes(text, m) {
      PlainIsExact(text, m);
    }
  }

  // ---------------------------------------------------------------------------
  // Rounding up
  // ---------------------------------------------------------------------------

  ghost predicate LeastAtLeast(r: int, x: real) {
    r as real >= x && r as real < x + 1.0
  }

  lemma LeastIsLeast(r: int, x: real, k: int)
    requires LeastAtLeast(r, x) && k as real >= x
    ensures r <= k
  {
  }

  lemma PositiveProduct(x: real, d: real)
    requires x > 0.0 && d > 0.0
    ensures x * d > 0.0
  {
  }

  lemma ScaledOrder(a: real, b: real, d: real)
    requires d > 0.0
    ensures a * d >= b * d ==> a >= b
    ensures a * d < b * d ==> a < b
  {
    if a < b {
      PositiveProduct(b - a, d);
      assert (b - a) * d == b * d - a * d;
    } else if a > b {
      PositiveProduct(a - b, d);
      assert (a - b) * d == a * d - b * d;
    }
  }

  lemma QuotientBounds(product: nat, d: nat, r: int)
    requires d > 0 && r == (product + (d - 1)) / d
    ensures product <= r * d < product + d
  {
  }

  lemma BoundsScale(product: nat, d: nat, r: int, x: real)
    requires d > 0 && product as real == x * d as real
    requires product <= r * d < product + d
    ensures LeastAtLeast(r, x)
  {
    assert (r * d) as real == r as real * d as real;
    ScaledOrder(r as real, x, d as real);
    assert (x + 1.0) * d as real == x * d as real + d as real;
    ScaledOrder(r as real, x + 1.0, d as real);
  }

  lemma CeilingDivides(product: nat, d: nat, x: real)
    requires d > 0 && product as real == x * d as real
    ensures LeastAtLeast((product + (d - 1)) / d, x)
  {
    QuotientBounds(product, d, (product + (d - 1)) / d);
    BoundsScale(product, d, (product + (d - 1)) / d, x);
  }

  lemma ScaledProduct(value: nat, n: nat, m: real, d: nat)
    requires n as real == m * d as real
    ensures (value * n) as real == (value as real * m) * d as real
  {
  }

  lemma Grows(x: real, m: real)
    requires x >= 0.0 && m >= 1.0
    ensures x * m >= x
  {
  }

  lemma CeilTimesIsLeast(value: nat, fraction: Fraction, m: real)
    requires fraction.Is(m) && m >= 0.0
    ensures LeastAtLeast(CeilTimes(value, fraction), value as real * m)
  {
    ScaledProduct(value, fraction.numerator, m, fraction.denominator);
    CeilingDivides(value * fraction.numerator, fraction.denominator, value as real * m);
  }

  /** `outcome` is `x` rounded up, unless the value it comes from is negative. */
  ghost predicate CeilsTo(outcome: Outcome<int>, value: int, x: real) {
    if value < 0 then outcome == Invalid(NegativeValue) else outcome.Ok? && LeastAtLeast(outcome.value, x)
  }

  ghost function Times(m: real): int -> real {
    (value: int) => value as real * m
  }

  lemma DenotedNonNegative(text: string, m: real)
    requires Denotes(text, m)
    ensures m >= 0.0
  {
    PlainIsExact(text, m);
  }

  // ---------------------------------------------------------------------------
  // Buffering a transaction
  // ---------------------------------------------------------------------------

  datatype Resources = Resources(instructions: nat, diskReadBytes: nat, writeBytes: nat)
  datatype SorobanData = SorobanData(resources: Resources, resourceFee: int)
  /** `fee` is the total fee; a rebuilt transaction names its base fee instead, and the builder adds the resource
      fee to it. */
  datatype Transaction = Transaction(fee: nat, sorobanData: Option<SorobanData>)
  datatype Buffered = Untouched | Rebuilt(baseFee: int, resourceFee: int, instructions: int, diskReadBytes: int, writeBytes: int)

  function SimulatedBaseFee(tx: Transaction): int
    requires tx.sorobanData.Some?
  {
    var resourceFee := tx.sorobanData.value.resourceFee;
    if tx.fee > resourceFee then tx.fee - resourceFee else 0
  }

  /** Buffering with `scale` for the multiplication by the multiplier of the client. */
  function BufferWith(scale: int -> Outcome<int>, tx: Transaction, maxFeeLimit: Option<nat>): Outcome<Buffered> {
    if tx.sorobanData.None? then Ok(Untouched)
    else
      match (scale(tx.sorobanData.value.resourceFee), scale(SimulatedBaseFee(tx)))
      case (Invalid(error), _) => Invalid(error)
      case (_, Invalid(error)) => Invalid(error)
      case (Ok(resourceFee), Ok(baseFee)) =>
        if maxFeeLimit.Some? && maxFeeLimit.value < tx.fee then Invalid(LimitBelowSimulated)
        else if maxFeeLimit.Some? && baseFee + resourceFee > maxFeeLimit.value then Invalid(LimitExceeded)
        else
          var resources := tx.sorobanData.value.resources;
          match (scale(resources.instructions), scale(resources.diskReadBytes), scale(resources.writeBytes))
          case (Ok(i), Ok(d), Ok(w)) => Ok(Rebuilt(baseFee, resourceFee, i, d, w))
          case (Invalid(error), _, _) => Invalid(error)
          case (_, Invalid(error), _) => Invalid(error)
          case (_, _, Invalid(error)) => Invalid(error)
  }

  function ApplyFeeBuffer(tx: Transaction, multiplier: string, maxFeeLimit: Option<nat>): Outcome<Buffered> {
    BufferWith(Scale(multiplier), tx, maxFeeLimit)
  }

  ghost predicate ScalesBy(scale: int -> Outcome<int>, product: int -> real) {
    forall value :: CeilsTo(scale(value), value, product(value))
  }

  /** What multiplication by a number of at least one does. */
  ghost predicate Enlarges(product: int -> real) {
    && (forall v :: v >= 0 ==> product(v) >= v as real)
    && forall v, w :: product(v + w) == product(v) + product(w)
  }

  lemma Distribute(a: int, b: int, m: real)
    ensures (a + b) as real * m == a as real * m + b as real * m
  {
  }

  lemma TimesEnlarges(m: real)
    requires m >= 1.0
    ensures Enlarges(Times(m))
  {
    var product := Times(m);
    forall v: int | v >= 0 ensures product(v) >= v as real {
      Grows(v as real, m);
    }
    forall v: int, w: int ensures product(v + w) == product(v) + product(w) {
      Distribute(v, w, m);
    }
  }

  lemma FractionScales(fraction: Fraction, m: real)
    requires fraction.Is(m) && m >= 0.0
    ensures ScalesBy(ScaleBy(Ok(fraction)), Times(m))
  {
    var scale := ScaleBy(Ok(fraction));
    forall value: int ensures CeilsTo(scale(value), value, Times(m)(value)) {
      if value >= 0 {
        CeilTimesIsLeast(value, fraction, m);
      }
    }
  }

  /** `MultiplyAndCeil` gives a value times a plain decimal, rounded up to the least integer that is enough; negative
      values are refused. */
  lemma MultipliesAndCeils(text: string, m: real)
    requires Denotes(text, m)
    ensures ScalesBy(Scale(text), Times(m))
  {
    PlainIsExact(text, m);
    FractionScales(ToFraction(text).value, m);
  }

  lemma ScalesInOrder(scale1: int -> Outcome<int>, product1: int -> real, v1: nat,
                      scale2: int -> Outcome<int>, product2: int -> real, v2: nat)
    requires ScalesBy(scale1, product1) && ScalesBy(scale2, product2) && product1(v1) <= product2(v2)
    ensures scale1(v1).Ok? && scale2(v2).Ok? && scale1(v1).value <= scale2(v2).value
  {
  }

  lemma TimesInOrder(v1: nat, m1: real, v2: nat, m2: real)
    requires v1 <= v2 && 0.0 <= m1 <= m2
    ensures Times(m1)(v1) <= Times(m2)(v2)
  {
  }

  /** A larger value or a larger multiplier never gives a smaller result. */
  lemma BufferIsMonotone(v1: nat, v2: nat, t1: string, m1: real, t2: string, m2: real)
    requires Denotes(t1, m1) && Denotes(t2, m2) && v1 <= v2 && m1 <= m2
    ensures var o1, o2 := Scale(t1)(v1), Scale(t2)(v2);
            o1.Ok? && o2.Ok? && o1.value <= o2.value
  {
    DenotedNonNegative(t1, m1);
    MultipliesAndCeils(t1, m1);
    MultipliesAndCeils(t2, m2);
    TimesInOrder(v1, m1, v2, m2);
    ScalesInOrder(Scale(t1), Times(m1), v1, Scale(t2), Times(m2), v2);
  }

  /** The least integer that is not below `x`. */
  function Ceiling(x: real): int {
    -((-x).Floor)
  }

  lemma LeastIsCeiling(r: int, x: real)
    ensures LeastAtLeast(r, x) <==> r == Ceiling(x)
  {
  }

  /** What the rebuilt transaction is charged: the resource fee on its own and, if it is part of the simulated fee, what
      that fee leaves beside it. */
  function TotalFee(tx: Transaction, product: int -> real): int
    requires tx.sorobanData.Some?
  {
    var resourceFee := tx.sorobanData.value.resourceFee;
    Ceiling(product(resourceFee)) + if resourceFee <= tx.fee then Ceiling(product(tx.fee - resourceFee)) else 0
  }

  /** The total of a rebuilt transaction covers the simulated fee, is less than two stroops above the exact product and
      respects the limit; a resource fee above the simulated fee is all that is charged; every resource is rounded up on
      its own. */
  ghost predicate Tight(tx: Transaction, product: int -> real, limit: Option<nat>, out: Buffered)
    requires tx.sorobanData.Some?
  {
    var SorobanData(resources, resourceFee) := tx.sorobanData.value;
    && out.Rebuilt? && resourceFee >= 0
    && var total := out.baseFee + out.resourceFee;
       && total == TotalFee(tx, product) && out.resourceFee == Ceiling(product(resourceFee))
       && (resourceFee <= tx.fee ==> product(tx.fee) <= total as real < product(tx.fee) + 2.0)
       && (tx.fee < resourceFee ==> out.baseFee == 0)
       && total >= tx.fee && total >= resourceFee
       && (limit.Some? ==> total <= limit.value)
       && out.instructions == Ceiling(product(resources.instructions))
       && out.diskReadBytes == Ceiling(product(resources.diskReadBytes))
       && out.writeBytes == Ceiling(product(resources.writeBytes))
  }

  lemma ScaledIsCeiling(scale: int -> Outcome<int>, product: int -> real, value: int)
    requires ScalesBy(scale, product)
    ensures scale(value) == if value < 0 then Invalid(NegativeValue) else Ok(Ceiling(product(value)))
  {
    assert CeilsTo(scale(value), value, product(value));
    if value >= 0 {
      LeastIsCeiling(scale(value).value, product(value));
    }
  }

  lemma NothingCostsNothing(product: int -> real)
    requires Enlarges(product)
    ensures product(0) == 0.0
  {
    assert product(0 + 0) == product(0) + product(0);
  }

  /** The fees that the source computes add up to `TotalFee`. */
  lemma FeesAddUp(scale: int -> Outcome<int>, product: int -> real, tx: Transaction)
    requires ScalesBy(scale, product) && Enlarges(product) && tx.sorobanData.Some?
    ensures var resource, base := scale(tx.sorobanData.value.resourceFee), scale(SimulatedBaseFee(tx));
            if tx.sorobanData.value.resourceFee < 0 then resource == Invalid(NegativeValue)
            else && resource == Ok(Ceiling(product(tx.sorobanData.value.resourceFee))) && base.Ok?
                 && base.value + resource.value == TotalFee(tx, product)
                 && (tx.fee < tx.sorobanData.value.resourceFee ==> base.value == 0)
  {
    var resourceFee := tx.sorobanData.value.resourceFee;
    ScaledIsCeiling(scale, product, resourceFee);
    ScaledIsCeiling(scale, product, SimulatedBaseFee(tx));
    NothingCostsNothing(product);
  }

  lemma TotalBounds(tx: Transaction, product: int -> real)
    requires Enlarges(product) && tx.sorobanData.Some? && tx.sorobanData.value.resourceFee >= 0
    ensures var total, resourceFee := TotalFee(tx, product), tx.sorobanData.value.resourceFee;
            && (resourceFee <= tx.fee ==> product(tx.fee) <= total as real < product(tx.fee) + 2.0)
            && total >= tx.fee && total >= resourceFee
  {
    var resourceFee := tx.sorobanData.value.resourceFee;
    if resourceFee <= tx.fee {
      assert product(resourceFee + (tx.fee - resourceFee)) == product(resourceFee) + product(tx.fee - resourceFee);
    }
  }

  /** A rebuilt transaction carries the scaled amounts, within the limit. */
  lemma RebuiltAmounts(scale: int -> Outcome<int>, tx: Transaction, limit: Option<nat>)
    requires tx.sorobanData.Some? && BufferWith(scale, tx, limit).Ok?
    ensures var SorobanData(resources, resourceFee) := tx.sorobanData.value;
            var out := BufferWith(scale, tx, limit).value;
            && out.Rebuilt? && scale(resourceFee) == Ok(out.resourceFee) && scale(SimulatedBaseFee(tx)) == Ok(out.baseFee)
            && scale(resources.instructions) == Ok(out.instructions)
            && scale(resources.diskReadBytes) == Ok(out.diskReadBytes)
            && scale(resources.writeBytes) == Ok(out.writeBytes)
            && (limit.Some? ==> out.baseFee + out.resourceFee <= limit.value)
  {
  }

  lemma ScaledIsTight(scale: int -> Outcome<int>, product: int -> real, tx: Transaction, limit: Option<nat>)
    requires ScalesBy(scale, product) && Enlarges(product) && tx.sorobanData.Some?
    ensures BufferWith(scale, tx, limit).Ok? ==> Tight(tx, product, limit, BufferWith(scale, tx, limit).value)
  {
    if BufferWith(scale, tx, limit).Ok? {
      RebuiltAmounts(scale, tx, limit);
      FeesAddUp(scale, product, tx);
      TotalBounds(tx, product);
      var resources := tx.sorobanData.value.resources;
      ScaledIsCeiling(scale, product, resources.instructions);
      ScaledIsCeiling(scale, product, resources.diskReadBytes);
      ScaledIsCeiling(scale, product, resources.writeBytes);
    }
  }

  lemma BufferedFeeIsTight(tx: Transaction, text: string, m: real, limit: Option<nat>)
    requires Denotes(text, m) && m >= 1.0
    ensures var out := ApplyFeeBuffer(tx, text, limit);
            if tx.sorobanData.None? then out == Ok(Untouched) else out.Ok? ==> Tight(tx, Times(m), limit, out.value)
  {
    if tx.sorobanData.Some? {
      MultipliesAndCeils(text, m);
      TimesEnlarges(m);
      ScaledIsTight(Scale(text), Times(m), tx, limit);
    }
  }

  /** Which error is thrown, if any: a negative resource fee first, then a limit below the simulated fee, then a total
      above the limit. */
  ghost predicate FailsExactly(tx: Transaction, product: int -> real, limit: Option<nat>, out: Outcome<Buffered>)
    requires tx.sorobanData.Some?
  {
    if tx.sorobanData.value.resourceFee < 0 then out == Invalid(NegativeValue)
    else if limit.Some? && limit.value < tx.fee then out == Invalid(LimitBelowSimulated)
    else if limit.Some? && limit.value < TotalFee(tx, product) then out == Invalid(LimitExceeded)
    else out.Ok?
  }

  lemma ScaledFailsExactly(scale: int -> Outcome<int>, product: int -> real, tx: Transaction, limit: Option<nat>)
    requires ScalesBy(scale, product) && Enlarges(product) && tx.sorobanData.Some?
    ensures FailsExactly(tx, product, limit, BufferWith(scale, tx, limit))
  {
    FeesAddUp(scale, product, tx);
    var resources := tx.sorobanData.value.resources;
    ScaledIsCeiling(scale, product, resources.instructions);
    ScaledIsCeiling(scale, product, resources.diskReadBytes);
    ScaledIsCeiling(scale, product, resources.writeBytes);
  }

  /** The resource fee is no debt and the whole buffered fee stays within the limit. */
  ghost predicate Affordable(tx: Transaction, product: int -> real, limit: Option<nat>)
    requires tx.sorobanData.Some?
  {
    tx.sorobanData.value.resourceFee >= 0 && (limit.Some? ==> TotalFee(tx, product) <= limit.value)
  }

  /** A multiplier of at least one is printed as a plain decimal or, from 1e21 on, with an exponent. Buffering fails
      exactly for one printed with an exponent, a negative resource fee or a total above the limit; a limit below the
      simulated fee is only the reason that is reported first. */
  lemma BufferingSucceedsExactly(tx: Transaction, text: string, m: real, limit: Option<nat>)
    requires tx.sorobanData.Some? && if 'e' in text then Points(text) <= 1 else Denotes(text, m) && m >= 1.0
    ensures var out := ApplyFeeBuffer(tx, text, limit);
            && (out.Ok? <==> 'e' !in text && Affordable(tx, Times(m), limit))
            && ('e' !in text ==> FailsExactly(tx, Times(m), limit, out))
  {
    if 'e' in text {
      ExponentNeverBuffers(tx, text, limit);
    } else {
      MultipliesAndCeils(text, m);
      TimesEnlarges(m);
      ScaledFailsExactly(Scale(text), Times(m), tx, limit);
      if tx.sorobanData.value.resourceFee >= 0 {
        TotalBounds(tx, Times(m));
      }
    }
  }

  /** A multiplier that is printed with an exponent fails every buffering, whatever the limit. */
  lemma ExponentNeverBuffers(tx: Transaction, text: string, limit: Option<nat>)
    requires Points(text) <= 1 && 'e' in text && tx.sorobanData.Some?
    ensures ApplyFeeBuffer(tx, text, limit) == Invalid(if tx.sorobanData.value.resourceFee < 0 then NegativeValue else NotADecimal)
  {
    ExponentIsRejected(text);
    assert Scale(text)(tx.sorobanData.value.resourceFee) == MultiplyAndCeil(tx.sorobanData.value.resourceFee, text);
  }

  // ---------------------------------------------------------------------------
  // Reading digits
  // ---------------------------------------------------------------------------

  /** A digit further to the right makes the number ten times as large and adds its own worth. */
  lemma DigitAdds(s: string, d: nat)
    requires Digits(s) && d < 10
    ensures var text := s + [('0' as int + d) as char];
            Digits(text) && NatOf(text) == 10 * NatOf(s) + d && NatOf("") == 0
  {
    var c := ('0' as int + d) as char;
    var digit := [c];
    assert c as int == '0' as int + d;
    assert digit[1..] == "" && Digits(digit);
    assert DigitValue(c) == d;
    DigitsConcat(s, digit);
    NatOfConcat(s, digit, 0);
  }

  lemma OneAndAQuarter()
    ensures ToFraction("1.25") == Ok(Fraction(125, 100))
  {
    assert Digits("1") && Digits("25") by {
      assert "25"[1..] == "5";
    }
    assert "1" + "." + "25" == "1.25";
    ReadsParts("1.25", "1", "25");
    FractionOfParts("1", "25");
    assert NatOf("25", 1) == NatOf("5", 12) == 125 by {
      assert "25"[1..] == "5";
    }
    assert Pow10(2) == 100;
  }

  /** A fee of 1100, of which 1000 are for resources, at a multiplier of 1.25. */
  lemma ResourceFeeCountsOnce(resources: Resources)
    ensures var out := ApplyFeeBuffer(Transaction(1100, Some(SorobanData(resources, 1000))), "1.25", None);
            out.Ok? && out.value.Rebuilt? && out.value.baseFee == 125 && out.value.resourceFee == 1250
  {
    OneAndAQuarter();
  }
}
