/**
 Amounts and calldata of a wallet payment (frontend/lib/checkout-client.js).
 */
module PaymentEncoding {
  import opened Wrappers
  import opened TextTools
  import opened Arithmetic
  import opened Numerals

  datatype Error = SyntaxError | BadAddress | NegativeAmount

  // ----- BigInt(string) -----

  function DigitsIn(s: string, base: nat): Result<int, Error> {
    if s != [] && IsNumeral(s, base) then Ok(Val(s, base)) else Err(SyntaxError)
  }

  function PrefixBase(s: string): nat {
    if |s| < 2 || s[0] != '0' then 0
    else if s[1] in "xX" then 16
    else if s[1] in "oO" then 8
    else if s[1] in "bB" then 2
    else 0
  }

  /** `BigInt` of a string: white space around it, a radix prefix or a sign are accepted. */
  function BigInt(text: string): Result<int, Error> {
    Parsed(Strip(text, IsSpace))
  }

  function Parsed(s: string): Result<int, Error> {
    if s == [] then Ok(0)
    else if PrefixBase(s) != 0 then DigitsIn(s[2..], PrefixBase(s))
    else if s[0] == '-' then
      var r := DigitsIn(s[1..], 10);
      if r.Ok? then Ok(-r.value) else r
    else if s[0] == '+' then DigitsIn(s[1..], 10)
    else DigitsIn(s, 10)
  }

  /** Digits after a zero and one of two letters. */
  predicate IsPrefixed(s: string, lower: char, upper: char, base: nat) {
    |s| > 2 && s[0] == '0' && (s[1] == lower || s[1] == upper) && IsNumeral(s[2..], base)
  }

  predicate IsSigned(s: string, sign: char) {
    |s| > 1 && s[0] == sign && IsNumeral(s[1..], 10)
  }

  /** `BigInt` takes nothing, decimal digits with a sign or without, and hexadecimal, octal or binary digits after
      their prefix without one, white space around all of them; and no other text. */
  lemma BigIntIs(text: string)
    ensures var s := Strip(text, IsSpace);
      && (s == "" ==> BigInt(text) == Ok(0))
      && (s != "" && IsNumeral(s, 10) ==> BigInt(text) == Ok(Val(s, 10)))
      && (IsSigned(s, '-') ==> BigInt(text) == Ok(-(Val(s[1..], 10) as int)))
      && (IsSigned(s, '+') ==> BigInt(text) == Ok(Val(s[1..], 10)))
      && (IsPrefixed(s, 'x', 'X', 16) ==> BigInt(text) == Ok(Val(s[2..], 16)))
      && (IsPrefixed(s, 'o', 'O', 8) ==> BigInt(text) == Ok(Val(s[2..], 8)))
      && (IsPrefixed(s, 'b', 'B', 2) ==> BigInt(text) == Ok(Val(s[2..], 2)))
      && (BigInt(text).Ok? ==>
            || s == "" || IsNumeral(s, 10) || IsSigned(s, '-') || IsSigned(s, '+')
            || IsPrefixed(s, 'x', 'X', 16) || IsPrefixed(s, 'o', 'O', 8) || IsPrefixed(s, 'b', 'B', 2))
  {
    ParsedIs(Strip(text, IsSpace));
  }

  lemma ParsedIs(s: string)
    ensures s == "" ==> Parsed(s) == Ok(0)
    ensures s != "" && IsNumeral(s, 10) ==> Parsed(s) == Ok(Val(s, 10))
    ensures IsSigned(s, '-') ==> Parsed(s) == Ok(-(Val(s[1..], 10) as int))
    ensures IsSigned(s, '+') ==> Parsed(s) == Ok(Val(s[1..], 10))
    ensures IsPrefixed(s, 'x', 'X', 16) ==> Parsed(s) == Ok(Val(s[2..], 16))
    ensures IsPrefixed(s, 'o', 'O', 8) ==> Parsed(s) == Ok(Val(s[2..], 8))
    ensures IsPrefixed(s, 'b', 'B', 2) ==> Parsed(s) == Ok(Val(s[2..], 2))
    ensures Parsed(s).Ok? ==>
      || s == "" || IsNumeral(s, 10) || IsSigned(s, '-') || IsSigned(s, '+')
      || IsPrefixed(s, 'x', 'X', 16) || IsPrefixed(s, 'o', 'O', 8) || IsPrefixed(s, 'b', 'B', 2)
  {
    assert |s| > 1 && IsNumeral(s, 10) ==> DigitValue(s[0]) < 10 && DigitValue(s[1]) < 10;
  }

  function OrZero(s: string): string {
    if s == [] then "0" else s
  }

  /** The fraction digits that are kept, filled up with zeros. */
  function Padded(fraction: string, decimals: nat): string {
    (fraction + Repeat('0', decimals))[..decimals]
  }

  /** `v * 10n ** e`. */
  function Shift(v: int, e: nat): int {
    if e == 0 then v else 10 * Shift(v, e - 1)
  }

  /** `toMinorUnits`, on any string. */
  function ToMinorUnits(decimal: string, decimals: nat): Result<int, Error> {
    FromParts(Split(decimal, '.'), decimals)
  }

  function FromParts(parts: seq<string>, decimals: nat): Result<int, Error>
    requires parts != []
  {
    var fraction := if |parts| > 1 then parts[1] else "";
    Combine(BigInt(OrZero(parts[0])), BigInt(OrZero(Padded(fraction, decimals))), decimals)
  }

  function Combine(w: Result<int, Error>, f: Result<int, Error>, decimals: nat): Result<int, Error> {
    if w.Err? then w
    else if f.Err? then f
    else Ok(Shift(w.value, decimals) + f.value)
  }

  /** `toString(16)` of a BigInt. */
  function ToHex(n: int): string {
    if n < 0 then "-" + Show(-n, 16) else Show(n, 16)
  }

  function ToHexWei(decimal: string, decimals: nat): Result<string, Error> {
    var m := ToMinorUnits(decimal, decimals);
    if m.Ok? then Ok("0x" + ToHex(m.value)) else Err(m.error)
  }

  // ----- decimal texts -----

  predicate IsDigits(s: string) {
    IsNumeral(s, 10)
  }

  /** The text of a non-negative decimal: whole digits, and after a point fraction digits. */
  function DecimalText(w: string, f: Option<string>): string {
    if f.Some? then w + "." + f.value else w
  }

  function FractionOf(f: Option<string>): string {
    if f.Some? then f.value else ""
  }

  ghost predicate IsDecimal(w: string, f: Option<string>) {
    IsDigits(w) && (f.Some? ==> IsDigits(f.value))
  }

  /** The value of `w.f` times ten to the number of fraction digits. */
  function Scaled(w: string, f: string): nat
    requires IsDigits(w) && IsDigits(f)
  {
    Val(w + f, 10)
  }

  lemma {:induction false} ShiftIsProduct(v: int, e: nat)
    ensures Shift(v, e) == v * Pow(10, e)
  {
    if e > 0 {
      ShiftIsProduct(v, e - 1);
    }
  }

  lemma {:induction false} ShiftLinear(a: int, b: int, e: nat)
    ensures Shift(a + b, e) == Shift(a, e) + Shift(b, e)
  {
    if e > 0 {
      ShiftLinear(a, b, e - 1);
    }
  }

  lemma {:induction false} ShiftNegated(a: int, e: nat)
    ensures Shift(-a, e) == -Shift(a, e)
  {
    if e > 0 {
      ShiftNegated(a, e - 1);
    }
  }

  lemma {:induction false} ShiftTwice(v: int, i: nat, j: nat)
    ensures Shift(Shift(v, i), j) == Shift(v, i + j)
  {
    if j > 0 {
      ShiftTwice(v, i, j - 1);
    }
  }

  lemma {:induction false} ShiftOrder(a: int, b: int, e: nat)
    ensures Shift(a, e) <= Shift(b, e) <==> a <= b
  {
    if e > 0 {
      ShiftOrder(a, b, e - 1);
    }
  }

  lemma {:induction false} DecimalAppend(s: string, t: string)
    requires IsDigits(s) && IsDigits(t)
    ensures IsDigits(s + t) && Val(s + t, 10) == Shift(Val(s, 10), |t|) + Val(t, 10)
    decreases |t|
  {
    if t == [] {
      assert s + t == s;
    } else {
      var u := s + t;
      assert u[..|u| - 1] == s + t[..|t| - 1];
      DecimalAppend(s, t[..|t| - 1]);
    }
  }

  lemma {:induction false} DecimalBound(s: string)
    requires IsDigits(s)
    ensures Val(s, 10) < Shift(1, |s|)
  {
    if s != [] {
      DecimalBound(s[..|s| - 1]);
    }
  }

  lemma DigitIsPlain(c: char)
    requires DigitValue(c) < 10
    ensures !IsSpace(c) && c != '.' && c != '-' && c != '+' && c !in "xX" && c !in "oO" && c !in "bB"
  {
  }

  lemma DigitsNeedNoStrip(s: string)
    requires IsDigits(s)
    ensures Strip(s, IsSpace) == s && '.' !in s
  {
    forall i | 0 <= i < |s| ensures !IsSpace(s[i]) && s[i] != '.' {
      DigitIsPlain(s[i]);
    }
  }

  lemma BigIntOfDigits(s: string)
    requires IsDigits(s)
    ensures BigInt(OrZero(s)) == Ok(Val(s, 10))
  {
    if s == [] {
      DigitsNeedNoStrip("0");
      assert "0"[..0] == [];
    } else {
      DigitsNeedNoStrip(s);
      DigitIsPlain(s[0]);
      if |s| > 1 {
        DigitIsPlain(s[1]);
      }
    }
  }

  lemma SplitDecimal(w: string, f: Option<string>)
    requires '.' !in w && (f.Some? ==> '.' !in f.value)
    ensures Split(DecimalText(w, f), '.') == if f.Some? then [w, f.value] else [w]
  {
    if f.Some? {
      SplitPrefix(w, f.value, '.');
      SplitWhole(f.value, '.');
      assert w + "." + f.value == w + ['.'] + f.value;
    } else {
      SplitWhole(w, '.');
    }
  }

  lemma PaddedDigits(f: string, d: nat)
    requires IsDigits(f)
    ensures IsDigits(Padded(f, d)) && |Padded(f, d)| == d
    ensures |f| <= d ==> Padded(f, d) == f + Repeat('0', d - |f|)
    ensures |f| >= d ==> Padded(f, d) == f[..d]
  {
    assert |f| <= d ==> Padded(f, d) == f + Repeat('0', d - |f|);
    assert |f| >= d ==> Padded(f, d) == f[..d];
  }

  lemma PartsOfDecimal(w: string, f: Option<string>, d: nat)
    requires IsDecimal(w, f)
    ensures ToMinorUnits(DecimalText(w, f), d) ==
        Combine(BigInt(OrZero(w)), BigInt(OrZero(Padded(FractionOf(f), d))), d)
  {
    DigitsNeedNoStrip(w);
    DigitsNeedNoStrip(FractionOf(f));
    SplitDecimal(w, f);
    FromSplit(Split(DecimalText(w, f), '.'), w, f, d);
  }

  lemma FromSplit(parts: seq<string>, w: string, f: Option<string>, d: nat)
    requires parts == if f.Some? then [w, f.value] else [w]
    ensures FromParts(parts, d) == Combine(BigInt(OrZero(w)), BigInt(OrZero(Padded(FractionOf(f), d))), d)
  {
  }

  lemma CombineDigits(a: Result<int, Error>, b: Result<int, Error>, d: nat, w: string, padded: string)
    requires IsDigits(w) && IsDigits(padded) && |padded| == d
    requires a == Ok(Val(w, 10)) && b == Ok(Val(padded, 10))
    ensures IsDigits(w + padded) && Combine(a, b, d) == Ok(Val(w + padded, 10))
  {
    DecimalAppend(w, padded);
  }

  /** On a decimal text the result is the numeral made of the whole digits and the kept fraction digits. */
  lemma MinorUnitsOfDecimal(w: string, f: Option<string>, d: nat)
    requires IsDecimal(w, f)
    ensures IsDigits(w + Padded(FractionOf(f), d))
    ensures ToMinorUnits(DecimalText(w, f), d) == Ok(Val(w + Padded(FractionOf(f), d), 10))
  {
    var padded := Padded(FractionOf(f), d);
    assert IsDigits(padded) by {
      PaddedDigits(FractionOf(f), d);
    }
    BigIntOfDigits(w);
    BigIntOfDigits(padded);
    CombineDigits(BigInt(OrZero(w)), BigInt(OrZero(padded)), d, w, padded);
    assert ToMinorUnits(DecimalText(w, f), d) == Combine(BigInt(OrZero(w)), BigInt(OrZero(padded)), d) by {
      PartsOfDecimal(w, f, d);
    }
  }

  /** `m` is the floor of the decimal `w.f` times ten to the `d`. */
  ghost predicate IsFloor(m: int, w: string, f: string, d: nat)
    requires IsDigits(w) && IsDigits(f)
  {
    FloorShifted(m, Scaled(w, f), |f|, d)
  }

  /** `m` is the floor of `v` times ten to the `d - e`. */
  ghost predicate FloorShifted(m: int, v: nat, e: nat, d: nat) {
    Shift(m, e) <= Shift(v, d) < Shift(m + 1, e)
  }

  lemma ShortFraction(w: string, f: string, d: nat)
    requires IsDigits(w) && IsDigits(f) && |f| <= d
    ensures IsDigits(w + Padded(f, d)) && Shift(Val(w + Padded(f, d), 10), |f|) == Shift(Scaled(w, f), d)
  {
    var zeros := Repeat('0', d - |f|);
    PaddedDigits(f, d);
    ValZeros(d - |f|, 10);
    DecimalAppend(w + f, zeros);
    assert w + Padded(f, d) == (w + f) + zeros;
    ShiftTwice(Scaled(w, f), d - |f|, |f|);
  }

  lemma LongFraction(w: string, f: string, d: nat)
    requires IsDigits(w) && IsDigits(f) && |f| > d
    ensures IsDigits(w + Padded(f, d)) && IsFloor(Val(w + Padded(f, d), 10), w, f, d)
  {
    PaddedDigits(f, d);
    var kept, lost := w + f[..d], f[d..];
    var m, r := Val(kept, 10), |lost|;
    assert w + f == kept + lost && w + Padded(f, d) == kept;
    DecimalAppend(kept, lost);
    DecimalBound(lost);
    ShiftLinear(m, 1, r);
    ShiftOrder(Shift(m, r), Scaled(w, f), d);
    ShiftOrder(Shift(m + 1, r), Scaled(w, f), d);
    ShiftTwice(m, r, d);
    ShiftTwice(m + 1, r, d);
  }

  /** What the conversion promises of its result on the decimal `w.f`. */
  ghost predicate IsConversion(r: Result<int, Error>, w: string, f: string, d: nat)
    requires IsDigits(w) && IsDigits(f)
  {
    && r.Ok? && r.value >= 0
    && IsFloor(r.value, w, f, d)
    && (|f| <= d ==> Shift(r.value, |f|) == Shift(Scaled(w, f), d))
  }

  lemma NumeralIsConversion(r: Result<int, Error>, w: string, f: string, d: nat)
    requires IsDigits(w) && IsDigits(f) && IsDigits(w + Padded(f, d)) && r == Ok(Val(w + Padded(f, d), 10))
    ensures IsConversion(r, w, f, d)
  {
    if |f| <= d {
      ShortFraction(w, f, d);
      ShiftOrder(r.value + 1, r.value, |f|);
    } else {
      LongFraction(w, f, d);
    }
  }

  /** On every non-negative decimal text: the floor of its value in minor units, and exact when the
      fraction has at most `d` digits. */
  lemma ToMinorUnitsIsFloor(w: string, f: Option<string>, d: nat)
    requires IsDecimal(w, f)
    ensures IsConversion(ToMinorUnits(DecimalText(w, f), d), w, FractionOf(f), d)
  {
    MinorUnitsOfDecimal(w, f, d);
    NumeralIsConversion(ToMinorUnits(DecimalText(w, f), d), w, FractionOf(f), d);
  }

  /** The results are ordered. */
  predicate NoMore(a: Result<int, Error>, b: Result<int, Error>) {
    a.Ok? && b.Ok? && a.value <= b.value
  }

  /** A larger decimal never converts to fewer minor units, however the two are written. */
  lemma ToMinorUnitsIsMonotone(w1: string, f1: Option<string>, w2: string, f2: Option<string>, d: nat)
    requires IsDecimal(w1, f1) && IsDecimal(w2, f2)
    requires Shift(Scaled(w1, FractionOf(f1)), |FractionOf(f2)|) <= Shift(Scaled(w2, FractionOf(f2)), |FractionOf(f1)|)
    ensures NoMore(ToMinorUnits(DecimalText(w1, f1), d), ToMinorUnits(DecimalText(w2, f2), d))
  {
    ToMinorUnitsIsFloor(w1, f1, d);
    ToMinorUnitsIsFloor(w2, f2, d);
    ConversionsAreMonotone(ToMinorUnits(DecimalText(w1, f1), d), w1, FractionOf(f1),
                           ToMinorUnits(DecimalText(w2, f2), d), w2, FractionOf(f2), d);
  }

  lemma ConversionsAreMonotone(r1: Result<int, Error>, w1: string, f1: string, r2: Result<int, Error>, w2: string,
                               f2: string, d: nat)
    requires IsDigits(w1) && IsDigits(f1) && IsDigits(w2) && IsDigits(f2)
    requires IsConversion(r1, w1, f1, d) && IsConversion(r2, w2, f2, d)
    requires Shift(Scaled(w1, f1), |f2|) <= Shift(Scaled(w2, f2), |f1|)
    ensures NoMore(r1, r2)
  {
    FloorsAreMonotone(r1.value, r2.value, Scaled(w1, f1), Scaled(w2, f2), |f1|, |f2|, d);
  }

  lemma FloorsAreMonotone(m1: int, m2: int, v1: nat, v2: nat, e1: nat, e2: nat, d: nat)
    requires FloorShifted(m1, v1, e1, d) && FloorShifted(m2, v2, e2, d)
    requires Shift(v1, e2) <= Shift(v2, e1)
    ensures m1 <= m2
  {
    ScalingLaws();
    OrderedFloors(Scaling(), m1, m2, v1, v2, e1, e2, d);
  }

  function Scaling(): (int, nat) -> int {
    (v: int, e: nat) => Shift(v, e)
  }

  lemma ScalingLaws()
    ensures forall a: int, b: int, e: nat :: Scaling()(a, e) <= Scaling()(b, e) <==> a <= b
    ensures forall v: int, i: nat, j: nat :: Scaling()(Scaling()(v, i), j) == Scaling()(v, i + j)
  {
    forall a: int, b: int, e: nat ensures Scaling()(a, e) <= Scaling()(b, e) <==> a <= b {
      ShiftOrder(a, b, e);
    }
    forall v: int, i: nat, j: nat ensures Scaling()(Scaling()(v, i), j) == Scaling()(v, i + j) {
      ShiftTwice(v, i, j);
    }
  }

  /** The argument, for any scaling that keeps the order and adds up. */
  lemma OrderedFloors(shift: (int, nat) -> int, m1: int, m2: int, v1: int, v2: int, e1: nat, e2: nat, d: nat)
    requires forall a: int, b: int, e: nat :: shift(a, e) <= shift(b, e) <==> a <= b
    requires forall v: int, i: nat, j: nat :: shift(shift(v, i), j) == shift(v, i + j)
    requires shift(m1, e1) <= shift(v1, d) && shift(v2, d) < shift(m2 + 1, e2) && shift(v1, e2) <= shift(v2, e1)
    ensures m1 <= m2
  {
    assert shift(shift(m1, e1), e2) <= shift(shift(v1, d), e2);
    assert shift(shift(v1, e2), d) <= shift(shift(v2, e1), d);
    assert shift(shift(v2, d), e1) < shift(shift(m2 + 1, e2), e1);
    assert e1 + e2 == e2 + e1 && d + e2 == e2 + d && d + e1 == e1 + d;
    assert shift(m1, e1 + e2) < shift(m2 + 1, e1 + e2);
  }

  /** Fixed-point printing of an amount with `d` places. */
  function FixedPoint(m: nat, d: nat): string {
    DecimalText(Show(m / Pow(10, d), 10), Some(Places(m % Pow(10, d), d)))
  }

  function Places(r: nat, d: nat): string {
    if d == 0 then "" else PadLeft(Show(r, 10), d)
  }

  lemma PlacesAre(r: nat, d: nat)
    requires r < Pow(10, d)
    ensures IsDigits(Places(r, d)) && |Places(r, d)| == d && Val(Places(r, d), 10) == r
  {
    if d > 0 {
      ValShow(r, 10);
      ShowLengthIff(r, 10, d);
      ValPadLeft(Show(r, 10), d, 10);
    }
  }

  lemma Parts(m: nat, d: nat)
    ensures m % Pow(10, d) < Pow(10, d) && Shift(m / Pow(10, d), d) + m % Pow(10, d) == m
  {
    DivMod(m, Pow(10, d));
    ShiftIsProduct(m / Pow(10, d), d);
  }

  lemma PrintedNumeral(q: nat, r: nat, d: nat)
    requires r < Pow(10, d)
    ensures IsDecimal(Show(q, 10), Some(Places(r, d)))
    ensures IsDigits(Show(q, 10) + Padded(Places(r, d), d))
        && Val(Show(q, 10) + Padded(Places(r, d), d), 10) == Shift(q, d) + r
  {
    PlacesAre(r, d);
    ValShow(q, 10);
    PaddedDigits(Places(r, d), d);
    DecimalAppend(Show(q, 10), Places(r, d));
    assert Padded(Places(r, d), d) == Places(r, d);
  }

  lemma PrintedConverts(text: string, w: string, f: Option<string>, d: nat, m: nat)
    requires IsDecimal(w, f) && text == DecimalText(w, f)
    requires IsDigits(w + Padded(FractionOf(f), d)) ==> Val(w + Padded(FractionOf(f), d), 10) == m
    ensures ToMinorUnits(text, d) == Ok(m)
  {
    MinorUnitsOfDecimal(w, f, d);
  }

  /** The conversion inverts fixed-point printing. */
  lemma ToMinorUnitsInvertsPrinting(m: nat, d: nat)
    ensures ToMinorUnits(FixedPoint(m, d), d) == Ok(m)
  {
    var q, r := m / Pow(10, d), m % Pow(10, d);
    Parts(m, d);
    PrintedNumeral(q, r, d);
    PrintedConverts(FixedPoint(m, d), Show(q, 10), Some(Places(r, d)), d, m);
  }

  predicate IsNegated(a: Result<int, Error>, b: Result<int, Error>) {
    a.Ok? && b.Ok? && a.value == -b.value
  }

  /** For a negative decimal, with a point or without: it is refused without whole digits; otherwise the result
      is the negated conversion exactly when the kept fraction digits are all zero, as the fraction is added to
      a negative whole part. */
  lemma NegativeIff(w: string, f: Option<string>, d: nat)
    requires IsDecimal(w, f)
    ensures IsDigits(Padded(FractionOf(f), d))
    ensures w == [] ==> ToMinorUnits("-" + DecimalText(w, f), d) == Err(SyntaxError)
    ensures w != [] ==>
      && ToMinorUnits("-" + DecimalText(w, f), d).Ok?
      && (IsNegated(ToMinorUnits("-" + DecimalText(w, f), d), ToMinorUnits(DecimalText(w, f), d)) <==>
          Val(Padded(FractionOf(f), d), 10) == 0)
  {
    var padded := Padded(FractionOf(f), d);
    PaddedDigits(FractionOf(f), d);
    NegativeParts(w, f, d);
    BigIntOfDigits(padded);
    if w == [] {
      BigIntOfSign(w);
    } else {
      BigIntOfNegative(w);
      MinorUnitsOfDecimal(w, f, d);
      NegatedNumeral(BigInt("-" + w), BigInt(OrZero(padded)), w, padded, d);
    }
  }

  lemma BigIntOfSign(w: string)
    requires w == []
    ensures BigInt("-" + w) == Err(SyntaxError)
  {
    NeedsNoStrip("-" + w);
    assert ("-" + w)[1..] == [];
  }

  lemma NegatedNumeral(a: Result<int, Error>, b: Result<int, Error>, w: string, padded: string, d: nat)
    requires IsDigits(w) && IsDigits(padded) && |padded| == d
    requires a == Ok(-(Val(w, 10) as int)) && b == Ok(Val(padded, 10))
    ensures IsDigits(w + padded)
    ensures IsNegated(Combine(a, b, d), Ok(Val(w + padded, 10))) <==> Val(padded, 10) == 0
  {
    DecimalAppend(w, padded);
    ShiftNegated(Val(w, 10), d);
  }

  lemma NegativeText(w: string, f: Option<string>)
    ensures DecimalText("-" + w, f) == "-" + DecimalText(w, f)
  {
  }

  lemma PartsOfText(text: string, u: string, f: Option<string>, d: nat)
    requires text == DecimalText(u, f) && '.' !in u && '.' !in FractionOf(f) && u != []
    ensures ToMinorUnits(text, d) == Combine(BigInt(u), BigInt(OrZero(Padded(FractionOf(f), d))), d)
  {
    SplitDecimal(u, f);
    FromSplit(Split(text, '.'), u, f, d);
  }

  lemma NegativeParts(w: string, f: Option<string>, d: nat)
    requires IsDecimal(w, f)
    ensures ToMinorUnits("-" + DecimalText(w, f), d) ==
      Combine(BigInt("-" + w), BigInt(OrZero(Padded(FractionOf(f), d))), d)
  {
    DigitsNeedNoStrip(w);
    DigitsNeedNoStrip(FractionOf(f));
    NegativeText(w, f);
    PartsOfText("-" + DecimalText(w, f), "-" + w, f, d);
  }

  lemma BigIntOfNegative(w: string)
    requires IsDigits(w) && w != []
    ensures BigInt("-" + w) == Ok(-(Val(w, 10) as int))
  {
    DigitIsPlain(w[|w| - 1]);
    NeedsNoStrip("-" + w);
    ParsedNegative("-" + w, w);
  }

  lemma NeedsNoStrip(s: string)
    requires s != [] && !IsSpace(s[0]) && !IsSpace(s[|s| - 1])
    ensures Strip(s, IsSpace) == s
  {
  }

  lemma ParsedNegative(s: string, w: string)
    requires IsDigits(w) && w != [] && s != [] && s[0] == '-' && s[1..] == w
    ensures Parsed(s) == Ok(-(Val(w, 10) as int))
  {
  }

  /** The hexadecimal amount can be decoded, and to the same integer, exactly when that is not negative; a negative
      one has a minus sign between the prefix and its digits. */
  lemma ToHexWeiDecodesIff(decimal: string, d: nat)
    requires ToMinorUnits(decimal, d).Ok?
    ensures var m, h := ToMinorUnits(decimal, d).value, ToHexWei(decimal, d);
            && h.Ok? && |h.value| > 2 && h.value[..2] == "0x"
            && (DigitsIn(h.value[2..], 16).Ok? <==> m >= 0)
            && (m >= 0 ==> DigitsIn(h.value[2..], 16) == Ok(m))
            && (m < 0 ==> h.value[2] == '-' && DigitsIn(h.value[3..], 16) == Ok(-m))
  {
    var m, h := ToMinorUnits(decimal, d).value, ToHexWei(decimal, d).value;
    ToHexIs(m);
    assert h[2..] == ToHex(m);
    assert m < 0 ==> h[2] == ToHex(m)[0] && h[3..] == ToHex(m)[1..];
  }

  lemma SignedHex(digits: string, n: nat)
    requires digits != [] && IsNumeral(digits, 16) && Val(digits, 16) == n
    ensures DigitsIn("-" + digits, 16) == Err(SyntaxError)
    ensures ("-" + digits)[0] == '-' && DigitsIn(("-" + digits)[1..], 16) == Ok(n)
  {
    assert ("-" + digits)[1..] == digits && DigitValue(("-" + digits)[0]) == 16;
  }

  lemma ToHexIs(m: int)
    ensures ToHex(m) != []
    ensures DigitsIn(ToHex(m), 16) == if m >= 0 then Ok(m) else Err(SyntaxError)
    ensures m < 0 ==> ToHex(m)[0] == '-' && DigitsIn(ToHex(m)[1..], 16) == Ok(-m)
  {
    if m < 0 {
      ValShow(-m, 16);
      SignedHex(Show(-m, 16), -m);
    } else {
      ValShow(m, 16);
    }
  }

  // ----- ERC-20 transfer calldata -----

  const SELECTOR := "0xa9059cbb"

  function Lower(s: string): string {
    seq(|s|, i requires 0 <= i < |s| => if 'A' <= s[i] <= 'Z' then (s[i] as int + 32) as char else s[i])
  }

  function DropPrefix(s: string): string {
    if |s| >= 2 && s[..2] == "0x" then s[2..] else s
  }

  predicate IsAddress(a: string) {
    |a| == 40 && forall i :: 0 <= i < |a| ==> '0' <= a[i] <= '9' || 'a' <= a[i] <= 'f'
  }

  function Address(to: string): string {
    DropPrefix(Lower(to))
  }

  /** `erc20TransferData`. */
  function Erc20TransferData(to: string, amount: int): Result<string, Error> {
    if !IsAddress(Address(to)) then Err(BadAddress)
    else if amount < 0 then Err(NegativeAmount)
    else Ok(SELECTOR + PadLeft(Address(to), 64) + PadLeft(Show(amount, 16), 64))
  }

  /** A hexadecimal digit in either case. */
  predicate IsHexDigit(c: char) {
    '0' <= c <= '9' || 'a' <= c <= 'f' || 'A' <= c <= 'F'
  }

  /** Forty hexadecimal digits. */
  predicate IsHexAddress(s: string) {
    |s| == 40 && forall i :: 0 <= i < |s| ==> IsHexDigit(s[i])
  }

  /** The digits of an address text: all of it, or what follows "0x" or "0X". */
  function DigitsOf(to: string): string {
    if |to| >= 2 && to[0] == '0' && to[1] in ['x', 'X'] then to[2..] else to
  }

  lemma AddressDigits(to: string)
    ensures |Address(to)| == |DigitsOf(to)|
    ensures forall i :: 0 <= i < |DigitsOf(to)| ==> Address(to)[i] == Lower(DigitsOf(to))[i]
  {
    var low := Lower(to);
    if |to| >= 2 {
      assert low[..2] == [low[0], low[1]];
      assert low[..2] == "0x" <==> to[0] == '0' && to[1] in ['x', 'X'];
    }
  }

  predicate IsLowerHex(c: char) {
    '0' <= c <= '9' || 'a' <= c <= 'f'
  }

  lemma LowerDigit(s: string, i: nat)
    requires i < |s|
    ensures IsLowerHex(Lower(s)[i]) <==> IsHexDigit(s[i])
    ensures IsHexDigit(s[i]) ==> DigitValue(Lower(s)[i]) == DigitValue(s[i])
  {
  }

  lemma AddressIff(to: string)
    ensures IsAddress(Address(to)) <==> IsHexAddress(DigitsOf(to))
    ensures IsAddress(Address(to)) ==>
      forall i :: 0 <= i < 40 ==>
        DigitValue(Address(to)[i]) == DigitValue(DigitsOf(to)[i]) && IsLowerHex(Address(to)[i])
  {
    var digits := DigitsOf(to);
    AddressDigits(to);
    forall i | 0 <= i < |digits|
      ensures IsLowerHex(Address(to)[i]) <==> IsHexDigit(digits[i])
      ensures IsHexDigit(digits[i]) ==> DigitValue(Address(to)[i]) == DigitValue(digits[i])
    {
      LowerDigit(digits, i);
    }
  }

  /** A transfer is accepted exactly to forty hexadecimal digits in either case, after "0x" or "0X" or not, and of an
      amount that is not negative; the address word has the same digits, none of them upper case. */
  lemma TransferAcceptedIff(to: string, amount: int)
    ensures Erc20TransferData(to, amount).Ok? <==> IsHexAddress(DigitsOf(to)) && amount >= 0
    ensures Erc20TransferData(to, amount).Err? ==>
      Erc20TransferData(to, amount).error == if IsHexAddress(DigitsOf(to)) then NegativeAmount else BadAddress
    ensures Erc20TransferData(to, amount).Ok? ==>
      var data := Erc20TransferData(to, amount).value;
      && |data| >= 74 && data[..10] == "0xa9059cbb"
      && forall i :: 0 <= i < 40 ==>
           DigitValue(data[34 + i]) == DigitValue(DigitsOf(to)[i]) && !('A' <= data[34 + i] <= 'F')
  {
    AddressIff(to);
    if Erc20TransferData(to, amount).Ok? {
      TransferParts(to, amount);
      var data := Erc20TransferData(to, amount).value;
      assert forall i :: 0 <= i < 40 ==> data[34 + i] == data[34..74][i];
    }
  }

  /** The reading of `transfer(address,uint256)` calldata: a selector and two 32-byte words. */
  function DecodeTransfer(data: string): Option<(string, nat)> {
    if |data| != 138 || data[..10] != SELECTOR then None
    else
      var a, n := data[10..74], data[74..];
      if a[..24] == Repeat('0', 24) && IsAddress(a[24..]) && IsNumeral(n, 16) then Some((a[24..], Val(n, 16))) else None
  }

  lemma TransferParts(to: string, amount: int)
    requires Erc20TransferData(to, amount).Ok?
    ensures var data := Erc20TransferData(to, amount).value;
            && |data| >= 138 && data[..10] == SELECTOR
            && data[10..34] == Repeat('0', 24) && data[34..74] == Address(to)
            && data[74..] == PadLeft(Show(amount, 16), 64)
            && IsNumeral(data[74..], 16) && Val(data[74..], 16) == amount
  {
    ValShow(amount, 16);
    ValPadLeft(Show(amount, 16), 64, 16);
    assert |SELECTOR| == 10;
    Layout(SELECTOR, Address(to), PadLeft(Show(amount, 16), 64));
  }

  lemma Layout(selector: string, a: string, n: string)
    requires |selector| == 10 && |a| == 40 && |n| >= 64
    ensures var data := selector + PadLeft(a, 64) + n;
      |data| >= 138 && data[..10] == selector && data[10..34] == Repeat('0', 24) && data[34..74] == a && data[74..] == n
  {
    assert PadLeft(a, 64) == Repeat('0', 24) + a;
  }

  /** The calldata is the selector and two words exactly for amounts below 2^256: a larger amount
      is accepted and makes the second word too long. */
  lemma TransferLengthIff(to: string, amount: int)
    requires Erc20TransferData(to, amount).Ok?
    ensures |Erc20TransferData(to, amount).value| == 138 <==> amount < Pow(16, 64)
  {
    TransferParts(to, amount);
    ShowLengthIff(amount, 16, 64);
  }

  /** Decoding gives back the lower-cased address and the amount exactly when the amount fits. */
  lemma TransferRoundTripIff(to: string, amount: int)
    requires Erc20TransferData(to, amount).Ok?
    ensures DecodeTransfer(Erc20TransferData(to, amount).value) == Some((Address(to), amount)) <==> amount < Pow(16, 64)
  {
    TransferLengthIff(to, amount);
    TransferParts(to, amount);
    var data := Erc20TransferData(to, amount).value;
    assert data[10..74][..24] == data[10..34] && data[10..74][24..] == data[34..74];
  }

  /** Calldata determines address and amount, for all accepted inputs of any size. */
  lemma TransferIsInjective(to1: string, amount1: int, to2: string, amount2: int)
    requires Erc20TransferData(to1, amount1).Ok? && Erc20TransferData(to1, amount1) == Erc20TransferData(to2, amount2)
    ensures Address(to1) == Address(to2) && amount1 == amount2
  {
    TransferParts(to1, amount1);
    TransferParts(to2, amount2);
  }
}
