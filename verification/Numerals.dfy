/** Positional numerals in a base of at most 16, with lower-case digits. */
module Numerals {
  import opened Arithmetic

  function Pow(b: nat, e: nat): (r: nat)
    ensures b > 0 ==> r > 0
  {
    if e == 0 then 1 else MulSign(b, Pow(b, e - 1)); Pow(b, e - 1) * b
  }

  /** The value of a digit, of either case; 16 for any other character. */
  function DigitValue(c: char): (r: nat)
    ensures r <= 16
  {
    if '0' <= c <= '9' then c as int - '0' as int
    else if 'a' <= c <= 'f' then c as int - 'a' as int + 10
    else if 'A' <= c <= 'F' then c as int - 'A' as int + 10
    else 16
  }

  function DigitChar(d: nat): (c: char)
    requires d < 16
    ensures DigitValue(c) == d && (d < 10 ==> '0' <= c <= '9') && !('A' <= c <= 'F')
  {
    if d < 10 then ('0' as int + d) as char else ('a' as int + d - 10) as char
  }

  predicate IsNumeral(s: string, base: nat) {
    forall i :: 0 <= i < |s| ==> DigitValue(s[i]) < base
  }

  /** The number that a numeral stands for; the empty numeral stands for 0. */
  function Val(s: string, base: nat): nat
    requires IsNumeral(s, base)
  {
    if s == [] then 0
    else
      MulSign(Val(s[..|s| - 1], base), base);
      Val(s[..|s| - 1], base) * base + DigitValue(s[|s| - 1])
  }

  /** The canonical numeral, as `toString(base)` and `str` print it. */
  function Show(n: nat, base: nat): (s: string)
    requires 2 <= base <= 16
    ensures s != [] && IsNumeral(s, base)
    decreases n
  {
    if n < base then [DigitChar(n)]
    else
      DivMod(n, base);
      DivSmaller(n, base);
      Show(n / base, base) + [DigitChar(n % base)]
  }

  lemma DivSmaller(n: nat, base: nat)
    requires 2 <= base <= n
    ensures 0 < n / base < n
  {
    DivMod(n, base);
    MulSign(n / base, base);
    assert n / base * base >= n / base * 2;
  }

  function Repeat(c: char, n: nat): string {
    seq(n, i => c)
  }

  /** `padStart(width, "0")`: it never shortens. */
  function PadLeft(s: string, width: nat): string {
    if |s| >= width then s else Repeat('0', width - |s|) + s
  }

  lemma {:induction false} ValShow(n: nat, base: nat)
    requires 2 <= base <= 16
    ensures Val(Show(n, base), base) == n
    decreases n
  {
    var s := Show(n, base);
    if n < base {
      assert s[..0] == [];
    } else {
      DivMod(n, base);
      DivSmaller(n, base);
      ValShow(n / base, base);
      assert s[..|s| - 1] == Show(n / base, base);
    }
  }

  lemma {:induction false} ValAppend(s: string, t: string, base: nat)
    requires IsNumeral(s, base) && IsNumeral(t, base)
    ensures IsNumeral(s + t, base) && Val(s + t, base) == Val(s, base) * Pow(base, |t|) + Val(t, base)
    decreases |t|
  {
    if t == [] {
      assert s + t == s;
    } else {
      var u := s + t;
      assert u[..|u| - 1] == s + t[..|t| - 1];
      ValAppend(s, t[..|t| - 1], base);
      Distribute(Val(s, base), Pow(base, |t| - 1), Val(t[..|t| - 1], base), base);
      assert Val(u, base) == Val(u[..|u| - 1], base) * base + DigitValue(t[|t| - 1]);
    }
  }

  lemma Distribute(a: nat, b: nat, c: nat, d: nat)
    ensures (a * b + c) * d == a * (b * d) + c * d
  {
    MulAssoc(a, b, d);
  }

  lemma MulAssoc(a: nat, b: nat, c: nat)
    ensures a * b * c == a * (b * c)
  {
  }

  lemma {:induction false} ValZeros(n: nat, base: nat)
    requires base > 0
    ensures IsNumeral(Repeat('0', n), base) && Val(Repeat('0', n), base) == 0
  {
    if n > 0 {
      assert Repeat('0', n)[..n - 1] == Repeat('0', n - 1);
      ValZeros(n - 1, base);
    }
  }

  lemma ValPadLeft(s: string, width: nat, base: nat)
    requires IsNumeral(s, base) && base > 0
    ensures IsNumeral(PadLeft(s, width), base) && Val(PadLeft(s, width), base) == Val(s, base)
  {
    if |s| < width {
      ValZeros(width - |s|, base);
      ValAppend(Repeat('0', width - |s|), s, base);
    }
  }

  lemma {:induction false} ValBound(s: string, base: nat)
    requires IsNumeral(s, base) && base > 0
    ensures Val(s, base) < Pow(base, |s|)
  {
    if s != [] {
      ValBound(s[..|s| - 1], base);
      MulLess(Val(s[..|s| - 1], base), Pow(base, |s| - 1), base);
    }
  }

  lemma {:induction false} PowMono(b: nat, i: nat, j: nat)
    requires b > 0 && i <= j
    ensures Pow(b, i) <= Pow(b, j)
  {
    if i < j {
      PowMono(b, i, j - 1);
      MulMono(1, b, Pow(b, j - 1));
    }
  }

  /** A canonical numeral has at most `k` digits exactly when its number is below the k-th power. */
  lemma ShowLengthIff(n: nat, base: nat, k: nat)
    requires 2 <= base <= 16 && k > 0
    ensures |Show(n, base)| <= k <==> n < Pow(base, k)
  {
    ValShow(n, base);
    ValBound(Show(n, base), base);
    if |Show(n, base)| <= k {
      PowMono(base, |Show(n, base)|, k);
    } else {
      ShowLowerBound(n, base);
      PowMono(base, k, |Show(n, base)| - 1);
    }
  }

  lemma {:induction false} ShowLowerBound(n: nat, base: nat)
    requires 2 <= base <= 16 && n >= base
    ensures Pow(base, |Show(n, base)| - 1) <= n
    decreases n
  {
    DivMod(n, base);
    DivSmaller(n, base);
    var q := n / base;
    if q >= base {
      ShowLowerBound(q, base);
      MulMono(Pow(base, |Show(q, base)| - 1), q, base);
    } else {
      assert |Show(n, base)| == 2 && Pow(base, 1) == Pow(base, 0) * base == base;
    }
  }
}
