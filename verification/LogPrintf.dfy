// The integer conversions of alt_log_private_printf.
module LogPrintf {
  import opened MachineInts

  // What a conversion specification asks for; width is -1 when none is given.
  datatype Format = Format(leadingZero: bool, width: int, base: nat, signed: bool, upper: bool)

  predicate IsBase(b: nat) {
    b == 8 || b == 10 || b == 16
  }

  // Division of unsigned numbers.
  function Div(v: nat, d: nat): nat
    requires d > 0
  {
    v / d
  }

  function Mod(v: nat, d: nat): nat
    requires d > 0
  {
    v % d
  }

  // ----- what digits mean -----

  function Pow(b: nat, n: nat): (r: nat)
    requires b > 0
    ensures r > 0
  {
    if n == 0 then 1 else b * Pow(b, n - 1)
  }

  function Digit(d: nat, upper: bool): char
    requires d < 16
  {
    if d < 10 then (48 + d) as char else ((if upper then 65 else 97) + d - 10) as char
  }

  function DigitValue(c: char): int {
    if '0' <= c <= '9' then c as int - 48
    else if 'a' <= c <= 'f' then c as int - 87
    else if 'A' <= c <= 'F' then c as int - 55
    else -1
  }

  predicate AreDigits(s: string, base: nat) {
    forall i :: 0 <= i < |s| ==> 0 <= DigitValue(s[i]) < base
  }

  // The value of a numeral: every digit at its place.
  function Numeral(s: string, base: nat): int
    requires base > 0
  {
    if s == [] then 0 else DigitValue(s[0]) * Pow(base, |s| - 1) + Numeral(s[1..], base)
  }

  // A reader: blanks, a sign, a numeral.
  function Read(s: string, base: nat): int
    requires base > 0
  {
    if s == [] then 0
    else if s[0] == ' ' then Read(s[1..], base)
    else if s[0] == '-' then -Numeral(s[1..], base)
    else Numeral(s, base)
  }

  // ----- what is printed -----

  // The number that v stands for.
  function Meaning(v: u32, signed: bool): int {
    if signed then Signed32(v) else v
  }

  function Magnitude(v: u32, signed: bool): u32 {
    if signed && v >= 0x8000_0000 then 0x1_0000_0000 - v else v
  }

  lemma Smaller(v: nat, base: nat)
    requires IsBase(base)
    ensures base * Div(v, base) <= v < base * (Div(v, base) + 1) && (v > 0 ==> Div(v, base) < v)
  {
  }

  function DigitCount(v: nat, base: nat): (n: nat)
    requires IsBase(base)
    ensures n >= 1
  {
    if Div(v, base) == 0 then 1
    else
      Smaller(v, base);
      1 + DigitCount(Div(v, base), base)
  }

  lemma TopDigit(v: nat, p: nat, base: nat)
    requires p > 0 && v < base * p
    ensures 0 <= Div(v, p) < base && Mod(v, p) < p && v == Div(v, p) * p + Mod(v, p)
  {
  }

  // The k lowest digits of v, the highest first.
  function Fixed(v: nat, k: nat, base: nat, upper: bool): (s: string)
    requires 0 < base <= 16 && v < Pow(base, k)
    ensures |s| == k
  {
    if k == 0 then ""
    else
      var p := Pow(base, k - 1);
      TopDigit(v, p, base);
      [Digit(Div(v, p), upper)] + Fixed(Mod(v, p), k - 1, base, upper)
  }

  function Repeat(c: char, n: int): (s: string)
    ensures |s| == Max(n, 0)
  {
    seq(Max(n, 0), i => c)
  }

  lemma Scale(base: nat, x: nat, y: nat)
    requires x <= y
    ensures base * x <= base * y
  {
  }

  lemma CountStep(v: nat, q: nat, n: nat, base: nat)
    requires base > 0 && q > 0 && n > 0 && base * q <= v < base * (q + 1)
    requires q < Pow(base, n) && (n > 1 ==> Pow(base, n - 1) <= q)
    ensures v < Pow(base, n + 1) && Pow(base, n) <= v
  {
    Scale(base, q + 1, Pow(base, n));
    Scale(base, Pow(base, n - 1), q);
  }

  // The place value of the highest digit.
  lemma {:induction false} CountRange(v: nat, base: nat)
    requires IsBase(base)
    ensures var n := DigitCount(v, base);
            v < Pow(base, n) && (n > 1 ==> Pow(base, n - 1) <= v)
    decreases v
  {
    hide Div;
    var q := Div(v, base);
    Smaller(v, base);
    if q > 0 {
      CountRange(q, base);
      CountStep(v, q, DigitCount(q, base), base);
    } else {
      assert Pow(base, 1) == base * Pow(base, 0);
    }
  }

  // The digits without sign and padding.
  function Digits(m: nat, base: nat, upper: bool): (s: string)
    requires IsBase(base)
  {
    CountRange(m, base);
    Fixed(m, DigitCount(m, base), base, upper)
  }

  // Sign and digits in a field; zeros go behind the sign, blanks in front of it.
  function Pad(sign: string, digits: string, width: int, leadingZero: bool): string {
    var pad := width - |digits| - |sign|;
    if leadingZero then sign + Repeat('0', pad) + digits else Repeat(' ', pad) + sign + digits
  }

  function Text(v: u32, f: Format): string
    requires IsBase(f.base)
  {
    Pad(if Meaning(v, f.signed) < 0 then "-" else "",
        Digits(Magnitude(v, f.signed), f.base, f.upper), f.width, f.leadingZero)
  }

  // ----- reading it back -----

  lemma DigitMeans(d: nat, upper: bool)
    requires d < 16
    ensures DigitValue(Digit(d, upper)) == d && (Digit(d, upper) == '0' <==> d == 0)
    ensures Digit(d, upper) != ' ' && Digit(d, upper) != '-'
  {
  }

  lemma {:induction false} FixedMeans(v: nat, k: nat, base: nat, upper: bool)
    requires 0 < base <= 16 && v < Pow(base, k)
    ensures Numeral(Fixed(v, k, base, upper), base) == v && AreDigits(Fixed(v, k, base, upper), base)
    decreases k
  {
    hide Div, Mod;
    if k == 0 {
    } else {
      var p := Pow(base, k - 1);
      TopDigit(v, p, base);
      FixedMeans(Mod(v, p), k - 1, base, upper);
      DigitMeans(Div(v, p), upper);
      var rest := Fixed(Mod(v, p), k - 1, base, upper);
      assert ([Digit(Div(v, p), upper)] + rest)[1..] == rest;
    }
  }

  lemma {:induction false} ZerosMeanNothing(n: nat, s: string, base: nat)
    requires base > 0
    ensures Numeral(Repeat('0', n) + s, base) == Numeral(s, base)
  {
    if n == 0 {
      assert Repeat('0', n) + s == s;
    } else {
      ZerosMeanNothing(n - 1, s, base);
      assert (Repeat('0', n) + s)[1..] == Repeat('0', n - 1) + s;
      assert DigitValue('0') * Pow(base, n + |s| - 1) == 0;
    }
  }

  lemma {:induction false} BlanksMeanNothing(n: nat, s: string, base: nat)
    requires base > 0
    ensures Read(Repeat(' ', n) + s, base) == Read(s, base)
  {
    if n == 0 {
      assert Repeat(' ', n) + s == s;
    } else {
      BlanksMeanNothing(n - 1, s, base);
      assert (Repeat(' ', n) + s)[1..] == Repeat(' ', n - 1) + s;
    }
  }

  lemma PowStep(b: nat, n: nat)
    requires b > 0 && n > 0
    ensures Pow(b, n) == b * Pow(b, n - 1)
  {
  }

  lemma AtLeastOne(v: nat, p: nat)
    requires 0 < p <= v
    ensures Div(v, p) >= 1
  {
  }

  lemma DigitsMean(m: nat, base: nat, upper: bool)
    requires IsBase(base)
    ensures var s := Digits(m, base, upper);
            && s != "" && Numeral(s, base) == m && AreDigits(s, base)
            && (s[0] == '0' ==> |s| == 1)
  {
    hide Pow, Div, Mod;
    var n := DigitCount(m, base);
    CountRange(m, base);
    FixedMeans(m, n, base, upper);
    var p := Pow(base, n - 1);
    PowStep(base, n);
    TopDigit(m, p, base);
    DigitMeans(Div(m, p), upper);
    if n > 1 {
      AtLeastOne(m, p);
    }
  }

  lemma FirstDigit(s: string, base: nat)
    requires s != "" && AreDigits(s, base)
    ensures DigitValue(s[0]) >= 0
  {
  }

  lemma ZerosAreDigits(n: nat, s: string)
    requires s != "" && DigitValue(s[0]) >= 0
    ensures DigitValue((Repeat('0', n) + s)[0]) >= 0
  {
  }

  lemma PadSizes(sign: string, digits: string, width: int, leadingZero: bool)
    ensures var n := Max(width - |digits| - |sign|, 0);
            var s := Pad(sign, digits, width, leadingZero);
            && s == (if leadingZero then sign + (Repeat('0', n) + digits) else Repeat(' ', n) + (sign + digits))
            && |s| == Max(width, |digits| + |sign|) && s[|s| - |digits|..] == digits
  {
    var n := width - |digits| - |sign|;
    assert Repeat('0', n) == Repeat('0', Max(n, 0)) && Repeat(' ', n) == Repeat(' ', Max(n, 0));
  }

  lemma ReadSigned(sign: string, s: string, base: nat)
    requires base > 0 && (sign == "" || sign == "-") && s != "" && DigitValue(s[0]) >= 0
    ensures Read(sign + s, base) == if sign == "" then Numeral(s, base) else -Numeral(s, base)
  {
    if sign == "" {
      assert sign + s == s;
    } else {
      assert (sign + s)[1..] == s;
    }
  }

  lemma PadReadsBack(sign: string, digits: string, width: int, leadingZero: bool, base: nat)
    requires base > 0 && (sign == "" || sign == "-") && digits != "" && AreDigits(digits, base)
    ensures var s := Pad(sign, digits, width, leadingZero);
            && Read(s, base) == (if sign == "" then Numeral(digits, base) else -Numeral(digits, base))
            && |s| == Max(width, |digits| + |sign|)
            && s[|s| - |digits|..] == digits
  {
    hide Numeral, Read, Repeat, AreDigits;
    var pad := Max(width - |digits| - |sign|, 0);
    assert DigitValue(digits[0]) >= 0 by {
      FirstDigit(digits, base);
    }
    PadSizes(sign, digits, width, leadingZero);
    if leadingZero {
      ZerosMeanNothing(pad, digits, base);
      ZerosAreDigits(pad, digits);
      ReadSigned(sign, Repeat('0', pad) + digits, base);
    } else {
      BlanksMeanNothing(pad, sign + digits, base);
      ReadSigned(sign, digits, base);
    }
  }

  // Whatever the value, base and padding: what is printed reads back as the number that was
  // meant, its digits have no superfluous zero in front, and it takes the width that was
  // asked for, or what it needs if that is more.
  lemma TextReadsBack(v: u32, f: Format)
    requires IsBase(f.base)
    ensures var s, digits := Text(v, f), Digits(Magnitude(v, f.signed), f.base, f.upper);
            && Read(s, f.base) == Meaning(v, f.signed)
            && |s| == Max(f.width, |digits| + if Meaning(v, f.signed) < 0 then 1 else 0)
            && |digits| <= |s| && s[|s| - |digits|..] == digits
            && (digits[0] == '0' ==> |digits| == 1) && AreDigits(digits, f.base)
  {
    hide Digits, Numeral, Read, Pad, AreDigits;
    var digits := Digits(Magnitude(v, f.signed), f.base, f.upper);
    DigitsMean(Magnitude(v, f.signed), f.base, f.upper);
    PadReadsBack(if Meaning(v, f.signed) < 0 then "-" else "", digits, f.width, f.leadingZero, f.base);
  }

  // ----- what it looks like -----

  // Lower case letters come from %x and upper case letters from %X.
  predicate InCase(s: string, upper: bool) {
    forall i :: 0 <= i < |s| ==> ('a' <= s[i] <= 'z' ==> !upper) && ('A' <= s[i] <= 'Z' ==> upper)
  }

  lemma {:induction false} FixedCase(v: nat, k: nat, base: nat, upper: bool)
    requires 0 < base <= 16 && v < Pow(base, k)
    ensures InCase(Fixed(v, k, base, upper), upper)
    decreases k
  {
    hide Div, Mod;
    if k == 0 {
    } else {
      TopDigit(v, Pow(base, k - 1), base);
      FixedCase(Mod(v, Pow(base, k - 1)), k - 1, base, upper);
    }
  }

  // With a leading zero in the format, the sign comes first and zeros fill the field;
  // otherwise blanks fill it, in front of the sign.
  predicate Filled(s: string, digits: nat, negative: bool, leadingZero: bool) {
    && digits + (if negative then 1 else 0) <= |s|
    && if leadingZero
       then
         && (negative ==> s[0] == '-')
         && forall i :: (if negative then 1 else 0) <= i < |s| - digits ==> s[i] == '0'
       else
         && (negative ==> s[|s| - digits - 1] == '-')
         && forall i :: 0 <= i < |s| - digits - (if negative then 1 else 0) ==> s[i] == ' '
  }

  lemma PadLooksRight(digits: string, width: int, negative: bool, leadingZero: bool, upper: bool)
    requires InCase(digits, upper)
    ensures var s := Pad(if negative then "-" else "", digits, width, leadingZero);
            InCase(s, upper) && Filled(s, |digits|, negative, leadingZero)
  {
  }

  lemma TextLooksRight(v: u32, f: Format)
    requires IsBase(f.base)
    ensures var digits := Digits(Magnitude(v, f.signed), f.base, f.upper);
            && InCase(Text(v, f), f.upper)
            && Filled(Text(v, f), |digits|, f.signed && v >= 0x8000_0000, f.leadingZero)
  {
    var m := Magnitude(v, f.signed);
    CountRange(m, f.base);
    FixedCase(m, DigitCount(m, f.base), f.base, f.upper);
    assert Digits(m, f.base, f.upper) == Fixed(m, DigitCount(m, f.base), f.base, f.upper);
    PadLooksRight(Digits(m, f.base, f.upper), f.width, f.signed && v >= 0x8000_0000, f.leadingZero, f.upper);
  }

  // ----- the method -----

  lemma PowOne(base: nat)
    requires base > 0
    ensures Pow(base, 0) == 1
  {
  }

  lemma CountOnce(w: nat, base: nat)
    requires IsBase(base)
    ensures DigitCount(w, base) == if Div(w, base) == 0 then 1 else 1 + DigitCount(Div(w, base), base)
  {
  }

  // The place value never overflows: it is no more than the number itself.
  lemma PlaceFits(p: nat, w: nat, q: nat, base: nat, v: u32)
    requires base * q <= w && p * w <= v && q > 0
    ensures p * base * q <= v && p * base <= v && Wrap32(p * base) == p * base
  {
    assert p * (base * q) <= p * w;
    assert p * (base * q) == p * base * q;
    assert p * base <= p * base * q;
  }

  lemma FixedStep(v: nat, k: nat, base: nat, upper: bool)
    requires 0 < base <= 16 && k > 0 && v < Pow(base, k)
    ensures var p := Pow(base, k - 1);
            && 0 <= Div(v, p) < base && 0 <= Mod(v, p) < p
            && Fixed(v, k, base, upper) == [Digit(Div(v, p), upper)] + Fixed(Mod(v, p), k - 1, base, upper)
  {
  }

  lemma FixedNone(v: nat, base: nat, upper: bool)
    requires 0 < base <= 16 && v < Pow(base, 0)
    ensures Fixed(v, 0, base, upper) == ""
  {
  }

  lemma NextPlace(p: nat, base: nat, k: nat)
    requires IsBase(base) && k > 0 && p == Pow(base, k - 1)
    ensures Div(p, base) < p
    ensures if k > 1 then Div(p, base) == Pow(base, k - 2) else Div(p, base) == 0
  {
    if k > 1 {
      PowStep(base, k - 1);
    }
    Smaller(p, base);
  }

  class LogPort {
    var sent: string

    constructor ()
      ensures sent == ""
    {
      sent := "";
    }

    method TxChar(c: char)
      modifies this
      ensures sent == old(sent) + [c]
    {
      sent := sent + [c];
    }

    method RepChar(c: char, r: int)
      modifies this
      ensures sent == old(sent) + Repeat(c, r)
    {
      var n := r;
      while n > 0
        invariant n <= Max(r, 0) && sent == old(sent) + Repeat(c, Max(r, 0) - Max(n, 0))
      {
        TxChar(c);
        n := n - 1;
      }
    }

    // The number of digits of v, and the place value of the first of them.
    static method Measure(v: u32, base: nat) returns (p: u32, digitCount: nat)
      requires IsBase(base)
      ensures digitCount == DigitCount(v, base) && p == Pow(base, digitCount - 1)
    {
      hide Pow, DigitCount, Div;
      p, digitCount := 1, 1;
      ghost var w: nat := v;
      Smaller(v, base);
      var vShrink := Div(v, base);
      PowOne(base);
      while vShrink > 0
        invariant digitCount >= 1 && p == Pow(base, digitCount - 1)
        invariant vShrink == Div(w, base) && digitCount - 1 + DigitCount(w, base) == DigitCount(v, base)
        invariant base * vShrink <= w && p * w <= v
        decreases vShrink
      {
        CountOnce(w, base);
        PlaceFits(p, w, vShrink, base, v);
        digitCount := digitCount + 1;
        p := Wrap32(p * base);
        w := vShrink;
        Smaller(w, base);
        vShrink := Div(vShrink, base);
        PowStep(base, digitCount - 1);
      }
      CountOnce(w, base);
    }

    static method DigitChar(q: nat, upper: bool) returns (c: char)
      requires q < 16
      ensures c == Digit(q, upper)
    {
      var d: u8 := q + 48;
      if d > 57 {
        d := d + (if upper then 65 else 97) - 48 - 10;
      }
      return d as char;
    }

    // Prints the k digits of v0, of which p is the place value of the first.
    method PrintDigits(v0: u32, p0: u32, ghost k0: nat, base: nat, upper: bool)
      requires IsBase(base) && k0 > 0 && p0 == Pow(base, k0 - 1) && v0 < Pow(base, k0)
      modifies this
      ensures sent == old(sent) + Fixed(v0, k0, base, upper)
    {
      hide Pow, Fixed, Div, Mod, Digit;
      var v: u32, p: u32 := v0, p0;
      ghost var k, done := k0, "";
      while p > 0
        invariant (k > 0 ==> p == Pow(base, k - 1)) && (k == 0 ==> p == 0)
        invariant v < Pow(base, k)
        invariant done + Fixed(v, k, base, upper) == Fixed(v0, k0, base, upper)
        invariant sent == old(sent) + done
        decreases p
      {
        PowStep(base, k);
        TopDigit(v, p, base);
        FixedStep(v, k, base, upper);
        NextPlace(p, base, k);
        var c := DigitChar(Div(v, p), upper);
        TxChar(c);
        done := done + [c];
        v := Mod(v, p);
        p := Div(p, base);
        k := k - 1;
      }
      FixedNone(v, base, upper);
    }

    method PrintInteger(arg: u32, f: Format)
      requires IsBase(f.base)
      modifies this
      ensures sent == old(sent) + Text(arg, f)
    {
      hide Fixed, Pow, DigitCount, Repeat, Div;
      var v: u32, sign := arg, false;
      if f.signed && arg >= 0x8000_0000 {
        v := Wrap32(0xFFFF_FFFF - v + 1);
        sign := true;
      }
      assert v == Magnitude(arg, f.signed) && sign == (Meaning(arg, f.signed) < 0);
      CountRange(v, f.base);
      var p, digitCount := Measure(v, f.base);
      var width := f.width - digitCount;
      if f.leadingZero {
        if sign {
          TxChar('-');
          width := width - 1;
        }
        RepChar('0', width);
      } else {
        if sign {
          width := width - 1;
        }
        RepChar(' ', width);
        if sign {
          TxChar('-');
        }
      }
      PrintDigits(v, p, digitCount, f.base, f.upper);
    }
  }
}
