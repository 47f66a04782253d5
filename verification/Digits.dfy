/** Numbers printed with a minimum width, as `snprintf("%0*o")` and `std::setw` with a fill of zeros
    do, and read back. */
module Digits {
  import opened Basics
  import opened Bytes

  const ZERO: Byte := 48

  function Digit(d: nat): Byte
    requires d < 10
  {
    ZERO + d
  }

  /** At least `width` digits: more when the number needs more. */
  function Print(base: nat, value: nat, width: nat): (r: seq<Byte>)
    requires 2 <= base <= 10
    ensures |r| >= 1 && |r| >= width
    decreases value + width
  {
    if value < base && width <= 1 then [Digit(value)]
    else
      Shrinks(value, base);
      Print(base, value / base, if width == 0 then 0 else width - 1) + [Digit(value % base)]
  }

  lemma Shrinks(value: nat, base: nat)
    requires base >= 2
    ensures value / base <= value && (value >= base ==> value / base < value)
    ensures 0 <= value % base < base && value == value / base * base + value % base
  {
    var q := value / base;
    assert value == q * base + value % base;
    if q > 0 {
      assert q * base >= q * 2 by {
        assert q * (base - 2) >= 0;
      }
    }
  }

  predicate IsDigit(base: nat, b: Byte) {
    ZERO <= b < ZERO + base
  }

  predicate AllDigits(base: nat, s: seq<Byte>) {
    forall i :: 0 <= i < |s| ==> IsDigit(base, s[i])
  }

  function Value(base: nat, s: seq<Byte>): nat
    requires AllDigits(base, s)
  {
    if s == [] then 0 else Value(base, s[..|s| - 1]) * base + (s[|s| - 1] - ZERO)
  }

  lemma ValuePush(base: nat, high: seq<Byte>, d: nat)
    requires 2 <= base <= 10 && AllDigits(base, high) && d < base
    ensures AllDigits(base, high + [Digit(d)])
    ensures Value(base, high + [Digit(d)]) == Value(base, high) * base + d
  {
    var s := high + [Digit(d)];
    assert s[..|s| - 1] == high;
  }

  lemma ValueOne(base: nat, d: nat)
    requires 2 <= base <= 10 && d < base
    ensures AllDigits(base, [Digit(d)]) && Value(base, [Digit(d)]) == d
  {
    assert [Digit(d)][..0] == [];
  }

  function Narrower(width: nat): nat {
    if width == 0 then 0 else width - 1
  }

  /** One digit, or the digits of the quotient and one more. */
  lemma PrintCases(base: nat, value: nat, width: nat) returns (q: nat, r: nat)
    requires 2 <= base <= 10
    ensures q == value / base && r == value % base && r < base && q <= value
    ensures value < base && width <= 1 ==> Print(base, value, width) == [Digit(value)]
    ensures !(value < base && width <= 1) ==>
              q + Narrower(width) < value + width && Print(base, value, width) == Print(base, q, Narrower(width)) + [Digit(r)]
  {
    Shrinks(value, base);
    q, r := value / base, value % base;
  }

  lemma Whole(base: nat, value: nat)
    requires base >= 2
    ensures value == value / base * base + value % base
  {
  }

  /** Reading back what was printed gives the number. */
  lemma {:induction false} PrintRoundTrip(base: nat, value: nat, width: nat)
    requires 2 <= base <= 10
    ensures AllDigits(base, Print(base, value, width)) && Value(base, Print(base, value, width)) == value
    decreases value + width
  {
    hide Value, AllDigits, Print, Digit;
    var q, r := PrintCases(base, value, width);
    if value < base && width <= 1 {
      ValueOne(base, value);
    } else {
      PrintRoundTrip(base, q, Narrower(width));
      ValuePush(base, Print(base, q, Narrower(width)), r);
      Whole(base, value);
    }
  }

  function Pow(base: nat, n: nat): nat {
    if n == 0 then 1 else Pow(base, n - 1) * base
  }

  lemma Carry(value: nat, base: nat, p: nat)
    requires base >= 2
    ensures value / base < p <==> value < p * base
  {
    var q, r := value / base, value % base;
    assert value == q * base + r;
    assert (q + 1) * base == q * base + base;
    if q < p {
      Times(q + 1, p, base);
    } else {
      Times(p, q, base);
    }
  }

  lemma PowStep(base: nat, n: nat)
    requires n > 0
    ensures Pow(base, n) == Pow(base, n - 1) * base && Pow(base, 0) == 1
  {
  }

  /** The quotient and the last digit of a number of two digits or more. */
  lemma Cut(base: nat, value: nat, width: nat) returns (q: nat, r: nat)
    requires 2 <= base <= 10 && width >= 2
    ensures q == value / base && r == value % base && r < base && q <= value
    ensures Print(base, value, width) == Print(base, q, width - 1) + [Digit(r)]
    ensures q < Pow(base, width - 1) <==> value < Pow(base, width)
  {
    hide Print, Pow, Digit;
    q, r := PrintCases(base, value, width);
    PowStep(base, width);
    Carry(value, base, Pow(base, width - 1));
  }

  /** The number fits the width exactly when it is below that power of the base. */
  lemma {:induction false} PrintFits(base: nat, value: nat, width: nat)
    requires 2 <= base <= 10 && width >= 1
    ensures |Print(base, value, width)| == width <==> value < Pow(base, width)
    decreases width, value
  {
    if width == 1 {
      FitsOne(base, value);
    } else {
      hide Print, Pow, Digit;
      var q, r := Cut(base, value, width);
      PrintFits(base, q, width - 1);
    }
  }

  lemma FitsOne(base: nat, value: nat)
    requires 2 <= base <= 10
    ensures |Print(base, value, 1)| == 1 <==> value < Pow(base, 1)
  {
    hide Print, Digit;
    var _, _ := PrintCases(base, value, 1);
    PowStep(base, 1);
  }

  lemma {:induction false} LessLastDigit(a: seq<Byte>, b: seq<Byte>, x: Byte, y: Byte)
    requires |a| == |b| && (Less(a, b) || (a == b && x < y))
    ensures Less(a + [x], b + [y])
  {
    LessIrreflexive(a);
    if a == b {
      LessAfter(a, [x], [y]);
    } else {
      LessBefore(a, b, [x], [y]);
    }
  }

  lemma PowOne(base: nat)
    ensures Pow(base, 1) == base
  {
    assert Pow(base, 1) == Pow(base, 0) * base;
  }

  lemma OneDigitOrdered(base: nat, v: nat, w: nat)
    requires 2 <= base <= 10 && v < w < base
    ensures Less(Print(base, v, 1), Print(base, w, 1))
  {
  }

  /** The quotients and the last digits of two numbers, and how they are ordered. */
  lemma Split(base: nat, v: nat, w: nat, width: nat) returns (q: nat, r: nat, p: nat, t: nat)
    requires 2 <= base <= 10 && width >= 2 && v < w < Pow(base, width)
    ensures r < base && t < base && (q < p || (q == p && r < t)) && p < Pow(base, width - 1)
    ensures Print(base, v, width) == Print(base, q, width - 1) + [Digit(r)]
    ensures Print(base, w, width) == Print(base, p, width - 1) + [Digit(t)]
    ensures |Print(base, q, width - 1)| == |Print(base, p, width - 1)|
  {
    hide Print, Pow, Digit;
    q, r := Cut(base, v, width);
    p, t := Cut(base, w, width);
    Quotients(v, w, base);
    BothFit(base, q, p, width - 1);
  }

  lemma BothFit(base: nat, q: nat, p: nat, width: nat)
    requires 2 <= base <= 10 && width >= 1 && q <= p < Pow(base, width)
    ensures |Print(base, q, width)| == |Print(base, p, width)|
  {
    hide Print, Pow;
    PrintFits(base, q, width);
    PrintFits(base, p, width);
  }

  /** Numbers that fit the width are ordered as texts just as they are as numbers. */
  lemma {:induction false} PrintOrdered(base: nat, v: nat, w: nat, width: nat)
    requires 2 <= base <= 10 && width >= 1 && v < w < Pow(base, width)
    ensures Less(Print(base, v, width), Print(base, w, width))
    decreases width
  {
    hide Print, Less, Pow, Digit;
    if width == 1 {
      PowOne(base);
      OneDigitOrdered(base, v, w);
    } else {
      var q, r, p, t := Split(base, v, w, width);
      if q < p {
        PrintOrdered(base, q, p, width - 1);
      }
      DigitsOrdered(r, t);
      LessLastDigit(Print(base, q, width - 1), Print(base, p, width - 1), Digit(r), Digit(t));
    }
  }

  lemma DigitsOrdered(r: nat, t: nat)
    requires r < 10 && t < 10
    ensures Digit(r) < Digit(t) <==> r < t
  {
  }

  lemma Quotients(v: nat, w: nat, base: nat)
    requires base >= 2 && v < w
    ensures v / base < w / base || (v / base == w / base && v % base < w % base)
  {
    var q, p := v / base, w / base;
    assert v == q * base + v % base && w == p * base + w % base;
    assert (p + 1) * base == p * base + base;
    if q > p {
      Times(p + 1, q, base);
    }
  }
}
