/** The fixed-point printer, and a reader of decimal numbers to check it against. */
module FixedPoint {
  import opened Arith

  // ----- reading a decimal number

  datatype Option<T> = None | Some(value: T)

  /** sign, digits read as one integer, and how many of them stand after the point */
  datatype Decimal = Decimal(negative: bool, mantissa: nat, scale: nat)

  function Pow10(n: nat): (p: nat)
    ensures p >= 1
  {
    if n == 0 then 1 else 10 * Pow10(n - 1)
  }

  predicate IsDigit(c: char) { '0' <= c <= '9' }

  function DigitValue(c: char): nat
    requires IsDigit(c)
  {
    c as int - '0' as int
  }

  predicate AllDigits(str: seq<char>) {
    forall i :: 0 <= i < |str| ==> IsDigit(str[i])
  }

  /** Digits read from left to right. */
  function Natural(str: seq<char>): nat
    requires AllDigits(str)
  {
    if str == [] then 0 else 10 * Natural(str[..|str| - 1]) + DigitValue(str[|str| - 1])
  }

  /** Index of the first point, or |str|. */
  function Point(str: seq<char>): (k: nat)
    ensures k <= |str| && (k < |str| ==> str[k] == '.') && forall i :: 0 <= i < k ==> str[i] != '.'
  {
    if str == [] || str[0] == '.' then 0 else 1 + Point(str[1..])
  }

  function ReadUnsigned(str: seq<char>): Option<Decimal> {
    var k := Point(str);
    if k == |str| then
      if AllDigits(str) && str != [] then Some(Decimal(false, Natural(str), 0)) else None
    else
      var whole, fraction := str[..k], str[k + 1..];
      if AllDigits(whole) && AllDigits(fraction) && fraction != [] then
        Some(Decimal(false, Natural(whole) * Pow10(|fraction|) + Natural(fraction), |fraction|))
      else None
  }

  function ReadDecimal(str: seq<char>): Option<Decimal> {
    if str != [] && str[0] == '-' then
      match ReadUnsigned(str[1..])
      case Some(d) => Some(d.(negative := true))
      case None => None
    else ReadUnsigned(str)
  }

  lemma ShiftedSum(n: nat, p: nat, m: nat, d: nat)
    ensures 10 * (n * p + m) + d == n * (10 * p) + (10 * m + d)
  {
  }

  lemma {:induction false} NaturalConcat(a: seq<char>, b: seq<char>)
    requires AllDigits(a) && AllDigits(b)
    ensures AllDigits(a + b) && Natural(a + b) == Natural(a) * Pow10(|b|) + Natural(b)
    decreases |b|
  {
    hide DigitValue, IsDigit;
    if b == [] {
      assert a + b == a;
    } else {
      var init := b[..|b| - 1];
      NaturalConcat(a, init);
      assert (a + b)[..|a + b| - 1] == a + init;
      ShiftedSum(Natural(a), Pow10(|init|), Natural(init), DigitValue(b[|b| - 1]));
    }
  }

  // ----- the text, last character first, as the digit loop writes it

  function DigitChar(d: nat): char
    requires d < 10
  {
    ('0' as int + d) as char
  }

  /** Digits of `m`, lowest first; at least one. */
  function Digits(m: nat): (ds: seq<char>)
    ensures |ds| >= 1
  {
    [DigitChar(m % 10)] + if m / 10 > 0 then Digits(m / 10) else []
  }

  function Zeros(n: nat): seq<char> {
    seq(n, _ => '0')
  }

  /** `ds` with the point behind its first `fd` characters, once there are that many. */
  function Dotted(ds: seq<char>, fd: nat): seq<char> {
    if fd != 0 && |ds| >= fd then ds[..fd] + ['.'] + ds[fd..] else ds
  }

  /** Digits padded with zeros to at least `fd`. */
  function Padded(m: nat, fd: nat): seq<char> {
    if |Digits(m)| < fd then Digits(m) + Zeros(fd - |Digits(m)|) else Digits(m)
  }

  function Magnitude(n: int): nat {
    if n < 0 then -n else n
  }

  /** The whole text, backwards. */
  function Backwards(n: int, fd: nat): seq<char> {
    Dotted(Padded(Magnitude(n), fd), fd) + if n < 0 then ['-'] else []
  }

  function Reversed(s: seq<char>): (r: seq<char>)
    ensures |r| == |s|
    ensures forall i :: 0 <= i < |s| ==> r[i] == s[|s| - 1 - i]
  {
    if s == [] then [] else Reversed(s[1..]) + [s[0]]
  }

  function Text(n: int, fd: nat): seq<char> {
    Reversed(Backwards(n, fd))
  }

  lemma {:induction false} ReversedConcat(a: seq<char>, b: seq<char>)
    ensures Reversed(a + b) == Reversed(b) + Reversed(a)
    decreases |a|
  {
    if a == [] {
      assert a + b == b;
    } else {
      assert (a + b)[1..] == a[1..] + b;
      ReversedConcat(a[1..], b);
    }
  }

  lemma ReversedOne(c: char)
    ensures Reversed([c]) == [c]
  {
  }

  lemma NaturalOne(c: char)
    requires IsDigit(c)
    ensures Natural([c]) == DigitValue(c)
  {
    hide DigitValue, IsDigit;
    assert [c][..0] == [];
  }

  lemma OneDigit(d: nat)
    requires d < 10
    ensures IsDigit(DigitChar(d)) && DigitValue(DigitChar(d)) == d
  {
  }

  lemma {:induction false} DigitsRead(m: nat)
    ensures AllDigits(Digits(m)) && AllDigits(Reversed(Digits(m)))
    ensures Natural(Reversed(Digits(m))) == m
  {
    hide DigitChar, Reversed, Natural, DigitValue, IsDigit;
    var d := DigitChar(m % 10);
    OneDigit(m % 10);
    NaturalOne(d);
    ReversedOne(d);
    if m / 10 > 0 {
      DigitsRead(m / 10);
      ReversedConcat([d], Digits(m / 10));
      NaturalConcat(Reversed(Digits(m / 10)), [d]);
      assert Pow10(|[d]|) == 10 * Pow10(0);
    } else {
      assert Digits(m) == [d];
    }
  }

  lemma {:induction false} ZerosRead(n: nat)
    ensures AllDigits(Zeros(n)) && Natural(Zeros(n)) == 0
  {
    if n > 0 {
      ZerosRead(n - 1);
      assert Zeros(n)[..n - 1] == Zeros(n - 1);
    }
  }

  lemma ReversedZeros(n: nat)
    ensures Reversed(Zeros(n)) == Zeros(n) && |Zeros(n)| == n
  {
  }

  lemma PaddedRead(m: nat, fd: nat)
    ensures AllDigits(Padded(m, fd)) && |Padded(m, fd)| >= fd && |Padded(m, fd)| >= 1
    ensures AllDigits(Reversed(Padded(m, fd))) && Natural(Reversed(Padded(m, fd))) == m
  {
    hide Reversed, Natural, Zeros, Digits;
    DigitsRead(m);
    if |Digits(m)| < fd {
      var z := Zeros(fd - |Digits(m)|);
      ReversedZeros(fd - |Digits(m)|);
      ZerosRead(|z|);
      ReversedConcat(Digits(m), z);
      NaturalConcat(z, Reversed(Digits(m)));
      assert 0 * Pow10(|Digits(m)|) == 0;
    }
  }

  lemma DigitsHaveNoPoint(str: seq<char>)
    requires AllDigits(str)
    ensures Point(str) == |str|
    ensures str != [] ==> str[0] != '-'
  {
  }

  lemma {:induction false} PointAfter(a: seq<char>, b: seq<char>)
    requires AllDigits(a)
    ensures Point(a + ['.'] + b) == |a|
  {
    var s := a + ['.'] + b;
    var k := Point(s);
    assert s[|a|] == '.';
    assert forall i :: 0 <= i < |a| ==> s[i] == a[i] && a[i] != '.';
  }

  lemma UnsignedRead(m: nat, fd: nat)
    ensures ReadUnsigned(Reversed(Dotted(Padded(m, fd), fd))) == Some(Decimal(false, m, fd))
    ensures Reversed(Dotted(Padded(m, fd), fd))[0] != '-'
  {
    hide Padded, Reversed, Natural;
    var ds := Padded(m, fd);
    PaddedRead(m, fd);
    if fd == 0 {
      DigitsHaveNoPoint(Reversed(ds));
    } else {
      var low, high := ds[..fd], ds[fd..];
      assert ds == low + high;
      var fraction, whole := Reversed(low), Reversed(high);
      ReversedConcat(low, high);
      ReversedConcat(low + ['.'], high);
      ReversedConcat(low, ['.']);
      ReversedOne('.');
      var str := Reversed(Dotted(ds, fd));
      assert str == whole + ['.'] + fraction;
      assert AllDigits(whole) && AllDigits(fraction);
      PointAfter(whole, fraction);
      assert str[..|whole|] == whole && str[|whole| + 1..] == fraction;
      NaturalConcat(whole, fraction);
    }
  }

  lemma PointPresent(n: int, fd: nat)
    ensures '.' in Text(n, fd) <==> fd != 0
  {
    hide Padded, Reversed, Natural;
    var ds := Padded(Magnitude(n), fd);
    var b := Backwards(n, fd);
    PaddedRead(Magnitude(n), fd);
    if fd != 0 {
      assert b[fd] == '.';
      assert Text(n, fd)[|b| - 1 - fd] == '.';
    } else {
      forall i | 0 <= i < |b| ensures Text(n, fd)[i] != '.' {
        assert Text(n, fd)[i] == b[|b| - 1 - i];
      }
    }
  }

  /** The printer round trip: reading the text back gives the number, with exactly `fd` digits after
      the point (and no point when `fd` is 0). */
  lemma TextReadsBack(n: int, fd: nat)
    ensures ReadDecimal(Text(n, fd)) == Some(Decimal(n < 0, Magnitude(n), fd))
    ensures '.' in Text(n, fd) <==> fd != 0
  {
    hide Dotted, Padded, Reversed, ReadUnsigned;
    var m := Magnitude(n);
    var body := Dotted(Padded(m, fd), fd);
    UnsignedRead(m, fd);
    PaddedRead(m, fd);
    if n < 0 {
      ReversedConcat(body, ['-']);
      ReversedOne('-');
      assert Text(n, fd) == ['-'] + Reversed(body);
      assert Text(n, fd)[1..] == Reversed(body);
    } else {
      assert body + [] == body;
    }
    PointPresent(n, fd);
  }

  lemma {:induction false} TopDigit(m: nat)
    ensures var ds := Digits(m); ds[|ds| - 1] == '0' <==> m == 0
    ensures m == 0 ==> |Digits(m)| == 1
  {
    hide DigitChar;
    OneDigit(m % 10);
    if m / 10 > 0 {
      TopDigit(m / 10);
    } else {
      OneDigit(0);
      assert m % 10 == m;
    }
  }

  lemma TopCharacter(m: nat, fd: nat)
    ensures var body := Dotted(Padded(m, fd), fd); |body| >= 1 && (body[|body| - 1] == '0' <==> m == 0 && fd == 0)
  {
    hide Digits;
    TopDigit(m);
  }

  /** No leading zero is printed: behind the sign the text starts with '0' only when it is the number 0
      without a point. */
  lemma NoLeadingZero(n: int, fd: nat)
    ensures var first := if n < 0 then 1 else 0;
            first < |Text(n, fd)| && (Text(n, fd)[first] == '0' <==> n == 0 && fd == 0)
  {
    hide Dotted, Padded;
    TopCharacter(Magnitude(n), fd);
  }

  /** The value read back, as a number. */
  function Value(d: Decimal): real {
    (if d.negative then -(d.mantissa as real) else d.mantissa as real) / (Pow10(d.scale) as real)
  }

  lemma TextValue(n: int, fd: nat)
    ensures ReadDecimal(Text(n, fd)).Some?
    ensures Value(ReadDecimal(Text(n, fd)).value) == n as real / Pow10(fd) as real
  {
    TextReadsBack(n, fd);
  }

  // ----- the implementation

  lemma Assoc(a: seq<char>, b: seq<char>, c: seq<char>)
    ensures a + (b + c) == a + b + c
  {
  }

  lemma DigitsFirst(n: nat, done: seq<char>)
    ensures done + Digits(n) == done + [DigitChar(n % 10)] + (if n / 10 > 0 then Digits(n / 10) else [])
    ensures |done + [DigitChar(n % 10)]| <= |done + Digits(n)|
  {
    hide DigitChar;
    Assoc(done, [DigitChar(n % 10)], if n / 10 > 0 then Digits(n / 10) else []);
  }

  lemma DottedNone(fd: nat)
    ensures Dotted([], fd) == []
  {
  }

  lemma DottedPrefix(a: seq<char>, b: seq<char>, fd: nat)
    ensures |a| <= |b| ==> |Dotted(a, fd)| <= |Dotted(b, fd)|
  {
  }

  lemma DottedGrows(done: seq<char>, d: char, fd: nat)
    ensures Dotted(done + [d], fd) == Dotted(done, fd) + if fd != 0 && |done| + 1 == fd then [d, '.'] else [d]
    ensures |Dotted(done, fd)| == if fd != 0 && |done| >= fd then |done| + 1 else |done|
  {
  }

  /** The do-while loop: digits of `m` in reverse, with the point in its place. */
  method WriteDigits(m: nat, fd: nat, s: array<char>) returns (i: nat)
    requires |Dotted(Digits(m), fd)| <= s.Length
    modifies s
    ensures i == |Dotted(Digits(m), fd)| && s[..i] == Dotted(Digits(m), fd)
  {
    hide DigitChar, Digits, Dotted;
    DottedNone(fd);
    ghost var done: seq<char> := [];
    i := 0;
    var n := m;
    assert [] + Digits(n) == Digits(m);
    while true
      invariant done + Digits(n) == Digits(m)
      invariant i == |Dotted(done, fd)| && i <= s.Length && s[..i] == Dotted(done, fd)
      decreases n
    {
      var d := DigitChar(n % 10);
      ghost var more := done + [d];
      DigitsFirst(n, done);
      DottedPrefix(more, Digits(m), fd);
      DottedGrows(done, d, fd);
      s[i] := d;
      i := i + 1;
      if i == fd && fd != 0 {
        s[i] := '.';
        i := i + 1;
      }
      done := more;
      n := n / 10;
      if n <= 0 {
        assert more + [] == more;
        break;
      }
    }
  }

  /** In-place reversal with two indices moving towards each other. */
  method ReverseText(s: array<char>, size: nat)
    requires 1 <= size <= s.Length
    modifies s
    ensures s[..size] == Reversed(old(s[..size]))
    ensures s[size..] == old(s[size..])
  {
    var i, j := size - 1, 0;
    while j < i
      invariant 0 <= j <= i + 1 && i == size - 1 - j
      invariant forall k :: 0 <= k < s.Length ==>
                  s[k] == if k < size && (k < j || k > i) then old(s[size - 1 - k]) else old(s[k])
    {
      var c := s[j];
      s[j] := s[i];
      s[i] := c;
      i := i - 1;
      j := j + 1;
    }
    assert s[..size] == Reversed(old(s[..size]));
  }

  /** The padding loop and the point behind it. */
  method PadZeros(start: nat, fd: nat, s: array<char>) returns (i: nat)
    requires start < fd < s.Length
    modifies s
    ensures i == fd + 1 && s[..i] == old(s[..start]) + Zeros(fd - start) + ['.']
  {
    i := start;
    while i < fd
      invariant start <= i <= fd && s[..i] == old(s[..start]) + Zeros(i - start)
    {
      s[i] := '0';
      i := i + 1;
    }
    s[i] := '.';
    i := i + 1;
  }

  lemma DottedPadded(m: nat, fd: nat)
    ensures Dotted(Padded(m, fd), fd) ==
            if |Dotted(Digits(m), fd)| < fd then Dotted(Digits(m), fd) + Zeros(fd - |Digits(m)|) + ['.']
            else Dotted(Digits(m), fd)
    ensures |Dotted(Digits(m), fd)| < fd ==> Dotted(Digits(m), fd) == Digits(m)
    ensures |Dotted(Digits(m), fd)| < fd <==> |Digits(m)| < fd
  {
    hide Digits;
  }

  /** `itoa_fixedpoint` for every number whose negation is representable; `s` must have room for
      the text and its terminator, and the 8-bit index for the text. */
  method ItoaFixedpoint(n: int, fixeddigits: nat, s: array<char>) returns (size: nat)
    requires -32768 < n < 32768 && fixeddigits < 256
    requires |Text(n, fixeddigits)| < 256 && |Text(n, fixeddigits)| < s.Length
    modifies s
    ensures size == |Text(n, fixeddigits)|
    ensures s[..size] == Text(n, fixeddigits) && s[size] == '\0'
  {
    hide Digits, Reversed;
    var sign := n < 0;
    var m := if n < 0 then -n else n;
    var i := WriteDigits(m, fixeddigits, s);
    if i < fixeddigits {
      i := PadZeros(i, fixeddigits, s);
    }
    DottedPadded(m, fixeddigits);
    if sign {
      s[i] := '-';
      i := i + 1;
    }
    assert s[..i] == Backwards(n, fixeddigits);
    s[i] := '\0';
    size := i;
    ReverseText(s, i);
  }
}
