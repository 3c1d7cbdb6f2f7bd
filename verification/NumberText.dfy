/** The number conversions of src/printf.c: ui2a, i2a, a2d, a2i and putchw. */
module NumberText {
  import opened Bits

  const U32: int := 0x1_0000_0000
  const BUFFER: nat := 12  // char bf[12] in tfp_format

  function Power(b: nat, e: nat): nat
  {
    if e == 0 then 1 else b * Power(b, e - 1)
  }

  /** a2d */
  function A2d(ch: char): (d: int)
    ensures -1 <= d <= 15
  {
    if '0' <= ch <= '9' then ch as int - '0' as int
    else if 'a' <= ch <= 'f' then ch as int - 'a' as int + 10
    else if 'A' <= ch <= 'F' then ch as int - 'A' as int + 10
    else -1
  }

  /** A decimal digit, or a letter of the wanted case. */
  predicate InCase(ch: char, upper: bool)
  {
    '0' <= ch <= '9' || if upper then 'A' <= ch <= 'F' else 'a' <= ch <= 'f'
  }

  /** The character ui2a writes for a digit. */
  function Digit(d: nat, upper: bool): (ch: char)
    requires d < 16
    ensures A2d(ch) == d && InCase(ch, upper)
  {
    if d < 10 then '0' + d as char else if upper then 'A' + (d - 10) as char else 'a' + (d - 10) as char
  }

  /** a2d gives 0 to 9 for the decimal digits, 10 to 15 for the letters of either case, and -1 for all else. */
  lemma A2dIff(ch: char, d: int)
    requires 0 <= d < 16
    ensures A2d(ch) == d <==>
            if d < 10 then ch as int == '0' as int + d
            else ch as int == 'a' as int + d - 10 || ch as int == 'A' as int + d - 10
    ensures A2d(ch) == -1 <==> !('0' <= ch <= '9' || 'a' <= ch <= 'f' || 'A' <= ch <= 'F')
  {
  }

  ghost predicate AllInCase(s: string, upper: bool)
  {
    forall i :: 0 <= i < |s| ==> InCase(s[i], upper)
  }

  /** A digit value has one character in a case. */
  lemma InCaseUnique(a: char, b: char, upper: bool)
    requires InCase(a, upper) && InCase(b, upper) && A2d(a) == A2d(b)
    ensures a == b
  {
  }

  ghost predicate Digits(s: string, base: nat)
  {
    forall i :: 0 <= i < |s| ==> 0 <= A2d(s[i]) < base
  }

  /** The number that a string of digits denotes. */
  function Value(s: string, base: nat): int
  {
    if s == [] then 0 else Value(s[..|s| - 1], base) * base + A2d(s[|s| - 1])
  }

  /** s is the numeral of n: digits of the base that denote n, without leading zeros. */
  ghost predicate IsNumeral(s: string, n: int, base: nat)
  {
    && |s| > 0 && Digits(s, base) && Value(s, base) == n
    && (|s| > 1 ==> A2d(s[0]) > 0)
  }

  // ---------------------------------------------------------------- numerals are unique

  lemma {:induction false} ValueNonNegative(s: string, base: nat)
    requires Digits(s, base)
    ensures Value(s, base) >= 0
  {
    if s != [] {
      ValueNonNegative(s[..|s| - 1], base);
      MulLe(0, Value(s[..|s| - 1], base), base);
    }
  }

  /** Without a leading zero the value is at least a power of the base. */
  lemma {:induction false} ValueAtLeast(s: string, base: nat)
    requires Digits(s, base) && base > 0 && |s| > 0 && A2d(s[0]) > 0
    ensures Value(s, base) >= Power(base, |s| - 1) >= 1
    decreases |s|
  {
    if |s| > 1 {
      var t := s[..|s| - 1];
      var v, w := Value(t, base), Power(base, |t| - 1);
      ValueAtLeast(t, base);
      assert v >= w >= 1;
      MulLe(w, v, base);
      MulAtLeast(base, w);
      assert Power(base, |s| - 1) == base * w;
      assert Value(s, base) == v * base + A2d(s[|s| - 1]);
    } else {
      assert s[..0] == [];
    }
  }

  lemma MulLe(x: int, y: int, b: int)
    requires x <= y && b >= 0
    ensures x * b <= y * b
  {
  }

  lemma LastDigit(s: string, base: nat)
    requires Digits(s, base) && |s| > 0 && base > 0
    ensures Value(s, base) / base == Value(s[..|s| - 1], base)
    ensures Value(s, base) % base == A2d(s[|s| - 1])
  {
    DivModUnique(Value(s, base), base, Value(s[..|s| - 1], base), A2d(s[|s| - 1]));
  }

  lemma InitNumeral(s: string, n: int, base: nat)
    requires base >= 2 && IsNumeral(s, n, base)
    ensures if |s| == 1 then n / base == 0 else n / base > 0 && IsNumeral(s[..|s| - 1], n / base, base)
  {
    LastDigit(s, base);
    var t := s[..|s| - 1];
    if t != [] { ValueAtLeast(t, base); }
  }

  /** Two numerals of the same number have the same digits. */
  lemma {:induction false} NumeralUnique(s: string, t: string, n: int, base: nat)
    requires base >= 2 && IsNumeral(s, n, base) && IsNumeral(t, n, base)
    ensures |s| == |t| && forall i :: 0 <= i < |s| ==> A2d(s[i]) == A2d(t[i])
    decreases |s|
  {
    LastDigit(s, base);
    LastDigit(t, base);
    InitNumeral(s, n, base);
    InitNumeral(t, n, base);
    if |s| > 1 { NumeralUnique(s[..|s| - 1], t[..|t| - 1], n / base, base); }
  }

  /** In one case a number has one text. */
  lemma TextUnique(s: string, t: string, n: int, base: nat, upper: bool)
    requires base >= 2 && IsNumeral(s, n, base) && IsNumeral(t, n, base) && AllInCase(s, upper) && AllInCase(t, upper)
    ensures s == t
  {
    NumeralUnique(s, t, n, base);
    forall i | 0 <= i < |s| ensures s[i] == t[i] { InCaseUnique(s[i], t[i], upper); }
  }

  // ---------------------------------------------------------------- writing

  lemma PowersBelowU32(base: nat, e: nat)
    requires (base == 10 || base == 16) && Power(base, e) < U32
    ensures e <= 9
  {
    if e >= 10 {
      PowerMonotone(base, 10, e);
      Power10(base);
    }
  }

  lemma {:induction false} PowerMonotone(base: nat, d: nat, e: nat)
    requires base >= 1 && d <= e
    ensures 1 <= Power(base, d) <= Power(base, e)
  {
    if d < e {
      PowerMonotone(base, d, e - 1);
      MulAtLeast(Power(base, e - 1), base);
    } else if d > 0 {
      PowerMonotone(base, d - 1, d - 1);
      MulAtLeast(Power(base, d - 1), base);
    }
  }

  lemma Power10(base: nat)
    requires base == 10 || base == 16
    ensures Power(base, 10) >= U32
  {
    if base == 10 {
      assert Power(10, 5) == 100000;
      assert Power(10, 10) == 10_000_000_000;
    } else {
      assert Power(16, 5) == 0x10_0000;
      assert Power(16, 10) == 0x100_0000_0000;
    }
  }

  lemma QuotientBound(num: nat, d: nat, base: nat)
    requires d > 0
    ensures num / d >= base <==> base * d <= num
  {
    var q := num / d;
    assert num == d * q + num % d;
    if q >= base { MulLe(base, q, d); } else { MulLe(q + 1, base, d); MulSplit(d, q, 1); }
  }

  /** One turn of the divisor loop does not wrap. */
  lemma NextDivisor(num: nat, d: nat, base: nat, w: nat)
    requires num < U32 && d == Power(base, w) && d > 0 && num / d >= base && (base == 10 || base == 16)
    ensures (d * base) % U32 == Power(base, w + 1) && d < d * base <= num
  {
    QuotientBound(num, d, base);
    assert d * base == base * d;
    DivModUnique(d * base, U32, 0, d * base);
  }

  /** The largest power of the base that ui2a's first loop reaches; the multiplication never wraps. */
  method LeadingPower(num: nat, base: nat) returns (d: nat, ghost w: nat)
    requires num < U32 && (base == 10 || base == 16)
    ensures d == Power(base, w) && w <= 9
    ensures num < base * d
  {
    d, w := 1, 0;
    while num / d >= base
      invariant d == Power(base, w) >= 1 && (w > 0 ==> d <= num)
      decreases num + 1 - d
    {
      NextDivisor(num, d, base, w);
      d := (d * base) % U32;
      w := w + 1;
    }
    QuotientBound(num, d, base);
    if w > 0 { PowersBelowU32(base, w); }
  }

  lemma ValueSnoc(s: string, ch: char, base: nat)
    ensures Value(s + [ch], base) == Value(s, base) * base + A2d(ch)
  {
    assert (s + [ch])[..|s|] == s;
  }

  /** The digits s have been written; what is left has at most w digits. */
  ghost predicate Written(s: string, base: nat, w: nat, rest: int, num: int)
  {
    && Digits(s, base)
    && Value(s, base) * Power(base, w) + rest == num
    && 0 <= rest < Power(base, w)
    && (|s| > 1 || (|s| == 1 && w > 0) ==> A2d(s[0]) > 0)
    && (w == 0 ==> s != [])
  }

  lemma DigitStep(v: int, base: nat, d: nat, dgt: nat, r: nat)
    ensures v * (base * d) + (d * dgt + r) == (v * base + dgt) * d + r
  {
    assert v * (base * d) == (v * base) * d;
    MulSplit(d, v * base, dgt);
  }

  lemma DigitBound(base: nat, w: nat, d: nat, rest: nat)
    requires w > 0 && d == Power(base, w - 1) > 0 && rest < Power(base, w)
    ensures 0 <= rest / d < base && rest == d * (rest / d) + rest % d
  {
    assert Power(base, w) == base * d;
    QuotientBound(rest, d, base);
  }

  /** Writing digit dgt, or skipping it while nothing has been written. */
  lemma EmitDigit(s: string, base: nat, w: nat, d: nat, rest: nat, num: int, ch: char, r: nat)
    requires 2 <= base <= 16 && w > 0 && Written(s, base, w, rest, num) && d == Power(base, w - 1)
    requires 0 <= A2d(ch) < base && r < d && rest == d * A2d(ch) + r
    ensures s != [] || A2d(ch) > 0 || w == 1 ==> Written(s + [ch], base, w - 1, r, num)
    ensures s == [] && A2d(ch) == 0 && w > 1 ==> Written(s, base, w - 1, r, num)
  {
    assert Power(base, w) == base * d;
    DigitStep(Value(s, base), base, d, A2d(ch), r);
    ValueSnoc(s, ch, base);
  }

  lemma NothingWritten(base: nat, w: nat, num: nat)
    requires w > 0 && num < Power(base, w)
    ensures Written([], base, w, num, num)
  {
  }

  lemma AllWritten(s: string, base: nat, rest: int, num: int)
    requires Written(s, base, 0, rest, num)
    ensures IsNumeral(s, num, base)
  {
  }

  /** *bf++ = ch */
  method PutChar(bf: array<char>, off: nat, end: nat, ch: char)
    requires off <= end < bf.Length
    modifies bf
    ensures bf[off..end + 1] == old(bf[off..end]) + [ch]
    ensures forall i :: 0 <= i < off ==> bf[i] == old(bf[i])
  {
    bf[end] := ch;
  }

  /** What is left after one digit of the numeral: the rest of the number and the next power. */
  ghost predicate Turned(s: string, base: nat, w: nat, rest: nat, d: nat, num: int)
  {
    Written(s, base, w, rest, num) && d == (if w == 0 then 0 else Power(base, w - 1))
  }

  /** One turn of ui2a's second loop (src/printf.c:62-68). */
  method WriteDigit(rest: nat, d: nat, base: nat, upper: bool, bf: array<char>, off: nat, end: nat, ghost w: nat,
                    ghost num: nat)
    returns (rest': nat, d': nat, end': nat)
    requires 2 <= base <= 16 && w > 0 && off <= end < bf.Length && Turned(bf[off..end], base, w, rest, d, num)
    requires AllInCase(bf[off..end], upper)
    modifies bf
    ensures end <= end' <= end + 1 && Turned(bf[off..end'], base, w - 1, rest', d', num)
    ensures AllInCase(bf[off..end'], upper)
    ensures forall i :: 0 <= i < off ==> bf[i] == old(bf[i])
  {
    WriteStep(bf[off..end], base, w, d, rest, num, upper);
    var dgt := rest / d;
    rest', d', end' := rest % d, d / base, end;
    if end > off || dgt > 0 || d' == 0 {
      PutChar(bf, off, end, Digit(dgt, upper));
      end' := end + 1;
    }
  }

  lemma WriteStep(s: string, base: nat, w: nat, d: nat, rest: nat, num: int, upper: bool)
    requires 2 <= base <= 16 && w > 0 && Turned(s, base, w, rest, d, num)
    ensures d > 0 && 0 <= rest / d < base && d / base >= 0 && rest % d >= 0
    ensures Turned(if s != [] || rest / d > 0 || d / base == 0 then s + [Digit(rest / d, upper)] else s,
                   base, w - 1, rest % d, d / base, num)
  {
    PowerMonotone(base, 0, w - 1);
    NextPower(base, w - 1);
    DigitBound(base, w, d, rest);
    EmitDigit(s, base, w, d, rest, num, Digit(rest / d, upper), rest % d);
  }

  /** ui2a: writes the numeral and a terminating NUL from position off on. */
  method Ui2a(num: nat, base: nat, upper: bool, bf: array<char>, off: nat) returns (end: nat)
    requires num < U32 && (base == 10 || base == 16)
    requires off + 11 <= bf.Length
    modifies bf
    ensures off < end <= off + 10 && bf[end] == '\0'
    ensures IsNumeral(bf[off..end], num, base) && AllInCase(bf[off..end], upper)
    ensures forall i :: 0 <= i < off ==> bf[i] == old(bf[i])
  {
    var d: nat;
    ghost var w: nat;
    d, w := LeadingPower(num, base);
    w := w + 1;
    var rest := num;
    end := off;
    NothingWritten(base, w, num);
    assert bf[off..end] == [];
    while d != 0
      invariant w <= 10 && off <= end && end - off + w <= 10
      invariant Turned(bf[off..end], base, w, rest, d, num) && AllInCase(bf[off..end], upper)
      invariant forall i :: 0 <= i < off ==> bf[i] == old(bf[i])
      decreases w
    {
      rest, d, end := WriteDigit(rest, d, base, upper, bf, off, end, w, num);
      w := w - 1;
      if w > 0 { PowerMonotone(base, 0, w - 1); }
    }
    AllWritten(bf[off..end], base, rest, num);
    ghost var s := bf[off..end];
    bf[end] := '\0';
    assert bf[off..end] == s;
  }

  lemma NextPower(base: nat, e: nat)
    requires base >= 2
    ensures Power(base, e) / base == if e == 0 then 0 else Power(base, e - 1)
    ensures e > 0 ==> Power(base, e - 1) > 0
  {
    if e > 0 {
      PowerMonotone(base, 0, e - 1); DivModUnique(Power(base, e), base, Power(base, e - 1), 0);
    }
  }

  /** i2a: any 32-bit integer and its NUL fit the 12-byte buffer, the minimum included. */
  method I2a(num: int, bf: array<char>) returns (end: nat)
    requires -0x8000_0000 <= num < 0x8000_0000 && bf.Length == BUFFER
    modifies bf
    ensures 0 < end < BUFFER && bf[end] == '\0'
    ensures num < 0 ==> bf[0] == '-' && IsNumeral(bf[1..end], -num, 10)
    ensures num >= 0 ==> IsNumeral(bf[0..end], num, 10)
  {
    if num < 0 {
      var negated := (-num) % U32;
      bf[0] := '-';
      end := Ui2a(negated, 10, false, bf, 1);
    } else {
      end := Ui2a(num, 10, false, bf, 0);
    }
  }

  // ---------------------------------------------------------------- reading

  /** A character at which a2i goes on; the test `digit > base` lets a digit equal to the base through. */
  predicate Accepted(ch: char, base: nat)
  {
    0 <= A2d(ch) <= base
  }

  /** Where a2i stops, from position i on. */
  function StopAt(s: string, base: nat, i: nat): (k: nat)
    requires i <= |s|
    ensures i <= k <= |s|
    ensures forall j :: i <= j < k ==> Accepted(s[j], base)
    ensures k < |s| ==> !Accepted(s[k], base)
    decreases |s| - i
  {
    if i == |s| || !Accepted(s[i], base) then i else StopAt(s, base, i + 1)
  }

  /** a2i on the text s, of which the caller has read the first character: the number, the character it
      returns and how far the source pointer moves.  The text ends in a character that is no digit. */
  method A2i(s: string, base: nat) returns (num: int, ch: char, stop: nat)
    requires StopAt(s, base, 0) < |s|
    ensures stop == StopAt(s, base, 0) && ch == s[stop]
    ensures num == Value(s[..stop], base)
  {
    num, stop := 0, 0;
    ch := s[0];
    var digit := A2d(ch);
    while digit >= 0
      invariant 0 <= stop < |s| && ch == s[stop] && digit == A2d(ch)
      invariant StopAt(s, base, stop) == StopAt(s, base, 0)
      invariant num == Value(s[..stop], base)
      decreases |s| - stop
    {
      if digit > base { break; }
      num := num * base + digit;
      ValueSnoc(s[..stop], ch, base);
      assert s[..stop + 1] == s[..stop] + [ch];
      stop := stop + 1;
      ch := s[stop];
      digit := A2d(ch);
    }
  }

  lemma {:induction false} StopAfterDigits(t: string, c: char, rest: string, base: nat, i: nat)
    requires Digits(t, base) && i <= |t|
    ensures !Accepted(c, base) ==> StopAt(t + [c] + rest, base, i) == |t|
    ensures Accepted(c, base) ==> StopAt(t + [c] + rest, base, i) > |t|
    decreases |t| - i
  {
    var s := t + [c] + rest;
    if i < |t| {
      assert s[i] == t[i];
      StopAfterDigits(t, c, rest, base, i + 1);
    } else {
      assert s[i] == c;
    }
  }

  /** A numeral is read back, up to the character after it, if and only if that character is neither a
      digit nor the letter that stands for the base itself. */
  lemma ReadBackIff(t: string, n: int, c: char, rest: string, base: nat)
    requires IsNumeral(t, n, base)
    ensures StopAt(t + [c] + rest, base, 0) == |t| &&
            Value((t + [c] + rest)[..StopAt(t + [c] + rest, base, 0)], base) == n
        <==> A2d(c) < 0 || A2d(c) > base
  {
    StopAfterDigits(t, c, rest, base, 0);
    assert (t + [c] + rest)[..|t|] == t;
  }

  // ---------------------------------------------------------------- padding

  /** The length of a NUL-terminated string. */
  function StrLen(bf: string, i: nat): (k: nat)
    requires i <= |bf| && '\0' in bf[i..]
    ensures i <= k < |bf| && bf[k] == '\0' && '\0' !in bf[i..k]
    decreases |bf| - i
  {
    if bf[i] == '\0' then i
    else
      assert bf[i..] == [bf[i]] + bf[i + 1..];
      assert forall k :: i + 1 <= k <= |bf| ==> bf[i..k] == [bf[i]] + bf[i + 1..k];
      StrLen(bf, i + 1)
  }

  function Repeat(ch: char, n: int): string
  {
    if n <= 0 then [] else Repeat(ch, n - 1) + [ch]
  }

  /** len is the length of the string in bf. */
  ghost predicate HasLength(bf: string, len: nat)
  {
    len < |bf| && bf[len] == '\0' && forall i :: 0 <= i < len ==> bf[i] != '\0'
  }

  lemma StrLenIs(bf: string)
    requires '\0' in bf
    ensures '\0' in bf[0..] && HasLength(bf, StrLen(bf, 0))
  {
    assert bf[0..] == bf;
    var len := StrLen(bf, 0);
    forall i | 0 <= i < len ensures bf[i] != '\0' {
      assert bf[i] == bf[0..len][i];
    }
  }

  /** The first loop of putchw: what is left of the field. */
  method FieldLeft(n: int, bf: string, ghost len: nat) returns (left: int)
    requires HasLength(bf, len)
    ensures if n > len then left == n - len else left <= 0
  {
    left := n;
    var p := 0;
    while bf[p] != '\0' && left > 0
      invariant 0 <= p <= len && left == n - p && (p == 0 || left >= 0)
      decreases len - p
    {
      left := left - 1;
      p := p + 1;
    }
  }

  /** The second loop: padding. */
  method Padding(fc: char, n: int) returns (out: string)
    ensures out == Repeat(fc, n)
  {
    out := [];
    for i := 0 to if n > 0 then n else 0
      invariant out == Repeat(fc, i)
    {
      out := out + [fc];
    }
  }

  /** The third loop: the string itself. */
  method Emit(bf: string, ghost len: nat) returns (out: string)
    requires HasLength(bf, len)
    ensures out == bf[..len]
  {
    out := [];
    var p := 0;
    while bf[p] != '\0'
      invariant 0 <= p <= len && out == bf[..p]
      decreases len - p
    {
      out := out + [bf[p]];
      p := p + 1;
    }
  }

  /** putchw: the string, right-aligned in a field of n characters. */
  method Putchw(n: int, zero: bool, bf: string) returns (out: string)
    requires '\0' in bf
    ensures '\0' in bf[0..]
    ensures out == Repeat(if zero then '0' else ' ', n - StrLen(bf, 0)) + bf[..StrLen(bf, 0)]
  {
    StrLenIs(bf);
    ghost var len := StrLen(bf, 0);
    var left := FieldLeft(n, bf, len);
    var pad := Padding(if zero then '0' else ' ', left);
    var text := Emit(bf, len);
    out := pad + text;
  }
}
