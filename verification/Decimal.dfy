/** Numbers and the strings that itoa, utoa and atoi turn them into and back. */
module Decimal {
  import opened Bits

  const INT_MAX: int := 0x7FFF_FFFF
  const INT_MIN: int := -0x8000_0000

  /** Digits from ten up are upper-case letters in string.cpp and lower-case ones in printf.c. */
  datatype Letters = Upper | Lower

  function FirstLetter(c: Letters): int {
    if c.Upper? then 'A' as int else 'a' as int
  }

  function Digit(d: int, c: Letters): char
    requires 0 <= d < 16
  {
    if d < 10 then ('0' as int + d) as char else (FirstLetter(c) + d - 10) as char
  }

  predicate IsDigit(ch: char, base: int, c: Letters) {
    0 <= DigitValue(ch, c) < base
  }

  /** The digit's number, or -1 for another character. */
  function DigitValue(ch: char, c: Letters): int {
    if '0' <= ch <= '9' then ch as int - '0' as int
    else if FirstLetter(c) <= ch as int < FirstLetter(c) + 6 then ch as int - FirstLetter(c) + 10
    else -1
  }

  /** The digits are 0 to 9 and then A to F, or a to f. */
  lemma DigitIs(d: nat)
    requires d < 16
    ensures Digit(d, Upper) == "0123456789ABCDEF"[d] && Digit(d, Lower) == "0123456789abcdef"[d]
  {}

  lemma DigitsDiffer(d: int, ch: char, c: Letters)
    requires 0 <= d < 16
    ensures Digit(d, c) == ch <==> DigitValue(ch, c) == d
  {}

  /** The digits of a number, the first the most significant. */
  function Digits(n: nat, base: int, c: Letters): (s: string)
    requires 2 <= base <= 16
    ensures |s| > 0
    decreases n
  {
    if n < base then [Digit(n, c)] else Digits(n / base, base, c) + [Digit(n % base, c)]
  }

  function Numeral(v: int, base: int, c: Letters): string
    requires 2 <= base <= 16
  {
    if v < 0 then "-" + Digits(-v, base, c) else Digits(v, base, c)
  }

  // ----- What a string of digits is worth -----

  function Value(s: string, base: int, c: Letters): int {
    if s == "" then 0 else base * Value(s[..|s| - 1], base, c) + DigitValue(s[|s| - 1], c)
  }

  ghost predicate AllDigits(s: string, base: int, c: Letters) {
    forall i :: 0 <= i < |s| ==> IsDigit(s[i], base, c)
  }

  /** At least one digit, and no zero in front of others. */
  ghost predicate Canonical(s: string, base: int, c: Letters) {
    s != "" && AllDigits(s, base, c) && (|s| > 1 ==> s[0] != '0')
  }

  lemma ValueNext(s: string, ch: char, base: int, c: Letters)
    ensures Value(s + [ch], base, c) == base * Value(s, base, c) + DigitValue(ch, c)
  {
    assert (s + [ch])[..|s|] == s;
  }

  lemma CanonicalNext(s: string, ch: char, base: int, c: Letters)
    requires Canonical(s, base, c) && s[0] != '0' && IsDigit(ch, base, c)
    ensures Canonical(s + [ch], base, c)
  {}

  lemma Division(n: nat, base: int)
    requires 2 <= base
    ensures 0 <= n % base < base && n == base * (n / base) + n % base && n - n / base * base == n % base
    ensures if n < base then n / base == 0 && n % base == n else 0 < n / base < n
  {}

  /** The digits of n are those of its quotient and one more. */
  lemma LastDigit(n: nat, base: int, c: Letters) returns (q: nat, r: nat)
    requires 2 <= base <= 16 && n >= base
    ensures 0 < q < n && r < base && n == base * q + r
    ensures Digits(n, base, c) == Digits(q, base, c) + [Digit(r, c)]
    ensures DigitValue(Digit(r, c), c) == r
  {
    Division(n, base);
    q, r := n / base, n % base;
  }

  lemma {:induction false} DigitsCanonical(n: nat, base: int, c: Letters)
    requires 2 <= base <= 16
    ensures Canonical(Digits(n, base, c), base, c)
    ensures Digits(n, base, c)[0] == '0' <==> n == 0
    decreases n
  {
    if n >= base {
      var q, r := LastDigit(n, base, c);
      DigitsCanonical(q, base, c);
      CanonicalNext(Digits(q, base, c), Digit(r, c), base, c);
    }
  }

  lemma {:induction false} ValueOfDigits(n: nat, base: int, c: Letters)
    requires 2 <= base <= 16
    ensures Value(Digits(n, base, c), base, c) == n
    decreases n
  {
    if n < base {
      ValueNext("", Digit(n, c), base, c);
      assert Digits(n, base, c) == "" + [Digit(n, c)];
    } else {
      var q, r := LastDigit(n, base, c);
      ValueOfDigits(q, base, c);
      ValueNext(Digits(q, base, c), Digit(r, c), base, c);
    }
  }

  lemma Products(a: nat, b: nat)
    ensures a * b >= 0
  {}

  lemma {:induction false} ValueIsNat(s: string, base: int, c: Letters)
    requires 2 <= base && AllDigits(s, base, c)
    ensures Value(s, base, c) >= 0
  {
    if s != "" {
      var front := s[..|s| - 1];
      assert AllDigits(front, base, c) && IsDigit(s[|s| - 1], base, c);
      ValueIsNat(front, base, c);
      Products(base, Value(front, base, c));
    }
  }

  lemma DivMod(q: nat, r: int, base: int)
    requires 0 <= r < base
    ensures (base * q + r) / base == q && (base * q + r) % base == r
  {
    var n := base * q + r;
    var q', r' := n / base, n % base;
    assert n == base * q' + r' && base * (q - q') == r' - r;
    if q != q' {
      FarApart(q - q', base);
    }
  }

  lemma {:induction false} FarApart(d: int, base: int)
    requires d != 0 && base > 0
    ensures base * d >= base || base * d <= -base
    decreases if d > 0 then d else -d
  {
    if d > 1 {
      FarApart(d - 1, base);
      NextMultiple(d - 1, base);
    } else if d < -1 {
      FarApart(d + 1, base);
      NextMultiple(d, base);
    }
  }

  lemma NextMultiple(d: int, base: int)
    ensures base * (d + 1) == base * d + base
  {}

  /** No other canonical string has the same value. */
  lemma {:induction false} OnlyDigits(s: string, base: int, c: Letters)
    requires 2 <= base <= 16 && Canonical(s, base, c)
    ensures Value(s, base, c) >= 0 && s == Digits(Value(s, base, c), base, c)
  {
    var n := |s| - 1;
    var front, ch := s[..n], s[n];
    assert IsDigit(ch, base, c) && s == front + [ch];
    if n == 0 {
      OneDigit(ch, base, c);
    } else {
      assert IsDigit(s[0], base, c) && Canonical(front, base, c);
      OnlyDigits(front, base, c);
      OneMoreDigit(front, Value(front, base, c), ch, base, c);
    }
  }

  lemma OneDigit(ch: char, base: int, c: Letters)
    requires 2 <= base <= 16 && IsDigit(ch, base, c)
    ensures var d := DigitValue(ch, c); Value([ch], base, c) == d && [ch] == Digits(d, base, c)
  {
    var d := DigitValue(ch, c);
    DigitsDiffer(d, ch, c);
    ValueNext("", ch, base, c);
    assert "" + [ch] == [ch];
  }

  lemma OneMoreDigit(front: string, q: nat, ch: char, base: int, c: Letters)
    requires 2 <= base <= 16 && IsDigit(ch, base, c)
    requires Value(front, base, c) == q && front == Digits(q, base, c) && front[0] != '0'
    ensures Value(front + [ch], base, c) >= 0
    ensures front + [ch] == Digits(Value(front + [ch], base, c), base, c)
  {
    var d := DigitValue(ch, c);
    DigitsDiffer(d, ch, c);
    DigitsCanonical(q, base, c);
    ValueNext(front, ch, base, c);
    Products(base, q);
    DigitsNext(q, d, base, c);
  }

  lemma DigitsNext(q: nat, d: nat, base: int, c: Letters)
    requires 2 <= base <= 16 && 0 < q && d < base
    ensures Digits(base * q + d, base, c) == Digits(q, base, c) + [Digit(d, c)]
  {
    DivMod(q, d, base);
    assert base * q >= base;
  }

  /** Decimal strings have no letters. */
  lemma {:induction false} DecimalHasNoLetters(n: nat)
    ensures Digits(n, 10, Upper) == Digits(n, 10, Lower)
  {
    if n >= 10 {
      DecimalHasNoLetters(n / 10);
    }
  }

  // ----- Reading -----

  function SkipSpaces(s: string): string {
    if s != "" && s[0] == ' ' then SkipSpaces(s[1..]) else s
  }

  /** How many digits a string starts with. */
  function DigitCount(s: string): (n: nat)
    ensures n <= |s|
  {
    if s != "" && '0' <= s[0] <= '9' then 1 + DigitCount(s[1..]) else 0
  }

  function Magnitude(s: string): int {
    Value(s[..DigitCount(s)], 10, Upper)
  }

  /** The number a string starts with, after spaces and one sign; 0 when there is none. */
  function Parsed(s: string): int {
    var t := SkipSpaces(s);
    if t != "" && t[0] == '-' then -Magnitude(t[1..])
    else if t != "" && t[0] == '+' then Magnitude(t[1..])
    else Magnitude(t)
  }

  /** What follows the number starts no longer one. */
  ghost predicate Stops(rest: string) {
    rest != "" ==> !('0' <= rest[0] <= '9')
  }

  lemma {:induction false} CountsDigits(digits: string, rest: string)
    requires AllDigits(digits, 10, Upper) && Stops(rest)
    ensures DigitCount(digits + rest) == |digits|
  {
    if digits == "" {
      assert digits + rest == rest;
    } else {
      assert IsDigit(digits[0], 10, Upper);
      assert AllDigits(digits[1..], 10, Upper) by {
        assert forall i :: 0 <= i < |digits| - 1 ==> digits[1..][i] == digits[i + 1];
      }
      CountsDigits(digits[1..], rest);
      assert (digits + rest)[1..] == digits[1..] + rest;
    }
  }

  lemma {:induction false} SkipsSpaces(spaces: string, s: string)
    requires (forall i :: 0 <= i < |spaces| ==> spaces[i] == ' ') && (s != "" ==> s[0] != ' ')
    ensures SkipSpaces(spaces + s) == s
  {
    if spaces == "" {
      assert spaces + s == s;
    } else {
      assert forall i :: 0 <= i < |spaces| - 1 ==> spaces[1..][i] == spaces[i + 1];
      SkipsSpaces(spaces[1..], s);
      assert (spaces + s)[1..] == spaces[1..] + s;
    }
  }

  /** Spaces, at most one sign, digits and anything after them read as the digits' signed value. */
  lemma ReadsNumber(spaces: string, sign: string, digits: string, rest: string)
    requires forall i :: 0 <= i < |spaces| ==> spaces[i] == ' '
    requires sign in {"", "+", "-"} && digits != "" && AllDigits(digits, 10, Upper) && Stops(rest)
    ensures Parsed(spaces + (sign + (digits + rest))) ==
            if sign == "-" then -Value(digits, 10, Upper) else Value(digits, 10, Upper)
  {
    var number := digits + rest;
    assert IsDigit(digits[0], 10, Upper) && number[0] == digits[0];
    CountsDigits(digits, rest);
    assert number[..|digits|] == digits;
    SkipsSpaces(spaces, sign + number);
    if sign == "" {
      assert sign + number == number;
    } else {
      assert (sign + number)[1..] == number;
    }
  }

  /** Reading what was written gives the number back, for every number. */
  lemma RoundTrip(v: int)
    ensures Parsed(Numeral(v, 10, Upper)) == v
  {
    var n, sign := if v < 0 then -v else v, if v < 0 then "-" else "";
    DigitsCanonical(n, 10, Upper);
    ValueOfDigits(n, 10, Upper);
    var digits := Digits(n, 10, Upper);
    ReadsNumber("", sign, digits, "");
    assert "" + (sign + (digits + "")) == Numeral(v, 10, Upper);
  }

  /** Writing what was read gives the string back, exactly when it was canonical with no plus sign and no
      minus zero. */
  lemma RoundTripBack(s: string)
    ensures Numeral(Parsed(s), 10, Upper) == s <==>
      Canonical(s, 10, Upper) || (s != "" && s[0] == '-' && Canonical(s[1..], 10, Upper) && s[1] != '0')
  {
    var v := Parsed(s);
    DigitsCanonical(if v < 0 then -v else v, 10, Upper);
    if Canonical(s, 10, Upper) {
      OnlyDigits(s, 10, Upper);
      RoundTrip(Value(s, 10, Upper));
    }
    if s != "" && s[0] == '-' && Canonical(s[1..], 10, Upper) && s[1] != '0' {
      OnlyDigits(s[1..], 10, Upper);
      var n := Value(s[1..], 10, Upper);
      DigitsCanonical(n, 10, Upper);
      assert s == Numeral(-n, 10, Upper);
      RoundTrip(-n);
    }
    if Numeral(v, 10, Upper) == s && v < 0 {
      assert s[1..] == Digits(-v, 10, Upper);
    }
  }

  // ----- The routines -----

  ghost predicate Int32(v: int) {
    INT_MIN <= v <= INT_MAX
  }

  /** Reverses a part of a buffer in place. */
  method ReverseRange(str: array<char>, lo: nat, hi: nat)
    requires lo <= hi <= str.Length
    modifies str
    ensures forall k :: 0 <= k < str.Length ==>
      str[k] == if lo <= k < hi then old(str[lo + hi - 1 - k]) else old(str[k])
  {
    var left, right := lo, hi - 1;
    while left < right
      invariant lo <= left <= hi && left + right == lo + hi - 1 && left <= right + 2
      invariant forall k :: 0 <= k < str.Length ==>
        str[k] == if lo <= k < left || right < k < hi then old(str[lo + hi - 1 - k]) else old(str[k])
    {
      str[left], str[right] := str[right], str[left];
      left, right := left + 1, right - 1;
    }
  }

  /** What dividing down leaves in the buffer: the digits of n backwards, except those of v still to come. */
  ghost predicate Emitted(digits: string, left: string, out: seq<char>) {
    && |digits| == |left| + |out| && digits[..|left|] == left
    && forall k :: 0 <= k < |out| ==> out[k] == digits[|digits| - 1 - k]
  }

  lemma EmitNext(digits: string, v: nat, base: int, c: Letters, out: seq<char>)
    requires 2 <= base <= 16 && Emitted(digits, Digits(v, base, c), out)
    ensures 0 <= v % base < base && v - v / base * base == v % base && v / base >= 0 && (v > 0 ==> v / base < v)
    ensures Emitted(digits, if v / base == 0 then "" else Digits(v / base, base, c), out + [Digit(v % base, c)])
  {
    Division(v, base);
    EmitLast(digits, Digits(v, base, c), out);
  }

  lemma EmitLast(digits: string, left: string, out: seq<char>)
    requires left != "" && Emitted(digits, left, out)
    ensures Emitted(digits, left[..|left| - 1], out + [left[|left| - 1]])
  {
    assert digits[|left| - 1] == digits[..|left|][|left| - 1];
    assert digits[..|left| - 1] == digits[..|left|][..|left| - 1];
  }

  /** Everything emitted and turned round is the digits. */
  lemma EmittedAll(digits: string, out: seq<char>)
    requires Emitted(digits, "", out)
    ensures |out| == |digits| && forall k :: 0 <= k < |digits| ==> digits[k] == out[|out| - 1 - k]
  {
    forall k | 0 <= k < |digits|
      ensures digits[k] == out[|out| - 1 - k]
    {
      assert out[|out| - 1 - k] == digits[|digits| - 1 - (|out| - 1 - k)];
    }
  }

  /** The division loop of string.cpp, at a place in the buffer. */
  method EmitSigned(value: nat, str: array<char>, start: nat, base: int) returns (end: nat)
    requires 2 <= base <= 16 && start + |Digits(value, base, Upper)| < str.Length
    modifies str
    ensures end == start + |Digits(value, base, Upper)|
    ensures Emitted(Digits(value, base, Upper), "", str[start..end])
    ensures forall k :: 0 <= k < start || end <= k < str.Length ==> str[k] == old(str[k])
  {
    ghost var digits := Digits(value, base, Upper);
    var ptr, v, more := start, value, true;
    while more
      invariant start <= ptr <= start + |digits| && v >= 0
      invariant Emitted(digits, if more then Digits(v, base, Upper) else "", str[start..ptr])
      invariant forall k :: 0 <= k < start || ptr <= k < str.Length ==> str[k] == old(str[k])
      decreases more, v
    {
      ghost var out := str[start..ptr];
      EmitNext(digits, v, base, Upper, out);
      var tmp := v;
      v := v / base;
      str[ptr] := Digit(tmp - v * base, Upper);
      ptr := ptr + 1;
      more := v != 0;
      assert str[start..ptr] == out + [Digit(tmp % base, Upper)];
    }
    end := ptr;
  }

  /** itoa of string.cpp.  A negative number in another base than ten would index before its digit table. */
  method Itoa(value: int, str: array<char>, base: int)
    requires Int32(value) && 2 <= base <= 16 && (value >= 0 || (base == 10 && value != INT_MIN))
    requires |Numeral(value, base, Upper)| < str.Length
    modifies str
    ensures Holds(str, Numeral(value, base, Upper))
    ensures forall k :: |Numeral(value, base, Upper)| < k < str.Length ==> str[k] == old(str[k])
  {
    var start, v := 0, value;
    if value < 0 && base == 10 {
      str[0] := '-';
      start := 1;
      v := -value;
    }
    var end := EmitSigned(v, str, start, base);
    str[end] := '\0';
    TurnRound(str, start, end, Digits(v, base, Upper));
  }

  /** The digits come out backwards; reversing them in place puts them in order. */
  method TurnRound(str: array<char>, start: nat, end: nat, ghost digits: string)
    requires start <= end < str.Length && Emitted(digits, "", str[start..end])
    modifies str
    ensures end == start + |digits| && str[start..end] == digits
    ensures forall k :: 0 <= k < start || end <= k < str.Length ==> str[k] == old(str[k])
  {
    ghost var out := str[start..end];
    ReverseRange(str, start, end);
    ghost var turned := str[start..end];
    forall k | 0 <= k < |out|
      ensures turned[k] == out[|out| - 1 - k]
    {
      assert turned[k] == str[start + k] == old(str[end - 1 - k]);
    }
    TurnedRound(out, turned, digits);
  }

  lemma TurnedRound(out: seq<char>, turned: seq<char>, digits: string)
    requires Emitted(digits, "", out) && |turned| == |out|
    requires forall k :: 0 <= k < |out| ==> turned[k] == out[|out| - 1 - k]
    ensures turned == digits
  {
    EmittedAll(digits, out);
    assert forall k :: 0 <= k < |out| ==> turned[k] == digits[k];
  }

  /** The loops of printf.c's itoa and utoa, which divide an unsigned number. */
  method EmitUnsigned(value: nat, buf: array<char>, start: nat, base: int)
    requires value < WORD_LIMIT && 2 <= base <= 16 && start + |Digits(value, base, Lower)| < buf.Length
    modifies buf
    ensures var end := start + |Digits(value, base, Lower)|;
      && buf[start..end] == Digits(value, base, Lower) && buf[end] == '\0'
      && forall k :: 0 <= k < start || end < k < buf.Length ==> buf[k] == old(buf[k])
  {
    ghost var digits := Digits(value, base, Lower);
    var p, ud, more := start, value, true;
    while more
      invariant start <= p <= start + |digits| && ud >= 0
      invariant Emitted(digits, if more then Digits(ud, base, Lower) else "", buf[start..p])
      invariant forall k :: 0 <= k < start || p <= k < buf.Length ==> buf[k] == old(buf[k])
      decreases more, ud
    {
      ghost var out := buf[start..p];
      EmitNext(digits, ud, base, Lower, out);
      var remainder := ud % base;
      buf[p] := Digit(remainder, Lower);
      p := p + 1;
      assert buf[start..p] == out + [Digit(remainder, Lower)];
      ud := ud / base;
      more := ud != 0;
    }
    buf[p] := '\0';
    TurnRound(buf, start, p, digits);
  }

  method Utoa(value: nat, buf: array<char>, base: int)
    requires value < WORD_LIMIT && 2 <= base <= 16 && |Digits(value, base, Lower)| < buf.Length
    modifies buf
    ensures Holds(buf, Digits(value, base, Lower))
    ensures forall k :: |Digits(value, base, Lower)| < k < buf.Length ==> buf[k] == old(buf[k])
  {
    EmitUnsigned(value, buf, 0, base);
  }

  /** What printf.c's itoa writes: a signed number in base ten, and the number modulo 2^32 in another. */
  function Printed(value: int, base: int): string
    requires Int32(value) && 2 <= base <= 16
  {
    if base == 10 || value >= 0 then Numeral(value, base, Lower)
    else Digits(value + WORD_LIMIT, base, Lower)
  }

  /** itoa of printf.c, where negating INT_MIN wraps round to INT_MIN. */
  method PrintfItoa(value: int, buf: array<char>, base: int)
    requires Int32(value) && 2 <= base <= 16 && |Printed(value, base)| < buf.Length
    modifies buf
    ensures Holds(buf, Printed(value, base))
    ensures forall k :: |Printed(value, base)| < k < buf.Length ==> buf[k] == old(buf[k])
  {
    var ud := if value < 0 then value + WORD_LIMIT else value;
    var start := 0;
    if base == 10 && value < 0 {
      buf[0] := '-';
      start := 1;
      ud := WORD_LIMIT - ud;
    }
    EmitUnsigned(ud, buf, start, base);
  }

  /** In another base than ten, printf's digits are worth the number modulo 2^32. */
  lemma PrintedValue(value: int, base: int)
    requires Int32(value) && 2 <= base <= 16 && base != 10
    ensures Value(Printed(value, base), base, Lower) == value % 0x1_0000_0000
  {
    ValueOfDigits(if value < 0 then value + WORD_LIMIT else value, base, Lower);
  }

  /** In base ten the two routines write the same string. */
  lemma SameDecimal(value: int)
    requires Int32(value)
    ensures Printed(value, 10) == Numeral(value, 10, Upper)
  {
    DecimalHasNoLetters(if value < 0 then -value else value);
  }

  /** A buffer starts with a string and its NUL. */
  ghost predicate Holds(str: array<char>, s: string)
    reads str
  {
    |s| < str.Length && str[..|s|] == s && str[|s|] == '\0'
  }

  /** The character at a position of a string, NUL at its end. */
  function CharAt(str: string, i: nat): char {
    if i < |str| then str[i] else '\0'
  }

  lemma SkipOne(s: string)
    requires s != "" && s[0] == ' '
    ensures SkipSpaces(s) == SkipSpaces(s[1..])
  {}

  /** atoi, of a string whose number fits an int. */
  method Atoi(str: string) returns (value: int)
    requires -INT_MAX <= Parsed(str) <= INT_MAX
    ensures value == Parsed(str)
  {
    var i := 0;
    while CharAt(str, i) == ' '
      invariant i <= |str| && SkipSpaces(str[i..]) == SkipSpaces(str)
      decreases |str| - i
    {
      SkipOne(str[i..]);
      assert str[i..][1..] == str[i + 1..];
      i := i + 1;
    }
    ghost var t := SkipSpaces(str);
    assert t == str[i..] && (t != "" ==> t[1..] == str[i + 1..]);
    var sign := 1;
    if CharAt(str, i) == '-' {
      sign := -1;
      i := i + 1;
    } else if CharAt(str, i) == '+' {
      i := i + 1;
    }
    var result := ReadDigits(str, i);
    value := sign * result;
  }

  method ReadDigits(str: string, start: nat) returns (result: int)
    requires start <= |str|
    ensures result == Magnitude(str[start..])
  {
    ghost var tail := str[start..];
    result := 0;
    var i := start;
    while '0' <= CharAt(str, i) <= '9'
      invariant start <= i <= |str| && DigitCount(tail) == i - start + DigitCount(tail[i - start..])
      invariant result == Value(tail[..i - start], 10, Upper)
      decreases |str| - i
    {
      ghost var read := tail[..i - start];
      ValueNext(read, str[i], 10, Upper);
      assert tail[..i - start + 1] == read + [str[i]];
      assert tail[i - start..][1..] == tail[i - start + 1..];
      result := result * 10 + (CharAt(str, i) as int - '0' as int);
      i := i + 1;
    }
  }
}
