/** The stored text form of a timestamp: two decimal numbers joined by a colon, written with `%d:%d`
    and read back by a scanner for the same format. */
module HlcText {
  import opened Hlc
  import opened HlcRuns

  // ---------- Writing ----------

  function DigitChar(d: int): (c: char)
    requires 0 <= d < 10
    ensures IsDigit(c) && DigitValue(c) == d
  {
    ('0' as int + d) as char
  }

  function Decimal(n: nat): string
  {
    if n < 10 then [DigitChar(n)] else Decimal(n / 10) + [DigitChar(n % 10)]
  }

  function PrintInt(x: int): string
  {
    if x < 0 then "-" + Decimal(-x) else Decimal(x)
  }

  function Bytes(t: Timestamp): string
  {
    PrintInt(t.physical) + ":" + PrintInt(t.logical)
  }

  // ---------- Reading ----------

  predicate IsDigit(c: char)
  {
    '0' <= c <= '9'
  }

  function DigitValue(c: char): int
  {
    c as int - '0' as int
  }

  /** The scanner's spaces, but for the newline, which it refuses. */
  predicate IsBlank(c: char)
  {
    || c == ' ' || c == '\t' || c == '\r' || c == '\U{0B}' || c == '\U{0C}' || c == '\U{85}' || c == '\U{A0}' || c == '\U{1680}'
    || '\U{2000}' <= c <= '\U{200A}' || c == '\U{2028}' || c == '\U{2029}' || c == '\U{202F}' || c == '\U{205F}' || c == '\U{3000}'
  }

  function SkipBlanks(s: string): string
  {
    if s != [] && IsBlank(s[0]) then SkipBlanks(s[1..]) else s
  }

  /** Length of the longest prefix of digits. */
  function DigitRun(s: string): (n: nat)
    ensures n <= |s|
  {
    if s != [] && IsDigit(s[0]) then 1 + DigitRun(s[1..]) else 0
  }

  function Value(digits: string): int
  {
    if digits == [] then 0 else Value(digits[..|digits| - 1]) * 10 + DigitValue(digits[|digits| - 1])
  }

  datatype Scan = Fail | Got(value: int, rest: string)

  function ScanDigits(u: string, negative: bool): (r: Scan)
    ensures r.Got? ==> IsInt64(r.value)
  {
    var n := DigitRun(u);
    var value := if negative then -Value(u[..n]) else Value(u[..n]);
    if n == 0 || !IsInt64(value) then Fail else Got(value, u[n..])
  }

  function ScanSigned(t: string): (r: Scan)
    ensures r.Got? ==> IsInt64(r.value)
  {
    if t != [] && (t[0] == '-' || t[0] == '+') then ScanDigits(t[1..], t[0] == '-') else ScanDigits(t, false)
  }

  /** `%d`: blanks, an optional sign, digits; a newline, a missing digit or a number outside 64 bits
      is an error. */
  function ScanInt(s: string): (r: Scan)
    ensures r.Got? ==> IsInt64(r.value)
  {
    ScanSigned(SkipBlanks(s))
  }

  /** The timestamp read, and whether there was no error; what was read before an error is kept. */
  function FromBytes(data: string): (r: (Timestamp, bool))
    ensures r.1 ==> IsInt64(r.0.physical) && IsInt64(r.0.logical)
  {
    match ScanInt(data)
    case Fail => (Timestamp(0, 0), false)
    case Got(physical, rest) =>
      if rest == [] || rest[0] != ':' then (Timestamp(physical, 0), false)
      else
        match ScanInt(rest[1..])
        case Fail => (Timestamp(physical, 0), false)
        case Got(logical, _) => (Timestamp(physical, logical), true)
  }

  // ---------- What is accepted ----------

  /** A written number: blanks, perhaps a sign, and digits. */
  datatype Numeral = Numeral(blanks: string, sign: string, digits: string) {
    predicate Proper()
    {
      && (forall c :: c in blanks ==> IsBlank(c))
      && (sign == "" || sign == "+" || sign == "-")
      && digits != "" && forall c :: c in digits ==> IsDigit(c)
    }

    function Text(): string
    {
      blanks + (sign + digits)
    }

    function Denotes(): int
    {
      if sign == "-" then -Value(digits) else Value(digits)
    }
  }

  predicate EndsNumber(rest: string)
  {
    rest != [] ==> !IsDigit(rest[0])
  }

  lemma {:induction false} BlanksSplit(s: string) returns (blanks: string)
    ensures s == blanks + SkipBlanks(s) && forall c :: c in blanks ==> IsBlank(c)
  {
    blanks := [];
    if s != [] && IsBlank(s[0]) {
      blanks := BlanksSplit(s[1..]);
      assert s == [s[0]] + s[1..];
      blanks := [s[0]] + blanks;
    }
  }

  lemma {:induction false} BlanksSkipped(blanks: string, t: string)
    requires (forall c :: c in blanks ==> IsBlank(c)) && (t != [] ==> !IsBlank(t[0]))
    ensures SkipBlanks(blanks + t) == t
  {
    if blanks == [] {
      assert blanks + t == t;
    } else {
      assert blanks[0] in blanks && (blanks + t)[1..] == blanks[1..] + t;
      BlanksSkipped(blanks[1..], t);
    }
  }

  lemma {:induction false} DigitsSplit(u: string)
    ensures var n := DigitRun(u);
            (forall c :: c in u[..n] ==> IsDigit(c)) && EndsNumber(u[n..])
  {
    if u != [] && IsDigit(u[0]) {
      DigitsSplit(u[1..]);
      var n := DigitRun(u[1..]);
      assert u[..n + 1] == [u[0]] + u[1..][..n] && u[n + 1..] == u[1..][n..];
    }
  }

  lemma DigitsAccepted(digits: string, rest: string, negative: bool)
    requires digits != "" && (forall c :: c in digits ==> IsDigit(c)) && EndsNumber(rest)
    ensures var value := if negative then -Value(digits) else Value(digits);
            ScanDigits(digits + rest, negative) == if IsInt64(value) then Got(value, rest) else Fail
  {
    assert forall i :: 0 <= i < |digits| ==> digits[i] in digits;
    RunOfDigits(digits, rest);
    assert (digits + rest)[..|digits|] == digits && (digits + rest)[|digits|..] == rest;
  }

  lemma SignRead(sign: char, u: string)
    requires sign == '+' || sign == '-'
    ensures ScanSigned([sign] + u) == ScanDigits(u, sign == '-')
  {
    assert ([sign] + u)[1..] == u;
  }

  lemma NoSignRead(u: string)
    requires u != [] && IsDigit(u[0])
    ensures ScanSigned(u) == ScanDigits(u, false)
  {
  }

  lemma SignedAccepted(n: Numeral, rest: string)
    requires n.Proper() && EndsNumber(rest)
    ensures ScanSigned(n.sign + (n.digits + rest)) == if IsInt64(n.Denotes()) then Got(n.Denotes(), rest) else Fail
    ensures !IsBlank((n.sign + (n.digits + rest))[0])
  {
    var u := n.digits + rest;
    assert IsDigit(u[0]) by { assert n.digits[0] in n.digits && u[0] == n.digits[0]; }
    DigitsAccepted(n.digits, rest, n.sign == "-");
    if n.sign == "" {
      assert n.sign + u == u;
      NoSignRead(u);
    } else {
      SignRead(n.sign[0], u);
      assert n.sign == [n.sign[0]];
    }
  }

  lemma ScanAccepts(n: Numeral, rest: string)
    requires n.Proper() && EndsNumber(rest)
    ensures ScanInt(n.Text() + rest) == if IsInt64(n.Denotes()) then Got(n.Denotes(), rest) else Fail
  {
    SignedAccepted(n, rest);
    Regroup(n.blanks, n.sign, n.digits, rest);
    BlanksSkipped(n.blanks, n.sign + (n.digits + rest));
  }

  lemma ScannedDigits(u: string, negative: bool) returns (digits: string)
    requires ScanDigits(u, negative).Got?
    ensures digits != "" && (forall c :: c in digits ==> IsDigit(c)) && EndsNumber(ScanDigits(u, negative).rest)
    ensures u == digits + ScanDigits(u, negative).rest
    ensures ScanDigits(u, negative).value == if negative then -Value(digits) else Value(digits)
  {
    DigitsSplit(u);
    digits := u[..DigitRun(u)];
  }

  lemma SignedSplits(t: string) returns (sign: string, digits: string)
    requires ScanSigned(t).Got?
    ensures Numeral("", sign, digits).Proper() && EndsNumber(ScanSigned(t).rest)
    ensures t == sign + (digits + ScanSigned(t).rest)
    ensures ScanSigned(t).value == Numeral("", sign, digits).Denotes()
  {
    if t != [] && (t[0] == '-' || t[0] == '+') {
      digits := ScannedDigits(t[1..], t[0] == '-');
      sign := [t[0]];
      assert t == sign + t[1..];
    } else {
      digits := ScannedDigits(t, false);
      sign := "";
    }
  }

  lemma Regroup(a: string, b: string, c: string, d: string)
    ensures a + (b + (c + d)) == (a + (b + c)) + d
  {
  }

  lemma ScanSplits(s: string) returns (n: Numeral)
    requires ScanInt(s).Got?
    ensures n.Proper() && s == n.Text() + ScanInt(s).rest && ScanInt(s).value == n.Denotes() && EndsNumber(ScanInt(s).rest)
  {
    var blanks := BlanksSplit(s);
    var sign, digits := SignedSplits(SkipBlanks(s));
    n := Numeral(blanks, sign, digits);
    Regroup(blanks, sign, digits, ScanInt(s).rest);
    assert Numeral("", sign, digits).Proper();
  }

  /** The text is a number, a colon and a number, perhaps with something after it. */
  ghost predicate Spells(data: string, t: Timestamp, first: Numeral, second: Numeral, tail: string)
  {
    && first.Proper() && second.Proper() && EndsNumber(tail)
    && data == first.Text() + (":" + (second.Text() + tail))
    && t == Timestamp(first.Denotes(), second.Denotes())
  }

  /** A text is read as t without error exactly when it spells t and both components fit 64 bits. */
  lemma FromBytesExactly(data: string, t: Timestamp)
    ensures FromBytes(data) == (t, true) <==>
              && IsInt64(t.physical) && IsInt64(t.logical)
              && exists first, second, tail :: Spells(data, t, first, second, tail)
  {
    if FromBytes(data) == (t, true) {
      var first := ScanSplits(data);
      var rest := ScanInt(data).rest;
      var second := ScanSplits(rest[1..]);
      var tail := ScanInt(rest[1..]).rest;
      assert rest == ":" + rest[1..];
      assert Spells(data, t, first, second, tail);
    }
    if IsInt64(t.physical) && IsInt64(t.logical) && exists first, second, tail :: Spells(data, t, first, second, tail) {
      var first, second, tail :| Spells(data, t, first, second, tail);
      var rest := ":" + (second.Text() + tail);
      ScanAccepts(first, rest);
      assert rest[1..] == second.Text() + tail;
      ScanAccepts(second, tail);
    }
  }

  // ---------- Round trip ----------

  lemma {:induction false} DecimalDenotes(n: nat)
    ensures Decimal(n) != []
    ensures forall i :: 0 <= i < |Decimal(n)| ==> IsDigit(Decimal(n)[i])
    ensures Value(Decimal(n)) == n
  {
    if n >= 10 {
      DecimalDenotes(n / 10);
      var d := Decimal(n);
      assert d[..|d| - 1] == Decimal(n / 10);
    } else {
      assert Value([DigitChar(n)][..0]) == 0;
    }
  }

  lemma {:induction false} RunOfDigits(digits: string, rest: string)
    requires forall i :: 0 <= i < |digits| ==> IsDigit(digits[i])
    requires rest != [] ==> !IsDigit(rest[0])
    ensures DigitRun(digits + rest) == |digits|
  {
    if digits == [] {
      assert digits + rest == rest;
    } else {
      assert (digits + rest)[1..] == digits[1..] + rest;
      RunOfDigits(digits[1..], rest);
    }
  }

  /** Reading a printed number consumes exactly that number, and fails exactly outside 64 bits. */
  lemma ScanPrinted(x: int, rest: string)
    requires rest != [] ==> !IsDigit(rest[0])
    ensures ScanInt(PrintInt(x) + rest) == if IsInt64(x) then Got(x, rest) else Fail
  {
    var size := if x < 0 then -x else x;
    DecimalDenotes(size);
    var n := Numeral("", if x < 0 then "-" else "", Decimal(size));
    ScanAccepts(n, rest);
    assert n.Text() == PrintInt(x);
  }

  /** The digits are decimal: one more digit multiplies by ten, in writing and in reading. */
  lemma DecimalExactly(n: nat, digits: string, c: char)
    requires c in "0123456789"
    ensures n > 0 ==> Decimal(10 * n + (c as int - 48)) == Decimal(n) + [c]
    ensures c as int - 48 < 10 && Decimal(c as int - 48) == [c]
    ensures Value(digits + [c]) == 10 * Value(digits) + (c as int - 48)
  {
    assert (digits + [c])[..|digits|] == digits;
    if n > 0 { LastDigit(n, c as int - 48); }
  }

  lemma LastDigit(n: nat, d: nat)
    requires d < 10
    ensures (10 * n + d) / 10 == n && (10 * n + d) % 10 == d
  {
  }

  /** The text of a timestamp as it is stored: signs, then digits, and a colon between the numbers. */
  lemma BytesExactly(m: int, n: int)
    requires m > 0 && n > 0
    ensures Bytes(Timestamp(m, n)) == Decimal(m) + ":" + Decimal(n)
    ensures Bytes(Timestamp(-m, -n)) == "-" + Decimal(m) + ":" + "-" + Decimal(n)
    ensures Bytes(Timestamp(m, 0)) == Decimal(m) + ":0"
  {
    assert PrintInt(-m) == "-" + Decimal(m) && PrintInt(-n) == "-" + Decimal(n);
    DecimalExactly(0, "", '0');
  }

  /** The spaces the scanner skips before a number, by code point; the newline is not among them. */
  lemma BlanksExactly(c: char)
    ensures IsBlank(c) <==> c as int in {0x09, 0x0B, 0x0C, 0x0D, 0x20, 0x85, 0xA0, 0x1680, 0x2028, 0x2029, 0x202F, 0x205F, 0x3000} || 0x2000 <= c as int <= 0x200A
  {
  }

  /** What is left of a timestamp when its text cannot be read: a first number that could be is kept. */
  lemma FailureKeepsFirst(data: string)
    requires !FromBytes(data).1
    ensures FromBytes(data).0 == if ScanInt(data).Got? then Timestamp(ScanInt(data).value, 0) else Timestamp(0, 0)
  {
  }

  /** Every timestamp, whatever its signs, is read back from its text, whatever non-digit follows it;
      reading fails exactly when a component does not fit in 64 bits. */
  lemma RoundTrip(t: Timestamp, tail: string)
    requires tail != [] ==> !IsDigit(tail[0])
    ensures FromBytes(Bytes(t) + tail).1 <==> IsInt64(t.physical) && IsInt64(t.logical)
    ensures IsInt64(t.physical) && IsInt64(t.logical) ==> FromBytes(Bytes(t) + tail) == (t, true)
  {
    var second := PrintInt(t.logical) + tail;
    assert Bytes(t) + tail == PrintInt(t.physical) + (":" + second);
    ScanPrinted(t.physical, ":" + second);
    ScanPrinted(t.logical, tail);
    assert (":" + second)[1..] == second;
  }

  lemma BytesInjective(a: Timestamp, b: Timestamp)
    requires IsInt64(a.physical) && IsInt64(a.logical) && IsInt64(b.physical) && IsInt64(b.logical)
    requires Bytes(a) == Bytes(b)
    ensures a == b
  {
    RoundTrip(a, "");
    RoundTrip(b, "");
  }
}
