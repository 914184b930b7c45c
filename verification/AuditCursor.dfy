/**
 The cursor text: microseconds and row id in decimal, joined by a dot.
 */
module AuditCursor {
  import opened Prelude

  const I64_MIN: int := -0x8000_0000_0000_0000
  const I64_MAX: int := 0x7fff_ffff_ffff_ffff

  predicate IsI64(n: int) {
    I64_MIN <= n <= I64_MAX
  }

  predicate IsDigit(c: char) {
    '0' <= c <= '9'
  }

  function DigitOf(n: nat): (c: char)
    requires n < 10
    ensures IsDigit(c) && c as int - '0' as int == n
  {
    '0' + n as char
  }

  /** Decimal digits without leading zeros, as formatting prints them. */
  function Digits(n: nat): (s: string)
    ensures s != [] && forall i :: 0 <= i < |s| ==> IsDigit(s[i])
  {
    if n < 10 then [DigitOf(n)] else Digits(n / 10) + [DigitOf(n % 10)]
  }

  function Format(n: int): string {
    if n < 0 then "-" + Digits(-n) else Digits(n)
  }

  /** The value of a digit string read left to right, None at the first other character. */
  function Value(s: string): Option<nat> {
    if s == [] then Some(0)
    else
      var high := Value(s[..|s| - 1]);
      var c := s[|s| - 1];
      if high.None? || !IsDigit(c) then None else Some(high.value * 10 + (c as int - '0' as int))
  }

  /** str::parse::<i64>: an optional sign, at least one digit, and no overflow. */
  function ParseI64(s: string): Option<int> {
    if s == [] then None
    else
      var negative := s[0] == '-';
      var digits := if negative || s[0] == '+' then s[1..] else s;
      var magnitude := if digits == [] then None else Value(digits);
      if magnitude.None? then None
      else
        var m: int := magnitude.value;
        var n := if negative then -m else m;
        if IsI64(n) then Some(n) else None
  }

  /** The position of the first dot. */
  function FindDot(s: string): (r: Option<nat>)
    ensures r.Some? ==> r.value < |s| && s[r.value] == '.' && forall i :: 0 <= i < r.value ==> s[i] != '.'
    ensures r.None? ==> forall i :: 0 <= i < |s| ==> s[i] != '.'
  {
    if s == [] then None
    else if s[0] == '.' then Some(0)
    else
      var rest := FindDot(s[1..]);
      if rest.None? then None else Some(rest.value + 1)
  }

  datatype Cursor = Cursor(micros: int, id: int)

  /** The span of times that DateTime::from_timestamp_micros accepts. */
  datatype Calendar = Calendar(first: int, last: int)

  predicate Representable(calendar: Calendar, micros: int) {
    calendar.first <= micros <= calendar.last && IsI64(micros)
  }

  function EncodeCursor(c: Cursor): string {
    Format(c.micros) + "." + Format(c.id)
  }

  function ParseCursor(calendar: Calendar, s: string): Option<Cursor> {
    var dot := FindDot(s);
    if dot.None? then None
    else
      var micros := ParseI64(s[..dot.value]);
      var id := ParseI64(s[dot.value + 1..]);
      if micros.None? || id.None? then None
      else if !Representable(calendar, micros.value) then None
      else if id.value <= 0 then None
      else Some(Cursor(micros.value, id.value))
  }

  // ---------------------------------------------------------------- round trip

  lemma {:induction false} ValueOfDigits(n: nat)
    ensures Value(Digits(n)) == Some(n)
  {
    if n < 10 {
      assert Value([]) == Some(0);
      assert Digits(n)[..0] == [];
    } else {
      ValueOfDigits(n / 10);
      assert Digits(n)[..|Digits(n)| - 1] == Digits(n / 10);
    }
  }

  lemma ParseOfFormat(n: int)
    requires IsI64(n)
    ensures ParseI64(Format(n)) == Some(n)
  {
    if n < 0 {
      ValueOfDigits(-n);
      assert Format(n)[1..] == Digits(-n);
    } else {
      ValueOfDigits(n);
      assert IsDigit(Digits(n)[0]);
    }
  }

  lemma FormatHasNoDot(n: int)
    ensures forall i :: 0 <= i < |Format(n)| ==> Format(n)[i] != '.'
  {}

  /** Every cursor the service hands out is read back as the row it was made from. */
  lemma CursorRoundTrip(calendar: Calendar, c: Cursor)
    requires Representable(calendar, c.micros) && 0 < c.id <= I64_MAX
    ensures ParseCursor(calendar, EncodeCursor(c)) == Some(c)
  {
    var s, n := EncodeCursor(c), |Format(c.micros)|;
    FormatHasNoDot(c.micros);
    assert s[n] == '.' && s[..n] == Format(c.micros) && s[n + 1..] == Format(c.id);
    assert FindDot(s) == Some(n);
    ParseOfFormat(c.micros);
    ParseOfFormat(c.id);
  }

  /** Different rows have different cursors. */
  lemma EncodingInjective(calendar: Calendar, a: Cursor, b: Cursor)
    requires Representable(calendar, a.micros) && 0 < a.id <= I64_MAX
    requires Representable(calendar, b.micros) && 0 < b.id <= I64_MAX
    requires EncodeCursor(a) == EncodeCursor(b)
    ensures a == b
  {
    CursorRoundTrip(calendar, a);
    CursorRoundTrip(calendar, b);
  }

  // ---------------------------------------------------------------- which texts are accepted

  function Zeros(k: nat): (s: string)
    ensures |s| == k && forall i :: 0 <= i < |s| ==> s[i] == '0'
  {
    if k == 0 then "" else Zeros(k - 1) + "0"
  }

  /** The decimal digits of n after any number of zeros. */
  ghost predicate WritesDigits(s: string, n: nat) {
    exists zeros: nat :: s == Zeros(zeros) + Digits(n)
  }

  /** A decimal numeral with value n: optional sign, leading zeros allowed. */
  ghost predicate Writes(s: string, n: int) {
    || (n >= 0 && WritesDigits(s, n))
    || (n >= 0 && s != [] && s[0] == '+' && WritesDigits(s[1..], n))
    || (n <= 0 && s != [] && s[0] == '-' && WritesDigits(s[1..], -n))
  }

  lemma {:induction false} ValueOfZeros(zeros: nat)
    ensures Value(Zeros(zeros)) == Some(0)
  {
    if zeros > 0 {
      ValueOfZeros(zeros - 1);
      assert Zeros(zeros)[..zeros - 1] == Zeros(zeros - 1);
    }
  }

  lemma {:induction false} ValueAfterZeros(zeros: nat, n: nat)
    ensures Value(Zeros(zeros) + Digits(n)) == Some(n)
    decreases n
  {
    var s := Zeros(zeros) + Digits(n);
    if n >= 10 {
      ValueAfterZeros(zeros, n / 10);
      assert s[..|s| - 1] == Zeros(zeros) + Digits(n / 10);
    } else {
      ValueOfZeros(zeros);
      assert s[..|s| - 1] == Zeros(zeros);
    }
  }

  /** One more digit after a numeral gives a numeral. */
  lemma AppendDigit(front: string, high: nat, d: nat)
    requires WritesDigits(front, high) && d < 10
    ensures WritesDigits(front + [DigitOf(d)], high * 10 + d)
  {
    var n := high * 10 + d;
    var zeros: nat :| front == Zeros(zeros) + Digits(high);
    if high > 0 {
      assert Digits(n) == Digits(high) + [DigitOf(d)];
      assert front + [DigitOf(d)] == Zeros(zeros) + Digits(n);
    } else {
      assert Digits(0) == "0" && Digits(n) == [DigitOf(d)];
      assert front == Zeros(zeros + 1);
      assert front + [DigitOf(d)] == Zeros(zeros + 1) + Digits(n);
    }
  }

  lemma {:induction false} ValueIsWritten(s: string)
    requires s != [] && Value(s).Some?
    ensures WritesDigits(s, Value(s).value)
  {
    var front, c := s[..|s| - 1], s[|s| - 1];
    var d := c as int - '0' as int;
    assert s == front + [c] && c == DigitOf(d);
    if front == [] {
      assert s == Zeros(0) + Digits(d);
    } else {
      ValueIsWritten(front);
      AppendDigit(front, Value(front).value, d);
    }
  }

  lemma ValueIffWritten(s: string, n: nat)
    ensures s != [] && Value(s) == Some(n) <==> WritesDigits(s, n)
  {
    if s != [] && Value(s) == Some(n) { ValueIsWritten(s); }
    if WritesDigits(s, n) {
      var zeros: nat :| s == Zeros(zeros) + Digits(n);
      ValueAfterZeros(zeros, n);
    }
  }

  lemma WrittenStartsWithDigit(s: string, n: nat)
    requires WritesDigits(s, n)
    ensures s != [] && forall i :: 0 <= i < |s| ==> IsDigit(s[i])
  {}

  lemma ParseIffWrites(s: string, n: int)
    ensures ParseI64(s) == Some(n) <==> IsI64(n) && Writes(s, n)
  {
    if n >= 0 && WritesDigits(s, n) { WrittenStartsWithDigit(s, n); }
    if s != [] {
      if n >= 0 {
        ValueIffWritten(s, n);
        ValueIffWritten(s[1..], n);
      }
      if n <= 0 {
        ValueIffWritten(s[1..], -n);
      }
    }
  }

  lemma WrittenHasNoDot(s: string, n: int)
    requires Writes(s, n)
    ensures '.' !in s
  {}

  ghost predicate SplitAt(s: string, k: nat, c: Cursor) {
    k < |s| && s[k] == '.' && Writes(s[..k], c.micros) && Writes(s[k + 1..], c.id)
  }

  /** Exactly the texts "time.id" with decimal numerals in range are accepted, with that meaning. */
  lemma ParseCursorIff(calendar: Calendar, s: string, c: Cursor)
    ensures ParseCursor(calendar, s) == Some(c)
       <==> Representable(calendar, c.micros) && 0 < c.id <= I64_MAX && exists k: nat :: SplitAt(s, k, c)
  {
    var dot := FindDot(s);
    if dot.Some? {
      ParseIffWrites(s[..dot.value], c.micros);
      ParseIffWrites(s[dot.value + 1..], c.id);
      if ParseCursor(calendar, s) == Some(c) { assert SplitAt(s, dot.value, c); }
    }
    if k: nat :| SplitAt(s, k, c) {
      WrittenHasNoDot(s[..k], c.micros);
      assert forall i :: 0 <= i < k ==> s[..k][i] == s[i];
    }
  }
}
