/**
  The text primitives the C++ core relies on from its standard library:
  `std::to_string` on non-negative integers, `std::stoi`, the field splitting
  done by `std::getline` with a delimiter, and joining names with a separator.
*/
module Text {
  import opened Wrappers

  /** Bounds of a 32-bit `int`, the result type of `std::stoi`. */
  const INT_MIN: int := -0x8000_0000
  const INT_MAX: int := 0x7FFF_FFFF

  predicate IsDigit(c: char) {
    '0' <= c <= '9'
  }

  /** The characters `isspace` accepts in the "C" locale. */
  predicate IsSpace(c: char) {
    c == ' ' || c == '\t' || c == '\n' || c == '\r' || c as int == 11 || c as int == 12
  }

  function DigitChar(d: nat): (c: char)
    requires d < 10
    ensures IsDigit(c) && c as int - '0' as int == d
  {
    ('0' as int + d) as char
  }

  function DigitValue(c: char): (d: nat)
    requires IsDigit(c)
    ensures d < 10
  {
    c as int - '0' as int
  }

  /** `std::to_string` of a non-negative integer: its shortest decimal spelling. */
  function NatToString(n: nat): (s: string)
    ensures |s| >= 1
    ensures forall k :: 0 <= k < |s| ==> IsDigit(s[k])
    ensures n > 0 ==> s[0] != '0'
    decreases n
  {
    if n < 10 then [DigitChar(n)] else NatToString(n / 10) + [DigitChar(n % 10)]
  }

  /** The value of a string of decimal digits. */
  function DigitsValue(s: string): nat
    requires forall k :: 0 <= k < |s| ==> IsDigit(s[k])
  {
    if s == [] then 0 else DigitsValue(s[..|s| - 1]) * 10 + DigitValue(s[|s| - 1])
  }

  lemma {:induction false} DigitsValueOfNatToString(n: nat)
    ensures DigitsValue(NatToString(n)) == n
    decreases n
  {
    var s := NatToString(n);
    if n >= 10 {
      DigitsValueOfNatToString(n / 10);
      assert s[..|s| - 1] == NatToString(n / 10);
    }
  }

  /** Decimal spellings of distinct numbers are distinct. */
  lemma NatToStringInjective(m: nat, n: nat)
    requires NatToString(m) == NatToString(n)
    ensures m == n
  {
    DigitsValueOfNatToString(m);
    DigitsValueOfNatToString(n);
  }

  function DropSpaces(s: string): string
  {
    if s != [] && IsSpace(s[0]) then DropSpaces(s[1..]) else s
  }

  function LeadingDigits(s: string): (d: string)
    ensures forall k :: 0 <= k < |d| ==> IsDigit(d[k])
  {
    if s != [] && IsDigit(s[0]) then [s[0]] + LeadingDigits(s[1..]) else []
  }

  /**
    `std::stoi(s)` in base 10: leading white space is skipped, an optional
    sign is read, then the longest run of digits; anything after is ignored.
    `None` stands for the exceptions it throws: no digits
    (`std::invalid_argument`) or a value outside `int` (`std::out_of_range`).
  */
  function StoI(s: string): (r: Option<int>)
    ensures r.Some? ==> INT_MIN <= r.value <= INT_MAX
  {
    var t := DropSpaces(s);
    var negative := |t| > 0 && t[0] == '-';
    var body := if |t| > 0 && (t[0] == '+' || t[0] == '-') then t[1..] else t;
    var digits := LeadingDigits(body);
    if digits == [] then None
    else
      var magnitude: int := DigitsValue(digits);
      var v := if negative then -magnitude else magnitude;
      if INT_MIN <= v <= INT_MAX then Some(v) else None
  }

  lemma LeadingDigitsOfDigits(s: string)
    requires forall k :: 0 <= k < |s| ==> IsDigit(s[k])
    ensures LeadingDigits(s) == s
  {
  }

  /** `std::stoi` reads back what `std::to_string` wrote. */
  lemma StoIOfNatToString(n: nat)
    requires n <= INT_MAX
    ensures StoI(NatToString(n)) == Some(n)
  {
    var s := NatToString(n);
    assert !IsSpace(s[0]);
    assert DropSpaces(s) == s;
    LeadingDigitsOfDigits(s);
    DigitsValueOfNatToString(n);
  }

  /** Every piece of `s` between occurrences of `sep`, as a plain split does it. */
  function SplitOn(s: string, sep: char): (parts: seq<string>)
    ensures |parts| >= 1
    ensures forall k :: 0 <= k < |parts| ==> sep !in parts[k]
  {
    if s == [] then [""]
    else
      var rest := SplitOn(s[1..], sep);
      if s[0] == sep then [""] + rest else [[s[0]] + rest[0]] + rest[1..]
  }

  /** The pieces joined back with `sep` between them. */
  function JoinWith(parts: seq<string>, sep: string): string
  {
    if parts == [] then ""
    else if |parts| == 1 then parts[0]
    else JoinWith(parts[..|parts| - 1], sep) + sep + parts[|parts| - 1]
  }

  lemma {:induction false} JoinWithCons(p: string, parts: seq<string>, sep: string)
    requires parts != []
    ensures JoinWith([p] + parts, sep) == p + sep + JoinWith(parts, sep)
    decreases |parts|
  {
    if |parts| > 1 {
      JoinWithCons(p, parts[..|parts| - 1], sep);
      assert ([p] + parts)[..|parts|] == [p] + parts[..|parts| - 1];
    }
  }

  /** Splitting and joining again gives back the original text. */
  lemma {:induction false} SplitOnRoundTrip(s: string, sep: char)
    ensures JoinWith(SplitOn(s, sep), [sep]) == s
  {
    if s != [] {
      var rest := SplitOn(s[1..], sep);
      SplitOnRoundTrip(s[1..], sep);
      if s[0] == sep {
        JoinWithCons("", rest, [sep]);
      } else if |rest| == 1 {
      } else {
        RoundTripPiece(s[0], rest, sep);
      }
    }
  }

  /** A character glued to the first piece of a split rejoins in front of the whole. */
  lemma RoundTripPiece(c: char, rest: seq<string>, sep: char)
    requires |rest| >= 2
    ensures JoinWith([[c] + rest[0]] + rest[1..], [sep]) == [c] + JoinWith(rest, [sep])
  {
    GluedJoin([c], rest, [sep]);
  }

  /** Text glued to the first piece comes out in front of the joined whole. */
  lemma GluedJoin(p: string, rest: seq<string>, sep: string)
    requires |rest| >= 2
    ensures JoinWith([p + rest[0]] + rest[1..], sep) == p + JoinWith(rest, sep)
  {
    var tail := JoinWith(rest[1..], sep);
    JoinWithCons(p + rest[0], rest[1..], sep);
    assert [rest[0]] + rest[1..] == rest;
    JoinWithCons(rest[0], rest[1..], sep);
    assert (p + rest[0]) + sep + tail == p + (rest[0] + sep + tail);
  }

  lemma {:induction false} SplitOnWithoutSep(p: string, sep: char)
    requires sep !in p
    ensures SplitOn(p, sep) == [p]
  {
    if p != [] {
      SplitOnWithoutSep(p[1..], sep);
      assert [p[0]] + p[1..] == p;
    }
  }

  lemma {:induction false} SplitOnAfterPiece(p: string, rest: string, sep: char)
    requires sep !in p
    ensures SplitOn(p + [sep] + rest, sep) == [p] + SplitOn(rest, sep)
  {
    var s := p + [sep] + rest;
    if p == [] {
      assert s[1..] == rest;
    } else {
      assert s[1..] == p[1..] + [sep] + rest;
      SplitOnAfterPiece(p[1..], rest, sep);
      assert [p[0]] + p[1..] == p;
    }
  }

  /** Joining pieces that do not contain `sep` and splitting again gives back the pieces. */
  lemma {:induction false} JoinWithThenSplit(parts: seq<string>, sep: char)
    requires parts != [] && forall k :: 0 <= k < |parts| ==> sep !in parts[k]
    ensures SplitOn(JoinWith(parts, [sep]), sep) == parts
    decreases |parts|
  {
    if |parts| == 1 {
      SplitOnWithoutSep(parts[0], sep);
    } else {
      assert [parts[0]] + parts[1..] == parts;
      JoinWithCons(parts[0], parts[1..], [sep]);
      JoinWithThenSplit(parts[1..], sep);
      SplitOnAfterPiece(parts[0], JoinWith(parts[1..], [sep]), sep);
    }
  }

  /**
    The fields `std::getline(stream, field, sep)` yields from a non-empty
    line: the split pieces, except that a final empty piece (the line ends
    with `sep`) is not produced, because the stream is then exhausted.
  */
  function GetlineFields(line: string, sep: char): (fields: seq<string>)
    requires line != []
    ensures 1 <= |fields|
    ensures forall k :: 0 <= k < |fields| ==> sep !in fields[k]
    ensures JoinWith(fields, [sep]) == line || JoinWith(fields, [sep]) + [sep] == line
  {
    var parts := SplitOn(line, sep);
    SplitOnRoundTrip(line, sep);
    if |parts| > 1 && parts[|parts| - 1] == "" then parts[..|parts| - 1] else parts
  }
}
