/**
 * The parts of Go's `strconv` package that the typed accessors use:
 * `ParseInt(s, 0, 0)` on a 64-bit platform (base taken from the prefix,
 * result in int64) and `ParseBool`, plus decimal rendering of naturals
 * for stating round trips.
 */
module GoStrconv {
  import opened Wrappers

  const MaxUint64: int := 0xFFFF_FFFF_FFFF_FFFF
  /** 1 << 63: int64 holds -Int64Cutoff .. Int64Cutoff - 1. */
  const Int64Cutoff: int := 0x8000_0000_0000_0000

  /**
   * The outcome of a numeric parse. A range error still carries a value:
   * Go returns the clamped extreme alongside the error.
   */
  datatype NumResult = Parsed(value: int) | SyntaxError | RangeError(clamped: int)

  /** Go's `lower(c)` (c | 0x20), as far as it is compared with letters. */
  function Lower(c: char): char {
    if 'A' <= c <= 'Z' then (c as int + 32) as char else c
  }

  /** The value of a digit character in bases up to 36, or -1 for any other character. */
  function DigitValue(c: char): (d: int)
    ensures -1 <= d < 36
  {
    if '0' <= c <= '9' then c as int - '0' as int
    else if 'a' <= Lower(c) <= 'z' then Lower(c) as int - 'a' as int + 10
    else -1
  }

  /** The positions an underscore may take, as tracked by Go's `underscoreOK`. */
  datatype Saw = Start | Digit | Underscore | Other

  /**
   * Go's `underscoreOK`: underscores appear only between digits, or between
   * a base prefix and a digit.
   */
  function UnderscoreOK(s: string): (r: bool)
    ensures '_' !in s ==> r
    ensures |s| >= 1 && s[0] == '_' ==> !r
  {
    var t := if |s| >= 1 && (s[0] == '-' || s[0] == '+') then s[1..] else s;
    if |t| >= 2 && t[0] == '0' && Lower(t[1]) in {'b', 'o', 'x'} then
      UnderscoreScan(t[2..], Digit, Lower(t[1]) == 'x')
    else
      UnderscoreScan(t, Start, false)
  }

  function UnderscoreScan(s: string, saw: Saw, hex: bool): (r: bool)
    ensures '_' !in s && saw != Underscore ==> r
    ensures r && s != [] && s[0] == '_' ==> saw == Digit
    decreases |s|
  {
    if s == [] then saw != Underscore
    else if '0' <= s[0] <= '9' || (hex && 'a' <= Lower(s[0]) <= 'f') then UnderscoreScan(s[1..], Digit, hex)
    else if s[0] == '_' then saw == Digit && UnderscoreScan(s[1..], Underscore, hex)
    else if saw == Underscore then false
    else UnderscoreScan(s[1..], Other, hex)
  }

  /**
   * The digit loop of `ParseUint` once the base prefix is gone: `n` is the
   * value so far, `whole` the unsigned text the underscore rule is checked
   * against. An overflow is reported at once, before later characters are
   * looked at.
   */
  function Accumulate(digits: string, base: nat, n: nat, underscores: bool, whole: string): (r: NumResult)
    requires base in {2, 8, 10, 16}
    requires n <= MaxUint64
    ensures r.Parsed? ==> 0 <= r.value <= MaxUint64
    ensures r.RangeError? ==> r.clamped == MaxUint64
    decreases |digits|
  {
    if digits == [] then
      if underscores && !UnderscoreOK(whole) then SyntaxError else Parsed(n)
    else if digits[0] == '_' then
      Accumulate(digits[1..], base, n, true, whole)
    else
      var d := DigitValue(digits[0]);
      if d < 0 || d >= base then SyntaxError
      else if n >= MaxUint64 / base + 1 || n * base + d > MaxUint64 then RangeError(MaxUint64)
      else Accumulate(digits[1..], base, n * base + d, underscores, whole)
  }

  /** `strconv.ParseUint(s, 0, 64)`: base 2, 8 or 16 from a `0b`, `0o`, `0x` or bare `0` prefix, else 10. */
  function ParseUint(s: string): (r: NumResult)
    ensures r.Parsed? ==> 0 <= r.value <= MaxUint64
    ensures r.RangeError? ==> r.clamped == MaxUint64
  {
    if s == "" then SyntaxError
    else if s[0] == '0' && |s| >= 3 && Lower(s[1]) == 'b' then Accumulate(s[2..], 2, 0, false, s)
    else if s[0] == '0' && |s| >= 3 && Lower(s[1]) == 'o' then Accumulate(s[2..], 8, 0, false, s)
    else if s[0] == '0' && |s| >= 3 && Lower(s[1]) == 'x' then Accumulate(s[2..], 16, 0, false, s)
    else if s[0] == '0' then Accumulate(s[1..], 8, 0, false, s)
    else Accumulate(s, 10, 0, false, s)
  }

  /**
   * `strconv.ParseInt(s, 0, 0)` with a 64-bit `int`: an optional sign, then
   * `ParseUint`; magnitudes outside int64 are a range error carrying the
   * nearest int64.
   */
  function ParseInt(s: string): (r: NumResult)
    ensures r.Parsed? ==> -Int64Cutoff <= r.value < Int64Cutoff
    ensures s == "" ==> r == SyntaxError
    ensures s != "" && r.Parsed? ==> (if s[0] == '-' then r.value <= 0 else r.value >= 0)
    ensures s != "" && r.RangeError? ==> r.clamped == if s[0] == '-' then -Int64Cutoff else Int64Cutoff - 1
  {
    if s == "" then SyntaxError
    else
      var neg := s[0] == '-';
      var unsigned := if s[0] == '+' || s[0] == '-' then s[1..] else s;
      match ParseUint(unsigned)
      case SyntaxError => SyntaxError
      case RangeError(_) => RangeError(if neg then -Int64Cutoff else Int64Cutoff - 1)
      case Parsed(un) =>
        if !neg && un >= Int64Cutoff then RangeError(Int64Cutoff - 1)
        else if neg && un > Int64Cutoff then RangeError(-Int64Cutoff)
        else Parsed(if neg then -un else un)
  }

  const TrueWords: set<string> := {"1", "t", "T", "TRUE", "true", "True"}
  const FalseWords: set<string> := {"0", "f", "F", "FALSE", "false", "False"}

  /** `strconv.ParseBool`: exactly the six spellings of each truth value. */
  function ParseBool(s: string): (r: Option<bool>)
    ensures r == Some(true) <==> s in TrueWords
    ensures r == Some(false) <==> s in FalseWords
  {
    if s in TrueWords then Some(true)
    else if s in FalseWords then Some(false)
    else None
  }

  function DigitChar(d: nat): (c: char)
    requires d < 10
    ensures '0' <= c <= '9' && DigitValue(c) == d
  {
    ('0' as int + d) as char
  }

  /** Decimal rendering of a natural number, without leading zeros. */
  function Decimal(n: nat): (s: string)
    ensures |s| >= 1
    ensures forall i :: 0 <= i < |s| ==> '0' <= s[i] <= '9'
    ensures n > 0 ==> s[0] != '0'
  {
    if n < 10 then [DigitChar(n)] else Decimal(n / 10) + [DigitChar(n % 10)]
  }

  /** The decimal digits of `m` feed the digit loop exactly the value `m`. */
  lemma {:induction false} AccumulateDecimal(m: nat, tail: string, whole: string)
    requires m <= MaxUint64
    ensures Accumulate(Decimal(m) + tail, 10, 0, false, whole) == Accumulate(tail, 10, m, false, whole)
    decreases m
  {
    if m < 10 {
      assert Decimal(m) + tail == [DigitChar(m)] + tail;
      assert ([DigitChar(m)] + tail)[1..] == tail;
    } else {
      var c := DigitChar(m % 10);
      assert Decimal(m) + tail == Decimal(m / 10) + ([c] + tail);
      AccumulateDecimal(m / 10, [c] + tail, whole);
      assert ([c] + tail)[1..] == tail;
      assert m / 10 < MaxUint64 / 10 + 1;
    }
  }

  /** `ParseInt` reads back every int64-sized natural from its decimal rendering. */
  lemma ParseIntDecimal(n: nat)
    requires n < Int64Cutoff
    ensures ParseInt(Decimal(n)) == Parsed(n)
  {
    var s := Decimal(n);
    if n == 0 {
      assert s == "0";
      assert ParseUint(s) == Accumulate("", 8, 0, false, s);
    } else {
      AccumulateDecimal(n, "", s);
      assert s + "" == s;
      assert ParseUint(s) == Accumulate(s, 10, 0, false, s);
    }
  }

  /** A minus sign in front of the decimal rendering gives the negated value. */
  lemma ParseIntNegativeDecimal(n: nat)
    requires 0 < n <= Int64Cutoff
    ensures ParseInt("-" + Decimal(n)) == Parsed(-(n as int))
  {
    var s := Decimal(n);
    AccumulateDecimal(n, "", s);
    assert s + "" == s;
    assert ("-" + s)[1..] == s;
    assert ParseUint(s) == Accumulate(s, 10, 0, false, s);
  }

  /** Decimal digits worth more than uint64 can hold make the digit loop report a range error. */
  lemma {:induction false} AccumulateDecimalOverflow(m: nat, tail: string, whole: string)
    requires m > MaxUint64
    ensures Accumulate(Decimal(m) + tail, 10, 0, false, whole) == RangeError(MaxUint64)
    decreases m
  {
    var c := DigitChar(m % 10);
    assert Decimal(m) + tail == Decimal(m / 10) + ([c] + tail);
    if m / 10 > MaxUint64 {
      AccumulateDecimalOverflow(m / 10, [c] + tail, whole);
    } else {
      AccumulateDecimal(m / 10, [c] + tail, whole);
    }
  }

  /** A decimal beyond int64 is a range error whose value is the largest int64. */
  lemma ParseIntDecimalRange(n: nat)
    requires n >= Int64Cutoff
    ensures ParseInt(Decimal(n)) == RangeError(Int64Cutoff - 1)
  {
    var s := Decimal(n);
    assert s + "" == s;
    assert ParseUint(s) == Accumulate(s, 10, 0, false, s);
    if n > MaxUint64 {
      AccumulateDecimalOverflow(n, "", s);
    } else {
      AccumulateDecimal(n, "", s);
    }
  }

  /** A negative decimal beyond int64 is a range error whose value is the smallest int64. */
  lemma ParseIntNegativeDecimalRange(n: nat)
    requires n > Int64Cutoff
    ensures ParseInt("-" + Decimal(n)) == RangeError(-Int64Cutoff)
  {
    var s := Decimal(n);
    assert s + "" == s;
    assert ("-" + s)[1..] == s;
    assert ParseUint(s) == Accumulate(s, 10, 0, false, s);
    if n > MaxUint64 {
      AccumulateDecimalOverflow(n, "", s);
    } else {
      AccumulateDecimal(n, "", s);
    }
  }

  /** An explicit `+` sign changes nothing: `+n` reads back `n`. */
  lemma ParseIntPlusDecimal(n: nat)
    requires n < Int64Cutoff
    ensures ParseInt("+" + Decimal(n)) == Parsed(n)
  {
    var s := Decimal(n);
    assert ("+" + s)[1..] == s;
    ParseIntDecimal(n);
    assert ParseUint(s) == Parsed(n);
  }
}
