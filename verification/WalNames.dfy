/**
  Segment file names: `seg-%010d.wal`, the order sort.Strings puts them in, and the number the
  writer reads back from a name.
 */
module WalNames {
  import opened Values

  const PREFIX := "seg-"
  const SUFFIX := ".wal"

  function DigitChar(d: nat): char
    requires d < 10
  {
    ['0', '1', '2', '3', '4', '5', '6', '7', '8', '9'][d]
  }

  predicate IsDigit(c: char) { '0' <= c <= '9' }

  function DigitValue(c: char): nat
    requires IsDigit(c)
  {
    (c - '0') as nat
  }

  /** Decimal digits without padding. */
  function Decimal(n: nat): (s: string)
    ensures |s| > 0 && forall i | 0 <= i < |s| :: IsDigit(s[i])
  {
    if n < 10 then [DigitChar(n)] else Decimal(n / 10) + [DigitChar(n % 10)]
  }

  function Zeros(k: nat): (s: string)
    ensures |s| == k && forall i | 0 <= i < k :: s[i] == '0'
  {
    seq(k, _ => '0')
  }

  /** The verb %010d: at least ten digits, more when the number needs them. */
  function Padded(n: nat): string {
    var s := Decimal(n);
    if |s| < 10 then Zeros(10 - |s|) + s else s
  }

  function Name(n: nat): string {
    PREFIX + Padded(n) + SUFFIX
  }

  predicate HasSuffix(name: string) {
    |name| >= |SUFFIX| && name[|name| - |SUFFIX|..] == SUFFIX
  }

  // ----- reading the number back -----

  function DigitRun(s: string): (k: nat)
    ensures k <= |s| && forall i | 0 <= i < k :: IsDigit(s[i])
    ensures k < |s| ==> !IsDigit(s[k])
  {
    if s != [] && IsDigit(s[0]) then 1 + DigitRun(s[1..]) else 0
  }

  function Value(s: string): nat
    requires forall i | 0 <= i < |s| :: IsDigit(s[i])
  {
    if s == [] then 0 else 10 * Value(s[..|s| - 1]) + DigitValue(s[|s| - 1])
  }

  const MAX_INT64: nat := 0x7fff_ffff_ffff_ffff

  /** What the scanner skips before a number. A line break is not skipped, it is an error. */
  predicate IsBlank(c: char) {
    c in {' ', '\t', '\U{000B}', '\U{000C}', '\r', '\U{0085}', '\U{00A0}'}
  }

  function SkipBlanks(s: string): (rest: string)
    ensures |rest| <= |s|
  {
    if s != [] && IsBlank(s[0]) then SkipBlanks(s[1..]) else s
  }

  /** Scanning with the format `seg-%d.wal`: literal prefix, blanks, sign, digits, literal suffix;
      what follows the suffix is ignored, and a number that does not fit 64 bits is an error. */
  function ParseName(name: string): Option<int> {
    if PREFIX <= name then ParseNumber(name[|PREFIX|..]) else None
  }

  function ParseNumber(text: string): Option<int> {
    var s := SkipBlanks(text);
    var signed := s != [] && (s[0] == '+' || s[0] == '-');
    ParseDigits(if signed then s[1..] else s, signed && s[0] == '-')
  }

  function ParseDigits(s: string, negative: bool): Option<int> {
    var k := DigitRun(s);
    if k == 0 || !(SUFFIX <= s[k..]) || Value(s[..k]) > MAX_INT64 + (if negative then 1 else 0) then None
    else
      var n: int := Value(s[..k]);
      Some(if negative then -n else n)
  }

  lemma {:induction false} ValueOfDecimal(n: nat)
    ensures Value(Decimal(n)) == n
  {
    if n < 10 {
      assert Decimal(n)[..0] == [];
    } else {
      ValueOfDecimal(n / 10);
      assert Decimal(n)[..|Decimal(n)| - 1] == Decimal(n / 10);
    }
  }

  lemma {:induction false} ValueOfPadded(k: nat, s: string)
    requires forall i | 0 <= i < |s| :: IsDigit(s[i])
    ensures Value(Zeros(k) + s) == Value(s)
    decreases k + |s|
  {
    if s == [] {
      if k > 0 {
        assert (Zeros(k) + s)[..k - 1] == Zeros(k - 1) + s;
        ValueOfPadded(k - 1, s);
      }
    } else {
      assert (Zeros(k) + s)[..k + |s| - 1] == Zeros(k) + s[..|s| - 1];
      ValueOfPadded(k, s[..|s| - 1]);
    }
  }

  /** The first names as the writer spells them. */
  lemma WrittenNames()
    ensures Name(1) == "seg-0000000001.wal" && Name(2) == "seg-0000000002.wal" && Name(10) == "seg-0000000010.wal"
  {
    FirstNumbers();
    PaddedTo(1, "1", "000000000");
    PaddedTo(2, "2", "000000000");
    PaddedTo(10, "10", "00000000");
    hide Padded, Zeros, Decimal;
  }

  lemma FirstNumbers()
    ensures Decimal(1) == "1" && Decimal(2) == "2" && Decimal(10) == "10"
  {
  }

  lemma PaddedTo(n: nat, digits: string, zeros: string)
    requires Decimal(n) == digits && |digits| + |zeros| == 10 && forall i | 0 <= i < |zeros| :: zeros[i] == '0'
    ensures Padded(n) == zeros + digits
  {
    hide Decimal;
    assert Zeros(|zeros|) == zeros;
  }

  lemma PaddedIsDigits(n: nat)
    ensures |Padded(n)| >= 10 && forall i | 0 <= i < |Padded(n)| :: IsDigit(Padded(n)[i])
    ensures Value(Padded(n)) == n
  {
    ValueOfDecimal(n);
    if |Decimal(n)| < 10 {
      ValueOfPadded(10 - |Decimal(n)|, Decimal(n));
    }
  }

  lemma {:induction false} DigitRunOf(s: string, rest: string)
    requires forall i | 0 <= i < |s| :: IsDigit(s[i])
    requires rest == [] || !IsDigit(rest[0])
    ensures DigitRun(s + rest) == |s|
    decreases |s|
  {
    if s == [] {
      assert s + rest == rest;
    } else {
      assert (s + rest)[1..] == s[1..] + rest;
      DigitRunOf(s[1..], rest);
    }
  }

  /** Nothing is skipped before digits. */
  lemma NoBlanks(digits: string, rest: string)
    requires digits != [] && forall i | 0 <= i < |digits| :: IsDigit(digits[i])
    ensures SkipBlanks(digits + rest) == digits + rest
    ensures (digits + rest)[0] != '+' && (digits + rest)[0] != '-'
  {
    assert (digits + rest)[0] == digits[0];
  }

  lemma ReadDigits(digits: string)
    requires digits != [] && (forall i | 0 <= i < |digits| :: IsDigit(digits[i])) && Value(digits) <= MAX_INT64
    ensures ParseDigits(digits + SUFFIX, false) == Some(Value(digits))
  {
    hide Value, DigitRun;
    var s := digits + SUFFIX;
    DigitRunOf(digits, SUFFIX);
    assert s[..|digits|] == digits && s[|digits|..] == SUFFIX;
  }

  lemma DropPrefix(rest: string)
    ensures PREFIX <= PREFIX + rest && (PREFIX + rest)[|PREFIX|..] == rest
  {
  }

  lemma ReadNumber(digits: string)
    requires digits != [] && (forall i | 0 <= i < |digits| :: IsDigit(digits[i])) && Value(digits) <= MAX_INT64
    ensures ParseNumber(digits + SUFFIX) == Some(Value(digits))
  {
    NoBlanks(digits, SUFFIX);
    ReadDigits(digits);
    hide Value, SkipBlanks, DigitRun, ParseDigits;
  }

  /** Scanning digits between prefix and suffix gives their value. */
  lemma ReadName(digits: string)
    requires digits != [] && (forall i | 0 <= i < |digits| :: IsDigit(digits[i])) && Value(digits) <= MAX_INT64
    ensures ParseName(PREFIX + digits + SUFFIX) == Some(Value(digits))
  {
    ReadNumber(digits);
    hide Value, ParseNumber;
    Regrouped(PREFIX, digits, SUFFIX);
    DropPrefix(digits + SUFFIX);
  }

  lemma Regrouped(a: string, b: string, c: string)
    ensures a + b + c == a + (b + c)
  {
  }

  /** The writer reads back the number it wrote, whatever its width. */
  lemma ParseInvertsName(n: nat)
    requires n <= MAX_INT64
    ensures ParseName(Name(n)) == Some(n) && HasSuffix(Name(n))
  {
    PaddedIsDigits(n);
    ReadName(Padded(n));
    hide Padded, Value, ParseName;
    assert Name(n) == (PREFIX + Padded(n)) + SUFFIX;
  }

  lemma NameIsInjective(m: nat, n: nat)
    requires Name(m) == Name(n)
    ensures m == n
  {
    PaddedIsDigits(m);
    PaddedIsDigits(n);
    assert Name(m)[|PREFIX|..|Name(m)| - |SUFFIX|] == Padded(m);
    assert Name(n)[|PREFIX|..|Name(n)| - |SUFFIX|] == Padded(n);
  }

  lemma NameHasSuffix(n: nat)
    ensures HasSuffix(Name(n))
  {
    assert Name(n)[|Name(n)| - |SUFFIX|..] == SUFFIX;
  }

  // ----- the order of sort.Strings -----

  /** Byte-wise lexicographic order, strict. */
  predicate Before(s: string, t: string) {
    if t == [] then false
    else if s == [] then true
    else s[0] < t[0] || (s[0] == t[0] && Before(s[1..], t[1..]))
  }

  lemma {:induction false} BeforeIsTotal(s: string, t: string)
    ensures Before(s, t) || Before(t, s) || s == t
    ensures !(Before(s, t) && Before(t, s))
    ensures Before(s, t) ==> s != t
  {
    if s != [] && t != [] {
      BeforeIsTotal(s[1..], t[1..]);
    }
  }

  lemma {:induction false} BeforeIsTransitive(s: string, t: string, u: string)
    requires Before(s, t) && Before(t, u)
    ensures Before(s, u)
  {
    if s != [] && s[0] == t[0] == u[0] {
      BeforeIsTransitive(s[1..], t[1..], u[1..]);
    }
  }

  lemma {:induction false} BeforeCommonPrefix(p: string, s: string, t: string)
    ensures Before(p + s, p + t) == Before(s, t)
  {
    if p == [] {
      assert p + s == s && p + t == t;
    } else {
      assert (p + s)[1..] == p[1..] + s && (p + t)[1..] == p[1..] + t;
      BeforeCommonPrefix(p[1..], s, t);
    }
  }

  /** Strings of equal length decide the order whatever follows them. */
  lemma {:induction false} BeforeDecided(s: string, t: string, u: string, v: string)
    requires |s| == |t| && Before(s, t)
    ensures Before(s + u, t + v)
  {
    assert (s + u)[0] == s[0] && (t + v)[0] == t[0];
    assert (s + u)[1..] == s[1..] + u && (t + v)[1..] == t[1..] + v;
    if s[0] == t[0] {
      BeforeDecided(s[1..], t[1..], u, v);
    }
  }

  /** Digit strings of equal length are ordered as their values. */
  lemma {:induction false} EqualWidthOrder(s: string, t: string)
    requires |s| == |t|
    requires forall i | 0 <= i < |s| :: IsDigit(s[i]) && IsDigit(t[i])
    requires Value(s) < Value(t)
    ensures Before(s, t)
    decreases |s|
  {
    var s0, t0 := s[..|s| - 1], t[..|t| - 1];
    assert s == s0 + [s[|s| - 1]] && t == t0 + [t[|t| - 1]];
    if Value(s0) < Value(t0) {
      EqualWidthOrder(s0, t0);
      BeforeDecided(s0, t0, [s[|s| - 1]], [t[|t| - 1]]);
    } else {
      EqualWidthValues(s0, t0);
      BeforeCommonPrefix(s0, [s[|s| - 1]], [t[|t| - 1]]);
    }
  }

  lemma {:induction false} EqualWidthValues(s: string, t: string)
    requires |s| == |t|
    requires forall i | 0 <= i < |s| :: IsDigit(s[i]) && IsDigit(t[i])
    requires Value(s) == Value(t)
    ensures s == t
    decreases |s|
  {
    if s != [] {
      EqualWidthValues(s[..|s| - 1], t[..|t| - 1]);
      assert s == s[..|s| - 1] + [s[|s| - 1]] && t == t[..|t| - 1] + [t[|t| - 1]];
    }
  }

  const TEN_10: nat := 10_000_000_000

  function Power10(k: nat): (p: nat)
    ensures p >= 1
  {
    if k == 0 then 1 else 10 * Power10(k - 1)
  }

  lemma {:induction false} DecimalWidth(n: nat, k: nat)
    requires n < Power10(k) && k > 0
    ensures |Decimal(n)| <= k
    decreases k
  {
    if n >= 10 {
      DecimalWidth(n / 10, k - 1);
    }
  }

  lemma TenDigits(n: nat)
    requires n < TEN_10
    ensures |Padded(n)| == 10
  {
    PowersOfTen();
    DecimalWidth(n, 10);
  }

  /** Below 10^10 names sort as the numbers they carry. */
  lemma NamesSortNumerically(m: nat, n: nat)
    requires m < n < TEN_10
    ensures Before(Name(m), Name(n))
  {
    TenDigits(m);
    TenDigits(n);
    PaddedIsDigits(m);
    PaddedIsDigits(n);
    EqualWidthOrder(Padded(m), Padded(n));
    BeforeDecided(Padded(m), Padded(n), SUFFIX, SUFFIX);
    BeforeCommonPrefix(PREFIX, Padded(m) + SUFFIX, Padded(n) + SUFFIX);
    assert Name(m) == PREFIX + (Padded(m) + SUFFIX) && Name(n) == PREFIX + (Padded(n) + SUFFIX);
  }

  lemma TenTimes(d: nat, p: nat)
    ensures d * (10 * p) == 10 * (d * p)
    ensures d > 0 ==> d * p >= p
  {
  }

  lemma {:induction false} LeadingDigit(n: nat, d: nat, k: nat)
    requires 0 < d < 10 && d * Power10(k) <= n < (d + 1) * Power10(k)
    ensures |Decimal(n)| == k + 1 && Decimal(n)[0] == DigitChar(d)
    decreases k
  {
    if k == 0 {
    } else {
      var p := Power10(k - 1);
      TenTimes(d, p);
      TenTimes(d + 1, p);
      LeadingDigit(n / 10, d, k - 1);
    }
  }

  lemma PowersOfTen()
    ensures Power10(9) == 1_000_000_000 && Power10(10) == TEN_10
  {
    assert Power10(5) == 100000;
  }

  lemma ElevenDigitsSortFirst()
    ensures Before(Name(TEN_10), Name(TEN_10 - 1))
  {
    var m, n := TEN_10, TEN_10 - 1;
    PowersOfTen();
    LeadingDigit(m, 1, 10);
    LeadingDigit(n, 9, 9);
    var s, t := Padded(m) + SUFFIX, Padded(n) + SUFFIX;
    assert s[0] == '1' && t[0] == '9';
    assert Before(s, t);
    BeforeCommonPrefix(PREFIX, s, t);
    assert Name(m) == PREFIX + s && Name(n) == PREFIX + t;
  }

  /** Numeric order holds for all numbers up to a bound exactly when the bound has ten digits. */
  lemma NamesSortExactly(bound: nat)
    ensures (forall m: nat, n: nat | m < n <= bound :: Before(Name(m), Name(n))) <==> bound < TEN_10
  {
    if bound < TEN_10 {
      forall m: nat, n: nat | m < n <= bound ensures Before(Name(m), Name(n)) {
        NamesSortNumerically(m, n);
      }
    } else {
      ElevenDigitsSortFirst();
      BeforeIsTotal(Name(TEN_10), Name(TEN_10 - 1));
      assert !Before(Name(TEN_10 - 1), Name(TEN_10));
    }
  }
}
