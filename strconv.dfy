/** The two integer parses of parseData: strconv.Atoi for the dominant period (buoybot.go:212)
    and strconv.ParseInt(s, 0, 64) for the wave direction (buoybot.go:188), as Go's strconv
    package defines them on a 64-bit platform. */
module Strconv {
  import opened Wrappers
  import opened Bytes

  const MaxInt64: int := 0x7FFF_FFFF_FFFF_FFFF
  const MinInt64: int := -0x8000_0000_0000_0000
  const MaxUint64: int := 0xFFFF_FFFF_FFFF_FFFF

  datatype NumError = ErrSyntax | ErrRange

  /** What Go's parse functions return: a value, and an error or none. */
  datatype NumResult = NumResult(value: int, err: Option<NumError>)

  /** c is the letter `lower` in either case. */
  predicate IsLetter(c: Byte, lower: char)
    requires 'a' <= lower <= 'z'
  {
    c == lower || c as int == lower as int - 32
  }

  /** The value of a digit in bases up to 36 (letters from 10), or 36 for any other byte. */
  function DigitValue(c: Byte): (d: nat)
    ensures d <= 36
    ensures d < 10 <==> IsDecimalDigit(c)
    ensures IsDecimalDigit(c) ==> d == c as int - '0' as int
    ensures ('a' <= c <= 'z' ==> d == c as int - 'a' as int + 10) && ('A' <= c <= 'Z' ==> d == c as int - 'A' as int + 10)
    ensures d == 36 <==> !IsDecimalDigit(c) && !('a' <= c <= 'z') && !('A' <= c <= 'Z')
  {
    if '0' <= c <= '9' then c as int - '0' as int
    else if 'a' <= c <= 'z' then c as int - 'a' as int + 10
    else if 'A' <= c <= 'Z' then c as int - 'A' as int + 10
    else 36
  }

  /** The outcome of ParseUint's digit loop. */
  datatype Scan = Scanned(n: nat, underscores: bool) | ScanSyntax | ScanRange

  /** ParseUint's digit loop: fold the digits into n, fail at a byte that is not a digit of the base,
      and stop with a range error at the first digit that takes n past MaxUint64.
      Underscores are skipped, and remembered, only when the base came from the string itself. */
  function ScanDigits(s: seq<Byte>, base: nat, base0: bool, n: nat, underscores: bool): (r: Scan)
    requires 2 <= base <= 36 && n <= MaxUint64
    ensures r.Scanned? ==> r.n <= MaxUint64
    ensures r.Scanned? && !underscores && !base0 ==> !r.underscores
    decreases |s|
  {
    if s == [] then Scanned(n, underscores)
    else if s[0] == '_' && base0 then ScanDigits(s[1..], base, base0, n, true)
    else
      var d := DigitValue(s[0]);
      if d >= base then ScanSyntax
      else if n * base + d > MaxUint64 then ScanRange
      else ScanDigits(s[1..], base, base0, n * base + d, underscores)
  }

  /** A base read from the string: 0b, 0o or 0x in either case when at least one byte follows,
      otherwise a leading 0 means octal (that 0 being a digit), and anything else decimal. */
  datatype Based = Based(base: nat, digits: seq<Byte>)

  function BasePrefix(s: seq<Byte>): (r: Based)
    requires s != []
    ensures r.base in {2, 8, 10, 16}
    ensures s[0] != '0' ==> r == Based(10, s)
    ensures s[0] == '0' && |s| >= 3 && IsLetter(s[1], 'b') ==> r == Based(2, s[2..])
    ensures s[0] == '0' && |s| >= 3 && IsLetter(s[1], 'o') ==> r == Based(8, s[2..])
    ensures s[0] == '0' && |s| >= 3 && IsLetter(s[1], 'x') ==> r == Based(16, s[2..])
    ensures s[0] == '0' && !(|s| >= 3 && (IsLetter(s[1], 'b') || IsLetter(s[1], 'o') || IsLetter(s[1], 'x')))
            ==> r == Based(8, s[1..])
  {
    if s[0] == '0' then
      if |s| >= 3 && IsLetter(s[1], 'b') then Based(2, s[2..])
      else if |s| >= 3 && IsLetter(s[1], 'o') then Based(8, s[2..])
      else if |s| >= 3 && IsLetter(s[1], 'x') then Based(16, s[2..])
      else Based(8, s[1..])
    else Based(10, s)
  }

  /** The last kind of byte seen by underscoreOK. */
  datatype Saw = Start | Digit | Underscore | Other

  function UnderscoreScan(s: seq<Byte>, saw: Saw, hex: bool): bool
    decreases |s|
  {
    if s == [] then saw != Underscore
    else if IsDecimalDigit(s[0]) || (hex && ('a' <= s[0] <= 'f' || 'A' <= s[0] <= 'F')) then
      UnderscoreScan(s[1..], Digit, hex)
    else if s[0] == '_' then
      saw == Digit && UnderscoreScan(s[1..], Underscore, hex)
    else if saw == Underscore then false
    else UnderscoreScan(s[1..], Other, hex)
  }

  /** Go's underscoreOK: every underscore stands between two digits, or between a base prefix and a digit. */
  function UnderscoreOK(s: seq<Byte>): bool {
    var t := Unsigned(s);
    var prefixed := |t| >= 2 && t[0] == '0' && (IsLetter(t[1], 'b') || IsLetter(t[1], 'o') || IsLetter(t[1], 'x'));
    if prefixed then UnderscoreScan(t[2..], Digit, IsLetter(t[1], 'x'))
    else UnderscoreScan(t, Start, false)
  }

  /** s without its one optional leading sign. */
  function Unsigned(s: seq<Byte>): (t: seq<Byte>)
    ensures |t| <= |s|
  {
    if |s| >= 1 && (s[0] == '+' || s[0] == '-') then s[1..] else s
  }

  /** The base ParseUint works in and the digits it reads: given, or read from a prefix when base is 0. */
  function Radix(s: seq<Byte>, base: nat): (r: Based)
    requires s != [] && (base == 0 || 2 <= base <= 36)
    ensures 2 <= r.base <= 36
  {
    if base == 0 then BasePrefix(s) else Based(base, s)
  }

  /** Go's strconv.ParseUint(s, base, 64); base 0 reads the base from a prefix. */
  function ParseUint(s: seq<Byte>, base: nat): (r: NumResult)
    requires base == 0 || 2 <= base <= 36
    ensures r.err == None ==> 0 <= r.value <= MaxUint64
    ensures r.err == Some(ErrSyntax) ==> r.value == 0
    ensures r.err == Some(ErrRange) ==> r.value == MaxUint64
  {
    if s == [] then NumResult(0, Some(ErrSyntax))
    else
      var based := Radix(s, base);
      match ScanDigits(based.digits, based.base, base == 0, 0, false)
      case ScanSyntax => NumResult(0, Some(ErrSyntax))
      case ScanRange => NumResult(MaxUint64, Some(ErrRange))
      case Scanned(n, underscores) =>
        if underscores && !UnderscoreOK(s) then NumResult(0, Some(ErrSyntax)) else NumResult(n, None)
  }

  /** Go's strconv.ParseInt(s, base, 64): an optional sign, then ParseUint; a syntax error yields 0,
      a value outside int64 yields the nearer int64 bound with a range error. */
  function ParseInt(s: seq<Byte>, base: nat): (r: NumResult)
    requires base == 0 || 2 <= base <= 36
    ensures r.err == None ==> MinInt64 <= r.value <= MaxInt64
    ensures r.err == Some(ErrSyntax) ==> r.value == 0
    ensures r.err == Some(ErrRange) ==> s != [] && r.value == if s[0] == '-' then MinInt64 else MaxInt64
  {
    if s == [] then NumResult(0, Some(ErrSyntax))
    else
      var neg := s[0] == '-';
      var u := ParseUint(Unsigned(s), base);
      if u.err == Some(ErrSyntax) then NumResult(0, Some(ErrSyntax))
      else if !neg && u.value > MaxInt64 then NumResult(MaxInt64, Some(ErrRange))
      else if neg && u.value > -MinInt64 then NumResult(MinInt64, Some(ErrRange))
      else NumResult(if neg then -u.value else u.value, None)
  }

  /** Go's strconv.Atoi: strings of 1 to 18 bytes take a fast path (an optional sign, then decimal
      digits only); all others go through ParseInt(s, 10, 64). */
  function Atoi(s: seq<Byte>): (r: NumResult)
    ensures r.err == None ==> MinInt64 <= r.value <= MaxInt64
    ensures r.err == Some(ErrSyntax) ==> r.value == 0
    ensures r.err == Some(ErrRange) ==> |s| >= 19 && r.value == if s[0] == '-' then MinInt64 else MaxInt64
  {
    if 0 < |s| < 19 then
      var digits := Unsigned(s);
      if digits == [] || !AllDecimal(digits) then NumResult(0, Some(ErrSyntax))
      else
        DecimalValueBelow(digits);
        Pow10Monotone(|digits|, 18);
        Pow10Of18();
        NumResult(if s[0] == '-' then -(DecimalValue(digits) as int) else DecimalValue(digits), None)
    else
      ParseInt(s, 10)
  }

  /** The value of a string of decimal digits, most significant first. */
  function DecimalValue(s: seq<Byte>): nat
    requires AllDecimal(s)
  {
    if s == [] then 0 else DecimalValue(s[..|s| - 1]) * 10 + (s[|s| - 1] as int - '0' as int)
  }

  /** An optional sign and at least one decimal digit, nothing else. */
  predicate IsSignedDecimal(s: seq<Byte>) {
    Unsigned(s) != [] && AllDecimal(Unsigned(s))
  }

  function SignedDecimalValue(s: seq<Byte>): int
    requires IsSignedDecimal(s)
  {
    if s[0] == '-' then -(DecimalValue(Unsigned(s)) as int) else DecimalValue(Unsigned(s))
  }

  function Pow10(n: nat): nat
  {
    if n == 0 then 1 else 10 * Pow10(n - 1)
  }

  lemma {:induction false} DecimalValueBelow(s: seq<Byte>)
    requires AllDecimal(s)
    ensures DecimalValue(s) < Pow10(|s|)
    decreases |s|
  {
    if s != [] {
      DecimalValueBelow(s[..|s| - 1]);
    }
  }

  lemma {:induction false} Pow10Monotone(m: nat, n: nat)
    requires m <= n
    ensures Pow10(m) <= Pow10(n)
    decreases n
  {
    if m < n {
      Pow10Monotone(m, n - 1);
    }
  }

  lemma Pow10Of18()
    ensures Pow10(18) == 1_000_000_000_000_000_000
  {
    assert Pow10(3) == 1_000;
    assert Pow10(6) == 1_000 * Pow10(3) by {
      assert Pow10(6) == 10 * Pow10(5) && Pow10(5) == 10 * Pow10(4) && Pow10(4) == 10 * Pow10(3);
    }
    assert Pow10(9) == 1_000 * Pow10(6) by {
      assert Pow10(9) == 10 * Pow10(8) && Pow10(8) == 10 * Pow10(7) && Pow10(7) == 10 * Pow10(6);
    }
    assert Pow10(12) == 1_000 * Pow10(9) by {
      assert Pow10(12) == 10 * Pow10(11) && Pow10(11) == 10 * Pow10(10) && Pow10(10) == 10 * Pow10(9);
    }
    assert Pow10(15) == 1_000 * Pow10(12) by {
      assert Pow10(15) == 10 * Pow10(14) && Pow10(14) == 10 * Pow10(13) && Pow10(13) == 10 * Pow10(12);
    }
    assert Pow10(18) == 1_000 * Pow10(15) by {
      assert Pow10(18) == 10 * Pow10(17) && Pow10(17) == 10 * Pow10(16) && Pow10(16) == 10 * Pow10(15);
    }
  }

  /** A decimal string is a base-10 numeral with the same value. */
  lemma {:induction false} DecimalIsNumeral(s: seq<Byte>)
    ensures AllDecimal(s) <==> DigitsOf(s, 10, false)
    ensures AllDecimal(s) ==> '_' !in s && DecimalValue(s) == NumeralValue(s, 10)
    decreases |s|
  {
    if s != [] && AllDecimal(s) {
      var q := s[..|s| - 1];
      assert forall i :: 0 <= i < |q| ==> q[i] == s[i];
      DecimalIsNumeral(q);
    }
  }

  /** Without underscores, Unseparated changes nothing. */
  lemma {:induction false} UnseparatedNone(s: seq<Byte>)
    requires '_' !in s
    ensures Unseparated(s) == s
    decreases |s|
  {
    if s != [] {
      UnseparatedNone(s[1..]);
      assert s == [s[0]] + s[1..];
    }
  }

  /** Atoi accepts exactly an optional sign followed by decimal digits whose value fits in int64,
      and then returns that value. */
  lemma AtoiAcceptsSignedDecimals(s: seq<Byte>)
    ensures Atoi(s).err == None <==> IsSignedDecimal(s) && MinInt64 <= SignedDecimalValue(s) <= MaxInt64
    ensures Atoi(s).err == None ==> IsSignedDecimal(s) && Atoi(s).value == SignedDecimalValue(s)
  {
    if 0 < |s| < 19 {
      AtoiFastPath(s);
    } else {
      AtoiSlowPath(s);
    }
  }

  /** Up to 18 bytes, a sign and digits always fit in int64. */
  lemma AtoiFastPath(s: seq<Byte>)
    requires 0 < |s| < 19
    ensures Atoi(s).err == None <==> IsSignedDecimal(s)
    ensures IsSignedDecimal(s) ==> MinInt64 <= SignedDecimalValue(s) <= MaxInt64 && Atoi(s).value == SignedDecimalValue(s)
  {
    var digits := Unsigned(s);
    if digits != [] && AllDecimal(digits) {
      DecimalValueBelow(digits);
      Pow10Monotone(|digits|, 18);
      Pow10Of18();
    }
  }

  /** From 19 bytes on, Atoi is ParseInt in base 10, which reads exactly the decimals within int64. */
  lemma AtoiSlowPath(s: seq<Byte>)
    requires !(0 < |s| < 19)
    ensures Atoi(s).err == None <==> IsSignedDecimal(s) && MinInt64 <= SignedDecimalValue(s) <= MaxInt64
    ensures Atoi(s).err == None ==> Atoi(s).value == SignedDecimalValue(s)
  {
    var digits := Unsigned(s);
    ParseIntValue(s, 10);
    DecimalIsNumeral(digits);
    if s != [] && AllDecimal(digits) {
      UnseparatedNone(digits);
      assert Magnitude(digits, 10) == DecimalValue(digits);
    }
  }

  /** ParseInt with base 0 reads a decimal numeral without a leading zero as Atoi does,
      clamping values past int64 to MaxInt64. */
  lemma ParseIntOfDecimal(s: seq<Byte>)
    requires s != [] && AllDecimal(s) && (s[0] != '0' || |s| == 1)
    ensures ParseInt(s, 0) == if DecimalValue(s) <= MaxInt64 then NumResult(DecimalValue(s), None)
                              else NumResult(MaxInt64, Some(ErrRange))
  {
    assert IsDecimalDigit(s[0]);
    assert Unsigned(s) == s;
    ParseIntValue(s, 0);
    if s[0] == '0' {
      assert s[1..] == [];
      assert Radix(s, 0) == Based(8, []);
      assert Magnitude(s, 0) == 0;
    } else {
      assert Radix(s, 0) == Based(10, s);
      DecimalIsNumeral(s);
      UnseparatedNone(s);
      assert Magnitude(s, 0) == DecimalValue(s);
    }
  }

  /** Every byte of s is a digit of the base, or an underscore where the base came from the string. */
  predicate DigitsOf(s: seq<Byte>, base: nat, base0: bool) {
    forall i :: 0 <= i < |s| ==> (base0 && s[i] == '_') || DigitValue(s[i]) < base
  }

  /** s with its underscores dropped. */
  function Unseparated(s: seq<Byte>): (t: seq<Byte>)
    ensures '_' !in t
  {
    if s == [] then [] else (if s[0] == '_' then [] else [s[0]]) + Unseparated(s[1..])
  }

  /** The value of a numeral in the base, most significant digit first. */
  function NumeralValue(s: seq<Byte>, base: nat): nat
    requires DigitsOf(s, base, false)
  {
    if s == [] then 0 else NumeralValue(s[..|s| - 1], base) * base + DigitValue(s[|s| - 1])
  }

  /** A numeral ParseUint accepts, whatever its size: bytes left after the prefix, each a digit of
      the base or an allowed underscore, and every underscore placed as underscoreOK demands. */
  predicate IsNumeral(s: seq<Byte>, base: nat)
    requires base == 0 || 2 <= base <= 36
  {
    s != [] && DigitsOf(Radix(s, base).digits, Radix(s, base).base, base == 0)
    && ('_' in Radix(s, base).digits ==> UnderscoreOK(s))
  }

  /** The number a numeral denotes: its digits, without underscores, read in its base. */
  function Magnitude(s: seq<Byte>, base: nat): nat
    requires base == 0 || 2 <= base <= 36
    requires IsNumeral(s, base)
  {
    var r := Radix(s, base);
    UnseparatedDigits(r.digits, r.base, base == 0);
    NumeralValue(Unseparated(r.digits), r.base)
  }

  /** The int64 that a magnitude with its sign gives, clamped to the nearer bound with a range error. */
  function SignedClamp(negative: bool, m: nat): (r: NumResult)
    ensures r.err != Some(ErrSyntax)
  {
    if negative then (if m <= -MinInt64 then NumResult(-(m as int), None) else NumResult(MinInt64, Some(ErrRange)))
    else (if m <= MaxInt64 then NumResult(m, None) else NumResult(MaxInt64, Some(ErrRange)))
  }

  lemma {:induction false} UnseparatedDigits(s: seq<Byte>, base: nat, base0: bool)
    requires DigitsOf(s, base, base0)
    ensures DigitsOf(Unseparated(s), base, false)
    decreases |s|
  {
    if s != [] {
      UnseparatedDigits(s[1..], base, base0);
    }
  }

  /** One more digit multiplies the value read so far by the base and adds the digit. */
  lemma NumeralAppend(p: seq<Byte>, c: Byte, base: nat)
    requires DigitsOf(p, base, false) && DigitValue(c) < base
    ensures DigitsOf(p + [c], base, false)
    ensures NumeralValue(p + [c], base) == NumeralValue(p, base) * base + DigitValue(c)
  {
    var q := p + [c];
    assert forall i :: 0 <= i < |q| ==> q[i] == if i < |p| then p[i] else c;
    assert q[..|q| - 1] == p;
  }

  lemma {:induction false} MultipleGrows(v: nat, k: nat)
    requires 1 <= k
    ensures v <= v * k
    decreases k
  {
    if k > 1 {
      MultipleGrows(v, k - 1);
      assert v * k == v * (k - 1) + v;
    }
  }

  /** Appending digits never makes a numeral smaller. */
  lemma {:induction false} NumeralValueGrows(p: seq<Byte>, t: seq<Byte>, base: nat)
    requires 2 <= base
    requires DigitsOf(p + t, base, false)
    ensures DigitsOf(p, base, false) && NumeralValue(p, base) <= NumeralValue(p + t, base)
    decreases |t|
  {
    assert forall i :: 0 <= i < |p| ==> p[i] == (p + t)[i];
    if t != [] {
      var q := p + t[..|t| - 1];
      var c := t[|t| - 1];
      assert p + t == q + [c];
      assert forall i :: 0 <= i < |q| ==> q[i] == (p + t)[i];
      assert DigitValue(c) < base by {
        assert c == (p + t)[|p + t| - 1];
      }
      NumeralValueGrows(p, t[..|t| - 1], base);
      NumeralAppend(q, c, base);
      MultipleGrows(NumeralValue(q, base), base);
    } else {
      assert p + t == p;
    }
  }

  /** ParseUint's digit loop, started on the value of the digits p already read, computes the value
      of p followed by the digits of t, or stops with a range error past MaxUint64; it records
      whether it skipped an underscore. */
  lemma {:induction false} ScanNumeral(p: seq<Byte>, t: seq<Byte>, base: nat, base0: bool, underscores: bool)
    requires 2 <= base <= 36
    requires DigitsOf(p, base, false) && DigitsOf(t, base, base0) && NumeralValue(p, base) <= MaxUint64
    ensures DigitsOf(p + Unseparated(t), base, false)
    ensures ScanDigits(t, base, base0, NumeralValue(p, base), underscores)
         == var v := NumeralValue(p + Unseparated(t), base);
            if v <= MaxUint64 then Scanned(v, underscores || '_' in t) else ScanRange
    decreases |t|
  {
    UnseparatedDigits(t, base, base0);
    DigitsConcat(p, Unseparated(t), base);
    if t == [] {
      assert p + Unseparated(t) == p;
    } else if base0 && t[0] == '_' {
      UnderscoreStep(p, t, base, underscores);
      ScanNumeral(p, t[1..], base, base0, true);
    } else {
      DigitStep(p, t, base, base0, underscores);
      KeptStep(p, t);
      var p' := p + [t[0]];
      if NumeralValue(p', base) > MaxUint64 {
        UnseparatedDigits(t[1..], base, base0);
        DigitsConcat(p', Unseparated(t[1..]), base);
        NumeralValueGrows(p', Unseparated(t[1..]), base);
      } else {
        ScanNumeral(p', t[1..], base, base0, underscores);
      }
    }
  }

  /** An underscore is skipped and remembered, and adds no digit. */
  lemma UnderscoreStep(p: seq<Byte>, t: seq<Byte>, base: nat, underscores: bool)
    requires 2 <= base <= 36 && DigitsOf(p, base, false) && NumeralValue(p, base) <= MaxUint64
    requires t != [] && t[0] == '_'
    ensures ScanDigits(t, base, true, NumeralValue(p, base), underscores)
         == ScanDigits(t[1..], base, true, NumeralValue(p, base), true)
    ensures Unseparated(t) == Unseparated(t[1..]) && '_' in t
  {
  }

  /** A digit is folded into the value read so far. */
  lemma DigitStep(p: seq<Byte>, t: seq<Byte>, base: nat, base0: bool, underscores: bool)
    requires 2 <= base <= 36 && DigitsOf(p, base, false) && NumeralValue(p, base) <= MaxUint64
    requires t != [] && DigitsOf(t, base, base0) && !(base0 && t[0] == '_')
    ensures DigitsOf(p + [t[0]], base, false) && DigitsOf(t[1..], base, base0)
    ensures var n' := NumeralValue(p + [t[0]], base);
            ScanDigits(t, base, base0, NumeralValue(p, base), underscores)
            == if n' > MaxUint64 then ScanRange else ScanDigits(t[1..], base, base0, n', underscores)
  {
    assert DigitValue(t[0]) < base;
    NumeralAppend(p, t[0], base);
  }

  /** A byte other than an underscore is kept by Unseparated. */
  lemma KeptStep(p: seq<Byte>, t: seq<Byte>)
    requires t != [] && t[0] != '_'
    ensures p + [t[0]] + Unseparated(t[1..]) == p + Unseparated(t)
    ensures '_' in t <==> '_' in t[1..]
  {
    assert t == [t[0]] + t[1..];
  }

  lemma DigitsConcat(p: seq<Byte>, u: seq<Byte>, base: nat)
    requires DigitsOf(p, base, false) && DigitsOf(u, base, false)
    ensures DigitsOf(p + u, base, false)
  {
    assert forall i :: 0 <= i < |p + u| ==> (p + u)[i] == if i < |p| then p[i] else u[i - |p|];
  }

  /** The digit loop succeeds only when every byte is a digit of the base or an allowed underscore. */
  lemma {:induction false} ScanRejects(t: seq<Byte>, base: nat, base0: bool, n: nat, underscores: bool)
    requires 2 <= base <= 36 && n <= MaxUint64
    ensures ScanDigits(t, base, base0, n, underscores).Scanned? ==> DigitsOf(t, base, base0)
    decreases |t|
  {
    if t != [] {
      if base0 && t[0] == '_' {
        ScanRejects(t[1..], base, base0, n, true);
      } else if DigitValue(t[0]) < base && n * base + DigitValue(t[0]) <= MaxUint64 {
        ScanRejects(t[1..], base, base0, n * base + DigitValue(t[0]), underscores);
      }
    }
  }

  /** ParseUint succeeds only on numerals, and on a numeral it returns the numeral's value, or
      MaxUint64 with a range error when that value does not fit in 64 bits. */
  lemma ParseUintValue(s: seq<Byte>, base: nat)
    requires base == 0 || 2 <= base <= 36
    ensures ParseUint(s, base).err == None ==> IsNumeral(s, base)
    ensures IsNumeral(s, base) ==>
              ParseUint(s, base) == if Magnitude(s, base) <= MaxUint64 then NumResult(Magnitude(s, base), None)
                                    else NumResult(MaxUint64, Some(ErrRange))
  {
    if s != [] {
      var r := Radix(s, base);
      ScanRejects(r.digits, r.base, base == 0, 0, false);
      if DigitsOf(r.digits, r.base, base == 0) {
        assert NumeralValue([], r.base) == 0;
        ScanNumeral([], r.digits, r.base, base == 0, false);
        assert [] + Unseparated(r.digits) == Unseparated(r.digits);
      }
    }
  }

  /** ParseInt succeeds only on a sign-optional numeral, and on one it returns the numeral's value
      with its sign, clamped to int64 with a range error. */
  lemma ParseIntValue(s: seq<Byte>, base: nat)
    requires base == 0 || 2 <= base <= 36
    ensures ParseInt(s, base).err == None ==> s != [] && IsNumeral(Unsigned(s), base)
    ensures s != [] && IsNumeral(Unsigned(s), base) ==>
              ParseInt(s, base) == SignedClamp(s[0] == '-', Magnitude(Unsigned(s), base))
  {
    ParseUintValue(Unsigned(s), base);
  }
}
