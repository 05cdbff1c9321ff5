/** parseData (buoybot.go:172-224): the latest observation taken from a realtime2 standard
    meteorological feed, up to the floating-point and date fields. */
module Feed {
  import opened Wrappers
  import opened Bytes
  import opened Tokenizer
  import opened Strconv
  import opened Compass

  /** The byte window holding the latest observation: the third 93-byte line, after two
      93-byte header lines and their newlines. */
  const WindowStart: nat := 188
  const WindowEnd: nat := 281
  const LineWidth: nat := 93

  /** Token positions of the fields parseData uses. */
  const HeightField: nat := 8
  const DominantPeriodField: nat := 9
  const AveragePeriodField: nat := 10
  const DirectionField: nat := 11
  const TemperatureField: nat := 14

  /** Why parseData stops. The first two are Go run-time panics (a slice or an index out of
      range), the third is the log.Fatal after Atoi. */
  datatype ParseError =
    | WindowOutOfRange(capacity: nat)
    | FieldIndexOutOfRange(index: nat, count: nat)
    | BadDominantPeriod(token: seq<Byte>)

  /** The observation as far as the model goes: integers and strings, with the tokens that the
      Go code hands to ParseFloat and time.Parse kept as they are. */
  datatype Observation = Observation(
    date: seq<Byte>,
    waveHeight: seq<Byte>,
    dominantWavePeriod: int,
    averagePeriod: seq<Byte>,
    meanWaveDirection: string,
    waterTemperature: seq<Byte>)

  function Zeros(n: nat): (z: seq<Byte>)
    ensures |z| == n && forall i :: 0 <= i < n ==> z[i] == '\0'
  {
    seq(n, _ => '\0')
  }

  /** The bytes d[188:281] of a body d held in a buffer of the given capacity. Go bounds a slice
      expression by the capacity of the slice, not its length, so when the body is shorter than
      281 bytes the window runs on into the buffer's spare bytes, which io.ReadAll leaves zero. */
  function Window(d: seq<Byte>, capacity: nat): (w: seq<Byte>)
    requires |d| <= capacity && WindowEnd <= capacity
    ensures |w| == LineWidth
    ensures forall i :: 0 <= i < LineWidth ==>
              w[i] == if WindowStart + i < |d| then d[WindowStart + i] else '\0'
  {
    if |d| >= WindowEnd then d[WindowStart..WindowEnd]
    else (d + Zeros(WindowEnd - |d|))[WindowStart..WindowEnd]
  }

  /** The compass label of a direction token; a token ParseInt rejects reads as 0 degrees. */
  function WaveDirection(token: seq<Byte>): (point: string)
    ensures point in Points || point == LessThanZero || point == GreaterThan360
  {
    var deg := ParseInt(token, 0).value;
    if 0 <= deg <= 360 then DirectionNamesAPoint(deg); Direction(deg) else Direction(deg)
  }

  /** parseData on a body d whose buffer has the given capacity (a Go slice has len <= cap). */
  function ParseData(d: seq<Byte>, capacity: nat): (r: Result<Observation, ParseError>)
    requires |d| <= capacity
    ensures r.Success? ==> capacity >= WindowEnd && |Fields(Window(d, capacity))| > TemperatureField
    ensures r == Failure(WindowOutOfRange(capacity)) <==> capacity < WindowEnd
    ensures r.Failure? && r.error.FieldIndexOutOfRange? ==>
              capacity >= WindowEnd && r.error.count == |Fields(Window(d, capacity))| <= r.error.index
    ensures r.Failure? && r.error.BadDominantPeriod? ==> Atoi(r.error.token).err.Some?
  {
    if capacity < WindowEnd then Failure(WindowOutOfRange(capacity))
    else
      var fields := Fields(Window(d, capacity));
      if |fields| <= HeightField then Failure(FieldIndexOutOfRange(HeightField, |fields|))
      else if |fields| <= DirectionField then Failure(FieldIndexOutOfRange(DirectionField, |fields|))
      else if |fields| <= TemperatureField then Failure(FieldIndexOutOfRange(TemperatureField, |fields|))
      else
        var period := Atoi(fields[DominantPeriodField]);
        if period.err.Some? then Failure(BadDominantPeriod(fields[DominantPeriodField]))
        else Success(Observation(
          Join(fields[..5], [' ']),
          fields[HeightField],
          period.value,
          fields[AveragePeriodField],
          WaveDirection(fields[DirectionField]),
          fields[TemperatureField]))
  }

  /** The outcome of parseData on any body: a buffer too small for the window panics, short
      lines fail at the first missing token, and otherwise the period token decides. */
  lemma ParseDataOutcome(d: seq<Byte>, capacity: nat)
    requires |d| <= capacity
    ensures ParseData(d, capacity).Failure? && ParseData(d, capacity).error.WindowOutOfRange? <==> capacity < WindowEnd
    ensures capacity >= WindowEnd ==>
      var fields := Fields(Window(d, capacity));
      var n := |fields|;
      && (ParseData(d, capacity) == Failure(FieldIndexOutOfRange(8, n)) <==> n <= 8)
      && (ParseData(d, capacity) == Failure(FieldIndexOutOfRange(11, n)) <==> 9 <= n <= 11)
      && (ParseData(d, capacity) == Failure(FieldIndexOutOfRange(14, n)) <==> 12 <= n <= 14)
      && (ParseData(d, capacity).Success? <==>
            n >= 15 && IsSignedDecimal(fields[9]) && MinInt64 <= SignedDecimalValue(fields[9]) <= MaxInt64)
  {
    if capacity >= WindowEnd && |Fields(Window(d, capacity))| >= 15 {
      AtoiAcceptsSignedDecimals(Fields(Window(d, capacity))[9]);
    }
  }

  /** Every field of a parsed observation comes from its token position in the window:
      the date from tokens 0 to 4 (and splitting it gives them back), height from 8,
      the dominant period from 9 as a decimal in int64, the average period from 10,
      the direction from 11 and the temperature from 14. */
  lemma ParsedFieldsByPosition(d: seq<Byte>, capacity: nat)
    requires |d| <= capacity && ParseData(d, capacity).Success?
    ensures capacity >= WindowEnd && |Fields(Window(d, capacity))| >= 15
    ensures var fields := Fields(Window(d, capacity));
            var o := ParseData(d, capacity).value;
            && o.date == Join(fields[..5], [' ']) && Fields(o.date) == fields[..5]
            && o.waveHeight == fields[8] && o.averagePeriod == fields[10] && o.waterTemperature == fields[14]
            && IsSignedDecimal(fields[9]) && o.dominantWavePeriod == SignedDecimalValue(fields[9])
            && MinInt64 <= o.dominantWavePeriod <= MaxInt64
            && o.meanWaveDirection == WaveDirection(fields[11])
  {
    var fields := Fields(Window(d, capacity));
    AtoiAcceptsSignedDecimals(fields[9]);
    FieldsOfJoin(fields[..5], [' ']);
  }

  /** A body of at most 188 bytes in a buffer of 281 bytes or more does not panic at the slice:
      its window is 93 zero bytes, which are not white space, so Fields yields a single token and
      the run stops at token 8. */
  lemma ShortBodyFailsAtToken8(d: seq<Byte>, capacity: nat)
    requires |d| <= WindowStart && WindowEnd <= capacity
    ensures Window(d, capacity) == Zeros(LineWidth)
    ensures ParseData(d, capacity) == Failure(FieldIndexOutOfRange(8, 1))
  {
    var w := Window(d, capacity);
    assert w == Zeros(LineWidth);
    assert NoSpace(w);
    FieldsTakesWord(w, []);
    assert w + [] == w;
  }

  /** A body that ends in white space part-way into the window: the zero bytes past its end do
      not join its last token but form one token of their own, after the tokens of the body. */
  lemma ShortBodyZerosFormToken(d: seq<Byte>, capacity: nat)
    requires WindowStart < |d| < WindowEnd <= capacity && IsSpace(d[|d| - 1])
    ensures Fields(Window(d, capacity)) == Fields(d[WindowStart..]) + [Zeros(WindowEnd - |d|)]
  {
    var z := Zeros(WindowEnd - |d|);
    assert Window(d, capacity) == d[WindowStart..] + z;
    FieldsOfConcat(d[WindowStart..], z);
    FieldsTakesWord(z, []);
    assert z + [] == z;
  }

  /** In a feed whose two header lines and observation line are 93 bytes each, the window is
      exactly the observation line. */
  lemma WindowIsThirdLine(h1: seq<Byte>, h2: seq<Byte>, line: seq<Byte>, rest: seq<Byte>, capacity: nat)
    requires |h1| == LineWidth && |h2| == LineWidth && |line| == LineWidth
    requires capacity >= |h1 + ['\n'] + h2 + ['\n'] + line + rest|
    ensures var d := h1 + ['\n'] + h2 + ['\n'] + line + rest;
            |d| >= WindowEnd && Window(d, capacity) == line
  {
    var d := h1 + ['\n'] + h2 + ['\n'] + line + rest;
    assert forall i :: 0 <= i < LineWidth ==> d[WindowStart + i] == line[i];
  }

  /** Parsing a well-formed feed gives back the tokens laid out on its observation line,
      whatever the white space between them. */
  lemma ParseWellFormedFeed(h1: seq<Byte>, h2: seq<Byte>, tokens: seq<seq<Byte>>, gaps: seq<seq<Byte>>, rest: seq<Byte>,
                            capacity: nat)
    requires |h1| == LineWidth && |h2| == LineWidth
    requires AreWords(tokens) && AreGaps(gaps) && |gaps| == |tokens| + 1 && |tokens| >= 15
    requires |Layout(tokens, gaps)| == LineWidth
    requires IsSignedDecimal(tokens[9]) && MinInt64 <= SignedDecimalValue(tokens[9]) <= MaxInt64
    requires capacity >= |h1 + ['\n'] + h2 + ['\n'] + Layout(tokens, gaps) + rest|
    ensures ParseData(h1 + ['\n'] + h2 + ['\n'] + Layout(tokens, gaps) + rest, capacity)
         == Success(Observation(Join(tokens[..5], [' ']), tokens[8], SignedDecimalValue(tokens[9]),
                                tokens[10], WaveDirection(tokens[11]), tokens[14]))
  {
    var d := h1 + ['\n'] + h2 + ['\n'] + Layout(tokens, gaps) + rest;
    WindowIsThirdLine(h1, h2, Layout(tokens, gaps), rest, capacity);
    FieldsOfLayout(tokens, gaps);
    AtoiAcceptsSignedDecimals(tokens[9]);
  }

  /** A direction token ParseInt cannot read, such as the feed's "MM" for a missing value,
      silently becomes 0 degrees and so north. */
  lemma UnreadableDirectionIsNorth(token: seq<Byte>)
    requires ParseInt(token, 0).err == Some(ErrSyntax)
    ensures WaveDirection(token) == "N"
  {
  }

  lemma MissingDirectionIsNorth()
    ensures WaveDirection("MM") == "N"
  {
    assert ParseInt("MM", 0).err == Some(ErrSyntax) by {
      assert ScanDigits("MM", 10, true, 0, false) == ScanSyntax;
    }
  }

  /** A direction token too large for int64 is clamped and reported as above 360 degrees;
      one too negative, as below zero. */
  lemma OutOfRangeDirection(token: seq<Byte>)
    requires ParseInt(token, 0).err == Some(ErrRange)
    ensures WaveDirection(token) == if token[0] == '-' then LessThanZero else GreaterThan360
  {
  }

  /** A direction written as a plain decimal within int64 is read as that many degrees
      (larger ones are range errors, see OutOfRangeDirection). */
  lemma DecimalDirection(token: seq<Byte>)
    requires token != [] && AllDecimal(token) && (token[0] != '0' || |token| == 1)
    requires DecimalValue(token) <= MaxInt64
    ensures WaveDirection(token) == Direction(DecimalValue(token))
  {
    ParseIntOfDecimal(token);
    SameReadingSameDirection(token, DecimalValue(token));
  }

  /** A direction token that is a numeral in Go's base-0 syntax (an optional sign, a 0b, 0o, 0x or
      leading-0 prefix, digits, well-placed underscores) names the point of its value; a minus sign
      gives the below-zero message unless the value is 0, and a value past int64 the above-360 one. */
  lemma NumeralDirection(token: seq<Byte>)
    requires token != [] && IsNumeral(Unsigned(token), 0)
    ensures var m := Magnitude(Unsigned(token), 0);
            WaveDirection(token) == if token[0] == '-' then (if m == 0 then "N" else LessThanZero)
                                    else if m <= MaxInt64 then Direction(m) else GreaterThan360
  {
    ParseIntValue(token, 0);
    var r := ParseInt(token, 0);
    SameReadingSameDirection(token, r.value);
  }

  lemma SameReadingSameDirection(token: seq<Byte>, v: int)
    requires ParseInt(token, 0).value == v
    ensures WaveDirection(token) == Direction(v)
  {
  }

  /** Base 0 reads a zero-padded direction as octal: "070" is 56 degrees, north-east, where
      70 degrees is east-north-east; and "090" is no octal numeral at all, so north. */
  lemma ZeroPaddedDirectionIsOctal()
    ensures ParseInt("070", 0) == NumResult(56, None) && WaveDirection("070") == "NE" && Direction(70) == "ENE"
    ensures ParseInt("090", 0).err == Some(ErrSyntax) && WaveDirection("090") == "N" && Direction(90) == "E"
  {
    assert BasePrefix("070") == Based(8, "70");
    assert ScanDigits("70", 8, true, 0, false) == Scanned(56, false) by {
      assert ScanDigits("0", 8, true, 7, false) == ScanDigits([], 8, true, 56, false);
    }
    assert BasePrefix("090") == Based(8, "90");
    assert ScanDigits("90", 8, true, 0, false) == ScanSyntax;
  }
}
