# BuoyBot parsing and publishing core, in Dafny

BuoyBot fetches the NOAA National Data Buoy Center "realtime2" standard meteorological
feed for one buoy. It takes the latest observation from that feed, stores it, and posts a
summary to Twitter at certain hours of the day. This project models the part of
`buoybot.go` that decides things, and proves what that part does:

- `Compass` — `direction` (buoybot.go:233-274). It maps a whole-degree azimuth to one of
  sixteen compass points, or to an error message below 0 or above 360. The model proves
  that the if-chain names the point of the sector holding the degree, where the edges of
  the sectors, `22.5·k + 11.25`, are rounded to the nearest whole degree. That is the
  nearest point for every degree but eight (see below). It also gives each label its exact
  range of degrees, and that includes the two separate ranges of north.
- `Tokenizer` — `strings.Fields` as used at buoybot.go:181, and `strings.Join` as used at
  buoybot.go:197. `Fields` has a functional definition, and `SplitFields` is an imperative
  scanner proved equal to it. The model proves both directions:
  - laying any words out between runs of white space and splitting the result gives the
    words back (`FieldsOfLayout`);
  - every string is its own fields laid out between its own runs of white space
    (`LayoutOfFields`).

  It also proves that splitting a `strings.Join` with a single space gives the words back.
  This is the date at buoybot.go:197.
- `Strconv` — the two integer parses in `parseData`: `strconv.ParseInt(tok, 0, 64)` on the
  wave-direction token (buoybot.go:188) and `strconv.Atoi` on the dominant-period token
  (buoybot.go:212). Both follow the `strconv` package of Go 1.13 and later on a 64-bit
  platform. That covers:
  - base prefixes `0b`, `0o` and `0x`, and a leading `0` meaning octal;
  - underscores between digits;
  - range errors that clamp to the int64 bounds;
  - `Atoi`'s fast path for short strings.

  Go releases before 1.13 read only `0x` and a leading `0`, and reject underscores. Every
  numeral's value is stated against an independent reading of its digits in its base
  (`NumeralValue`, `ParseIntValue`).
- `Feed` — `parseData` (buoybot.go:172-224), up to the floating-point and date fields.
  This covers:
  - the byte window `d[188:281]`;
  - the token positions 0-4, 8, 9, 10, 11 and 14;
  - the index panics when tokens are missing;
  - the fatal error when `Atoi` fails;
  - the direction error that is ignored.
- `PublishGate` — the hour test at buoybot.go:97 and its two outcomes: tweet the summary,
  or print the not-tweeting line and the summary.

Byte strings are `seq<Byte>`, where a `Byte` is a `char` below 256. A Go panic or
`log.Fatal` among the checks the model keeps becomes a `Failure` value naming that check.

Behaviours of the Go code worth knowing, each proved:

- The comment at buoybot.go:88 lists the hours 0, 6, 8, 10, 12, 14, 16 and 18. The test at
  line 97 uses 5, 7, 9, 11, 13, 16, 18 and 20. Only 16 and 18 are in both lists
  (`PublishGate.CommentDisagreesWithCode`). The model follows the test.
- The last case of `direction`, `deg <= 360`, names 350 to 360 degrees "N"
  (`Compass.NorthRanges`).
- `direction` does not name the nearest point at eight degrees: 34, 79, 124, 169, 214,
  259, 304 and 349. Each lies 0.25 degrees past the midpoint between two points, yet gets
  the point before. At 34 degrees the label is "NNE", 11.5 degrees away, while "NE" at 45
  is only 11 degrees away. At every other degree from 0 to 360 the label is the nearest
  point (`Compass.NearestExceptAtEightDegrees`).
- A direction token that `ParseInt` cannot read still produces an observation. The error is
  dropped, the value 0 is kept, and the direction reads "N" (`Feed.UnreadableDirectionIsNorth`,
  `Feed.MissingDirectionIsNorth`).
- The direction is parsed with base 0, so a zero-padded token is octal
  (`Feed.NumeralDirection`, `Feed.ZeroPaddedDirectionIsOctal`).
- The window is a fixed byte range, not a search for the third line. Go checks the bound of
  a slice expression against the slice's capacity, not its length. `ioutil.ReadAll`
  (buoybot.go:147) returns a buffer with room for at least 512 bytes. From Go 1.16 it calls
  `io.ReadAll`, which starts from `make([]byte, 0, 512)`. Earlier releases read into a
  `bytes.Buffer` that grows by `bytes.MinRead`, which is also 512. So a body shorter than 281
  bytes does not panic at the slice. Instead the window runs on into zero bytes, and these
  are not white space (`Feed.Window`). Where the body ends matters:
  - a body that ends part-way through a token: the zeros lengthen that token;
  - a body that ends in white space inside the window: the zeros form a token of their own,
    after the body's tokens (`Feed.ShortBodyZerosFormToken`);
  - a body of at most 188 bytes: the zeros are the only token, and `parseData` panics at
    token 8 (`Feed.ShortBodyFailsAtToken8`).

  The model therefore takes the buffer's capacity as a second argument of `ParseData`.

## Model

| member | source | states |
|---|---|---|
| Compass.Direction | buoybot.go:233-274 | the result is the below-zero message exactly when deg < 0, and the above-360 message exactly when deg > 360 |
| Compass.DirectionNamesAPoint | buoybot.go:237-270 | every degree from 0 to 360 is named by one of the sixteen compass points |
| Compass.DirectionIsRoundedSector | buoybot.go:237-270 | for 0..360 the label is the point of the sector holding deg, the sector edges 22.5k + 11.25 being rounded to the nearest whole degree (sector 16 wraps to N) |
| Compass.NearestPoint | buoybot.go:237-270 | the point k <= 16 whose ideal bearing 22.5k is at least as near to deg as that of every other point |
| Compass.NearestExceptAtEightDegrees | buoybot.go:237-270 | the sector differs from the nearest point exactly at 34, 79, 124, 169, 214, 259, 304 and 349, and there the nearest point is the next one |
| Compass.Sector | buoybot.go:237-270 | the reference sector k of deg has deg <= UpperEdge(k) and UpperEdge(k-1) < deg, and k <= 16 |
| Compass.SectorBounds | buoybot.go:237-270 | Sector(deg) == k if and only if deg lies between edges k-1 (exclusive) and k (inclusive) |
| Compass.SectorMonotone | buoybot.go:237-270 | larger degrees never fall in an earlier sector |
| Compass.PointShape | buoybot.go:238-268 | each compass label has one to three letters and encodes its own index |
| Compass.PointsDistinct | buoybot.go:238-268 | the sixteen labels are pairwise distinct |
| Compass.PointRange | buoybot.go:239-268 | each point other than N is returned exactly for the degrees of its one case |
| Compass.NorthSectors | buoybot.go:237-238 | the reference sector is north exactly for deg <= 11 or deg >= 350 |
| Compass.NorthRanges | buoybot.go:237-238 | "N" is returned exactly for 0..11 and 350..360, so the deg <= 360 case is live |
| Compass.PointSector | buoybot.go:239-268 | sector k other than north holds exactly the degrees between its two edges |
| Tokenizer.WordLength | buoybot.go:181 | the length of the leading word: no white space before it, and white space or the end right after it |
| Tokenizer.Fields | buoybot.go:181 | every field is non-empty and holds no white space |
| Tokenizer.FieldsSkipsSpaces | buoybot.go:181 | leading white space does not change the fields |
| Tokenizer.FieldsTakesWord | buoybot.go:181 | a word followed by white space or the end is the first field |
| Tokenizer.FieldsOfConcat | buoybot.go:181 | text that is empty or ends in white space splits independently of what follows it |
| Tokenizer.FieldsOfLayout | buoybot.go:181 | laying words out between any runs of white space and splitting gives the words back |
| Tokenizer.FieldsOfJoin | buoybot.go:197 | splitting words joined by one white-space separator gives the words back |
| Tokenizer.Join | buoybot.go:197 | strings.Join is as long as its elements together plus one separator between each neighbouring pair |
| Tokenizer.Gaps | buoybot.go:181 | the runs around the fields of any string are white space, one more than the fields, the inner ones non-empty |
| Tokenizer.LayoutOfFields | buoybot.go:181 | every string is its fields laid out between its gaps, so Fields drops white space and nothing else |
| Tokenizer.FieldsKeepEveryNonSpace | buoybot.go:181 | the fields, concatenated, are the input with its white space removed |
| Tokenizer.SkipSpaces | buoybot.go:181 | the scan stops at the first non-space byte at or after i, and the fields from there are the fields from i |
| Tokenizer.ScanWord | buoybot.go:181 | the scan stops at the first white space byte after a word, or at the end |
| Tokenizer.SplitFields | buoybot.go:181 | the imperative scan returns exactly Fields(s) |
| Strconv.DigitValue | buoybot.go:188 | '0'-'9' are worth 0-9, letters of either case 10-35, and every other byte 36, which is no digit in any base |
| Strconv.ScanDigits | buoybot.go:188 | the digit loop's value never passes MaxUint64; it sees no underscores unless allowed |
| Strconv.BasePrefix | buoybot.go:188 | with base 0: 0b, 0o and 0x with a byte after them select bases 2, 8 and 16 and are dropped; another leading 0 selects base 8 and is dropped; anything else is base 10 in full |
| Strconv.ParseUint | buoybot.go:188 | success lies in 0..MaxUint64, a syntax error gives 0, a range error gives MaxUint64 |
| Strconv.ParseInt | buoybot.go:188 | success lies in int64, a syntax error gives 0, a range error gives MinInt64 after a minus sign and MaxInt64 otherwise |
| Strconv.ParseUintValue | buoybot.go:188 | ParseUint succeeds only on a numeral, and on a numeral returns its value in its base, or MaxUint64 with a range error past 64 bits |
| Strconv.ParseIntValue | buoybot.go:188 | ParseInt succeeds only on a numeral after an optional sign, and on one returns the numeral's value with its sign, clamped to int64 with a range error |
| Strconv.ScanNumeral | buoybot.go:188 | the digit loop computes the value of the digits read, underscores skipped, or stops with a range error past MaxUint64 |
| Strconv.ScanRejects | buoybot.go:188 | the digit loop succeeds only when every byte is a digit of the base or an allowed underscore |
| Strconv.NumeralValueGrows | buoybot.go:188 | appending digits never lowers a numeral's value, so a range error is final |
| Strconv.DecimalIsNumeral | buoybot.go:212 | a decimal string is a base-10 numeral of the same value |
| Strconv.Atoi | buoybot.go:212-215 | success lies in int64, a syntax error gives 0, a range error (from 19 bytes on) gives the int64 bound on the side of the sign |
| Strconv.AtoiFastPath | buoybot.go:212 | up to 18 bytes, Atoi succeeds exactly on an optional sign and decimal digits, whose value then fits in int64 |
| Strconv.AtoiSlowPath | buoybot.go:212 | from 19 bytes on, Atoi succeeds exactly on a signed decimal within int64 and returns its value |
| Strconv.ParseIntOfDecimal | buoybot.go:188 | on a decimal numeral without a leading zero, base 0 gives its value, or MaxInt64 with a range error past int64 |
| Strconv.AtoiAcceptsSignedDecimals | buoybot.go:212-215 | Atoi succeeds exactly on an optional sign and decimal digits within int64, and returns their value |
| Strconv.DecimalValueBelow | buoybot.go:212 | n decimal digits stay below 10^n |
| Feed.Window | buoybot.go:179 | the window is 93 bytes: byte i is body byte 188 + i, or zero past the body's end |
| Feed.ParseData | buoybot.go:179-215 | a success has every token it reads (window in the buffer, more than 14 tokens); a slice panic exactly when capacity < 281; an index panic names an index past the token count; a period failure is a token Atoi rejects |
| Feed.WaveDirection | buoybot.go:188-189 | the direction is a compass point or one of the two error messages, whatever the token |
| Feed.NumeralDirection | buoybot.go:188-189 | a base-0 numeral token with an optional sign names the point of its value; a minus gives the below-zero message unless the value is 0; past int64 gives the above-360 message |
| Feed.ParseDataOutcome | buoybot.go:179-215 | parseData panics at the slice exactly when capacity < 281; at token 8, 11 or 14 exactly when too few tokens; and succeeds exactly when token 9 is a signed decimal in int64 |
| Feed.ParsedFieldsByPosition | buoybot.go:179-221 | a parsed observation's date is tokens 0-4 joined by single spaces, which split back into them; its height, periods, direction and temperature come from tokens 8, 9, 10, 11 and 14, the period as Atoi's decimal value |
| Feed.ShortBodyZerosFormToken | buoybot.go:147-181 | a body ending in white space inside the window splits into its own tokens followed by one token of the zero bytes past its end |
| Feed.ShortBodyFailsAtToken8 | buoybot.go:179-184 | a body of at most 188 bytes in a large enough buffer gives a window of zero bytes, one token, and the index panic at token 8 |
| Feed.WindowIsThirdLine | buoybot.go:173-179 | after two 93-byte lines and their newlines, the window is exactly the third line |
| Feed.ParseWellFormedFeed | buoybot.go:172-224 | a feed whose third line lays out 15 or more tokens parses to those tokens, whatever the white space |
| Feed.UnreadableDirectionIsNorth | buoybot.go:188-189 | a direction token with a syntax error reads as 0 degrees, "N" |
| Feed.MissingDirectionIsNorth | buoybot.go:188-189 | the feed's missing-value marker "MM" gives direction "N" |
| Feed.OutOfRangeDirection | buoybot.go:188-189 | a direction past int64 gives the above-360 message, or the below-zero one after a minus sign |
| Feed.DecimalDirection | buoybot.go:188-189 | a plain decimal direction token within int64 names the point of its decimal value |
| Feed.ZeroPaddedDirectionIsOctal | buoybot.go:188-189 | "070" reads as octal 56 ("NE", where 70 degrees is "ENE"), and "090" is a syntax error and so "N" (where 90 degrees is "E") |
| PublishGate.IsPublishHour | buoybot.go:97 | an hour that passes the test lies between 5 and 20, so no run tweets from 21:00 to 04:59 |
| PublishGate.PublishHours | buoybot.go:97 | the hours of the day at which a run tweets are exactly {5, 7, 9, 11, 13, 16, 18, 20} |
| PublishGate.PublishHoursAreTheLiterals | buoybot.go:97 | an hour of the day is a publish hour exactly when it passes the test, and there are eight |
| PublishGate.Announce | buoybot.go:97-102 | the run tweets exactly at a publish hour, and then tweets the formatted output; otherwise it prints the not-tweeting line and the output |
| PublishGate.CommentDisagreesWithCode | buoybot.go:88-97 | the commented hours and the tested hours share only 16 and 18 |

## Left out

- Fetching the feed over HTTP, reading the configuration (buoybot.go:155-169), the database
  insert (buoybot.go:116-122) and posting to Twitter (buoybot.go:124-138). These are I/O.
  The publish gate returns what would be tweeted or printed.
- `time.Now` and the `US/Pacific` zone (buoybot.go:89-95). The hour is a parameter of the gate.
- `time.Parse` of the joined date and its fatal error, and the `America/Los_Angeles`
  conversion (buoybot.go:198-206). The observation keeps the joined date string.
- `strconv.ParseFloat` on tokens 8, 10 and 14, with the fatal error at buoybot.go:216-219.
  Also the metre-to-foot and Celsius-to-Fahrenheit conversions, `Round` and `RoundPlus`
  (buoybot.go:276-285). These are floating point. The observation keeps those tokens as strings.
- `formatObservation` (buoybot.go:227-230). It formats floats and dates. The gate takes its
  output as an opaque string.
- Feed.ParseData: success does not include the date and float checks left out above. A Go
  run that `log.Fatal`s on those tokens is a `Success` here. Go checks the date
  (buoybot.go:198-201) before token 9 (buoybot.go:212-215). So when both are bad, Go stops at
  the date, but the model reports `BadDominantPeriod`.
- Feed.Window: the spare bytes of the buffer are taken to be zero, as `io.ReadAll` leaves
  them. A reader that used its buffer as scratch space could leave other bytes there.
- Tokenizer.Fields: only ASCII white space (tab, newline, vertical tab, form feed, carriage
  return, space). Go decodes UTF-8 and also splits on Unicode spaces such as U+0085 and
  U+00A0.
- Tokenizer.SplitFields: the same ASCII-only limit as `Fields`. Go's own two-pass
  implementation (count the fields, then fill the slice) is modelled as one pass with the
  same result.
- Strconv.Atoi: the `NumError` wrapper's function name and input text are not kept, only the
  kind of error.
