/**
 One line of the metric log (core/base/metric_item.go): the printer, the parser and their agreement.
 */
module MetricItems {
  import opened Prelude

  type uint64 = x: int | 0 <= x < 0x1_0000_0000_0000_0000

  type uint32 = x: int | 0 <= x < 0x1_0000_0000

  type int32 = x: int | -0x8000_0000 <= x < 0x8000_0000

  datatype MetricItem = MetricItem(
    resource: string, classification: int32, timestamp: uint64,
    passQps: uint64, blockQps: uint64, completeQps: uint64, errorQps: uint64, avgRt: uint64, occupiedPassQps: uint64,
    concurrency: uint32,
    byFlow: uint64, byIsolation: uint64, byCircuitBreaking: uint64, bySystem: uint64, byHotspotParam: uint64, byMock: uint64)

  const BLANK := MetricItem("", 0, 0, 0, 0, 0, 0, 0, 0, 0, 0, 0, 0, 0, 0, 0)

  const SEPARATOR: char := '|'

  const COLUMNS: nat := 17

  // ---------------------------------------------------------------- numbers

  function DigitChar(d: nat): char
    requires d < 10
  {
    "0123456789"[d]
  }

  function Digit(c: char): Option<nat> {
    if '0' <= c <= '9' then Some((c - '0') as nat) else None
  }

  function Decimal(n: nat): string {
    if n < 10 then [DigitChar(n)] else Decimal(n / 10) + [DigitChar(n % 10)]
  }

  function SignedDecimal(n: int): string {
    if n < 0 then "-" + Decimal(-n) else Decimal(n)
  }

  /** The value of a string of digits. */
  function DigitsValue(s: string): Option<nat> {
    if s == "" then Some(0)
    else
      match (DigitsValue(s[..|s| - 1]), Digit(s[|s| - 1]))
      case (Some(v), Some(d)) => Some(10 * v + d)
      case _ => None
  }

  /** `strconv.ParseUint` in base ten: digits only, at least one, and a value below the bound. */
  function ParseUint(s: string, bound: nat): Option<nat> {
    match DigitsValue(s)
    case Some(v) => if s != "" && v < bound then Some(v) else None
    case None => None
  }

  /** `strconv.ParseInt` in base ten: an optional sign, and a value in [-bound, bound). */
  function ParseInt(s: string, bound: nat): Option<int> {
    var negative := s != "" && s[0] == '-';
    var digits := if s != "" && (s[0] == '-' || s[0] == '+') then s[1..] else s;
    match DigitsValue(digits)
    case Some(v) =>
      if digits == "" then None
      else if negative then (if v <= bound then Some(-(v as int)) else None)
      else if v < bound then Some(v)
      else None
    case None => None
  }

  lemma {:induction false} DecimalIsRead(n: nat)
    ensures DigitsValue(Decimal(n)) == Some(n)
    ensures Decimal(n) != "" && forall i :: 0 <= i < |Decimal(n)| ==> '0' <= Decimal(n)[i] <= '9'
  {
    var s := Decimal(n);
    if n >= 10 {
      DecimalIsRead(n / 10);
      assert s[..|s| - 1] == Decimal(n / 10);
    } else {
      assert DigitsValue(s[..|s| - 1]) == Some(0);
    }
  }

  /** Printing and parsing a number agree, and a number that does not fit is refused. */
  lemma {:induction false} NumberRoundTrip(n: nat, bound: nat)
    ensures ParseUint(Decimal(n), bound) == if n < bound then Some(n) else None
    ensures SEPARATOR !in Decimal(n)
  {
    hide DigitsValue, Decimal;
    DecimalIsRead(n);
  }

  lemma {:induction false} SignedRoundTrip(n: int, bound: nat)
    ensures ParseInt(SignedDecimal(n), bound) == if -(bound as int) <= n < bound then Some(n) else None
    ensures SEPARATOR !in SignedDecimal(n)
  {
    hide DigitsValue, Decimal;
    if n < 0 {
      DecimalIsRead(-n);
      assert SignedDecimal(n)[1..] == Decimal(-n);
    } else {
      DecimalIsRead(n);
    }
  }

  function Zeros(k: nat): string {
    if k == 0 then "" else Zeros(k - 1) + "0"
  }

  lemma LastDigit(s: string)
    requires s != "" && DigitsValue(s).Some?
    ensures var first := s[..|s| - 1];
            DigitsValue(first).Some? && Digit(s[|s| - 1]).Some? &&
            var v, d := DigitsValue(first).value, Digit(s[|s| - 1]).value;
            d < 10 && s == first + [DigitChar(d)] && DigitsValue(s).value == 10 * v + d
  {
  }

  lemma DecimalGrown(v: nat, d: nat)
    requires d < 10
    ensures Decimal(10 * v + d) == if v == 0 then [DigitChar(d)] else Decimal(v) + [DigitChar(d)]
  {
  }

  lemma {:induction false} DecimalAfterZeros(s: string) returns (k: nat)
    requires s != "" && DigitsValue(s).Some?
    ensures s == Zeros(k) + Decimal(DigitsValue(s).value)
  {
    hide Decimal, DigitsValue, Digit, DigitChar;
    LastDigit(s);
    var first, d := s[..|s| - 1], Digit(s[|s| - 1]).value;
    var v := DigitsValue(first).value;
    DecimalGrown(v, d);
    if first == "" {
      EmptyIsZero();
      return 0;
    }
    k := DecimalAfterZeros(first);
    if v == 0 {
      ZeroMore(k, first, s, d);
      return k + 1;
    }
    assert s == Zeros(k) + (Decimal(v) + [DigitChar(d)]);
  }

  lemma EmptyIsZero()
    ensures DigitsValue("") == Some(0) && Decimal(0) == "0"
  {
  }

  lemma ZeroMore(k: nat, first: string, s: string, d: nat)
    requires d < 10 && first == Zeros(k) + Decimal(0) && s == first + [DigitChar(d)]
    ensures s == Zeros(k + 1) + [DigitChar(d)]
  {
  }

  lemma {:induction false} ZerosBefore(k: nat, s: string)
    ensures DigitsValue(Zeros(k) + s) == DigitsValue(s)
  {
    var whole := Zeros(k) + s;
    if s != "" {
      assert whole[..|whole| - 1] == Zeros(k) + s[..|s| - 1];
      ZerosBefore(k, s[..|s| - 1]);
    } else if k > 0 {
      assert whole == Zeros(k) && whole[..|whole| - 1] == Zeros(k - 1) + "";
      ZerosBefore(k - 1, "");
    } else {
      assert whole == "";
    }
  }

  /** NUMBERS. The strings that are read as a number are its decimal form behind any number of zeros, and nothing else. */
  lemma {:induction false} ReadAsNumberIff(s: string, v: nat, bound: nat)
    ensures ParseUint(s, bound) == Some(v) <==> v < bound && exists k :: s == Zeros(k) + Decimal(v)
  {
    if ParseUint(s, bound) == Some(v) {
      var k := DecimalAfterZeros(s);
    }
    forall k | s == Zeros(k) + Decimal(v)
      ensures s != "" && DigitsValue(s) == Some(v)
    {
      ZerosBefore(k, Decimal(v));
      DecimalIsRead(v);
    }
  }

  predicate SignFits(sign: string, v: int) {
    (sign == "" && v >= 0) || (sign == "+" && v >= 0) || (sign == "-" && v <= 0)
  }

  /** The string after its sign, if it has one. */
  function Unsigned(s: string): string {
    if s != "" && s[0] in ['-', '+'] then s[1..] else s
  }

  lemma SignAndDigits(s: string, bound: nat) returns (sign: string)
    requires ParseInt(s, bound).Some?
    ensures s == sign + Unsigned(s) && SignFits(sign, ParseInt(s, bound).value)
    ensures var v := ParseInt(s, bound).value; Unsigned(s) != "" && DigitsValue(Unsigned(s)) == Some(if v < 0 then -v else v)
  {
    hide DigitsValue;
    sign := s[..|s| - |Unsigned(s)|];
  }

  lemma SignedIsSpelled(s: string, bound: nat) returns (sign: string, k: nat)
    requires ParseInt(s, bound).Some?
    ensures var v := ParseInt(s, bound).value;
            SignFits(sign, v) && s == sign + Zeros(k) + Decimal(if v < 0 then -v else v)
  {
    hide DigitsValue, Decimal, Zeros, ParseInt, SignFits, Unsigned;
    sign := SignAndDigits(s, bound);
    k := DecimalAfterZeros(Unsigned(s));
    var v := ParseInt(s, bound).value;
    Associative(sign, Zeros(k), Decimal(if v < 0 then -v else v));
  }

  lemma Associative<T>(a: seq<T>, b: seq<T>, c: seq<T>)
    ensures a + (b + c) == (a + b) + c
  {
  }

  /** The same for a signed number, which may have a plus in front; a zero may have either sign. */
  lemma {:induction false} ReadAsSignedIff(s: string, v: int, bound: nat)
    requires bound > 0
    ensures ParseInt(s, bound) == Some(v) <==>
              && -(bound as int) <= v < bound
              && exists sign, k :: SignFits(sign, v) && s == sign + Zeros(k) + Decimal(if v < 0 then -v else v)
  {
    hide DigitsValue, Decimal, Zeros, SignFits;
    if ParseInt(s, bound) == Some(v) {
      var sign, k := SignedIsSpelled(s, bound);
    }
    if sign, k :| SignFits(sign, v) && s == sign + Zeros(k) + Decimal(if v < 0 then -v else v) {
      SpelledIsSigned(s, sign, k, v, bound);
    }
  }

  lemma SpelledIsSigned(s: string, sign: string, k: nat, v: int, bound: nat)
    requires bound > 0 && SignFits(sign, v) && s == sign + Zeros(k) + Decimal(if v < 0 then -v else v)
    ensures ParseInt(s, bound) == if -(bound as int) <= v < bound then Some(v) else None
  {
    hide DigitsValue, Decimal, Zeros;
    SignedDigits(s, sign, k, if v < 0 then -v else v);
    assert sign == "" ==> s[|sign|..] == s;
  }

  lemma SignedDigits(s: string, sign: string, k: nat, n: nat)
    requires s == sign + Zeros(k) + Decimal(n) && sign in ["", "+", "-"]
    ensures sign == if s != "" && s[0] in ['-', '+'] then s[..1] else ""
    ensures s[|sign|..] != "" && DigitsValue(s[|sign|..]) == Some(n)
  {
    hide DigitsValue, Decimal, Zeros;
    var digits := Zeros(k) + Decimal(n);
    ZerosBefore(k, Decimal(n));
    DecimalIsRead(n);
    FirstIsDigit(k, n);
    assert s == sign + digits && s[|sign|..] == digits;
  }

  lemma {:induction false} FirstIsDigit(k: nat, n: nat)
    ensures Zeros(k) + Decimal(n) != "" && '0' <= (Zeros(k) + Decimal(n))[0] <= '9'
  {
    DecimalIsRead(n);
    if k > 0 {
      ZerosAreZeros(k);
    }
  }

  lemma {:induction false} ZerosAreZeros(k: nat)
    ensures |Zeros(k)| == k && forall i :: 0 <= i < k ==> Zeros(k)[i] == '0'
  {
    if k > 0 {
      ZerosAreZeros(k - 1);
    }
  }

  // ---------------------------------------------------------------- columns

  function Join(columns: seq<string>): string
    requires columns != []
  {
    if |columns| == 1 then columns[0] else columns[0] + [SEPARATOR] + Join(columns[1..])
  }

  /** `strings.Split` at every separator. */
  function Split(s: string): (columns: seq<string>)
    ensures columns != []
  {
    if s == "" then [""]
    else if s[0] == SEPARATOR then [""] + Split(s[1..])
    else
      var rest := Split(s[1..]);
      [[s[0]] + rest[0]] + rest[1..]
  }

  lemma {:induction false} SplitAfterColumn(column: string, s: string)
    requires SEPARATOR !in column
    ensures Split(column + [SEPARATOR] + s) == [column] + Split(s)
  {
    var whole := column + [SEPARATOR] + s;
    if column == "" {
      assert whole[1..] == s;
    } else {
      SplitAfterColumn(column[1..], s);
      assert whole[1..] == column[1..] + [SEPARATOR] + s;
      assert [column[0]] + column[1..] == column;
    }
  }

  lemma {:induction false} SplitOneColumn(column: string)
    requires SEPARATOR !in column
    ensures Split(column) == [column]
  {
    if column != "" {
      SplitOneColumn(column[1..]);
      assert [column[0]] + column[1..] == column;
    }
  }

  /** Splitting undoes joining when no column holds the separator. */
  lemma {:induction false} SplitUndoesJoin(columns: seq<string>)
    requires columns != [] && forall i :: 0 <= i < |columns| ==> SEPARATOR !in columns[i]
    ensures Split(Join(columns)) == columns
  {
    if |columns| == 1 {
      SplitOneColumn(columns[0]);
    } else {
      SplitUndoesJoin(columns[1..]);
      SplitAfterColumn(columns[0], Join(columns[1..]));
    }
  }

  /** Joining undoes splitting, always. */
  lemma {:induction false} JoinUndoesSplit(s: string)
    ensures Join(Split(s)) == s
  {
    if s != "" {
      JoinUndoesSplit(s[1..]);
      JoinCons(s[0], Split(s[1..]));
    }
  }

  lemma JoinUnrolled(columns: seq<string>)
    requires columns != []
    ensures |columns| == 1 ==> Join(columns) == columns[0]
    ensures |columns| > 1 ==> Join(columns) == columns[0] + ([SEPARATOR] + Join(columns[1..]))
  {
  }

  lemma JoinCons(c: char, columns: seq<string>)
    requires columns != []
    ensures Join([""] + columns) == [SEPARATOR] + Join(columns)
    ensures Join([[c] + columns[0]] + columns[1..]) == [c] + Join(columns)
  {
    hide Join;
    var behind, longer := [""] + columns, [[c] + columns[0]] + columns[1..];
    JoinUnrolled(columns);
    JoinUnrolled(behind);
    JoinUnrolled(longer);
    assert behind[1..] == columns && longer[1..] == columns[1..] && longer[0] == [c] + columns[0];
    if |columns| > 1 {
      var rest := [SEPARATOR] + Join(columns[1..]);
      assert ([c] + columns[0]) + rest == [c] + (columns[0] + rest);
    }
  }

  // ---------------------------------------------------------------- the printer

  /** Every separator in a resource name becomes a dash. */
  function Cleaned(name: string): (r: string)
    ensures |r| == |name| && SEPARATOR !in r
    ensures forall i :: 0 <= i < |name| ==> r[i] == if name[i] == SEPARATOR then '-' else name[i]
  {
    if name == "" then "" else [if name[0] == SEPARATOR then '-' else name[0]] + Cleaned(name[1..])
  }

  /** The columns of a line; `timeStr` is the printed form of the timestamp. */
  function Columns(m: MetricItem, timeStr: string): seq<string> {
    [ Decimal(m.timestamp), timeStr, Cleaned(m.resource), Decimal(m.passQps),
      Decimal(m.blockQps), Decimal(m.completeQps), Decimal(m.errorQps), Decimal(m.avgRt),
      Decimal(m.occupiedPassQps), Decimal(m.concurrency), SignedDecimal(m.classification),
      Decimal(m.byFlow), Decimal(m.byIsolation), Decimal(m.byCircuitBreaking),
      Decimal(m.bySystem), Decimal(m.byHotspotParam), Decimal(m.byMock) ]
  }

  function ToFatString(m: MetricItem, timeStr: string): string {
    Join(Columns(m, timeStr))
  }

  // ---------------------------------------------------------------- the parser

  datatype LineError = EmptyLine | TooFewColumns | BadNumber(column: nat)

  /** What column `i` is a bounded number of, where it is one. */
  function Bound(i: nat): nat {
    if i == 9 then 0x1_0000_0000 else 0x1_0000_0000_0000_0000
  }

  /** A column that is there has to hold what it is read as; the time and the name can be anything. */
  predicate Fine(columns: seq<string>, i: nat) {
    i < |columns| ==>
      i == 1 || i == 2 || if i == 10 then ParseInt(columns[i], 0x8000_0000).Some? else ParseUint(columns[i], Bound(i)).Some?
  }

  function FirstBad(columns: seq<string>, i: nat): (bad: Option<nat>)
    requires i <= COLUMNS
    ensures bad.None? ==> forall j :: i <= j < COLUMNS ==> Fine(columns, j)
    ensures bad.Some? ==> i <= bad.value < COLUMNS && !Fine(columns, bad.value) && forall j :: i <= j < bad.value ==> Fine(columns, j)
    decreases COLUMNS - i
  {
    if i == COLUMNS then None
    else if !Fine(columns, i) then Some(i)
    else FirstBad(columns, i + 1)
  }

  /** The number in a column; a column that is not there counts as zero. */
  function Number(columns: seq<string>, i: nat): (n: uint64)
    requires Fine(columns, i) && i != 1 && i != 2 && i != 10
    ensures i == 9 ==> n < 0x1_0000_0000
  {
    if i < |columns| then ParseUint(columns[i], Bound(i)).value else 0
  }

  function SignedNumber(columns: seq<string>): int32
    requires Fine(columns, 10)
  {
    if 10 < |columns| then ParseInt(columns[10], 0x8000_0000).value else 0
  }

  function ItemOf(columns: seq<string>): MetricItem
    requires |columns| >= 3 && FirstBad(columns, 0) == None
  {
    MetricItem(columns[2], SignedNumber(columns), Number(columns, 0), Number(columns, 3), Number(columns, 4), Number(columns, 5),
      Number(columns, 6), Number(columns, 7), Number(columns, 8), Number(columns, 9), Number(columns, 11), Number(columns, 12),
      Number(columns, 13), Number(columns, 14), Number(columns, 15), Number(columns, 16))
  }

  /** What a line means: its columns, or the first thing that is wrong with it. */
  function Decoded(line: string): Result<MetricItem, LineError> {
    var columns := Split(line);
    if line == "" then Err(EmptyLine)
    else if |columns| < 8 then Err(TooFewColumns)
    else
      match FirstBad(columns, 0)
      case Some(i) => Err(BadNumber(i))
      case None => Ok(ItemOf(columns))
  }

  /** Reads a numeric column; one that is not there leaves the zero the item starts with. */
  function Column(columns: seq<string>, i: nat): (r: Result<uint64, LineError>)
    requires i != 1 && i != 2 && i != 10
    ensures r.Ok? <==> Fine(columns, i)
    ensures r.Ok? ==> r.value == Number(columns, i)
    ensures r.Err? ==> r.error == BadNumber(i)
  {
    if i >= |columns| then Ok(0)
    else
      match ParseUint(columns[i], Bound(i))
      case Some(v) => Ok(v)
      case None => Err(BadNumber(i))
  }

  function SignedColumn(columns: seq<string>): (r: Result<int32, LineError>)
    ensures r.Ok? <==> Fine(columns, 10)
    ensures r.Ok? ==> r.value == SignedNumber(columns)
    ensures r.Err? ==> r.error == BadNumber(10)
  {
    if 10 >= |columns| then Ok(0)
    else
      match ParseInt(columns[10], 0x8000_0000)
      case Some(v) => Ok(v)
      case None => Err(BadNumber(10))
  }

  lemma TextColumnsAreFine(columns: seq<string>)
    ensures Fine(columns, 1) && Fine(columns, 2)
  {
  }

  /** Fills the item column by column and stops at the first one that is wrong. */
  method MetricItemFromFatString(line: string) returns (r: Result<MetricItem, LineError>)
    ensures r == Decoded(line)
  {
    hide Fine, ParseUint, ParseInt, Split, Column, SignedColumn, Number, SignedNumber, FirstBad, Bound;
    if line == "" {
      return Err(EmptyLine);
    }
    var arr := Split(line);
    if |arr| < 8 {
      return Err(TooFewColumns);
    }
    TextColumnsAreFine(arr);
    var item := BLANK;
    var ts :- Column(arr, 0);
    item := item.(timestamp := ts, resource := arr[2]);
    var p :- Column(arr, 3);
    item := item.(passQps := p);
    var b :- Column(arr, 4);
    item := item.(blockQps := b);
    var c :- Column(arr, 5);
    item := item.(completeQps := c);
    var e :- Column(arr, 6);
    item := item.(errorQps := e);
    var rt :- Column(arr, 7);
    item := item.(avgRt := rt);
    var oc :- Column(arr, 8);
    item := item.(occupiedPassQps := oc);
    var concurrency :- Column(arr, 9);
    item := item.(concurrency := concurrency);
    var cl :- SignedColumn(arr);
    item := item.(classification := cl);
    var byFlow :- Column(arr, 11);
    item := item.(byFlow := byFlow);
    var byIsolation :- Column(arr, 12);
    item := item.(byIsolation := byIsolation);
    var byCircuitBreaking :- Column(arr, 13);
    item := item.(byCircuitBreaking := byCircuitBreaking);
    var bySystem :- Column(arr, 14);
    item := item.(bySystem := bySystem);
    var byHotspotParam :- Column(arr, 15);
    item := item.(byHotspotParam := byHotspotParam);
    var byMock :- Column(arr, 16);
    item := item.(byMock := byMock);
    return Ok(item);
  }

  // ---------------------------------------------------------------- round trips

  lemma {:induction false} ColumnsHoldNoSeparator(m: MetricItem, timeStr: string)
    requires SEPARATOR !in timeStr
    ensures forall i :: 0 <= i < COLUMNS ==> SEPARATOR !in Columns(m, timeStr)[i]
  {
    hide Decimal, SignedDecimal, Cleaned, ParseUint, ParseInt;
    NumberRoundTrip(m.timestamp, TWO_TO_THE_64);
    NumberRoundTrip(m.passQps, TWO_TO_THE_64);
    NumberRoundTrip(m.blockQps, TWO_TO_THE_64);
    NumberRoundTrip(m.completeQps, TWO_TO_THE_64);
    NumberRoundTrip(m.errorQps, TWO_TO_THE_64);
    NumberRoundTrip(m.avgRt, TWO_TO_THE_64);
    NumberRoundTrip(m.occupiedPassQps, TWO_TO_THE_64);
    NumberRoundTrip(m.concurrency, TWO_TO_THE_32);
    SignedRoundTrip(m.classification, 0x8000_0000);
    NumberRoundTrip(m.byFlow, TWO_TO_THE_64);
    NumberRoundTrip(m.byIsolation, TWO_TO_THE_64);
    NumberRoundTrip(m.byCircuitBreaking, TWO_TO_THE_64);
    NumberRoundTrip(m.bySystem, TWO_TO_THE_64);
    NumberRoundTrip(m.byHotspotParam, TWO_TO_THE_64);
    NumberRoundTrip(m.byMock, TWO_TO_THE_64);
  }

  /** The printed columns are the ones that splitting gives back: none of them moves. */
  lemma {:induction false} ColumnsAreAligned(m: MetricItem, timeStr: string)
    requires SEPARATOR !in timeStr
    ensures Split(ToFatString(m, timeStr)) == Columns(m, timeStr)
    ensures |Columns(m, timeStr)| == COLUMNS
  {
    ColumnsHoldNoSeparator(m, timeStr);
    SplitUndoesJoin(Columns(m, timeStr));
  }

  lemma NumberIsRead(columns: seq<string>, i: nat, n: nat)
    requires i < |columns| && i != 1 && i != 2 && i != 10 && n < Bound(i) && columns[i] == Decimal(n)
    ensures Fine(columns, i) && Number(columns, i) == n
  {
    NumberRoundTrip(n, Bound(i));
  }

  lemma SignedIsRead(columns: seq<string>, n: int32)
    requires 10 < |columns| && columns[10] == SignedDecimal(n)
    ensures Fine(columns, 10) && SignedNumber(columns) == n
  {
    SignedRoundTrip(n, 0x8000_0000);
  }

  lemma {:induction false} ColumnsAreRead(m: MetricItem, timeStr: string)
    ensures var cs := Columns(m, timeStr); FirstBad(cs, 0) == None && ItemOf(cs) == m.(resource := Cleaned(m.resource))
  {
    hide Fine, Number, SignedNumber, FirstBad, Decimal, SignedDecimal, Cleaned, ParseUint, ParseInt;
    var cs := Columns(m, timeStr);
    TextColumnsAreFine(cs);
    NumberIsRead(cs, 0, m.timestamp);
    NumberIsRead(cs, 3, m.passQps);
    NumberIsRead(cs, 4, m.blockQps);
    NumberIsRead(cs, 5, m.completeQps);
    NumberIsRead(cs, 6, m.errorQps);
    NumberIsRead(cs, 7, m.avgRt);
    NumberIsRead(cs, 8, m.occupiedPassQps);
    NumberIsRead(cs, 9, m.concurrency);
    SignedIsRead(cs, m.classification);
    NumberIsRead(cs, 11, m.byFlow);
    NumberIsRead(cs, 12, m.byIsolation);
    NumberIsRead(cs, 13, m.byCircuitBreaking);
    NumberIsRead(cs, 14, m.bySystem);
    NumberIsRead(cs, 15, m.byHotspotParam);
    NumberIsRead(cs, 16, m.byMock);
  }

  /**
   LINE ROUND TRIP. Parsing what was printed succeeds and gives the item back, with a dash for every separator in
   the resource name.
   */
  lemma {:induction false} LineRoundTrip(m: MetricItem, timeStr: string)
    requires SEPARATOR !in timeStr
    ensures Decoded(ToFatString(m, timeStr)) == Ok(m.(resource := Cleaned(m.resource)))
  {
    hide FirstBad, ItemOf;
    ColumnsAreAligned(m, timeStr);
    ColumnsAreRead(m, timeStr);
  }

  /** The item comes back unchanged exactly when its resource name is free of separators. */
  lemma {:induction false} LineRoundTripIsExact(m: MetricItem, timeStr: string)
    requires SEPARATOR !in timeStr
    ensures Decoded(ToFatString(m, timeStr)) == Ok(m) <==> SEPARATOR !in m.resource
  {
    LineRoundTrip(m, timeStr);
    if SEPARATOR !in m.resource {
      assert Cleaned(m.resource) == m.resource;
    }
  }

  /** The number in a column of a line, or zero behind the last one. */
  predicate ReadAs(columns: seq<string>, i: nat, n: nat) {
    if i < |columns| then ParseUint(columns[i], TWO_TO_THE_64) == Some(n) else n == 0
  }

  /** FORMAT. Where each field of an item stands in its line. */
  lemma {:induction false} FieldsByColumn(line: string)
    requires Decoded(line).Ok?
    ensures var m, cs := Decoded(line).value, Split(line);
            && |cs| >= 8 && m.resource == cs[2]
            && ReadAs(cs, 0, m.timestamp) && ReadAs(cs, 3, m.passQps) && ReadAs(cs, 4, m.blockQps) && ReadAs(cs, 5, m.completeQps)
            && ReadAs(cs, 6, m.errorQps) && ReadAs(cs, 7, m.avgRt) && ReadAs(cs, 8, m.occupiedPassQps) && ReadAs(cs, 9, m.concurrency)
            && m.classification == (if |cs| > 10 then ParseInt(cs[10], TWO_TO_THE_32 / 2).value else 0)
            && ReadAs(cs, 11, m.byFlow) && ReadAs(cs, 12, m.byIsolation) && ReadAs(cs, 13, m.byCircuitBreaking)
            && ReadAs(cs, 14, m.bySystem) && ReadAs(cs, 15, m.byHotspotParam) && ReadAs(cs, 16, m.byMock)
  {
    hide ReadAs, Number, ParseInt;
    var cs := Split(line);
    forall i: nat | i < COLUMNS && i != 1 && i != 2 && i != 10
      ensures Fine(cs, i) && ReadAs(cs, i, Number(cs, i))
    {
      NumberIsReadAs(cs, i);
    }
  }

  lemma NumberIsReadAs(columns: seq<string>, i: nat)
    requires Fine(columns, i) && i != 1 && i != 2 && i != 10
    ensures ReadAs(columns, i, Number(columns, i))
  {
  }

  /** The item with zeros for what stands behind the first `n` columns. */
  function Shortened(m: MetricItem, n: nat): MetricItem {
    m.(occupiedPassQps := if n > 8 then m.occupiedPassQps else 0,
       concurrency := if n > 9 then m.concurrency else 0,
       classification := if n > 10 then m.classification else 0,
       byFlow := if n > 11 then m.byFlow else 0,
       byIsolation := if n > 12 then m.byIsolation else 0,
       byCircuitBreaking := if n > 13 then m.byCircuitBreaking else 0,
       bySystem := if n > 14 then m.bySystem else 0,
       byHotspotParam := if n > 15 then m.byHotspotParam else 0,
       byMock := if n > 16 then m.byMock else 0)
  }

  lemma PrefixIsFine(columns: seq<string>, n: nat, i: nat)
    requires n <= |columns| && Fine(columns, i)
    ensures Fine(columns[..n], i)
    ensures i != 1 && i != 2 && i != 10 ==> Number(columns[..n], i) == if i < n then Number(columns, i) else 0
    ensures i == 10 ==> SignedNumber(columns[..n]) == if 10 < n then SignedNumber(columns) else 0
  {
  }

  /** SHORT LINES. Of a printed line the first columns alone are read with zeros for the others, from eight columns on. */
  lemma {:induction false} ShorterLines(m: MetricItem, timeStr: string, n: nat)
    requires SEPARATOR !in timeStr && 0 < n <= COLUMNS
    ensures Decoded(Join(Columns(m, timeStr)[..n])) ==
              if n < 8 then Err(TooFewColumns) else Ok(Shortened(m, n).(resource := Cleaned(m.resource)))
  {
    hide ItemOf, FirstBad, Split, Join, Decimal;
    var cs := Columns(m, timeStr);
    ColumnsAreAligned(m, timeStr);
    ColumnsHoldNoSeparator(m, timeStr);
    SplitUndoesJoin(cs[..n]);
    LineIsNotEmpty(cs[..n], m.timestamp);
    if n >= 8 {
      ColumnsAreRead(m, timeStr);
      ItemOfPrefix(cs, n);
    }
  }

  lemma ItemOfPrefix(columns: seq<string>, n: nat)
    requires 8 <= n <= |columns| && |columns| == COLUMNS && FirstBad(columns, 0) == None
    ensures FirstBad(columns[..n], 0) == None && ItemOf(columns[..n]) == Shortened(ItemOf(columns), n)
  {
    hide Fine, Number, SignedNumber, FirstBad;
    forall i: nat | i < COLUMNS
      ensures Fine(columns[..n], i)
      ensures i != 1 && i != 2 && i != 10 ==> Number(columns[..n], i) == if i < n then Number(columns, i) else 0
      ensures i == 10 ==> SignedNumber(columns[..n]) == if 10 < n then SignedNumber(columns) else 0
    {
      PrefixIsFine(columns, n, i);
    }
    PrefixIsFine(columns, n, 10);
    assert columns[..n][2] == columns[2];
  }

  lemma LineIsNotEmpty(columns: seq<string>, n: nat)
    requires columns != [] && columns[0] == Decimal(n)
    ensures Join(columns) != ""
  {
    DecimalIsRead(n);
  }
}
