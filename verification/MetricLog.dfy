/**
 The rolling metric log (core/log/metric): the writer with its seek index (writer.go), the reader (reader.go) and
 the index search (searcher.go). A file is its lines and its index; positions are counted in lines.
 */
module MetricLogs {
  import opened MetricItems
  import opened Prelude

  datatype IndexEntry = IndexEntry(sec: int, offset: nat)

  datatype File = File(lines: seq<string>, index: seq<IndexEntry>)

  const EMPTY_FILE := File([], [])

  const SECONDS_PER_DAY: int := 86400

  const MAX_ITEM_AMOUNT: nat := 100000

  /** How the writer is set up; `printTime` is the printed form of a timestamp. */
  datatype Config = Config(maxSingleSize: nat, maxFileAmount: nat, timezoneOffsetSec: int, printTime: uint64 -> string)

  ghost predicate ValidConfig(c: Config) {
    c.maxSingleSize > 0 && c.maxFileAmount > 0 && forall t :: SEPARATOR !in c.printTime(t)
  }

  // ---------------------------------------------------------------- what a write does

  /** The files that there are, the oldest first and the current one last, and how many have been removed. */
  datatype Log = Log(files: seq<File>, latestOpSec: int, removed: nat)

  /** Go's division truncates toward zero. */
  function Quotient(a: int, b: int): int
    requires b > 0
  {
    if a >= 0 then a / b else -(-a / b)
  }

  predicate IsNewDay(c: Config, lastSec: int, sec: int) {
    Quotient(sec + c.timezoneOffsetSec, SECONDS_PER_DAY) > Quotient(lastSec + c.timezoneOffsetSec, SECONDS_PER_DAY)
  }

  function LineOf(c: Config, ts: uint64, item: MetricItem): string {
    ToFatString(item.(timestamp := ts), c.printTime(ts))
  }

  function LinesFor(c: Config, ts: uint64, items: seq<MetricItem>): (lines: seq<string>)
    ensures |lines| == |items|
  {
    if items == [] then [] else LinesFor(c, ts, items[..|items| - 1]) + [LineOf(c, ts, items[|items| - 1])]
  }

  /** The size of a file, with a line feed after every line. */
  function SizeOf(lines: seq<string>): nat {
    if lines == [] then 0 else SizeOf(lines[..|lines| - 1]) + |lines[|lines| - 1]| + 1
  }

  function Excess(c: Config, files: seq<File>): nat {
    Min(|files|, Max(0, |files| - c.maxFileAmount + 1))
  }

  /** Room is made for the new file before it is created. */
  function Rolled(c: Config, log: Log): Log {
    log.(files := log.files[Excess(c, log.files)..] + [EMPTY_FILE], removed := log.removed + Excess(c, log.files))
  }

  function WithIndex(log: Log, sec: int): Log
    requires log.files != []
  {
    var k := |log.files| - 1;
    log.(files := log.files[k := log.files[k].(index := log.files[k].index + [IndexEntry(sec, |log.files[k].lines|)])])
  }

  function WithLines(log: Log, lines: seq<string>): Log
    requires log.files != []
  {
    var k := |log.files| - 1;
    log.(files := log.files[k := log.files[k].(lines := log.files[k].lines + lines)])
  }

  function RolledIfFull(c: Config, log: Log): Log
    requires log.files != []
  {
    if SizeOf(log.files[|log.files| - 1].lines) >= c.maxSingleSize then Rolled(c, log) else log
  }

  /** A new second is indexed in the file that is open when it comes, before a new day opens the next one. */
  function Indexed(c: Config, log: Log, sec: int): (r: Log)
    requires log.files != []
    ensures r.files != []
  {
    if sec <= log.latestOpSec then log
    else
      var marked := WithIndex(log, sec);
      if IsNewDay(c, log.latestOpSec, sec) then Rolled(c, marked) else marked
  }

  predicate Ignored(log: Log, ts: uint64, items: seq<MetricItem>) {
    items == [] || ts == 0 || ts / 1000 < log.latestOpSec
  }

  function Written(c: Config, log: Log, ts: uint64, items: seq<MetricItem>): (r: Log)
    requires log.files != []
    ensures r.files != []
  {
    if Ignored(log, ts, items) then log
    else RolledIfFull(c, WithLines(Indexed(c, log, ts / 1000), LinesFor(c, ts, items))).(latestOpSec := ts / 1000)
  }

  function Opened(c: Config, ts: uint64): Log {
    Rolled(c, Log([], ts / 1000, 0))
  }

  datatype WriteError = InvalidTimestamp

  class DefaultMetricLogWriter {
    const config: Config
    var files: seq<File>
    var latestOpSec: int
    ghost var removed: nat

    ghost predicate Valid()
      reads this
    {
      ValidConfig(config) && files != []
    }

    ghost function State(): Log
      reads this
    {
      Log(files, latestOpSec, removed)
    }

    constructor (config: Config, now: uint64)
      requires ValidConfig(config)
      ensures Valid() && this.config == config && State() == Opened(config, now)
    {
      this.config := config;
      files := [];
      latestOpSec := now / 1000;
      removed := 0;
      new;
      RollToNextFile();
    }

    method Write(ts: uint64, items: seq<MetricItem>) returns (r: Result<(), WriteError>)
      requires Valid()
      modifies this
      ensures Valid() && State() == Written(config, old(State()), ts, items)
      ensures r.Err? <==> items != [] && ts == 0
    {
      if items == [] {
        return Ok(());
      }
      if ts <= 0 {
        return Err(InvalidTimestamp);
      }
      var timeSec := ts / 1000;
      if timeSec < latestOpSec {
        return Ok(());
      }
      if timeSec > latestOpSec {
        WriteIndex(timeSec);
        if IsNewDay(config, latestOpSec, timeSec) {
          RollToNextFile();
        }
      }
      WriteItemsAndFlush(ts, items);
      RollFileIfSizeExceeded();
      if timeSec > latestOpSec {
        latestOpSec := timeSec;
      }
      return Ok(());
    }

    method WriteIndex(sec: int)
      requires Valid()
      modifies this
      ensures Valid() && State() == WithIndex(old(State()), sec)
    {
      var k := |files| - 1;
      files := files[k := files[k].(index := files[k].index + [IndexEntry(sec, |files[k].lines|)])];
    }

    method WriteItemsAndFlush(ts: uint64, items: seq<MetricItem>)
      requires Valid()
      modifies this
      ensures Valid() && State() == WithLines(old(State()), LinesFor(config, ts, items))
    {
      var k := |files| - 1;
      var out := [];
      for i := 0 to |items|
        invariant out == LinesFor(config, ts, items[..i])
      {
        assert items[..i + 1][..i] == items[..i];
        out := out + [LineOf(config, ts, items[i])];
      }
      assert items[..|items|] == items;
      files := files[k := files[k].(lines := files[k].lines + out)];
    }

    method RollFileIfSizeExceeded()
      requires Valid()
      modifies this
      ensures Valid() && State() == RolledIfFull(config, old(State()))
    {
      if SizeOf(files[|files| - 1].lines) >= config.maxSingleSize {
        RollToNextFile();
      }
    }

    method RollToNextFile()
      requires ValidConfig(config)
      modifies this
      ensures Valid() && State() == Rolled(config, old(State()))
    {
      RemoveDeprecatedFiles();
      files := files + [EMPTY_FILE];
    }

    method RemoveDeprecatedFiles()
      requires ValidConfig(config)
      modifies this
      ensures files == old(files)[Excess(config, old(files))..]
      ensures latestOpSec == old(latestOpSec) && removed == old(removed) + Excess(config, old(files))
    {
      ghost var before := files;
      var amountToRemove := |files| - config.maxFileAmount + 1;
      var i := 0;
      while i < amountToRemove
        invariant 0 <= i <= Max(0, amountToRemove)
        invariant files == before[i..] && latestOpSec == old(latestOpSec)
        invariant removed == old(removed) + i
      {
        files := files[1..];
        removed := removed + 1;
        i := i + 1;
      }
    }
  }

  // ---------------------------------------------------------------- reading forward

  /** The items that the lines hold; a line that cannot be read is passed over. */
  function ItemsOf(lines: seq<string>): seq<MetricItem> {
    if lines == [] then []
    else
      match Decoded(lines[0])
      case Ok(item) => [item] + ItemsOf(lines[1..])
      case Err(_) => ItemsOf(lines[1..])
  }

  function AllLines(files: seq<File>): seq<string> {
    if files == [] then [] else files[0].lines + AllLines(files[1..])
  }

  /** Seconds from `begin` to `end`, of one resource or, with the empty name, of all. */
  datatype Query = Query(begin: int, end: int, resource: string)

  predicate InRange(q: Query, item: MetricItem) {
    q.begin <= item.timestamp / 1000 <= q.end
  }

  predicate Wanted(q: Query, item: MetricItem) {
    q.resource == "" || q.resource == item.resource
  }

  /** The plain linear filter. */
  function Filter(q: Query, items: seq<MetricItem>): seq<MetricItem> {
    if items == [] then []
    else (if InRange(q, items[0]) && Wanted(q, items[0]) then [items[0]] else []) + Filter(q, items[1..])
  }

  function Take<T>(n: int, s: seq<T>): seq<T> {
    s[..Max(0, Min(n, |s|))]
  }

  /** Items up to the first one out of range or until there is no room, and whether to go on after them. */
  function Scan(q: Query, items: seq<MetricItem>, room: int): (seq<MetricItem>, bool) {
    if items == [] then ([], true)
    else if !InRange(q, items[0]) then ([], false)
    else
      var found := if Wanted(q, items[0]) then [items[0]] else [];
      if room - |found| <= 0 then (found, false)
      else
        var (more, goOn) := Scan(q, items[1..], room - |found|);
        (found + more, goOn)
  }

  lemma {:induction false} ScanOfParts(q: Query, a: seq<MetricItem>, b: seq<MetricItem>, room: int)
    ensures var (x, goOn) := Scan(q, a, room);
            Scan(q, a + b, room) == if goOn then (x + Scan(q, b, room - |x|).0, Scan(q, b, room - |x|).1) else (x, false)
  {
    hide Scan;
    if a == [] {
      NothingToScan(q, room);
      assert a + b == b;
      assert [] + Scan(q, b, room).0 == Scan(q, b, room).0;
    } else {
      assert (a + b)[1..] == a[1..] + b;
      var found := if Wanted(q, a[0]) then [a[0]] else [];
      ScanOfParts(q, a[1..], b, room - |found|);
      ScanUnrolled(q, a, room);
      ScanUnrolled(q, a + b, room);
      var x := Scan(q, a[1..], room - |found|).0;
      assert room - |found| - |x| == room - |found + x|;
      var y := Scan(q, b, room - |found + x|).0;
      assert found + (x + y) == (found + x) + y;
    }
  }

  lemma NothingToScan(q: Query, room: int)
    ensures Scan(q, [], room) == ([], true)
  {
  }

  /** With `items` found, the scan of `all` has come to `rest`. */
  predicate Reached(q: Query, all: seq<MetricItem>, items: seq<MetricItem>, rest: seq<MetricItem>, room: int) {
    Scan(q, all, room) == (items + Scan(q, rest, room - |items|).0, Scan(q, rest, room - |items|).1)
  }

  lemma ReachedStart(q: Query, all: seq<MetricItem>, room: int)
    ensures Reached(q, all, [], all, room)
  {
    assert [] + Scan(q, all, room).0 == Scan(q, all, room).0;
  }

  lemma ReachedStep(q: Query, all: seq<MetricItem>, items: seq<MetricItem>, rest: seq<MetricItem>, room: int)
    requires rest != [] && Reached(q, all, items, rest, room)
    ensures !InRange(q, rest[0]) ==> Scan(q, all, room) == (items, false)
    ensures InRange(q, rest[0]) ==>
              var next := if Wanted(q, rest[0]) then items + [rest[0]] else items;
              if |next| >= room then Scan(q, all, room) == (next, false) else Reached(q, all, next, rest[1..], room)
  {
    hide Scan;
    var found := if Wanted(q, rest[0]) then [rest[0]] else [];
    ScanUnrolled(q, rest, room - |items|);
    assert items + [] == items;
    assert room - |items| - |found| == room - |items + found|;
    var more := Scan(q, rest[1..], room - |items + found|).0;
    assert items + (found + more) == (items + found) + more;
  }

  lemma ScanUnrolled(q: Query, items: seq<MetricItem>, room: int)
    requires items != []
    ensures var found := if Wanted(q, items[0]) then [items[0]] else [];
            var (more, goOn) := Scan(q, items[1..], room - |found|);
            Scan(q, items, room) ==
              if !InRange(q, items[0]) then ([], false)
              else if room - |found| <= 0 then (found, false)
              else (found + more, goOn)
  {
  }

  lemma ReachedEnd(q: Query, all: seq<MetricItem>, items: seq<MetricItem>, room: int)
    requires Reached(q, all, items, [], room)
    ensures Scan(q, all, room) == (items, true)
  {
    assert items + [] == items;
  }

  /** The lines from an offset on; past the end there are none. */
  function From(lines: seq<string>, offset: nat): seq<string> {
    if offset <= |lines| then lines[offset..] else []
  }

  lemma FromTheFirst(lines: seq<string>)
    ensures From(lines, 0) == lines
  {
  }

  /** The items from a line on. */
  lemma ItemsFrom(lines: seq<string>, i: nat)
    requires i < |lines|
    ensures ItemsOf(From(lines, i)) == (match Decoded(lines[i]) case Ok(item) => [item] case Err(_) => []) + ItemsOf(From(lines, i + 1))
  {
    assert lines[i..][1..] == lines[i + 1..];
  }

  lemma {:induction false} ItemsOfParts(a: seq<string>, b: seq<string>)
    ensures ItemsOf(a + b) == ItemsOf(a) + ItemsOf(b)
  {
    if a == [] {
      assert a + b == b;
    } else {
      assert (a + b)[1..] == a[1..] + b;
      ItemsOfParts(a[1..], b);
    }
  }

  lemma {:induction false} FilterOfParts(q: Query, a: seq<MetricItem>, b: seq<MetricItem>)
    ensures Filter(q, a + b) == Filter(q, a) + Filter(q, b)
  {
    if a == [] {
      assert a + b == b;
    } else {
      assert (a + b)[1..] == a[1..] + b;
      FilterOfParts(q, a[1..], b);
    }
  }

  /** Reads one file line by line from an offset. */
  method ReadMetricsInOneFileByEndTime(file: File, offset: nat, q: Query, prevSize: nat) returns (items: seq<MetricItem>, shouldContinue: bool)
    ensures (items, shouldContinue) == Scan(q, ItemsOf(From(file.lines, offset)), MAX_ITEM_AMOUNT - prevSize)
  {
    hide Decoded, Scan, ItemsOf, InRange, Wanted, Reached;
    ghost var all, room := ItemsOf(From(file.lines, offset)), MAX_ITEM_AMOUNT - prevSize;
    ReachedStart(q, all, room);
    items := [];
    var i := offset;
    while i < |file.lines|
      invariant offset <= i
      invariant Reached(q, all, items, ItemsOf(From(file.lines, i)), room)
    {
      ItemsFrom(file.lines, i);
      ghost var rest := ItemsOf(From(file.lines, i));
      var decoded := Decoded(file.lines[i]);
      i := i + 1;
      if decoded.Ok? {
        var item := decoded.value;
        ReachedStep(q, all, items, rest, room);
        assert rest[1..] == ItemsOf(From(file.lines, i));
        if !InRange(q, item) {
          return items, false;
        }
        if Wanted(q, item) {
          items := items + [item];
        }
        if |items| + prevSize >= MAX_ITEM_AMOUNT {
          return items, false;
        }
      } else {
        assert rest == ItemsOf(From(file.lines, i));
      }
    }
    NoItemsAfter(file.lines, i);
    ReachedEnd(q, all, items, room);
    return items, true;
  }

  lemma NoItemsAfter(lines: seq<string>, i: nat)
    requires i >= |lines|
    ensures ItemsOf(From(lines, i)) == []
  {
  }

  /** Scanning a file and then the files after it. */
  lemma ScanOfFiles(q: Query, lines: seq<string>, files: seq<File>, room: int)
    ensures var (arr, goOn) := Scan(q, ItemsOf(lines), room);
            Scan(q, ItemsOf(lines + AllLines(files)), room).0 ==
              if goOn then arr + Scan(q, ItemsOf(AllLines(files)), room - |arr|).0 else arr
  {
    ItemsOfParts(lines, AllLines(files));
    ScanOfParts(q, ItemsOf(lines), ItemsOf(AllLines(files)), room);
  }

  lemma AllLinesFrom(files: seq<File>, no: nat)
    requires no < |files|
    ensures AllLines(files[no..]) == files[no].lines + AllLines(files[no + 1..])
  {
    assert files[no..][1..] == files[no + 1..];
  }

  /** Reads on through the files after the first one. */
  method ReadMetricsByEndTime(files: seq<File>, fileNo: nat, offset: nat, q: Query) returns (items: seq<MetricItem>)
    requires files == [] || fileNo < |files|
    ensures files == [] ==> items == []
    ensures files != [] ==>
              items == Scan(q, ItemsOf(From(files[fileNo].lines, offset) + AllLines(files[fileNo + 1..])), MAX_ITEM_AMOUNT).0
  {
    hide Scan, ItemsOf, AllLines, OnFrom, From;
    if files == [] {
      return [];
    }
    ScanOfFiles(q, From(files[fileNo].lines, offset), files[fileNo + 1..], MAX_ITEM_AMOUNT);
    var shouldContinue;
    items, shouldContinue := ReadMetricsInOneFileByEndTime(files[fileNo], offset, q, 0);
    OnFromStart(q, files, fileNo + 1, items);
    var no := fileNo + 1;
    ghost var whole := if shouldContinue then OnFrom(q, files, no, items) else items;
    while shouldContinue && no < |files|
      invariant fileNo < no <= |files|
      invariant whole == if shouldContinue then OnFrom(q, files, no, items) else items
    {
      FromTheFirst(files[no].lines);
      var arr;
      arr, shouldContinue := ReadMetricsInOneFileByEndTime(files[no], 0, q, |items|);
      OnFromStep(q, files, no, items, arr, shouldContinue);
      items := items + arr;
      no := no + 1;
    }
    NothingAfter(q, files, items);
  }

  /** The items so far and what the files from `no` on add. */
  function OnFrom(q: Query, files: seq<File>, no: nat, items: seq<MetricItem>): seq<MetricItem>
    requires no <= |files|
  {
    items + Scan(q, ItemsOf(AllLines(files[no..])), MAX_ITEM_AMOUNT - |items|).0
  }

  lemma OnFromStart(q: Query, files: seq<File>, no: nat, items: seq<MetricItem>)
    requires no <= |files|
    ensures OnFrom(q, files, no, items) == items + Scan(q, ItemsOf(AllLines(files[no..])), MAX_ITEM_AMOUNT - |items|).0
  {
  }

  lemma OnFromStep(q: Query, files: seq<File>, no: nat, items: seq<MetricItem>, arr: seq<MetricItem>, goOn: bool)
    requires no < |files| && (arr, goOn) == Scan(q, ItemsOf(files[no].lines), MAX_ITEM_AMOUNT - |items|)
    ensures OnFrom(q, files, no, items) == if goOn then OnFrom(q, files, no + 1, items + arr) else items + arr
  {
    hide Scan, ItemsOf, AllLines;
    var room := MAX_ITEM_AMOUNT - |items|;
    AllLinesFrom(files, no);
    ScanOfFiles(q, files[no].lines, files[no + 1..], room);
    assert room - |arr| == MAX_ITEM_AMOUNT - |items + arr|;
    var more := Scan(q, ItemsOf(AllLines(files[no + 1..])), room - |arr|).0;
    assert items + (arr + more) == (items + arr) + more;
  }

  lemma NothingAfter(q: Query, files: seq<File>, items: seq<MetricItem>)
    ensures OnFrom(q, files, |files|, items) == items
  {
  }

  // ---------------------------------------------------------------- index search

  /** The offset of the first index entry from the second `begin` on. */
  function FirstEntry(index: seq<IndexEntry>, begin: int): Option<nat> {
    if index == [] then None
    else if index[0].sec >= begin then Some(index[0].offset)
    else FirstEntry(index[1..], begin)
  }

  predicate OffsetsFit(files: seq<File>) {
    forall i, j :: 0 <= i < |files| && 0 <= j < |files[i].index| ==> files[i].index[j].offset <= |files[i].lines|
  }

  /** The lines from the first index entry on that is in time; none when no file has one. */
  function LinesFound(files: seq<File>, begin: int): seq<string> {
    if files == [] then []
    else
      match FirstEntry(files[0].index, begin)
      case Some(offset) => From(files[0].lines, offset) + AllLines(files[1..])
      case None => LinesFound(files[1..], begin)
  }

  /** What the search gives. */
  function Searched(files: seq<File>, q: Query): seq<MetricItem> {
    Scan(q, ItemsOf(LinesFound(files, q.begin)), MAX_ITEM_AMOUNT).0
  }

  method FindOffsetToStart(file: File, begin: int) returns (offset: int)
    ensures offset == match FirstEntry(file.index, begin) case Some(o) => o as int case None => -1
    ensures offset >= 0 ==> exists j :: 0 <= j < |file.index| && file.index[j].offset == offset
  {
    var i := 0;
    while i < |file.index| && file.index[i].sec < begin
      invariant 0 <= i <= |file.index|
      invariant FirstEntry(file.index[i..], begin) == FirstEntry(file.index, begin)
    {
      assert file.index[i..][1..] == file.index[i + 1..];
      i := i + 1;
    }
    return if i < |file.index| then file.index[i].offset else -1;
  }

  /** Goes through the files for one whose index has the second, and reads on from there. */
  method SearchOffsetAndRead(files: seq<File>, q: Query) returns (items: seq<MetricItem>)
    ensures items == Searched(files, q)
  {
    for i := 0 to |files|
      invariant LinesFound(files[i..], q.begin) == LinesFound(files, q.begin)
    {
      assert files[i..][1..] == files[i + 1..];
      var offset := FindOffsetToStart(files[i], q.begin);
      if offset >= 0 {
        items := ReadMetricsByEndTime(files, i, offset, q);
        return;
      }
    }
    return [];
  }
}
