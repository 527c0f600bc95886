/**
 The seek index of the metric log agrees with a linear scan: what a search finds through the index is what a filter
 over everything logged finds.
 */
module MetricIndexes {
  import opened MetricItems
  import opened MetricLogs
  import opened Prelude

  // ---------------------------------------------------------------- files as cells

  /** A file seen as one sequence: lines, and marks where an index entry points. */
  datatype Cell = Line(text: string) | Mark(sec: int)

  function LinesIn(cells: seq<Cell>): seq<string> {
    if cells == [] then []
    else if cells[0].Line? then [cells[0].text] + LinesIn(cells[1..])
    else LinesIn(cells[1..])
  }

  function IndexIn(cells: seq<Cell>, n: nat): seq<IndexEntry> {
    if cells == [] then []
    else if cells[0].Line? then IndexIn(cells[1..], n + 1)
    else [IndexEntry(cells[0].sec, n)] + IndexIn(cells[1..], n)
  }

  function FileOf(cells: seq<Cell>): File {
    File(LinesIn(cells), IndexIn(cells, 0))
  }

  function FilesOf(parts: seq<seq<Cell>>): (files: seq<File>)
    ensures |files| == |parts|
    ensures forall i :: 0 <= i < |parts| ==> files[i] == FileOf(parts[i])
  {
    if parts == [] then [] else [FileOf(parts[0])] + FilesOf(parts[1..])
  }

  function Flat(parts: seq<seq<Cell>>): seq<Cell> {
    if parts == [] then [] else parts[0] + Flat(parts[1..])
  }

  predicate LineOfSecond(line: string, sec: int) {
    Decoded(line).Ok? && Decoded(line).value.timestamp / 1000 == sec
  }

  /** Marks rise from `base` on, and every line belongs to the second of the latest mark before it. */
  predicate InOrder(cells: seq<Cell>, base: int) {
    cells == [] ||
    match cells[0]
    case Line(text) => LineOfSecond(text, base) && InOrder(cells[1..], base)
    case Mark(sec) => base < sec && InOrder(cells[1..], sec)
  }

  /** The second of the latest mark. */
  function LastSec(cells: seq<Cell>, base: int): int {
    if cells == [] then base
    else LastSec(cells[1..], if cells[0].Mark? then cells[0].sec else base)
  }

  lemma {:induction false} OrderOfParts(a: seq<Cell>, b: seq<Cell>, base: int)
    ensures InOrder(a + b, base) <==> InOrder(a, base) && InOrder(b, LastSec(a, base))
    ensures LastSec(a + b, base) == LastSec(b, LastSec(a, base))
  {
    if a == [] {
      assert a + b == b;
    } else {
      assert (a + b)[1..] == a[1..] + b;
      OrderOfParts(a[1..], b, if a[0].Mark? then a[0].sec else base);
    }
  }

  lemma {:induction false} LinesOfParts(a: seq<Cell>, b: seq<Cell>)
    ensures LinesIn(a + b) == LinesIn(a) + LinesIn(b)
  {
    if a == [] {
      assert a + b == b;
    } else {
      assert (a + b)[1..] == a[1..] + b;
      LinesOfParts(a[1..], b);
    }
  }

  lemma {:induction false} IndexOfParts(a: seq<Cell>, b: seq<Cell>, n: nat)
    ensures IndexIn(a + b, n) == IndexIn(a, n) + IndexIn(b, n + |LinesIn(a)|)
  {
    hide LinesIn, IndexIn;
    if a == [] {
      IndexOfNone(n);
      assert a + b == b;
      assert [] + IndexIn(b, n) == IndexIn(b, n);
    } else {
      var rest, next := a[1..], if a[0].Line? then n + 1 else n;
      assert (a + b)[1..] == rest + b && (a + b)[0] == a[0];
      IndexUnrolled(a, n);
      IndexUnrolled(a + b, n);
      IndexOfParts(rest, b, next);
      if a[0].Mark? {
        Associative([IndexEntry(a[0].sec, n)], IndexIn(rest, n), IndexIn(b, n + |LinesIn(rest)|));
      }
    }
  }

  lemma IndexOfNone(n: nat)
    ensures IndexIn([], n) == [] && LinesIn([]) == []
  {
  }

  lemma IndexUnrolled(cells: seq<Cell>, n: nat)
    requires cells != []
    ensures |LinesIn(cells)| == |LinesIn(cells[1..])| + if cells[0].Line? then 1 else 0
    ensures IndexIn(cells, n) ==
              if cells[0].Line? then IndexIn(cells[1..], n + 1) else [IndexEntry(cells[0].sec, n)] + IndexIn(cells[1..], n)
  {
  }

  lemma {:induction false} FlatOfParts(a: seq<seq<Cell>>, b: seq<seq<Cell>>)
    ensures Flat(a + b) == Flat(a) + Flat(b)
  {
    if a == [] {
      assert a + b == b;
    } else {
      assert (a + b)[1..] == a[1..] + b;
      FlatOfParts(a[1..], b);
    }
  }

  lemma {:induction false} LinesOfFlat(parts: seq<seq<Cell>>)
    ensures AllLines(FilesOf(parts)) == LinesIn(Flat(parts))
  {
    if parts != [] {
      LinesOfFlat(parts[1..]);
      LinesOfParts(parts[0], Flat(parts[1..]));
    }
  }

  // ---------------------------------------------------------------- the search on cells

  /** The cells after the first mark in time. */
  function AfterMark(cells: seq<Cell>, begin: int): Option<seq<Cell>> {
    if cells == [] then None
    else if cells[0].Mark? && cells[0].sec >= begin then Some(cells[1..])
    else AfterMark(cells[1..], begin)
  }

  /** The first index entry in time points right behind the first mark in time. */
  predicate PointsBehind(cells: seq<Cell>, n: nat, entry: Option<nat>, after: Option<seq<Cell>>) {
    match (entry, after)
    case (None, None) => true
    case (Some(offset), Some(rest)) => n <= offset <= n + |LinesIn(cells)| && LinesIn(cells)[offset - n..] == LinesIn(rest)
    case _ => false
  }

  lemma {:induction false} EntryIsMark(cells: seq<Cell>, n: nat, begin: int)
    ensures PointsBehind(cells, n, FirstEntry(IndexIn(cells, n), begin), AfterMark(cells, begin))
  {
    hide PointsBehind;
    if cells == [] {
      NoEntry(n);
    } else if cells[0].Line? {
      EntryIsMark(cells[1..], n + 1, begin);
      BehindLine(cells, n, FirstEntry(IndexIn(cells, n), begin), AfterMark(cells, begin));
    } else {
      EntryIsMark(cells[1..], n, begin);
      assert IndexIn(cells, n)[1..] == IndexIn(cells[1..], n);
      BehindMark(cells, n, FirstEntry(IndexIn(cells[1..], n), begin), AfterMark(cells[1..], begin));
    }
  }

  lemma NoEntry(n: nat)
    ensures PointsBehind([], n, None, None)
  {
  }

  lemma LinesCons(cells: seq<Cell>)
    requires cells != [] && cells[0].Line?
    ensures LinesIn(cells) == [cells[0].text] + LinesIn(cells[1..])
  {
  }

  lemma ConsSuffix<T>(x: T, s: seq<T>, k: nat)
    requires k <= |s|
    ensures ([x] + s)[k + 1..] == s[k..]
  {
  }

  lemma BehindLine(cells: seq<Cell>, n: nat, entry: Option<nat>, after: Option<seq<Cell>>)
    requires cells != [] && cells[0].Line? && PointsBehind(cells[1..], n + 1, entry, after)
    ensures PointsBehind(cells, n, entry, after)
  {
    hide LinesIn;
    LinesCons(cells);
    if entry.Some? {
      ConsSuffix(cells[0].text, LinesIn(cells[1..]), entry.value - n - 1);
    }
  }

  lemma BehindMark(cells: seq<Cell>, n: nat, entry: Option<nat>, after: Option<seq<Cell>>)
    requires cells != [] && cells[0].Mark? && PointsBehind(cells[1..], n, entry, after)
    ensures PointsBehind(cells, n, entry, after) && PointsBehind(cells, n, Some(n), Some(cells[1..]))
  {
    assert LinesIn(cells)[0..] == LinesIn(cells[1..]);
  }

  lemma {:induction false} AfterMarkOfParts(a: seq<Cell>, b: seq<Cell>, begin: int)
    ensures AfterMark(a + b, begin) == match AfterMark(a, begin)
                                       case Some(rest) => Some(rest + b)
                                       case None => AfterMark(b, begin)
  {
    if a == [] {
      assert a + b == b;
    } else {
      assert (a + b)[1..] == a[1..] + b;
      AfterMarkOfParts(a[1..], b, begin);
    }
  }

  function LinesAfterMark(cells: seq<Cell>, begin: int): seq<string> {
    match AfterMark(cells, begin)
    case Some(rest) => LinesIn(rest)
    case None => []
  }

  /** Searching file by file is searching the whole sequence. */
  lemma {:induction false} SearchIsAfterMark(parts: seq<seq<Cell>>, begin: int)
    ensures LinesFound(FilesOf(parts), begin) == LinesAfterMark(Flat(parts), begin)
  {
    if parts != [] {
      SearchIsAfterMark(parts[1..], begin);
      EntryIsMark(parts[0], 0, begin);
      AfterMarkOfParts(parts[0], Flat(parts[1..]), begin);
      if AfterMark(parts[0], begin).Some? {
        LinesOfParts(AfterMark(parts[0], begin).value, Flat(parts[1..]));
        LinesOfFlat(parts[1..]);
      }
    }
  }

  // ---------------------------------------------------------------- search against filter

  function Filtered(q: Query, cells: seq<Cell>): seq<MetricItem> {
    Filter(q, ItemsOf(LinesIn(cells)))
  }

  lemma FilteredCons(q: Query, cells: seq<Cell>, base: int)
    requires cells != [] && InOrder(cells, base)
    ensures cells[0].Mark? ==> Filtered(q, cells) == Filtered(q, cells[1..])
    ensures cells[0].Line? ==>
              var item := Decoded(cells[0].text).value;
              && ItemsOf(LinesIn(cells)) == [item] + ItemsOf(LinesIn(cells[1..]))
              && Filtered(q, cells) == (if InRange(q, item) && Wanted(q, item) then [item] else []) + Filtered(q, cells[1..])
  {
  }

  lemma NothingFiltered(q: Query)
    ensures ItemsOf(LinesIn([])) == [] && Filtered(q, []) == []
  {
  }

  /** Nothing before the first mark in time is wanted, as long as its base is too early. */
  lemma {:induction false} MarkSkipsNothing(q: Query, cells: seq<Cell>, base: int)
    requires InOrder(cells, base) && base < q.begin
    ensures Filtered(q, cells) == Filter(q, ItemsOf(LinesAfterMark(cells, q.begin)))
  {
    hide ItemsOf, Decoded;
    NothingFiltered(q);
    if cells != [] {
      FilteredCons(q, cells, base);
      if cells[0].Line? {
        MarkSkipsNothing(q, cells[1..], base);
      } else if cells[0].sec < q.begin {
        MarkSkipsNothing(q, cells[1..], cells[0].sec);
      }
    }
  }

  /** Once past the end of the range nothing more is in it. */
  lemma {:induction false} NothingPastTheEnd(q: Query, cells: seq<Cell>, base: int)
    requires InOrder(cells, base) && q.end < base
    ensures Filtered(q, cells) == []
  {
    hide ItemsOf, Decoded;
    NothingFiltered(q);
    if cells != [] {
      FilteredCons(q, cells, base);
      NothingPastTheEnd(q, cells[1..], if cells[0].Mark? then cells[0].sec else base);
    }
  }

  /** From a second in time on, stopping at the first item out of range misses nothing. */
  lemma {:induction false} ScanIsFilter(q: Query, cells: seq<Cell>, base: int, room: int)
    requires InOrder(cells, base) && q.begin <= base && room > 0
    ensures Scan(q, ItemsOf(LinesIn(cells)), room).0 == Take(room, Filtered(q, cells))
  {
    hide ItemsOf, Decoded, Filter;
    NothingFiltered(q);
    if cells != [] {
      FilteredCons(q, cells, base);
      if cells[0].Mark? {
        ScanIsFilter(q, cells[1..], cells[0].sec, room);
      } else if base > q.end {
        NothingPastTheEnd(q, cells, base);
      } else {
        var found := if Wanted(q, Decoded(cells[0].text).value) then 1 else 0;
        if room - found > 0 {
          ScanIsFilter(q, cells[1..], base, room - found);
        }
      }
    }
  }

  /** The cells after a mark are in order from that mark on. */
  lemma {:induction false} OrderAfterMark(cells: seq<Cell>, base: int, begin: int) returns (sec: int)
    requires InOrder(cells, base) && AfterMark(cells, begin).Some?
    ensures begin <= sec && base < sec && InOrder(AfterMark(cells, begin).value, sec)
  {
    if cells[0].Line? {
      sec := OrderAfterMark(cells[1..], base, begin);
    } else if cells[0].sec >= begin {
      sec := cells[0].sec;
    } else {
      sec := OrderAfterMark(cells[1..], cells[0].sec, begin);
    }
  }

  /** A search gives the wanted items after the mark it finds, as many as there is room for. */
  lemma {:induction false} SearchedIsFilter(parts: seq<seq<Cell>>, base: int, q: Query)
    requires InOrder(Flat(parts), base)
    ensures Searched(FilesOf(parts), q) == Take(MAX_ITEM_AMOUNT, Filter(q, ItemsOf(LinesAfterMark(Flat(parts), q.begin))))
  {
    hide ItemsOf, Filter, Scan;
    SearchIsAfterMark(parts, q.begin);
    if AfterMark(Flat(parts), q.begin).Some? {
      var sec := OrderAfterMark(Flat(parts), base, q.begin);
      ScanIsFilter(q, AfterMark(Flat(parts), q.begin).value, sec, MAX_ITEM_AMOUNT);
    } else {
      NothingFound(q);
    }
  }

  lemma NothingFound(q: Query)
    ensures Scan(q, ItemsOf([]), MAX_ITEM_AMOUNT).0 == Take(MAX_ITEM_AMOUNT, Filter(q, ItemsOf([])))
  {
  }

  // ---------------------------------------------------------------- lines that no index entry covers

  /** The lines before the first index entry of all. */
  function Unindexed(files: seq<File>): seq<string> {
    if files == [] then []
    else if files[0].index == [] then files[0].lines + Unindexed(files[1..])
    else files[0].lines[..Min(files[0].index[0].offset, |files[0].lines|)]
  }

  function BeforeMark(cells: seq<Cell>): seq<Cell> {
    if cells == [] || cells[0].Mark? then [] else [cells[0]] + BeforeMark(cells[1..])
  }

  lemma {:induction false} BeforeMarkOfFile(cells: seq<Cell>, n: nat)
    ensures IndexIn(cells, n) == [] ==> BeforeMark(cells) == cells
    ensures IndexIn(cells, n) != [] ==>
              var offset := IndexIn(cells, n)[0].offset;
              n <= offset <= n + |LinesIn(cells)| && LinesIn(BeforeMark(cells)) == LinesIn(cells)[..offset - n]
  {
    if cells != [] && cells[0].Line? {
      BeforeMarkOfFile(cells[1..], n + 1);
      if IndexIn(cells, n) != [] {
        var offset := IndexIn(cells, n)[0].offset;
        assert LinesIn(cells)[..offset - n] == [cells[0].text] + LinesIn(cells[1..])[..offset - n - 1];
        assert BeforeMark(cells)[1..] == BeforeMark(cells[1..]);
      }
    }
  }

  lemma {:induction false} BeforeMarkOfParts(a: seq<Cell>, b: seq<Cell>)
    ensures BeforeMark(a + b) == if BeforeMark(a) == a then a + BeforeMark(b) else BeforeMark(a)
  {
    if a == [] {
      assert a + b == b;
    } else {
      assert (a + b)[1..] == a[1..] + b;
      BeforeMarkOfParts(a[1..], b);
    }
  }

  lemma {:induction false} MarksGiveIndex(cells: seq<Cell>, n: nat)
    ensures BeforeMark(cells) == cells <==> IndexIn(cells, n) == []
  {
    if cells != [] {
      MarksGiveIndex(cells[1..], if cells[0].Line? then n + 1 else n);
    }
  }

  lemma {:induction false} UnindexedIsBeforeMark(parts: seq<seq<Cell>>)
    ensures Unindexed(FilesOf(parts)) == LinesIn(BeforeMark(Flat(parts)))
  {
    if parts != [] {
      UnindexedIsBeforeMark(parts[1..]);
      BeforeMarkOfFile(parts[0], 0);
      MarksGiveIndex(parts[0], 0);
      BeforeMarkOfParts(parts[0], Flat(parts[1..]));
      LinesOfParts(parts[0], BeforeMark(Flat(parts[1..])));
    }
  }

  /** Everything is the unindexed lines and the lines after the first mark; the former are all of one second. */
  lemma {:induction false} SplitAtFirstMark(cells: seq<Cell>, base: int, begin: int)
    requires InOrder(cells, base) && begin <= base
    ensures LinesIn(cells) == LinesIn(BeforeMark(cells)) + LinesAfterMark(cells, begin)
    ensures InOrder(BeforeMark(cells), base) && LastSec(BeforeMark(cells), base) == base
  {
    if cells != [] && cells[0].Line? {
      SplitAtFirstMark(cells[1..], base, begin);
      assert BeforeMark(cells)[1..] == BeforeMark(cells[1..]);
    }
  }

  /** An item that the filter gives has its second in range; one second only, when there are no marks. */
  lemma {:induction false} FilteredOfOneSecond(q: Query, cells: seq<Cell>, base: int)
    requires InOrder(cells, base) && BeforeMark(cells) == cells && Filtered(q, cells) != []
    ensures Filtered(q, cells)[0].timestamp / 1000 == base && q.begin <= base <= q.end
  {
    hide ItemsOf, Decoded, Filter;
    NothingFiltered(q);
    FilteredCons(q, cells, base);
    if Filtered(q, cells) == Filtered(q, cells[1..]) {
      FilteredOfOneSecond(q, cells[1..], base);
    }
  }

  // ---------------------------------------------------------------- runs of the writer

  datatype WriteOp = WriteOp(ts: uint64, items: seq<MetricItem>)

  /** The log after opening it at `start` and a run of writes. */
  function AfterWrites(c: Config, start: uint64, ops: seq<WriteOp>): (log: Log)
    ensures log.files != []
  {
    if ops == [] then Opened(c, start)
    else
      var op := ops[|ops| - 1];
      Written(c, AfterWrites(c, start, ops[..|ops| - 1]), op.ts, op.items)
  }

  /** What a read gives for the items of a write: its time, and names without separators. */
  function Stored(ts: uint64, items: seq<MetricItem>): (r: seq<MetricItem>)
    ensures |r| == |items|
  {
    if items == [] then []
    else
      var item := items[|items| - 1];
      Stored(ts, items[..|items| - 1]) + [item.(timestamp := ts, resource := Cleaned(item.resource))]
  }

  /** The latest second after a run; a write from before it is left out. */
  function LatestSec(start: uint64, ops: seq<WriteOp>): int {
    if ops == [] then start / 1000
    else
      var latest, op := LatestSec(start, ops[..|ops| - 1]), ops[|ops| - 1];
      if Accepted(latest, op) then op.ts / 1000 else latest
  }

  predicate Accepted(latest: int, op: WriteOp) {
    op.items != [] && op.ts != 0 && op.ts / 1000 >= latest
  }

  /** Everything logged by a run, in order. */
  function Logged(start: uint64, ops: seq<WriteOp>): seq<MetricItem> {
    if ops == [] then []
    else
      var before, op := ops[..|ops| - 1], ops[|ops| - 1];
      Logged(start, before) + if Accepted(LatestSec(start, before), op) then Stored(op.ts, op.items) else []
  }

  /** The cells of the remaining files, the second before them, and the items that went with removed files. */
  datatype Book = Book(parts: seq<seq<Cell>>, base: int, gone: seq<MetricItem>)

  ghost predicate Booked(b: Book, files: seq<File>, sec: int, logged: seq<MetricItem>) {
    && files == FilesOf(b.parts)
    && InOrder(Flat(b.parts), b.base)
    && LastSec(Flat(b.parts), b.base) == sec
    && logged == b.gone + ItemsOf(LinesIn(Flat(b.parts)))
  }

  /** As long as no file is removed, the book starts where the writer started. */
  predicate FromTheStart(b: Book, log: Log, start: int) {
    log.removed == 0 ==> b.gone == [] && b.base == start
  }

  function Extended(parts: seq<seq<Cell>>, cells: seq<Cell>): seq<seq<Cell>>
    requires parts != []
  {
    parts[|parts| - 1 := parts[|parts| - 1] + cells]
  }

  lemma FlatExtended(parts: seq<seq<Cell>>, cells: seq<Cell>)
    requires parts != []
    ensures Flat(Extended(parts, cells)) == Flat(parts) + cells
  {
    var k := |parts| - 1;
    assert parts == parts[..k] + [parts[k]];
    assert Extended(parts, cells) == parts[..k] + [parts[k] + cells];
    FlatOfParts(parts[..k], [parts[k]]);
    FlatOfParts(parts[..k], [parts[k] + cells]);
    assert Flat(parts[..k]) + (parts[k] + cells) == (Flat(parts[..k]) + parts[k]) + cells;
  }

  function CellsOf(lines: seq<string>): seq<Cell> {
    if lines == [] then [] else [Line(lines[0])] + CellsOf(lines[1..])
  }

  lemma {:induction false} LinesOfCells(lines: seq<string>, n: nat)
    ensures LinesIn(CellsOf(lines)) == lines && IndexIn(CellsOf(lines), n) == []
  {
    if lines != [] {
      LinesOfCells(lines[1..], n + 1);
    }
  }

  lemma {:induction false} CellsAreInOrder(lines: seq<string>, sec: int)
    requires forall i :: 0 <= i < |lines| ==> LineOfSecond(lines[i], sec)
    ensures InOrder(CellsOf(lines), sec) && LastSec(CellsOf(lines), sec) == sec
  {
    if lines != [] {
      CellsAreInOrder(lines[1..], sec);
    }
  }

  lemma OneItem(line: string)
    requires Decoded(line).Ok?
    ensures ItemsOf([line]) == [Decoded(line).value]
  {
  }

  /** The lines of a write read back as the items stored. */
  lemma {:induction false} LinesReadBack(c: Config, ts: uint64, items: seq<MetricItem>)
    requires ValidConfig(c)
    ensures ItemsOf(LinesFor(c, ts, items)) == Stored(ts, items)
    ensures forall i :: 0 <= i < |items| ==> LineOfSecond(LinesFor(c, ts, items)[i], ts / 1000)
  {
    hide Decoded, ItemsOf, ToFatString, Cleaned;
    if items != [] {
      var k := |items| - 1;
      LinesReadBack(c, ts, items[..k]);
      LineRoundTrip(items[k].(timestamp := ts), c.printTime(ts));
      OneItem(LineOf(c, ts, items[k]));
      ItemsOfParts(LinesFor(c, ts, items[..k]), [LineOf(c, ts, items[k])]);
    } else {
      assert LinesFor(c, ts, items) == [];
      NothingFiltered(Query(0, 0, ""));
    }
  }

  lemma MarkAlone(sec: int, n: nat)
    ensures LinesIn([Mark(sec)]) == [] && IndexIn([Mark(sec)], n) == [IndexEntry(sec, n)]
  {
  }

  lemma FileMarked(cells: seq<Cell>, sec: int)
    ensures FileOf(cells + [Mark(sec)]) == File(LinesIn(cells), IndexIn(cells, 0) + [IndexEntry(sec, |LinesIn(cells)|)])
  {
    hide LinesIn, IndexIn;
    MarkAlone(sec, 0 + |LinesIn(cells)|);
    LinesOfParts(cells, [Mark(sec)]);
    IndexOfParts(cells, [Mark(sec)], 0);
    NothingAdded(LinesIn(cells));
  }

  lemma NothingAdded<T>(s: seq<T>)
    ensures s + [] == s
  {
  }

  lemma FileLined(cells: seq<Cell>, lines: seq<string>)
    ensures FileOf(cells + CellsOf(lines)) == File(LinesIn(cells) + lines, IndexIn(cells, 0))
  {
    LinesOfCells(lines, |LinesIn(cells)|);
    LinesOfParts(cells, CellsOf(lines));
    IndexOfParts(cells, CellsOf(lines), 0);
  }

  lemma FilesMarked(parts: seq<seq<Cell>>, log: Log, sec: int)
    requires log.files != [] && log.files == FilesOf(parts)
    ensures FilesOf(Extended(parts, [Mark(sec)])) == WithIndex(log, sec).files
  {
    FileMarked(parts[|parts| - 1], sec);
  }

  lemma FilesLined(parts: seq<seq<Cell>>, log: Log, lines: seq<string>)
    requires log.files != [] && log.files == FilesOf(parts)
    ensures FilesOf(Extended(parts, CellsOf(lines))) == WithLines(log, lines).files
  {
    FileLined(parts[|parts| - 1], lines);
  }

  lemma FilesRolled(c: Config, parts: seq<seq<Cell>>, log: Log)
    requires log.files == FilesOf(parts)
    ensures FilesOf(parts[Excess(c, log.files)..] + [[]]) == Rolled(c, log).files
  {
    assert FileOf([]) == EMPTY_FILE;
  }

  lemma MarkIsBooked(b: Book, log: Log, latest: int, logged: seq<MetricItem>, sec: int)
    requires log.files != [] && Booked(b, log.files, latest, logged) && latest < sec
    ensures Booked(b.(parts := Extended(b.parts, [Mark(sec)])), WithIndex(log, sec).files, sec, logged)
  {
    hide ItemsOf, FilesOf, Extended, WithIndex;
    FilesMarked(b.parts, log, sec);
    var flat := Flat(b.parts);
    FlatExtended(b.parts, [Mark(sec)]);
    OrderOfParts(flat, [Mark(sec)], b.base);
    LinesOfParts(flat, [Mark(sec)]);
    assert LinesIn([Mark(sec)]) == [];
    assert LinesIn(flat) + [] == LinesIn(flat);
  }

  lemma LinesAreBooked(b: Book, log: Log, sec: int, logged: seq<MetricItem>, lines: seq<string>)
    requires log.files != [] && Booked(b, log.files, sec, logged)
    requires forall i :: 0 <= i < |lines| ==> LineOfSecond(lines[i], sec)
    ensures Booked(b.(parts := Extended(b.parts, CellsOf(lines))), WithLines(log, lines).files, sec, logged + ItemsOf(lines))
  {
    hide ItemsOf, LineOfSecond, FilesOf, Extended, WithLines, InOrder, LastSec, Flat, LinesIn, CellsOf;
    FilesLined(b.parts, log, lines);
    FlatLined(b.parts, b.base, sec, lines);
    Associative(b.gone, ItemsOf(LinesIn(Flat(b.parts))), ItemsOf(lines));
  }

  lemma FlatLined(parts: seq<seq<Cell>>, base: int, sec: int, lines: seq<string>)
    requires parts != [] && InOrder(Flat(parts), base) && LastSec(Flat(parts), base) == sec
    requires forall i :: 0 <= i < |lines| ==> LineOfSecond(lines[i], sec)
    ensures var flat := Flat(Extended(parts, CellsOf(lines)));
            && InOrder(flat, base) && LastSec(flat, base) == sec
            && ItemsOf(LinesIn(flat)) == ItemsOf(LinesIn(Flat(parts))) + ItemsOf(lines)
  {
    hide ItemsOf, LineOfSecond, Extended, InOrder, LastSec, Flat, LinesIn, CellsOf;
    var flat, cells := Flat(parts), CellsOf(lines);
    FlatExtended(parts, cells);
    CellsAreInOrder(lines, sec);
    OrderOfParts(flat, cells, base);
    LinesOfCells(lines, 0);
    LinesOfParts(flat, cells);
    ItemsOfParts(LinesIn(flat), lines);
  }

  function RolledBook(b: Book, x: nat): Book
    requires x <= |b.parts|
  {
    var out := Flat(b.parts[..x]);
    Book(b.parts[x..] + [[]], LastSec(out, b.base), b.gone + ItemsOf(LinesIn(out)))
  }

  lemma RollIsBooked(c: Config, b: Book, log: Log, sec: int, logged: seq<MetricItem>)
    requires Booked(b, log.files, sec, logged)
    ensures Booked(RolledBook(b, Excess(c, log.files)), Rolled(c, log).files, sec, logged)
  {
    hide ItemsOf, FilesOf, Rolled, InOrder, LastSec, LinesIn;
    var x := Excess(c, log.files);
    FilesRolled(c, b.parts, log);
    FlatRolled(b.parts, x);
    var out, rest := Flat(b.parts[..x]), Flat(b.parts[x..] + [[]]);
    OrderOfParts(out, rest, b.base);
    LinesOfParts(out, rest);
    ItemsOfParts(LinesIn(out), LinesIn(rest));
    assert b.gone + (ItemsOf(LinesIn(out)) + ItemsOf(LinesIn(rest))) == (b.gone + ItemsOf(LinesIn(out))) + ItemsOf(LinesIn(rest));
  }

  lemma FlatRolled(parts: seq<seq<Cell>>, x: nat)
    requires x <= |parts|
    ensures Flat(parts) == Flat(parts[..x]) + Flat(parts[x..] + [[]])
  {
    var out, rest := parts[..x], parts[x..];
    assert parts == out + rest;
    FlatOfParts(out, rest);
    FlatOfParts(rest, [[]]);
    assert Flat([[]]) == [];
    assert Flat(rest) + [] == Flat(rest);
  }

  lemma RollKeepsTheStart(c: Config, b: Book, log: Log, start: int)
    requires |b.parts| == |log.files| && FromTheStart(b, log, start)
    ensures FromTheStart(RolledBook(b, Excess(c, log.files)), Rolled(c, log), start)
  {
    if Excess(c, log.files) == 0 {
      assert b.parts[..0] == [];
      NothingFiltered(Query(0, 0, ""));
      assert b.gone + [] == b.gone;
    }
  }

  /** A second that comes for the first time is marked before the day's file changes. */
  lemma IndexedIsBooked(c: Config, b: Book, log: Log, sec: int, logged: seq<MetricItem>, start: int) returns (b': Book)
    requires log.files != [] && Booked(b, log.files, log.latestOpSec, logged) && FromTheStart(b, log, start) && log.latestOpSec <= sec
    ensures Booked(b', Indexed(c, log, sec).files, sec, logged) && FromTheStart(b', Indexed(c, log, sec), start)
  {
    hide ItemsOf, InOrder, LastSec, Flat, LinesIn, IsNewDay, Rolled;
    b' := b;
    if sec > log.latestOpSec {
      MarkIsBooked(b, log, log.latestOpSec, logged, sec);
      b' := b.(parts := Extended(b.parts, [Mark(sec)]));
      if IsNewDay(c, log.latestOpSec, sec) {
        RollIsBooked(c, b', WithIndex(log, sec), sec, logged);
        RollKeepsTheStart(c, b', WithIndex(log, sec), start);
        b' := RolledBook(b', Excess(c, WithIndex(log, sec).files));
      }
    }
  }

  lemma FullIsBooked(c: Config, b: Book, log: Log, sec: int, logged: seq<MetricItem>, start: int) returns (b': Book)
    requires log.files != [] && Booked(b, log.files, sec, logged) && FromTheStart(b, log, start)
    ensures Booked(b', RolledIfFull(c, log).files, sec, logged) && FromTheStart(b', RolledIfFull(c, log), start)
  {
    hide ItemsOf, InOrder, LastSec, Flat, LinesIn, SizeOf, Rolled;
    b' := b;
    if RolledIfFull(c, log) != log {
      RollIsBooked(c, b, log, sec, logged);
      RollKeepsTheStart(c, b, log, start);
      b' := RolledBook(b, Excess(c, log.files));
    }
  }

  /** One accepted write. */
  lemma WriteIsBooked(c: Config, b: Book, log: Log, op: WriteOp, logged: seq<MetricItem>, start: int) returns (b': Book)
    requires ValidConfig(c) && log.files != [] && Accepted(log.latestOpSec, op)
    requires Booked(b, log.files, log.latestOpSec, logged) && FromTheStart(b, log, start)
    ensures Booked(b', Written(c, log, op.ts, op.items).files, op.ts / 1000, logged + Stored(op.ts, op.items))
    ensures FromTheStart(b', Written(c, log, op.ts, op.items), start)
  {
    hide ItemsOf, InOrder, LastSec, Flat, LinesIn, Indexed, RolledIfFull, LineOfSecond, FilesOf;
    var sec, lines := op.ts / 1000, LinesFor(c, op.ts, op.items);
    var marked := IndexedIsBooked(c, b, log, sec, logged, start);
    LinesReadBack(c, op.ts, op.items);
    LinesAreBooked(marked, Indexed(c, log, sec), sec, logged, lines);
    var lined := marked.(parts := Extended(marked.parts, CellsOf(lines)));
    b' := FullIsBooked(c, lined, WithLines(Indexed(c, log, sec), lines), sec, logged + Stored(op.ts, op.items), start);
  }

  lemma EmptyBook(c: Config, start: uint64) returns (b: Book)
    ensures Booked(b, Opened(c, start).files, start / 1000, []) && FromTheStart(b, Opened(c, start), start / 1000)
  {
    b := Book([[]], start / 1000, []);
    assert Flat([[]]) == [];
    assert Opened(c, start).files == [EMPTY_FILE];
    NothingFiltered(Query(0, 0, ""));
  }

  /** Every run of the writer can be booked. */
  lemma {:induction false} RunIsBooked(c: Config, start: uint64, ops: seq<WriteOp>) returns (b: Book)
    requires ValidConfig(c)
    ensures var log := AfterWrites(c, start, ops);
            && Booked(b, log.files, log.latestOpSec, Logged(start, ops)) && FromTheStart(b, log, start / 1000)
            && log.latestOpSec == LatestSec(start, ops)
  {
    hide Booked, ValidConfig;
    if ops == [] {
      b := EmptyBook(c, start);
    } else {
      var before, op := ops[..|ops| - 1], ops[|ops| - 1];
      b := RunIsBooked(c, start, before);
      var log := AfterWrites(c, start, before);
      if Accepted(log.latestOpSec, op) {
        b := WriteIsBooked(c, b, log, op, Logged(start, before), start / 1000);
      } else {
        assert Logged(start, before) + [] == Logged(start, before);
      }
    }
  }

  // ---------------------------------------------------------------- main results

  lemma {:induction false} OffsetsFitInFile(cells: seq<Cell>, n: nat, j: nat)
    requires j < |IndexIn(cells, n)|
    ensures n <= IndexIn(cells, n)[j].offset <= n + |LinesIn(cells)|
  {
    if cells[0].Line? {
      OffsetsFitInFile(cells[1..], n + 1, j);
    } else if j > 0 {
      OffsetsFitInFile(cells[1..], n, j - 1);
    }
  }

  /** The index never points past the end of its file. */
  lemma {:induction false} RunOffsetsFit(c: Config, start: uint64, ops: seq<WriteOp>)
    requires ValidConfig(c)
    ensures OffsetsFit(AfterWrites(c, start, ops).files)
  {
    var b := RunIsBooked(c, start, ops);
    var files := AfterWrites(c, start, ops).files;
    forall i, j | 0 <= i < |files| && 0 <= j < |files[i].index|
      ensures files[i].index[j].offset <= |files[i].lines|
    {
      OffsetsFitInFile(b.parts[i], 0, j);
    }
  }

  /** The files hold the latest part of what was logged, and all of it as long as none is removed. */
  lemma {:induction false} LogIsKept(c: Config, start: uint64, ops: seq<WriteOp>)
    requires ValidConfig(c)
    ensures var log, logged := AfterWrites(c, start, ops), Logged(start, ops);
            var kept := ItemsOf(AllLines(log.files));
            && |kept| <= |logged| && kept == logged[|logged| - |kept|..]
            && (log.removed == 0 ==> kept == logged)
  {
    hide ItemsOf, InOrder, LastSec;
    var b := RunIsBooked(c, start, ops);
    LinesOfFlat(b.parts);
  }

  /**
   INDEX AGREEMENT. Whatever was written, rolled and removed, a search gives what a linear filter over the files
   gives, up to the limit, exactly when no line before the first index entry is asked for.
   */
  lemma {:induction false} SearchIsExact(c: Config, start: uint64, ops: seq<WriteOp>, q: Query)
    requires ValidConfig(c)
    ensures var files := AfterWrites(c, start, ops).files;
            Searched(files, q) == Take(MAX_ITEM_AMOUNT, Filter(q, ItemsOf(AllLines(files)))) <==> Filter(q, ItemsOf(Unindexed(files))) == []
  {
    hide ItemsOf, Filter, Searched, ValidConfig;
    var b := RunIsBooked(c, start, ops);
    var cells := Flat(b.parts);
    SearchedIsFilter(b.parts, b.base, q);
    LinesOfFlat(b.parts);
    UnindexedIsBeforeMark(b.parts);
    ExactOnCells(q, cells, b.base);
  }

  lemma {:induction false} ExactOnCells(q: Query, cells: seq<Cell>, base: int)
    requires InOrder(cells, base)
    ensures (Take(MAX_ITEM_AMOUNT, Filter(q, ItemsOf(LinesAfterMark(cells, q.begin)))) == Take(MAX_ITEM_AMOUNT, Filtered(q, cells)))
        <==> Filtered(q, BeforeMark(cells)) == []
  {
    hide ItemsOf, Filter, Filtered, InOrder, AfterMark, LinesAfterMark, BeforeMark, LinesIn;
    var lost, found := Filtered(q, BeforeMark(cells)), Filter(q, ItemsOf(LinesAfterMark(cells, q.begin)));
    BeforeMarkIsPrefix(cells, base);
    if lost != [] {
      FilteredOfOneSecond(q, BeforeMark(cells), base);
    }
    if q.begin > base {
      MarkSkipsNothing(q, cells, base);
    } else {
      LostAndFound(q, cells, base);
      if lost == [] {
        assert lost + found == found;
      } else if found != [] {
        LaterAfterMark(q, cells, base);
        assert (lost + found)[0] != found[0];
      }
    }
  }

  lemma LostAndFound(q: Query, cells: seq<Cell>, base: int)
    requires InOrder(cells, base) && q.begin <= base
    ensures Filtered(q, cells) == Filtered(q, BeforeMark(cells)) + Filter(q, ItemsOf(LinesAfterMark(cells, q.begin)))
  {
    hide ItemsOf, Filter, InOrder, AfterMark, LinesAfterMark, BeforeMark, LinesIn;
    SplitAtFirstMark(cells, base, q.begin);
    ItemsOfParts(LinesIn(BeforeMark(cells)), LinesAfterMark(cells, q.begin));
    FilterOfParts(q, ItemsOf(LinesIn(BeforeMark(cells))), ItemsOf(LinesAfterMark(cells, q.begin)));
  }

  lemma {:induction false} BeforeMarkIsPrefix(cells: seq<Cell>, base: int)
    requires InOrder(cells, base)
    ensures InOrder(BeforeMark(cells), base) && BeforeMark(BeforeMark(cells)) == BeforeMark(cells)
  {
    if cells != [] && cells[0].Line? {
      BeforeMarkIsPrefix(cells[1..], base);
      assert BeforeMark(cells)[1..] == BeforeMark(cells[1..]);
    }
  }

  /** What is found after a mark is of a later second than the base. */
  lemma {:induction false} LaterAfterMark(q: Query, cells: seq<Cell>, base: int)
    requires InOrder(cells, base) && Filter(q, ItemsOf(LinesAfterMark(cells, q.begin))) != []
    ensures Filter(q, ItemsOf(LinesAfterMark(cells, q.begin)))[0].timestamp / 1000 > base
  {
    hide ItemsOf, Filter;
    NothingFiltered(q);
    var sec := OrderAfterMark(cells, base, q.begin);
    FilteredIsLater(q, AfterMark(cells, q.begin).value, sec);
  }

  lemma {:induction false} FilteredIsLater(q: Query, cells: seq<Cell>, base: int)
    requires InOrder(cells, base) && Filtered(q, cells) != []
    ensures Filtered(q, cells)[0].timestamp / 1000 >= base
  {
    hide ItemsOf, Decoded, Filter;
    NothingFiltered(q);
    FilteredCons(q, cells, base);
    if Filtered(q, cells) == Filtered(q, cells[1..]) {
      FilteredIsLater(q, cells[1..], if cells[0].Mark? then cells[0].sec else base);
    }
  }

  /** From any second after that of the first remaining line on, a search is exact. */
  lemma {:induction false} SearchAfterFirstSecondIsExact(c: Config, start: uint64, ops: seq<WriteOp>, q: Query)
    requires ValidConfig(c)
    ensures var files := AfterWrites(c, start, ops).files;
            var kept := ItemsOf(AllLines(files));
            kept == [] || q.begin > kept[0].timestamp / 1000 ==> Searched(files, q) == Take(MAX_ITEM_AMOUNT, Filter(q, kept))
  {
    hide ItemsOf, Filter, Searched, ValidConfig;
    var b := RunIsBooked(c, start, ops);
    SearchIsExact(c, start, ops, q);
    LinesOfFlat(b.parts);
    UnindexedIsBeforeMark(b.parts);
    var cells := Flat(b.parts);
    if Filtered(q, BeforeMark(cells)) != [] {
      BeforeMarkIsPrefix(cells, b.base);
      FilteredOfOneSecond(q, BeforeMark(cells), b.base);
      NothingFiltered(q);
      FilteredCons(q, cells, b.base);
    }
  }

  /**
   SEARCH FINDS THE LOG. As long as no file is removed, a search from any second after the one the writer started in
   gives exactly the logged items of the range and resource, in order, up to the limit.
   */
  lemma {:induction false} SearchFindsTheLog(c: Config, start: uint64, ops: seq<WriteOp>, q: Query)
    requires ValidConfig(c) && AfterWrites(c, start, ops).removed == 0 && q.begin > start / 1000
    ensures Searched(AfterWrites(c, start, ops).files, q) == Take(MAX_ITEM_AMOUNT, Filter(q, Logged(start, ops)))
  {
    hide ItemsOf, Filter, Searched, ValidConfig;
    var b := RunIsBooked(c, start, ops);
    SearchedIsFilter(b.parts, b.base, q);
    MarkSkipsNothing(q, Flat(b.parts), b.base);
    assert [] + ItemsOf(LinesIn(Flat(b.parts))) == ItemsOf(LinesIn(Flat(b.parts)));
  }

  // ---------------------------------------------------------------- what is found, item by item

  ghost predicate Rising(idx: seq<nat>) {
    forall j, k :: 0 <= j < k < |idx| ==> idx[j] < idx[k]
  }

  /** The items at these places, in this order. */
  ghost predicate PickedFrom(result: seq<MetricItem>, items: seq<MetricItem>, idx: seq<nat>) {
    |idx| == |result| && Rising(idx) && forall k :: 0 <= k < |idx| ==> idx[k] < |items| && result[k] == items[idx[k]]
  }

  /** In the seconds asked for, and of the resource asked for, or of any for the empty name. */
  ghost predicate AskedFor(q: Query, item: MetricItem) {
    q.begin <= item.timestamp / 1000 && item.timestamp / 1000 <= q.end && (q.resource == "" || item.resource == q.resource)
  }

  lemma {:induction false} FilterPicks(q: Query, items: seq<MetricItem>) returns (idx: seq<nat>)
    ensures PickedFrom(Filter(q, items), items, idx)
    ensures forall i :: 0 <= i < |items| ==> (i in idx <==> AskedFor(q, items[i]))
  {
    hide PickedFrom, AskedFor, Filter;
    FilterUnrolled(q, items);
    if items == [] {
      idx := [];
      NonePicked();
    } else {
      var later := FilterPicks(q, items[1..]);
      var shifted := ShiftedPicks(Filter(q, items[1..]), items, later);
      idx := if AskedFor(q, items[0]) then [0] + shifted else shifted;
      forall i | 0 <= i < |items|
        ensures i in idx <==> AskedFor(q, items[i])
      {
        assert i > 0 ==> items[1..][i - 1] == items[i];
      }
    }
  }

  lemma FilterUnrolled(q: Query, items: seq<MetricItem>)
    ensures items == [] ==> Filter(q, items) == []
    ensures items != [] ==>
              Filter(q, items) == if AskedFor(q, items[0]) then [items[0]] + Filter(q, items[1..]) else Filter(q, items[1..])
  {
  }

  lemma NonePicked()
    ensures PickedFrom([], [], [])
  {
  }

  lemma ShiftedPicks(result: seq<MetricItem>, items: seq<MetricItem>, later: seq<nat>) returns (shifted: seq<nat>)
    requires items != [] && PickedFrom(result, items[1..], later)
    ensures PickedFrom(result, items, shifted) && PickedFrom([items[0]] + result, items, [0] + shifted)
    ensures forall i: nat :: i in shifted <==> i > 0 && i - 1 in later
  {
    shifted := seq(|later|, k requires 0 <= k < |later| => later[k] + 1);
    ShiftedMembers(later, shifted);
  }

  lemma ShiftedMembers(later: seq<nat>, shifted: seq<nat>)
    requires |shifted| == |later| && forall k :: 0 <= k < |later| ==> shifted[k] == later[k] + 1
    ensures forall i: nat :: i in shifted <==> i > 0 && i - 1 in later
  {
    forall i: nat
      ensures i in shifted <==> i > 0 && i - 1 in later
    {
      if i > 0 && i - 1 in later {
        var k :| 0 <= k < |later| && later[k] == i - 1;
        assert shifted[k] == i;
      }
    }
  }

  lemma {:induction false} FilterCounts(q: Query, items: seq<MetricItem>, x: MetricItem)
    ensures multiset(Filter(q, items))[x] == if AskedFor(q, x) then multiset(items)[x] else 0
  {
    if items != [] {
      FilterCounts(q, items[1..], x);
      assert items == [items[0]] + items[1..];
    }
  }

  /**
   WHAT IS FOUND. As long as no file is removed, a search from any second after the one the writer started in gives items of
   the log in their order, each asked for by second and resource, and leaves one out only if the limit is reached before it.
   */
  lemma {:induction false} SearchPicks(c: Config, start: uint64, ops: seq<WriteOp>, q: Query) returns (idx: seq<nat>)
    requires ValidConfig(c) && AfterWrites(c, start, ops).removed == 0 && q.begin > start / 1000
    ensures var result, logged := Searched(AfterWrites(c, start, ops).files, q), Logged(start, ops);
            && PickedFrom(result, logged, idx) && |result| <= 100000
            && (forall k :: 0 <= k < |result| ==>
                  && q.begin <= result[k].timestamp / 1000 <= q.end
                  && (q.resource == "" || result[k].resource == q.resource))
            && (forall i ::
                  (0 <= i < |logged| && q.begin <= logged[i].timestamp / 1000 <= q.end
                   && (q.resource == "" || logged[i].resource == q.resource) && i !in idx) ==>
                  |result| == 100000 && forall k :: 0 <= k < |idx| ==> idx[k] < i)
  {
    hide AfterWrites, Logged, Searched, Filter;
    var logged := Logged(start, ops);
    SearchFindsTheLog(c, start, ops, q);
    var all := FilterPicks(q, logged);
    var found := Filter(q, logged);
    idx := all[..|Take(MAX_ITEM_AMOUNT, found)|];
    forall k | 0 <= k < |idx|
      ensures AskedFor(q, logged[idx[k]])
    {
      assert all[k] in all;
    }
    forall i | 0 <= i < |logged| && AskedFor(q, logged[i]) && i !in idx
      ensures |idx| == 100000 && forall k :: 0 <= k < |idx| ==> idx[k] < i
    {
      var m :| 0 <= m < |all| && all[m] == i;
      assert forall k :: 0 <= k < |idx| ==> idx[k] == all[k] && idx[k] in idx;
    }
  }

  /** Below the limit every logged item is found as often as it was logged if it is asked for, and not at all if not. */
  lemma {:induction false} SearchCounts(c: Config, start: uint64, ops: seq<WriteOp>, q: Query, x: MetricItem)
    requires ValidConfig(c) && AfterWrites(c, start, ops).removed == 0 && q.begin > start / 1000
    requires |Searched(AfterWrites(c, start, ops).files, q)| < 100000
    ensures multiset(Searched(AfterWrites(c, start, ops).files, q))[x] ==
              if q.begin <= x.timestamp / 1000 <= q.end && (q.resource == "" || x.resource == q.resource)
              then multiset(Logged(start, ops))[x] else 0
  {
    hide AfterWrites, Logged, Searched, Filter;
    SearchFindsTheLog(c, start, ops, q);
    FilterCounts(q, Logged(start, ops), x);
    var found := Filter(q, Logged(start, ops));
    assert found[..|found|] == found;
  }

  /** What is logged in the second the writer started in cannot be found: it has no index entry. */
  lemma {:induction false} StartSecondIsNotFound(c: Config, start: uint64, item: MetricItem)
    requires ValidConfig(c) && start >= 1000
    ensures var ops := [WriteOp(start, [item])];
            var q := Query(start / 1000, start / 1000, "");
            && Searched(AfterWrites(c, start, ops).files, q) == []
            && Filter(q, Logged(start, ops)) == [item.(timestamp := start, resource := Cleaned(item.resource))]
  {
    hide ItemsOf, Cleaned, LineOf, SizeOf, Filter, Searched, LinesFound;
    var ops, q := [WriteOp(start, [item])], Query(start / 1000, start / 1000, "");
    assert ops[..0] == [] && [item][..0] == [];
    var log := Opened(c, start);
    assert log.files == [EMPTY_FILE];
    WithoutIndexNothingIsFound(RolledIfFull(c, WithLines(log, LinesFor(c, start, [item]))).files, q);
    LoggedOnce(start, item);
    OneIsWanted(q, item.(timestamp := start, resource := Cleaned(item.resource)));
  }

  lemma LoggedOnce(start: uint64, item: MetricItem)
    requires start >= 1000
    ensures Logged(start, [WriteOp(start, [item])]) == [item.(timestamp := start, resource := Cleaned(item.resource))]
  {
    hide Cleaned;
    var ops := [WriteOp(start, [item])];
    assert ops[..0] == [] && [item][..0] == [];
    assert Stored(start, [item]) == [] + [item.(timestamp := start, resource := Cleaned(item.resource))];
    assert Logged(start, ops) == [] + Stored(start, [item]);
  }

  lemma OneIsWanted(q: Query, item: MetricItem)
    requires InRange(q, item) && Wanted(q, item)
    ensures Filter(q, [item]) == [item]
  {
    assert Filter(q, [item]) == [item] + Filter(q, []);
  }

  lemma {:induction false} WithoutIndexNothingIsFound(files: seq<File>, q: Query)
    requires forall i :: 0 <= i < |files| ==> files[i].index == []
    ensures LinesFound(files, q.begin) == [] && Searched(files, q) == []
  {
    if files != [] {
      WithoutIndexNothingIsFound(files[1..], q);
    }
  }
}
