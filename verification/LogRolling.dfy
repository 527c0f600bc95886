/**
 When the metric log opens and drops files (core/log/metric/writer.go): how many there are after any run of writes,
 how large the open one is, and what makes a write open the next one.
 */
module LogRolling {
  import opened MetricIndexes
  import opened MetricItems
  import opened MetricLogs
  import opened Prelude

  /** The number of the day that a second belongs to where the writer runs; Go's division truncates toward zero. */
  function DayOf(c: Config, sec: int): int {
    var local := sec + c.timezoneOffsetSec;
    if local >= 0 then local / 86400 else -(-local / 86400)
  }

  function Opens(condition: bool): nat {
    if condition then 1 else 0
  }

  /** All files there have been. */
  function FilesMade(log: Log): nat {
    log.removed + |log.files|
  }

  function OpenLines(log: Log): seq<string>
    requires log.files != []
  {
    log.files[|log.files| - 1].lines
  }

  /** The size of a file is that of its lines with their line feeds. */
  lemma {:induction false} SizeOfParts(a: seq<string>, b: seq<string>)
    ensures SizeOf(a + b) == SizeOf(a) + SizeOf(b)
    ensures forall line :: SizeOf([line]) == |line| + 1
  {
    forall line: string
      ensures SizeOf([line]) == |line| + 1
    {
      assert [line][..0] == [];
    }
    if b == [] {
      assert a + b == a;
    } else {
      assert (a + b)[..|a + b| - 1] == a + b[..|b| - 1];
      SizeOfParts(a, b[..|b| - 1]);
    }
  }

  lemma RollingOpensOne(c: Config, log: Log)
    requires ValidConfig(c)
    ensures var r := Rolled(c, log);
            && FilesMade(r) == FilesMade(log) + 1 && r.files != [] && OpenLines(r) == []
            && (|log.files| == Min(c.maxFileAmount, FilesMade(log)) ==> |r.files| == Min(c.maxFileAmount, FilesMade(r)))
  {
  }

  lemma IndexingKeeps(log: Log, sec: int)
    requires log.files != []
    ensures var r := WithIndex(log, sec);
            FilesMade(r) == FilesMade(log) && |r.files| == |log.files| && r.removed == log.removed && OpenLines(r) == OpenLines(log)
  {
  }

  lemma WritingKeeps(log: Log, lines: seq<string>)
    requires log.files != []
    ensures var r := WithLines(log, lines);
            FilesMade(r) == FilesMade(log) && |r.files| == |log.files| && r.removed == log.removed && OpenLines(r) == OpenLines(log) + lines
  {
  }

  /**
   ROLLING. A write opens a file before its lines if its second is on a later day than the one before, and a file
   after them if the lines fill the open one; a write from before the latest second does nothing.
   */
  lemma {:induction false} WriteOpensFiles(c: Config, log: Log, ts: uint64, items: seq<MetricItem>)
    requires ValidConfig(c) && log.files != []
    ensures var log' := Written(c, log, ts, items);
            var later := DayOf(c, ts / 1000) > DayOf(c, log.latestOpSec);
            var lines := (if later then [] else OpenLines(log)) + LinesFor(c, ts, items);
            var full := SizeOf(lines) >= c.maxSingleSize;
            if items == [] || ts == 0 || ts / 1000 < log.latestOpSec then log' == log
            else
              && log'.latestOpSec == ts / 1000
              && FilesMade(log') == FilesMade(log) + Opens(later) + Opens(full)
              && OpenLines(log') == (if full then [] else lines)
              && (|log.files| == Min(c.maxFileAmount, FilesMade(log)) ==> |log'.files| == Min(c.maxFileAmount, FilesMade(log')))
  {
    hide SizeOf, LinesFor, Rolled, WithIndex, WithLines, ValidConfig, FilesMade;
    if !Ignored(log, ts, items) {
      var sec := ts / 1000;
      IndexingKeeps(log, sec);
      RollingOpensOne(c, WithIndex(log, sec));
      var indexed := Indexed(c, log, sec);
      assert [] + LinesFor(c, ts, items) == LinesFor(c, ts, items);
      WritingKeeps(indexed, LinesFor(c, ts, items));
      var written := WithLines(indexed, LinesFor(c, ts, items));
      RollingOpensOne(c, written);
      LatestIsApart(RolledIfFull(c, written), sec);
    }
  }

  lemma LatestIsApart(log: Log, sec: int)
    requires log.files != []
    ensures var r := log.(latestOpSec := sec);
            FilesMade(r) == FilesMade(log) && r.files == log.files && OpenLines(r) == OpenLines(log)
  {
  }

  lemma NoFiles(sec: int)
    ensures FilesMade(Log([], sec, 0)) == 0
  {
  }

  /** BOUNDS. After any run the open file has room, and as many files are there as were made, up to the amount that is kept. */
  lemma {:induction false} RunKeepsBounds(c: Config, start: uint64, ops: seq<WriteOp>)
    requires ValidConfig(c)
    ensures var log := AfterWrites(c, start, ops);
            && |log.files| == Min(c.maxFileAmount, FilesMade(log))
            && SizeOf(OpenLines(log)) < c.maxSingleSize
  {
    hide Written, LinesFor, Rolled, FilesMade, OpenLines;
    if ops == [] {
      RollingOpensOne(c, Log([], start / 1000, 0));
      NoFiles(start / 1000);
    } else {
      var op, before := ops[|ops| - 1], ops[..|ops| - 1];
      RunKeepsBounds(c, start, before);
      WriteOpensFiles(c, AfterWrites(c, start, before), op.ts, op.items);
    }
  }
}
