/**
 The command log: which files each logged command read and wrote, by path and digest.
 */
module CommandLogs {
  import opened Sequences
  import opened Paths
  import opened Sorting

  datatype FileLog = FileLog(path: Path, digest: string)

  datatype CommandLog = CommandLog(
    command: seq<string>, timestamp: int, inFiles: seq<FileLog>, outFiles: seq<FileLog>)

  predicate NotLater(a: CommandLog, b: CommandLog) {
    a.timestamp <= b.timestamp
  }

  predicate NotEarlier(a: CommandLog, b: CommandLog) {
    a.timestamp >= b.timestamp
  }

  function ListEntries(log: seq<CommandLog>, reverse: bool): seq<CommandLog> {
    Sort(log, if reverse then NotEarlier else NotLater)
  }

  /** Listing permutes the log, orders it by time, and keeps the order of simultaneous entries,
      also when it is reversed. */
  lemma ListEntriesOrders(log: seq<CommandLog>, reverse: bool, time: int)
    ensures multiset(ListEntries(log, reverse)) == multiset(log)
    ensures forall i, j :: 0 <= i < j < |ListEntries(log, reverse)| ==>
      var a, b := ListEntries(log, reverse)[i].timestamp, ListEntries(log, reverse)[j].timestamp;
      if reverse then a >= b else a <= b
    ensures Filter(ListEntries(log, reverse), (e: CommandLog) => e.timestamp == time)
         == Filter(log, (e: CommandLog) => e.timestamp == time)
  {
    var le := if reverse then NotEarlier else NotLater;
    SortIsPermutation(log, le);
    SortIsSorted(log, le);
    SortIsStable(log, le, (e: CommandLog) => e.timestamp == time);
  }
}
