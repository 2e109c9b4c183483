/**
 The per-user logical clock and its log.

 Every write of user data bumps the user's clock, appends a ClockRecord and stamps the data row with the clock, in
 three statements of one transaction. The last two read the clock by a subquery of their own, so what they read
 depends on what else ran in between.
 */
module ClockLog {
  import opened Prelude

  datatype Source = ColivingUser | DigitalContent | File | ContentList

  datatype RowKey = RowKey(clock: int, source: Source)

  /** One user's part of the database: CNodeUsers.clock, the ClockRecords by clock, and the rows of the four data
      tables, each of which is unique by (user, clock). */
  datatype Log = Log(clock: int, records: map<int, Source>, rows: map<RowKey, string>)

  const NEW_USER := Log(0, map[], map[])

  /** The ClockRecords are exactly 1..clock. */
  ghost predicate Contiguous(log: Log) {
    log.clock >= 0 && forall k :: k in log.records <==> 1 <= k <= log.clock
  }

  /** ... and the data rows are in bijection with them, by clock and source table. */
  ghost predicate Consistent(log: Log) {
    && Contiguous(log)
    && forall key :: key in log.rows <==> key.clock in log.records && log.records[key.clock] == key.source
  }

  // ---------------------------------------------------------------------------------------------
  // The three statements of createNewDataRecord
  // ---------------------------------------------------------------------------------------------

  function Increment(log: Log): Log {
    log.(clock := log.clock + 1)
  }

  /** Refused by the primary key (user, clock) of ClockRecords. */
  function InsertRecord(log: Log, source: Source): Option<Log> {
    if log.clock in log.records then None else Some(log.(records := log.records[log.clock := source]))
  }

  /** Refused by the unique (user, clock) of the data table, or by its foreign key into ClockRecords, which every data
      table but ContentLists has. */
  function InsertRow(log: Log, source: Source, payload: string): Option<Log> {
    var key := RowKey(log.clock, source);
    if key in log.rows || (source != ContentList && log.clock !in log.records) then None
    else Some(log.(rows := log.rows[key := payload]))
  }

  // ---------------------------------------------------------------------------------------------
  // Concurrent calls in one transaction
  // ---------------------------------------------------------------------------------------------

  /** A call in progress: how many of its statements have run, and the clock that each subquery read. */
  datatype Call = Call(source: Source, payload: string, stage: nat, record: int, data: int)

  datatype Tx = Tx(log: Log, calls: seq<Call>)

  /** The next statement of call i; None if it is refused, which aborts the transaction. */
  function Advance(s: Tx, i: nat): Option<Tx> {
    if i >= |s.calls| then None else
    var c := s.calls[i];
    match c.stage
    case 0 => Some(Tx(Increment(s.log), s.calls[i := c.(stage := 1)]))
    case 1 =>
      var log := InsertRecord(s.log, c.source);
      if log.None? then None else Some(Tx(log.value, s.calls[i := c.(stage := 2, record := s.log.clock)]))
    case 2 =>
      var log := InsertRow(s.log, c.source, c.payload);
      if log.None? then None else Some(Tx(log.value, s.calls[i := c.(stage := 3, data := s.log.clock)]))
    case _ => None
  }

  ghost predicate TxStep(s: Tx, i: nat, s': Tx) {
    Advance(s, i) == Some(s')
  }

  /** The statements in the order in which the database takes them: `picks` names the call of each. */
  function Exec(s: Tx, picks: seq<nat>): Option<Tx> {
    if picks == [] then Some(s) else
    var n := |picks| - 1;
    var before := Exec(s, picks[..n]);
    if before.None? then None else Advance(before.value, picks[n])
  }

  lemma ExecOneMore(start: Tx, picks: seq<nat>, s: Tx, i: nat)
    requires Exec(start, picks) == Some(s)
    ensures Exec(start, picks + [i]) == Advance(s, i)
  {
    assert (picks + [i])[..|picks|] == picks;
  }

  lemma ExecTwoMore(start: Tx, picks: seq<nat>, s: Tx, s': Tx, i: nat)
    requires Exec(start, picks) == Some(s) && Advance(s, i) == Some(s')
    ensures Exec(start, picks + [i] + [i]) == Advance(s', i)
  {
    ExecOneMore(start, picks, s, i);
    ExecOneMore(start, picks + [i], s', i);
  }

  /** No statement of any call has been sent. */
  ghost predicate Fresh(calls: seq<Call>) {
    forall i :: 0 <= i < |calls| ==> calls[i].stage == 0
  }

  ghost predicate Committed(s: Tx) {
    forall i :: 0 <= i < |s.calls| ==> s.calls[i].stage == 3
  }

  /** The order takes all statements of all calls, and none is refused. */
  ghost predicate Commits(start: Tx, picks: seq<nat>, s: Tx) {
    Fresh(start.calls) && Exec(start, picks) == Some(s) && Committed(s)
  }

  function Started(calls: seq<Call>): nat {
    if calls == [] then 0 else (if calls[0].stage >= 1 then 1 else 0) + Started(calls[1..])
  }

  /** At every point of every order of statements, each row has a record at its clock, except in ContentLists, which has
      no foreign key. */
  lemma {:induction false} NoRowWithoutRecord(start: Tx, picks: seq<nat>, s: Tx)
    requires Exec(start, picks) == Some(s)
    requires forall key :: key in start.log.rows && key.source != ContentList ==> key.clock in start.log.records
    ensures forall key :: key in s.log.rows && key.source != ContentList ==> key.clock in s.log.records
  {
    if picks != [] {
      var n := |picks| - 1;
      NoRowWithoutRecord(start, picks[..n], Exec(start, picks[..n]).value);
    }
  }

  /** A call whose row is sent when another call has bumped the clock and not yet recorded it: the foreign key refuses
      the row, unless it is that of a content list. */
  lemma OvertakenRowIsRefusedExactlyWhen(start: Tx, a: nat, b: nat)
    requires Fresh(start.calls) && Consistent(start.log) && a < |start.calls| && b < |start.calls| && a != b
    ensures Exec(start, [a] + [a] + [b] + [a]).Some? <==> start.calls[a].source == ContentList
  {
    ExecOneMore(start, [], start, a);
    var one := Advance(start, a).value;
    assert [] + [a] == [a];
    ExecOneMore(start, [a], one, a);
    var two := Advance(one, a).value;
    ExecOneMore(start, [a] + [a], two, b);
    var three := Advance(two, b).value;
    ExecOneMore(start, [a] + [a] + [b], three, a);
    assert three.log == Log(start.log.clock + 2, start.log.records[start.log.clock + 1 := start.calls[a].source],
                            start.log.rows);
  }

  lemma {:induction false} StartedAfter(calls: seq<Call>, i: nat, c: Call)
    requires i < |calls|
    ensures Started(calls[i := c]) + (if calls[i].stage >= 1 then 1 else 0)
            == Started(calls) + if c.stage >= 1 then 1 else 0
  {
    if i == 0 {
      assert calls[0 := c][1..] == calls[1..];
    } else {
      StartedAfter(calls[1..], i - 1, c);
      assert calls[i := c][1..] == calls[1..][i - 1 := c];
    }
  }

  lemma {:induction false} StartedBounds(calls: seq<Call>)
    ensures Started(calls) <= |calls|
    ensures (forall i :: 0 <= i < |calls| ==> calls[i].stage == 0) ==> Started(calls) == 0
    ensures (forall i :: 0 <= i < |calls| ==> calls[i].stage >= 1) ==> Started(calls) == |calls|
    ensures (exists i :: 0 <= i < |calls| && calls[i].stage >= 1) ==> Started(calls) >= 1
  {
    if calls != [] {
      StartedBounds(calls[1..]);
      if i :| 0 <= i < |calls| && calls[i].stage >= 1 {
        assert i > 0 ==> calls[1..][i - 1].stage >= 1;
      }
    }
  }

  // What every reachable state of a transaction on a consistent log keeps.

  ghost predicate ClockCounts(base: Log, s: Tx) {
    && s.log.clock == base.clock + Started(s.calls)
    && forall i :: 0 <= i < |s.calls| ==> s.calls[i].stage <= 3
  }

  /** The records written so far: new, distinct, and there. */
  ghost predicate RecordsWritten(base: Log, s: Tx) {
    && (forall i :: 0 <= i < |s.calls| && s.calls[i].stage >= 2 ==>
          base.clock < s.calls[i].record <= s.log.clock
          && s.calls[i].record in s.log.records && s.log.records[s.calls[i].record] == s.calls[i].source)
    && (forall i, j :: 0 <= i < j < |s.calls| && s.calls[i].stage >= 2 && s.calls[j].stage >= 2 ==>
          s.calls[i].record != s.calls[j].record)
  }

  /** Nothing else is. */
  ghost predicate RecordsAccounted(base: Log, s: Tx) {
    && (forall k :: k in base.records ==> k in s.log.records && s.log.records[k] == base.records[k])
    && (forall k :: k in s.log.records && k !in base.records ==>
          exists i :: 0 <= i < |s.calls| && s.calls[i].stage >= 2 && s.calls[i].record == k)
  }

  ghost predicate RowsWritten(s: Tx) {
    && (forall i :: 0 <= i < |s.calls| && s.calls[i].stage == 3 ==>
          s.calls[i].record <= s.calls[i].data <= s.log.clock
          && RowKey(s.calls[i].data, s.calls[i].source) in s.log.rows)
    && (forall i, j :: 0 <= i < j < |s.calls| && s.calls[i].stage == 3 && s.calls[j].stage == 3 ==>
          RowKey(s.calls[i].data, s.calls[i].source) != RowKey(s.calls[j].data, s.calls[j].source))
  }

  ghost predicate RowsAccounted(base: Log, s: Tx) {
    && (forall key :: key in base.rows ==> key in s.log.rows)
    && (forall key :: key in s.log.rows && key !in base.rows ==>
          exists i :: 0 <= i < |s.calls| && s.calls[i].stage == 3
                      && key == RowKey(s.calls[i].data, s.calls[i].source))
  }

  ghost predicate Kept(base: Log, s: Tx) {
    && ClockCounts(base, s) && RecordsWritten(base, s) && RecordsAccounted(base, s)
    && RowsWritten(s) && RowsAccounted(base, s)
  }

  lemma StepKeepsClock(base: Log, s: Tx, i: nat, s': Tx)
    requires ClockCounts(base, s) && TxStep(s, i, s')
    ensures ClockCounts(base, s')
    ensures s'.log.clock >= s.log.clock
    ensures s.calls[i].stage == 1 ==> base.clock < s.log.clock
  {
    StartedAfter(s.calls, i, s'.calls[i]);
    StartedBounds(s.calls);
  }

  lemma StepKeepsRecordsWritten(base: Log, s: Tx, i: nat, s': Tx)
    requires ClockCounts(base, s) && RecordsWritten(base, s) && TxStep(s, i, s')
    ensures RecordsWritten(base, s')
  {
    StepKeepsClock(base, s, i, s');
    forall j | 0 <= j < |s'.calls| && j != i
      ensures s'.calls[j] == s.calls[j]
    {
    }
  }

  lemma StepKeepsRecordsAccounted(base: Log, s: Tx, i: nat, s': Tx)
    requires RecordsAccounted(base, s) && TxStep(s, i, s')
    ensures RecordsAccounted(base, s')
  {
    forall k | k in s'.log.records && k !in base.records
      ensures exists j :: 0 <= j < |s'.calls| && s'.calls[j].stage >= 2 && s'.calls[j].record == k
    {
      if k in s.log.records {
        var j :| 0 <= j < |s.calls| && s.calls[j].stage >= 2 && s.calls[j].record == k;
        assert s'.calls[j].stage >= 2 && s'.calls[j].record == k;
      } else {
        assert s'.calls[i].stage >= 2 && s'.calls[i].record == k;
      }
    }
  }

  lemma StepKeepsRowsWritten(base: Log, s: Tx, i: nat, s': Tx)
    requires ClockCounts(base, s) && RecordsWritten(base, s) && RowsWritten(s) && TxStep(s, i, s')
    ensures RowsWritten(s')
  {
    StepKeepsClock(base, s, i, s');
    forall j | 0 <= j < |s'.calls| && j != i
      ensures s'.calls[j] == s.calls[j]
    {
    }
  }

  lemma StepKeepsRowsAccounted(base: Log, s: Tx, i: nat, s': Tx)
    requires RowsAccounted(base, s) && TxStep(s, i, s')
    ensures RowsAccounted(base, s')
  {
    forall key | key in s'.log.rows && key !in base.rows
      ensures exists j :: 0 <= j < |s'.calls| && s'.calls[j].stage == 3
                          && key == RowKey(s'.calls[j].data, s'.calls[j].source)
    {
      if key in s.log.rows {
        var j :| 0 <= j < |s.calls| && s.calls[j].stage == 3 && key == RowKey(s.calls[j].data, s.calls[j].source);
        assert s'.calls[j] == s.calls[j];
      } else {
        assert s'.calls[i].stage == 3 && key == RowKey(s'.calls[i].data, s'.calls[i].source);
      }
    }
  }

  lemma {:induction false} RunKeeps(start: Tx, picks: seq<nat>, s: Tx)
    requires Fresh(start.calls) && Exec(start, picks) == Some(s)
    ensures Kept(start.log, s)
  {
    if picks == [] {
      StartedBounds(start.calls);
    } else {
      var n := |picks| - 1;
      var base, before := start.log, Exec(start, picks[..n]).value;
      RunKeeps(start, picks[..n], before);
      StepKeepsClock(base, before, picks[n], s);
      StepKeepsRecordsWritten(base, before, picks[n], s);
      StepKeepsRecordsAccounted(base, before, picks[n], s);
      StepKeepsRowsWritten(base, before, picks[n], s);
      StepKeepsRowsAccounted(base, before, picks[n], s);
    }
  }

  function Count(picks: seq<nat>, i: nat): nat {
    if picks == [] then 0 else
    var n := |picks| - 1;
    Count(picks[..n], i) + if picks[n] == i then 1 else 0
  }

  lemma CountOneMore(picks: seq<nat>, i: nat, j: nat)
    ensures Count(picks + [i], j) == Count(picks, j) + if i == j then 1 else 0
  {
    assert (picks + [i])[..|picks|] == picks;
  }

  /** Each call keeps its table, and is as far as the order has named it. */
  lemma {:induction false} RunKeepsCalls(start: Tx, picks: seq<nat>, s: Tx)
    requires Fresh(start.calls) && Exec(start, picks) == Some(s)
    ensures |s.calls| == |start.calls|
    ensures forall i :: 0 <= i < |s.calls| ==>
              s.calls[i].source == start.calls[i].source && s.calls[i].stage == Count(picks, i)
    ensures forall i: nat :: Count(picks, i) > 0 ==> i < |s.calls|
  {
    if picks == [] {
    } else {
      var n := |picks| - 1;
      assert picks == picks[..n] + [picks[n]];
      RunKeepsCalls(start, picks[..n], Exec(start, picks[..n]).value);
    }
  }

  // The records of a committed transaction: as many distinct clocks as fit in the interval, hence all of it.

  function Interval(low: int, n: nat): (s: set<int>)
    ensures forall k :: k in s <==> low < k <= low + n
  {
    if n == 0 then {} else Interval(low, n - 1) + {low + n}
  }

  lemma {:induction false} IntervalSize(low: int, n: nat)
    ensures |Interval(low, n)| == n
  {
    if n > 0 {
      IntervalSize(low, n - 1);
    }
  }

  lemma {:induction false} DistinctSize(s: seq<int>)
    requires forall i, j :: 0 <= i < j < |s| ==> s[i] != s[j]
    ensures |SetOf(s)| == |s|
  {
    if s != [] {
      DistinctSize(s[1..]);
      assert SetOf(s) == {s[0]} + SetOf(s[1..]);
    }
  }

  lemma SubsetOfSameSize<T>(a: set<T>, b: set<T>)
    requires a <= b && |a| == |b|
    ensures a == b
  {
    assert a + (b - a) == b;
  }

  function RecordClocks(calls: seq<Call>): seq<int> {
    seq(|calls|, i requires 0 <= i < |calls| => calls[i].record)
  }

  /** As many distinct numbers as the interval has fill it. */
  lemma DistinctFill(clocks: seq<int>, low: int)
    requires forall i, j :: 0 <= i < j < |clocks| ==> clocks[i] != clocks[j]
    requires forall i :: 0 <= i < |clocks| ==> low < clocks[i] <= low + |clocks|
    ensures SetOf(clocks) == Interval(low, |clocks|)
  {
    DistinctSize(clocks);
    IntervalSize(low, |clocks|);
    SubsetOfSameSize(SetOf(clocks), Interval(low, |clocks|));
  }

  lemma CommittedRecordsFillTheInterval(base: Log, s: Tx)
    requires Kept(base, s) && Committed(s)
    ensures s.log.clock == base.clock + |s.calls|
    ensures SetOf(RecordClocks(s.calls)) == Interval(base.clock, |s.calls|)
  {
    StartedBounds(s.calls);
    DistinctFill(RecordClocks(s.calls), base.clock);
  }

  /** However the statements of the calls interleave, a transaction that commits leaves ClockRecords 1..clock, with one
      new record per call: the primary key leaves no other way. */
  lemma CommittedStaysContiguous(start: Tx, picks: seq<nat>, s: Tx)
    requires Commits(start, picks, s) && Contiguous(start.log)
    ensures Contiguous(s.log)
    ensures s.log.clock == start.log.clock + |start.calls|
  {
    RunKeeps(start, picks, s);
    RunKeepsCalls(start, picks, s);
    CommittedRecordsFillTheInterval(start.log, s);
    var clocks := RecordClocks(s.calls);
    forall k
      ensures k in s.log.records <==> 1 <= k <= s.log.clock
    {
      if start.log.clock < k <= s.log.clock {
        assert k in SetOf(clocks);
        var i :| 0 <= i < |clocks| && clocks[i] == k;
        assert s.calls[i].record == k;
      }
    }
  }

  // ---------------------------------------------------------------------------------------------
  // Which orders keep rows and records in bijection
  // ---------------------------------------------------------------------------------------------

  /** Both subqueries of every call read the same clock. */
  ghost predicate OneClockPerCall(s: Tx) {
    forall i :: 0 <= i < |s.calls| ==> s.calls[i].data == s.calls[i].record
  }

  lemma OneClockGivesBijection(base: Log, s: Tx)
    requires Kept(base, s) && Committed(s) && Consistent(base) && Contiguous(s.log)
    requires OneClockPerCall(s)
    ensures Consistent(s.log)
  {
    forall key
      ensures key in s.log.rows <==> key.clock in s.log.records && s.log.records[key.clock] == key.source
    {
      if key.clock in s.log.records && s.log.records[key.clock] == key.source && key.clock !in base.records {
        var i :| 0 <= i < |s.calls| && s.calls[i].stage >= 2 && s.calls[i].record == key.clock;
        assert key == RowKey(s.calls[i].data, s.calls[i].source);
      }
    }
  }

  /** Otherwise take the call with the late row: the record at its row's clock belongs to a call whose own row is at
      least as late, and the last of these would have to share its key with another. */
  lemma {:induction false} BijectionGivesOneClock(base: Log, s: Tx, i: nat)
    requires Kept(base, s) && Committed(s) && Consistent(base) && Consistent(s.log)
    requires i < |s.calls|
    ensures s.calls[i].data == s.calls[i].record
    decreases s.log.clock - s.calls[i].record
  {
    var c := s.calls[i];
    if c.data > c.record {
      var key := RowKey(c.data, c.source);
      assert key in s.log.rows;
      assert key.clock in s.log.records && s.log.records[key.clock] == c.source;
      assert key.clock !in base.records;
      var j :| 0 <= j < |s.calls| && s.calls[j].stage >= 2 && s.calls[j].record == key.clock;
      BijectionGivesOneClock(base, s, j);
      assert false;
    }
  }

  /** No call has exactly its first two statements behind it. */
  ghost predicate NoneHalfway(picks: seq<nat>) {
    forall i: nat :: Count(picks, i) != 2
  }

  /** No increment comes between the record and the row of a call: none is halfway when another one starts. */
  ghost predicate Tidy(picks: seq<nat>) {
    picks == [] ||
    var n := |picks| - 1;
    Tidy(picks[..n]) && (Count(picks[..n], picks[n]) == 0 ==> NoneHalfway(picks[..n]))
  }

  lemma TidyOneMore(picks: seq<nat>, i: nat)
    ensures Tidy(picks + [i]) <==> Tidy(picks) && (Count(picks, i) == 0 ==> NoneHalfway(picks))
  {
    assert (picks + [i])[..|picks|] == picks && (picks + [i])[|picks|] == i;
  }

  /** Between its record and its row the clock stands still for a call. */
  ghost predicate InStep(s: Tx) {
    forall i :: 0 <= i < |s.calls| ==>
      && (s.calls[i].stage == 2 ==> s.calls[i].record == s.log.clock)
      && (s.calls[i].stage == 3 ==> s.calls[i].record == s.calls[i].data)
  }

  lemma {:induction false} TidyKeepsInStep(start: Tx, picks: seq<nat>, s: Tx)
    requires Fresh(start.calls) && Exec(start, picks) == Some(s) && Tidy(picks)
    ensures InStep(s)
  {
    if picks == [] {
    } else {
      var n := |picks| - 1;
      var before := Exec(start, picks[..n]).value;
      TidyKeepsInStep(start, picks[..n], before);
      RunKeepsCalls(start, picks[..n], before);
      forall j | 0 <= j < |s.calls| && j != picks[n]
        ensures s.calls[j] == before.calls[j]
        ensures before.calls[picks[n]].stage == 0 ==> s.calls[j].stage != 2
      {
        assert before.calls[j].stage == Count(picks[..n], j);
      }
    }
  }

  /** The clock went on after this call's record was written, and before its row was. */
  ghost predicate Late(s: Tx, i: nat) {
    && i < |s.calls|
    && (s.calls[i].stage == 2 || s.calls[i].stage == 3)
    && s.calls[i].record < if s.calls[i].stage == 2 then s.log.clock else s.calls[i].data
  }

  lemma {:induction false} UntidyMakesLate(start: Tx, picks: seq<nat>, s: Tx) returns (i: nat)
    requires Fresh(start.calls) && Exec(start, picks) == Some(s) && !Tidy(picks)
    ensures Late(s, i)
  {
    var n := |picks| - 1;
    var before := Exec(start, picks[..n]).value;
    RunKeeps(start, picks[..n], before);
    RunKeepsCalls(start, picks[..n], before);
    if !Tidy(picks[..n]) {
      i := UntidyMakesLate(start, picks[..n], before);
    } else {
      i :| Count(picks[..n], i) == 2;
      assert before.calls[i].stage == 2;
    }
  }

  /** A committed transaction keeps rows and records in bijection exactly when the order of its statements is tidy. */
  lemma CommittedIsConsistentExactlyWhen(start: Tx, picks: seq<nat>, s: Tx)
    requires Commits(start, picks, s) && Consistent(start.log)
    ensures Consistent(s.log) <==> Tidy(picks)
  {
    RunKeeps(start, picks, s);
    CommittedStaysContiguous(start, picks, s);
    if Tidy(picks) {
      TidyKeepsInStep(start, picks, s);
      OneClockGivesBijection(start.log, s);
    } else {
      var i := UntidyMakesLate(start, picks, s);
      if Consistent(s.log) {
        BijectionGivesOneClock(start.log, s, i);
        assert false;
      }
    }
  }

  // ---------------------------------------------------------------------------------------------
  // Which calls may be sent at once
  // ---------------------------------------------------------------------------------------------

  ghost predicate OneTable(calls: seq<Call>) {
    forall i, j :: 0 <= i < |calls| && 0 <= j < |calls| ==> calls[i].source == calls[j].source
  }

  function DataClocks(calls: seq<Call>): seq<int> {
    seq(|calls|, i requires 0 <= i < |calls| => calls[i].data)
  }

  /** The rows of one table have distinct clocks, so these fill the interval as the records do. */
  lemma OneTableIsConsistent(start: Tx, picks: seq<nat>, s: Tx)
    requires Commits(start, picks, s) && Consistent(start.log) && OneTable(start.calls)
    ensures Consistent(s.log)
  {
    var base := start.log;
    RunKeeps(start, picks, s);
    RunKeepsCalls(start, picks, s);
    CommittedStaysContiguous(start, picks, s);
    var clocks := DataClocks(s.calls);
    forall i, j | 0 <= i < j < |clocks|
      ensures clocks[i] != clocks[j]
    {
      assert RowKey(s.calls[i].data, s.calls[i].source) != RowKey(s.calls[j].data, s.calls[j].source);
      assert s.calls[i].source == start.calls[i].source == start.calls[j].source == s.calls[j].source;
    }
    DistinctFill(clocks, base.clock);
    forall key
      ensures key in s.log.rows <==> key.clock in s.log.records && s.log.records[key.clock] == key.source
    {
      OneTableRow(start, s, key);
    }
  }

  lemma OneTableRow(start: Tx, s: Tx, key: RowKey)
    requires Kept(start.log, s) && Committed(s) && Consistent(start.log) && Contiguous(s.log)
    requires |s.calls| == |start.calls| && s.log.clock == start.log.clock + |s.calls|
    requires forall i :: 0 <= i < |s.calls| ==> s.calls[i].source == start.calls[i].source
    requires OneTable(start.calls)
    requires SetOf(DataClocks(s.calls)) == Interval(start.log.clock, |s.calls|)
    ensures key in s.log.rows <==> key.clock in s.log.records && s.log.records[key.clock] == key.source
  {
    if key.clock > start.log.clock && key.clock in s.log.records {
      var j :| 0 <= j < |s.calls| && s.calls[j].record == key.clock;
      assert key.clock in SetOf(DataClocks(s.calls));
      var i :| 0 <= i < |s.calls| && s.calls[i].data == key.clock;
      assert s.calls[i].source == s.calls[j].source;
      assert RowKey(s.calls[i].data, s.calls[i].source) in s.log.rows;
    }
  }

  /** Each call's three statements in a row, one call after the other, as callers that await each call send them. */
  function BackToBack(order: seq<nat>): seq<nat> {
    if order == [] then [] else
    var n := |order| - 1;
    BackToBack(order[..n]) + [order[n]] + [order[n]] + [order[n]]
  }

  lemma ThreeMoreCount(p: seq<nat>, i: nat, j: nat)
    ensures Count(p + [i] + [i] + [i], j) == Count(p, j) + if i == j then 3 else 0
  {
    CountOneMore(p, i, j);
    CountOneMore(p + [i], i, j);
    CountOneMore(p + [i] + [i], i, j);
  }

  lemma ThreeMoreTidy(p: seq<nat>, i: nat)
    requires Tidy(p) && NoneHalfway(p)
    ensures Tidy(p + [i] + [i] + [i])
  {
    TidyOneMore(p, i);
    CountOneMore(p, i, i);
    TidyOneMore(p + [i], i);
    CountOneMore(p + [i], i, i);
    TidyOneMore(p + [i] + [i], i);
  }

  lemma {:induction false} WholeCalls(order: seq<nat>, j: nat)
    ensures Count(BackToBack(order), j) == 3 * Count(order, j)
  {
    if order == [] {
    } else {
      var n := |order| - 1;
      WholeCalls(order[..n], j);
      ThreeMoreCount(BackToBack(order[..n]), order[n], j);
      CountOneMore(order[..n], order[n], j);
      assert order == order[..n] + [order[n]];
    }
  }

  lemma {:induction false} BackToBackIsTidy(order: seq<nat>)
    ensures Tidy(BackToBack(order))
  {
    if order == [] {
    } else {
      var n := |order| - 1;
      BackToBackIsTidy(order[..n]);
      forall j: nat
        ensures Count(BackToBack(order[..n]), j) != 2
      {
        WholeCalls(order[..n], j);
      }
      ThreeMoreTidy(BackToBack(order[..n]), order[n]);
    }
  }

  /** Whatever the tables: calls awaited one after the other keep the bijection. */
  lemma AwaitedCallsAreConsistent(start: Tx, order: seq<nat>, s: Tx)
    requires Commits(start, BackToBack(order), s) && Consistent(start.log)
    ensures Consistent(s.log)
  {
    BackToBackIsTidy(order);
    CommittedIsConsistentExactlyWhen(start, BackToBack(order), s);
  }

  /** ... and none of their statements is ever refused. */
  lemma {:induction false} AwaitedCallsAreAccepted(start: Tx, order: seq<nat>) returns (s: Tx)
    requires Fresh(start.calls) && Consistent(start.log)
    requires forall j :: 0 <= j < |order| ==> order[j] < |start.calls|
    requires forall j, k :: 0 <= j < k < |order| ==> order[j] != order[k]
    ensures Exec(start, BackToBack(order)) == Some(s) && Consistent(s.log) && |s.calls| == |start.calls|
    ensures forall i :: 0 <= i < |s.calls| ==>
              s.calls[i].source == start.calls[i].source && s.calls[i].stage == if i in order then 3 else 0
  {
    if order == [] {
      s := start;
    } else {
      var n := |order| - 1;
      var before := AwaitedCallsAreAccepted(start, order[..n]);
      assert order == order[..n] + [order[n]];
      s := WholeCallWritten(start, BackToBack(order[..n]), before, order[n]);
    }
  }

  /** The three statements of a call in a row, on a consistent log. */
  lemma WholeCallWritten(start: Tx, p: seq<nat>, s: Tx, i: nat) returns (s': Tx)
    requires Exec(start, p) == Some(s) && Consistent(s.log) && i < |s.calls| && s.calls[i].stage == 0
    ensures Exec(start, p + [i] + [i] + [i]) == Some(s') && Consistent(s'.log) && |s'.calls| == |s.calls|
    ensures s'.calls[i].stage == 3 && s'.calls[i].source == s.calls[i].source
    ensures forall j :: 0 <= j < |s.calls| && j != i ==> s'.calls[j] == s.calls[j]
  {
    BackToBackKeepsConsistent(s.log, s.calls[i].source, s.calls[i].payload);
    var written := RecordWritten(start, p, s, i);
    s' := RowWritten(start, p + [i] + [i], written, i);
  }

  /** The calls from the k-th on, without two of them. */
  function Others(k: nat, n: nat, a: nat, b: nat): (order: seq<nat>)
    requires k <= n
    ensures forall i :: i in order <==> k <= i < n && i != a && i != b
    ensures forall i, j :: 0 <= i < j < |order| ==> order[i] != order[j]
    decreases n - k
  {
    if k == n then []
    else
      var rest := Others(k + 1, n, a, b);
      assert forall j :: 0 <= j < |rest| ==> rest[j] in rest;
      if k == a || k == b then rest else [k] + rest
  }

  /** Two calls that are left, sent at once: both records are written before the first row, which takes the second
      clock. No key refuses that as long as the tables differ. */
  lemma OvertakenPairCommits(start: Tx, p: seq<nat>, mid: Tx, a: nat, b: nat) returns (picks: seq<nat>, s: Tx)
    requires Exec(start, p) == Some(mid) && Consistent(mid.log)
    requires a < |mid.calls| && b < |mid.calls| && a != b && mid.calls[a].source != mid.calls[b].source
    requires forall i :: 0 <= i < |mid.calls| ==> mid.calls[i].stage == if i == a || i == b then 0 else 3
    ensures Exec(start, picks) == Some(s) && Committed(s) && !Consistent(s.log)
  {
    var one := RecordWritten(start, p, mid, a);
    var two := RecordWritten(start, p + [a] + [a], one, b);
    assert two.log == Log(mid.log.clock + 2, mid.log.records[mid.log.clock + 1 := mid.calls[a].source]
                                                            [mid.log.clock + 2 := mid.calls[b].source], mid.log.rows);
    picks, s := LateRowsWritten(start, p + [a] + [a] + [b] + [b], two, a, b);
  }

  lemma LateRowsWritten(start: Tx, p: seq<nat>, two: Tx, a: nat, b: nat) returns (picks: seq<nat>, s: Tx)
    requires Exec(start, p) == Some(two)
    requires a < |two.calls| && b < |two.calls| && a != b && two.calls[a].source != two.calls[b].source
    requires forall i :: 0 <= i < |two.calls| ==> two.calls[i].stage == if i == a || i == b then 2 else 3
    requires two.log.clock in two.log.records && two.log.records[two.log.clock] == two.calls[b].source
    requires forall key :: key in two.log.rows ==> key.clock < two.log.clock
    ensures Exec(start, picks) == Some(s) && Committed(s) && !Consistent(s.log)
  {
    var wrong := RowKey(two.log.clock, two.calls[a].source);
    var three := RowWritten(start, p, two, a);
    s := RowWritten(start, p + [a], three, b);
    picks := p + [a] + [b];
    assert wrong in s.log.rows && s.log.records[wrong.clock] == two.calls[b].source;
  }

  /** The first two statements of a call, where the keys allow them. */
  lemma RecordWritten(start: Tx, p: seq<nat>, s: Tx, i: nat) returns (s': Tx)
    requires Exec(start, p) == Some(s) && i < |s.calls| && s.calls[i].stage == 0
    requires s.log.clock + 1 !in s.log.records
    ensures Exec(start, p + [i] + [i]) == Some(s')
    ensures s'.log == Log(s.log.clock + 1, s.log.records[s.log.clock + 1 := s.calls[i].source], s.log.rows)
    ensures s'.calls == s.calls[i := s.calls[i].(stage := 2, record := s.log.clock + 1)]
  {
    var s1 := Advance(s, i).value;
    ExecTwoMore(start, p, s, s1, i);
    s' := Advance(s1, i).value;
  }

  /** The last statement of a call, where the keys allow it. */
  lemma RowWritten(start: Tx, p: seq<nat>, s: Tx, i: nat) returns (s': Tx)
    requires Exec(start, p) == Some(s) && i < |s.calls| && s.calls[i].stage == 2
    requires s.log.clock in s.log.records && RowKey(s.log.clock, s.calls[i].source) !in s.log.rows
    ensures Exec(start, p + [i]) == Some(s')
    ensures s'.log == s.log.(rows := s.log.rows[RowKey(s.log.clock, s.calls[i].source) := s.calls[i].payload])
    ensures s'.calls == s.calls[i := s.calls[i].(stage := 3, data := s.log.clock)]
  {
    ExecOneMore(start, p, s, i);
    s' := Advance(s, i).value;
  }

  /** Any two calls of different tables, among any others, have an order that commits and breaks the bijection. */
  lemma TwoTablesCanDiverge(start: Tx, a: nat, b: nat) returns (picks: seq<nat>, s: Tx)
    requires Fresh(start.calls) && Consistent(start.log)
    requires a < |start.calls| && b < |start.calls| && start.calls[a].source != start.calls[b].source
    ensures Commits(start, picks, s) && !Consistent(s.log)
  {
    var order := Others(0, |start.calls|, a, b);
    assert forall j :: 0 <= j < |order| ==> order[j] in order;
    var mid := AwaitedCallsAreAccepted(start, order);
    picks, s := OvertakenPairCommits(start, BackToBack(order), mid, a, b);
  }

  /** Calls may be sent at once, whatever order the database then takes their statements in, exactly when they all write
      one table. */
  lemma EveryOrderIsConsistentExactlyWhen(start: Tx)
    requires Fresh(start.calls) && Consistent(start.log)
    ensures (forall picks, s :: Commits(start, picks, s) ==> Consistent(s.log)) <==> OneTable(start.calls)
  {
    if OneTable(start.calls) {
      forall picks, s | Commits(start, picks, s)
        ensures Consistent(s.log)
      {
        OneTableIsConsistent(start, picks, s);
      }
    } else {
      var a, b :| 0 <= a < |start.calls| && 0 <= b < |start.calls| && start.calls[a].source != start.calls[b].source;
      var picks, s := TwoTablesCanDiverge(start, a, b);
    }
  }

  // ---------------------------------------------------------------------------------------------
  // Runs of transactions
  // ---------------------------------------------------------------------------------------------

  /** A transaction of one user: its calls, and the order in which the database takes their statements. */
  datatype Transaction = Transaction(calls: seq<Call>, picks: seq<nat>) {
    /** It commits, and takes the user's log from one value to the other. */
    ghost predicate Takes(log: Log, log': Log) {
      exists s :: Commits(Tx(log, calls), picks, s) && s.log == log'
    }

    /** Its calls are awaited one after the other. */
    ghost predicate Awaited() {
      exists order :: picks == BackToBack(order)
    }
  }

  ghost predicate CommitRun(logs: seq<Log>, txs: seq<Transaction>) {
    && |logs| == |txs| + 1 && logs[0] == NEW_USER
    && forall n :: 0 <= n < |txs| ==> txs[n].Takes(logs[n], logs[n + 1])
  }

  lemma TakesKeeps(tx: Transaction, log: Log, log': Log)
    requires tx.Takes(log, log') && Contiguous(log)
    ensures Contiguous(log')
    ensures Consistent(log) ==> (Consistent(log') <==> Tidy(tx.picks))
    ensures Consistent(log) && (tx.Awaited() || OneTable(tx.calls)) ==> Consistent(log')
  {
    var start := Tx(log, tx.calls);
    var s :| Commits(start, tx.picks, s) && s.log == log';
    CommittedStaysContiguous(start, tx.picks, s);
    if Consistent(log) {
      CommittedIsConsistentExactlyWhen(start, tx.picks, s);
      if tx.Awaited() {
        var order :| tx.picks == BackToBack(order);
        BackToBackIsTidy(order);
      } else if OneTable(tx.calls) {
        OneTableIsConsistent(start, tx.picks, s);
      }
    }
  }

  /** A run with one transaction of one call. */
  lemma OneUpload(source: Source, payload: string)
    ensures var tx := Transaction([Call(source, payload, 0, 0, 0)], [0, 0, 0]);
            && CommitRun([NEW_USER, Log(1, map[1 := source], map[RowKey(1, source) := payload])], [tx])
            && tx.Awaited() && OneTable(tx.calls)
  {
    var tx := Transaction([Call(source, payload, 0, 0, 0)], [0, 0, 0]);
    var start := Tx(NEW_USER, tx.calls);
    var log := Log(1, map[1 := source], map[RowKey(1, source) := payload]);
    var one := Tx(Log(1, map[], map[]), [Call(source, payload, 1, 0, 0)]);
    var two := Tx(Log(1, map[1 := source], map[]), [Call(source, payload, 2, 1, 0)]);
    var three := Tx(log, [Call(source, payload, 3, 1, 1)]);
    assert start.calls[0 := one.calls[0]] == one.calls && one.calls[0 := two.calls[0]] == two.calls;
    assert two.calls[0 := three.calls[0]] == three.calls;
    ExecOneMore(start, [], start, 0);
    assert [] + [0] == [0] && Advance(start, 0) == Some(one);
    assert map[][1 := source] == map[1 := source] && Advance(one, 0) == Some(two);
    assert two.log.rows[RowKey(1, source) := payload] == log.rows && Advance(two, 0) == Some(three);
    ExecTwoMore(start, [0], one, two, 0);
    assert [0] + [0] + [0] == [0, 0, 0];
    assert Commits(start, [0, 0, 0], Tx(log, [Call(source, payload, 3, 1, 1)]));
    assert tx.Takes(NEW_USER, log);
    assert BackToBack([]) == [] && [0][..0] == [];
    assert BackToBack([0]) == [0, 0, 0];
  }

  /** The log of a user, from clock 0: in every run of committed transactions the ClockRecords are 1..clock, and in
      every run of transactions that await their calls, or write one table, the data rows are in bijection with them. */
  lemma {:induction false} LogInvariant(logs: seq<Log>, txs: seq<Transaction>, n: nat)
    requires CommitRun(logs, txs) && n <= |txs|
    ensures Contiguous(logs[n])
    ensures (forall m :: 0 <= m < n ==> txs[m].Awaited() || OneTable(txs[m].calls)) ==> Consistent(logs[n])
  {
    if n > 0 {
      LogInvariant(logs, txs, n - 1);
      TakesKeeps(txs[n - 1], logs[n - 1], logs[n]);
    }
  }

  /** The bijection holds all along a run exactly when every transaction of it was tidy. */
  lemma {:induction false} LogIsConsistentExactlyWhenTidy(logs: seq<Log>, txs: seq<Transaction>, n: nat)
    requires CommitRun(logs, txs) && n <= |txs|
    ensures (forall m :: 0 <= m <= n ==> Consistent(logs[m])) <==> (forall m :: 0 <= m < n ==> Tidy(txs[m].picks))
  {
    if n > 0 {
      LogIsConsistentExactlyWhenTidy(logs, txs, n - 1);
      LogInvariant(logs, txs, n - 1);
      TakesKeeps(txs[n - 1], logs[n - 1], logs[n]);
      assert (forall m :: 0 <= m <= n ==> Consistent(logs[m])) <==>
          (forall m :: 0 <= m <= n - 1 ==> Consistent(logs[m])) && Consistent(logs[n]);
    }
  }

  // ---------------------------------------------------------------------------------------------
  // The manager
  // ---------------------------------------------------------------------------------------------

  /** select MAX("clock"): null without rows */
  method MaxClock(records: map<int, Source>) returns (max: Option<int>)
    ensures max.None? <==> records == map[]
    ensures max.Some? ==> max.value in records && forall k :: k in records ==> k <= max.value
  {
    max := None;
    var left := records.Items;
    assert forall k :: k in records ==> (k, records[k]) in left;
    while left != {}
      invariant left <= records.Items
      invariant max.None? <==> left == records.Items
      invariant max.Some? ==> max.value in records
      invariant max.Some? ==> forall k :: k in records && (k, records[k]) !in left ==> k <= max.value
      decreases |left|
    {
      var row :| row in left;
      if max.None? || max.value < row.0 {
        max := Some(row.0);
      }
      left := left - {row};
    }
    assert records == map[] || records.Keys != {};
  }

  class Database {
    var logs: map<string, Log>

    constructor ()
      ensures logs == map[]
    {
      logs := map[];
    }

    /**
     createNewDataRecord, with its three statements run back to back; None means a statement was refused and the
     transaction rolled back. A missing user leaves the clock subquery null, which the record insert refuses.
     */
    method CreateNewDataRecord(user: string, source: Source, payload: string) returns (clock: Option<int>)
      modifies this
      ensures clock.Some? <==> user in old(logs) && Accepting(old(logs[user]), source)
      ensures clock.None? ==> logs == old(logs)
      ensures clock.Some? ==>
                var log := old(logs[user]);
                clock.value == log.clock + 1
                && logs == old(logs)[user := Log(clock.value, log.records[clock.value := source],
                                                 log.rows[RowKey(clock.value, source) := payload])]
    {
      if user !in logs {
        return None;
      }
      var rollback := logs;
      logs := logs[user := Increment(logs[user])];
      var recorded := InsertRecord(logs[user], source);
      if recorded.None? {
        logs := rollback;
        return None;
      }
      logs := logs[user := recorded.value];
      var stored := InsertRow(logs[user], source, payload);
      if stored.None? {
        logs := rollback;
        return None;
      }
      logs := logs[user := stored.value];
      clock := Some(logs[user].clock);
    }

    /** The UPDATE of fixInconsistentUser, when the database takes it: the clock becomes the greatest recorded one;
        without records nothing changes. */
    method FixInconsistentUser(user: string)
      modifies this
      ensures logs.Keys == old(logs).Keys
      ensures forall u :: u in logs && u != user ==> logs[u] == old(logs)[u]
      ensures user in logs ==> logs[user] == old(logs)[user].(clock := logs[user].clock)
      ensures user in logs ==> if logs[user].records.Keys == {} then logs[user].clock == old(logs)[user].clock
                               else logs[user].clock in logs[user].records
      ensures user in logs ==> forall k :: k in logs[user].records ==> k <= logs[user].clock
    {
      if user !in logs {
        return;
      }
      var max := MaxClock(logs[user].records);
      if max.Some? {
        logs := logs[user := logs[user].(clock := max.value)];
      }
    }

    /** If the UPDATE is taken first, the next record is accepted and gets a clock beyond every existing one, whatever
        the clock was. */
    method FixThenCreate(user: string, source: Source, payload: string) returns (clock: Option<int>)
      requires user in logs
      requires forall key :: key in logs[user].rows ==> key.clock in logs[user].records
      modifies this
      ensures clock.Some?
      ensures forall k :: k in old(logs[user]).records ==> k < clock.value
      ensures user in logs && clock.value in logs[user].records && RowKey(clock.value, source) in logs[user].rows
    {
      FixInconsistentUser(user);
      clock := CreateNewDataRecord(user, source, payload);
    }

    /**
     fixInconsistentUser returns before its UPDATE has run, so the next write may be taken first. Then it is accepted
     exactly when the log was good enough as it was, and beyond every existing clock exactly when the user's clock was
     at no less than all of them.
     */
    method CreateBeforeFix(user: string, source: Source, payload: string) returns (clock: Option<int>)
      requires user in logs
      modifies this
      ensures clock.Some? <==> Accepting(old(logs[user]), source)
      ensures clock.Some? ==> clock.value == old(logs[user]).clock + 1
      ensures clock.Some? ==>
                ((forall k :: k in old(logs[user]).records ==> k < clock.value) <==> CoversRecords(old(logs[user])))
      ensures user in logs && (clock.None? ==> logs[user].records == old(logs[user]).records)
      ensures clock.Some? ==> logs[user].records == old(logs[user]).records[clock.value := source]
    {
      clock := CreateNewDataRecord(user, source, payload);
      FixInconsistentUser(user);
    }
  }

  /** No record is ahead of the user's clock. */
  ghost predicate CoversRecords(log: Log) {
    forall k :: k in log.records ==> k <= log.clock
  }

  /** The next write after a call of fixInconsistentUser gets a new, greatest clock in whichever order the database
      takes it and the UPDATE, exactly when the user's clock is behind no record: when there is nothing to fix. */
  lemma FixIsInTimeExactlyWhen(log: Log, source: Source)
    requires forall key :: key in log.rows ==> key.clock in log.records
    ensures (Accepting(log, source) && forall k :: k in log.records ==> k < log.clock + 1) <==> CoversRecords(log)
  {
    if CoversRecords(log) {
      assert log.clock + 1 !in log.records;
    }
  }

  function FilesUpTo(n: nat): map<int, Source> {
    if n == 0 then map[] else FilesUpTo(n - 1)[n := File]
  }

  /** A user at clock 4 with records 1 to 5, whom the fix would bring to 5: a write taken first is refused. And one at
      clock 2 with records 1, 2 and 5: it gets clock 3, which is not the greatest. */
  lemma LateFixFails()
    ensures var log := Log(4, FilesUpTo(5), map[]);
            !Accepting(log, File) && Accepting(log.(clock := 5), File)
    ensures var log := Log(2, FilesUpTo(2)[5 := File], map[]);
            Accepting(log, File) && log.clock + 1 < 5 && 5 in log.records
  {
    assert 5 in FilesUpTo(5);
    FilesAre(5);
    FilesAre(2);
  }

  lemma {:induction false} FilesAre(n: nat)
    ensures forall k :: k in FilesUpTo(n) <==> 1 <= k <= n
  {
    if n > 0 {
      FilesAre(n - 1);
    }
  }

  /** What the keys of the next record and row ask of a log. */
  predicate Accepting(log: Log, source: Source) {
    log.clock + 1 !in log.records && RowKey(log.clock + 1, source) !in log.rows
  }

  /** The statements back to back keep the log consistent, and a consistent log never refuses them. */
  lemma BackToBackKeepsConsistent(log: Log, source: Source, payload: string)
    requires Consistent(log)
    ensures Accepting(log, source)
    ensures var k := log.clock + 1;
            Consistent(Log(k, log.records[k := source], log.rows[RowKey(k, source) := payload]))
  {
  }
}
