/**
 The content blacklist of a content node.

 The ContentBlacklist table lists users, content ids and CIDs. Three redis sets mirror the closure of that
 table over the content tables, and are kept up to date step by step: in batches of 200 content ids, in chunks
 of 100000 members, by calls that may fail half-way. `Closure` computes the same three sets in one go from the
 table alone; the methods are proved against it.
 */
module Blacklist {
  import opened Prelude
  import opened ContentTables

  datatype Kind = USER | DIGITAL_CONTENT | CID

  datatype Row = Row(kind: Kind, value: Entry)

  const EMPTY := Index({}, {}, {})

  datatype RedisKey = UserIdKey | ContentIdKey | SegmentCidKey

  // ---------------------------------------------------------------------------------------------
  // The closure of a set of rows, directly from the tables
  // ---------------------------------------------------------------------------------------------

  function Listed(rows: set<Row>, kind: Kind): set<Entry> {
    set r | r in rows && r.kind == kind :: r.value
  }

  predicate Owns(t: Tables, users: set<Entry>, c: ContentRecord) {
    exists u :: u in t.users && Id(u.blockchainId) in users && u.owner == c.owner
  }

  function ContentsOf(t: Tables, users: set<Entry>): set<Entry> {
    set c | c in t.contents && Owns(t, users, c) :: Id(c.blockchainId)
  }

  /** The whitelist spares segments, but not files of type digital_content or copy320. */
  predicate Exempt(t: Tables, f: FileRecord) {
    f.fileType != "digital_content" && f.fileType != "copy320" && f.multihash in t.whitelist
  }

  predicate IsFileOf(f: FileRecord, contents: set<Entry>) {
    f.contentId.Some? && Id(f.contentId.value) in contents
  }

  function SegmentCids(t: Tables, contents: set<Entry>): set<Entry> {
    set c, cid | c in t.contents && Id(c.blockchainId) in contents
                 && c.segments.Some? && cid in c.segments.value && cid != "" && cid !in t.whitelist :: Hash(cid)
  }

  function FileCids(t: Tables, contents: set<Entry>): set<Entry> {
    set f | f in t.files && IsFileOf(f, contents) && !Exempt(t, f) :: Hash(f.multihash)
  }

  function CidsOf(t: Tables, contents: set<Entry>): set<Entry> {
    SegmentCids(t, contents) + FileCids(t, contents)
  }

  function Closure(t: Tables, rows: set<Row>): Index {
    var users := Listed(rows, USER);
    var contents := Listed(rows, DIGITAL_CONTENT) + ContentsOf(t, users);
    Index(users, contents, Listed(rows, CID) + CidsOf(t, contents))
  }

  function RowsOf(kind: Kind, values: seq<Entry>): (rows: set<Row>)
    ensures forall r :: r in rows <==> r.kind == kind && r.value in values
  {
    set v | v in values :: Row(kind, v)
  }

  /** Which users and content ids the closure holds, read off the tables: those listed, and of the contents also those
      that belong to the same user as some row of a listed user. */
  lemma ClosureIds(t: Tables, rows: set<Row>)
    ensures forall x :: x in Closure(t, rows).users <==> Row(USER, x) in rows
    ensures forall x :: x in Closure(t, rows).contents <==>
              (|| Row(DIGITAL_CONTENT, x) in rows
               || exists c, u :: c in t.contents && u in t.users && x == Id(c.blockchainId) && u.owner == c.owner
                                 && Row(USER, Id(u.blockchainId)) in rows)
  {
    var users := Listed(rows, USER);
    forall x
      ensures x in ContentsOf(t, users) <==>
                exists c, u :: c in t.contents && u in t.users && x == Id(c.blockchainId) && u.owner == c.owner
                               && Row(USER, Id(u.blockchainId)) in rows
    {
      if c, u :| c in t.contents && u in t.users && x == Id(c.blockchainId) && u.owner == c.owner
                 && Row(USER, Id(u.blockchainId)) in rows {
        assert Id(u.blockchainId) in users;
        assert Owns(t, users, c);
      }
    }
  }

  /** Which CIDs it holds: those listed, the segments of its contents that are not whitelisted, and the files of its
      contents, of which the whitelist spares only those that are neither originals nor 320 kbit copies. */
  lemma ClosureCids(t: Tables, rows: set<Row>)
    ensures forall cid: string :: Hash(cid) in Closure(t, rows).cids <==>
              (|| Row(CID, Hash(cid)) in rows
               || (exists c :: c in t.contents && Id(c.blockchainId) in Closure(t, rows).contents && c.segments.Some?
                               && cid in c.segments.value && cid != "" && cid !in t.whitelist)
               || (exists f :: f in t.files && f.contentId.Some? && Id(f.contentId.value) in Closure(t, rows).contents
                               && f.multihash == cid
                               && (f.fileType in {"digital_content", "copy320"} || cid !in t.whitelist)))
    ensures forall n :: Id(n) in Closure(t, rows).cids <==> Row(CID, Id(n)) in rows
  {
    var contents := Closure(t, rows).contents;
    forall cid: string
      ensures Hash(cid) in SegmentCids(t, contents) <==>
                exists c :: c in t.contents && Id(c.blockchainId) in contents && c.segments.Some?
                            && cid in c.segments.value && cid != "" && cid !in t.whitelist
      ensures Hash(cid) in FileCids(t, contents) <==>
                exists f :: f in t.files && f.contentId.Some? && Id(f.contentId.value) in contents && f.multihash == cid
                            && (f.fileType in {"digital_content", "copy320"} || cid !in t.whitelist)
    {
      if f :| f in t.files && f.contentId.Some? && Id(f.contentId.value) in contents && f.multihash == cid
              && (f.fileType in {"digital_content", "copy320"} || cid !in t.whitelist) {
        assert IsFileOf(f, contents) && !Exempt(t, f);
      }
    }
  }

  /** Blacklisting users leaves the contents of others alone: with a content id and a CID that occur once. */
  lemma OtherUsersStayOut(t: Tables, values: seq<Entry>, c: ContentRecord, cid: string)
    requires c in t.contents && forall d :: d in t.contents && d.blockchainId == c.blockchainId ==> d == c
    requires forall u :: u in t.users && Id(u.blockchainId) in values ==> u.owner != c.owner
    requires forall d :: d in t.contents && IsSegmentOf(d, cid) ==> d == c
    requires forall f :: f in t.files && f.multihash == cid ==> f.contentId == Some(c.blockchainId)
    ensures Id(c.blockchainId) !in Closure(t, RowsOf(USER, values)).contents
    ensures Hash(cid) !in Closure(t, RowsOf(USER, values)).cids
  {
    var rows := RowsOf(USER, values);
    ClosureIds(t, rows);
    var x := Id(c.blockchainId);
    if d, u :| d in t.contents && u in t.users && x == Id(d.blockchainId) && u.owner == d.owner
               && Row(USER, Id(u.blockchainId)) in rows {
      assert false;
    }
    ClosureCids(t, rows);
  }

  /** ... while those of the listed user are in. */
  lemma OwnContentsAreIn(t: Tables, values: seq<Entry>, u: UserRecord, c: ContentRecord, cid: string)
    requires u in t.users && Id(u.blockchainId) in values && c in t.contents && c.owner == u.owner
    requires IsSegmentOf(c, cid) && cid != "" && cid !in t.whitelist
    ensures Id(c.blockchainId) in Closure(t, RowsOf(USER, values)).contents
    ensures Hash(cid) in Closure(t, RowsOf(USER, values)).cids
  {
    var rows := RowsOf(USER, values);
    ClosureIds(t, rows);
    assert Row(USER, Id(u.blockchainId)) in rows;
    ClosureCids(t, rows);
  }

  /** Closing over a union is the union of the closures: what incremental upkeep of the index rests on. */
  lemma ClosureUnion(t: Tables, a: set<Row>, b: set<Row>)
    ensures Closure(t, a + b) == Closure(t, a).Union(Closure(t, b))
  {
    var ua, ub := Listed(a, USER), Listed(b, USER);
    assert Listed(a + b, USER) == ua + ub;
    assert Listed(a + b, DIGITAL_CONTENT) == Listed(a, DIGITAL_CONTENT) + Listed(b, DIGITAL_CONTENT);
    assert Listed(a + b, CID) == Listed(a, CID) + Listed(b, CID);
    ContentsOfUnion(t, ua, ub);
    var ca := Listed(a, DIGITAL_CONTENT) + ContentsOf(t, ua);
    var cb := Listed(b, DIGITAL_CONTENT) + ContentsOf(t, ub);
    assert Listed(a + b, DIGITAL_CONTENT) + ContentsOf(t, ua + ub) == ca + cb;
    CidsOfUnion(t, ca, cb);
  }

  lemma ContentsOfUnion(t: Tables, a: set<Entry>, b: set<Entry>)
    ensures ContentsOf(t, a + b) == ContentsOf(t, a) + ContentsOf(t, b)
  {
    forall c | c in t.contents
      ensures Owns(t, a + b, c) <==> Owns(t, a, c) || Owns(t, b, c)
    {
    }
  }

  lemma CidsOfUnion(t: Tables, a: set<Entry>, b: set<Entry>)
    ensures CidsOf(t, a + b) == CidsOf(t, a) + CidsOf(t, b)
  {
    assert SegmentCids(t, a + b) == SegmentCids(t, a) + SegmentCids(t, b);
    assert FileCids(t, a + b) == FileCids(t, a) + FileCids(t, b);
  }

  lemma ClosureMonotone(t: Tables, a: set<Row>, b: set<Row>)
    requires a <= b
    ensures Closure(t, a).Within(Closure(t, b))
  {
    ClosureUnion(t, a, b);
    assert a + b == b;
  }

  // ---------------------------------------------------------------------------------------------
  // Steps over (table, redis), and what every run of them keeps
  // ---------------------------------------------------------------------------------------------

  /** `refusals` counts the sadd calls that failed; the chunk helper swallows those failures. */
  datatype State = State(rows: set<Row>, index: Index, refusals: nat)

  /**
   An attempt to add the closure of `rows` to redis: whatever happens, redis only grows, and never beyond that
   closure. All of it is there when the call returned normally and no sadd was refused.
   */
  ghost predicate Indexed(t: Tables, before: State, rows: set<Row>, ok: bool, after: State) {
    && before.index.Within(after.index)
    && after.index.Within(before.index.Union(Closure(t, rows)))
    && before.refusals <= after.refusals
    && (ok && after.refusals == before.refusals ==> after.index == before.index.Union(Closure(t, rows)))
  }

  datatype Op = Init | Add(kind: Kind, values: seq<Entry>) | Remove(kind: Kind, values: seq<Entry>)

  ghost predicate Step(t: Tables, s: State, op: Op, ok: bool, s': State) {
    match op
    case Init =>
      s'.rows == s.rows && Indexed(t, s, s.rows, ok, s')
    case Add(kind, values) =>
      || (!ok && s' == s)
      || (s'.rows == s.rows + RowsOf(kind, values) && Indexed(t, s, RowsOf(kind, values), ok, s'))
    case Remove(kind, values) =>
      var gone := RowsOf(kind, values);
      || (!ok && s' == s)
      || (s'.rows == s.rows - gone && s'.refusals == s.refusals
          && s.index.Minus(Closure(t, gone)).Within(s'.index) && s'.index.Within(s.index)
          && (ok ==> s'.index == s.index.Minus(Closure(t, gone))))
  }

  datatype Event = Event(op: Op, ok: bool)

  ghost predicate StepAt(t: Tables, states: seq<State>, events: seq<Event>, i: nat)
    requires |states| == |events| + 1 && i < |events|
  {
    Step(t, states[i], events[i].op, events[i].ok, states[i + 1])
  }

  ghost predicate Run(t: Tables, states: seq<State>, events: seq<Event>) {
    && |states| == |events| + 1
    && forall i :: 0 <= i < |events| ==> StepAt(t, states, events, i)
  }

  /** The rows that redis has been told about after n events: all of them at init, the added ones at add. */
  ghost function Told(states: seq<State>, events: seq<Event>, n: nat): set<Row>
    requires |states| == |events| + 1 && n <= |events|
  {
    if n == 0 then {} else
    var before := Told(states, events, n - 1);
    match events[n - 1].op
    case Init => before + states[n - 1].rows
    case Add(kind, values) => before + RowsOf(kind, values)
    case Remove(kind, values) => before - RowsOf(kind, values)
  }

  ghost predicate NoRemovals(events: seq<Event>) {
    forall i :: 0 <= i < |events| ==> !events[i].op.Remove?
  }

  ghost predicate AllReturned(events: seq<Event>) {
    forall i :: 0 <= i < |events| ==> events[i].ok
  }

  /** Every removal of the run takes out something separable from what redis knows by then. */
  lemma NothingListed(t: Tables)
    ensures Closure(t, {}) == EMPTY
  {
    assert Listed({}, USER) == {} && Listed({}, DIGITAL_CONTENT) == {} && Listed({}, CID) == {};
    assert ContentsOf(t, {}) == {};
    assert SegmentCids(t, {}) == {} && FileCids(t, {}) == {};
  }

  lemma OneRowGone(t: Tables, row: Row)
    ensures Closure(t, {row}).Minus(Closure(t, {row})) == EMPTY && Separable(t, {row}, {row})
  {
    NothingListed(t);
    assert {row} - {row} == {};
    var c := Closure(t, {row});
    assert c.users - c.users == {} && c.contents - c.contents == {} && c.cids - c.cids == {};
  }

  lemma OneRowSteps(t: Tables, row: Row)
    ensures Step(t, State({row}, EMPTY, 0), Init, true, State({row}, Closure(t, {row}), 0))
    ensures Step(t, State({row}, Closure(t, {row}), 0), Remove(row.kind, [row.value]), true, State({}, EMPTY, 0))
  {
    OneRowGone(t, row);
    assert EMPTY.Union(Closure(t, {row})) == Closure(t, {row});
    assert RowsOf(row.kind, [row.value]) == {row} && {row} - {row} == {};
  }

  /** A run with an init and a removal. */
  lemma InitThenRemove(t: Tables, row: Row)
    ensures var states := [State({row}, EMPTY, 0), State({row}, Closure(t, {row}), 0), State({}, EMPTY, 0)];
            var events := [Event(Init, true), Event(Remove(row.kind, [row.value]), true)];
            && Run(t, states, events) && AllReturned(events) && RemovalsAreSeparable(t, states, events)
            && NoRemovals(events[..1])
  {
    var listed, full, gone := State({row}, EMPTY, 0), State({row}, Closure(t, {row}), 0), State({}, EMPTY, 0);
    var states := [listed, full, gone];
    var events := [Event(Init, true), Event(Remove(row.kind, [row.value]), true)];
    OneRowGone(t, row);
    OneRowSteps(t, row);
    assert RowsOf(row.kind, [row.value]) == {row};
    assert StepAt(t, states, events, 0) && StepAt(t, states, events, 1);
    assert Told(states, events, 1) == {row};
  }

  ghost predicate RemovalsAreSeparable(t: Tables, states: seq<State>, events: seq<Event>)
    requires |states| == |events| + 1
  {
    forall i :: 0 <= i < |events| && events[i].op.Remove? ==>
      Separable(t, Told(states, events, i), RowsOf(events[i].op.kind, events[i].op.values))
  }

  /** No run of init and add, however it fails, ever puts anything outside the closure of the table. */
  lemma {:induction false} RunStaysInsideClosure(t: Tables, states: seq<State>, events: seq<Event>, n: nat)
    requires Run(t, states, events) && NoRemovals(events) && n <= |events|
    requires states[0].index.Within(Closure(t, states[0].rows))
    ensures states[n].index.Within(Closure(t, states[n].rows))
  {
    if n == 0 {
    } else {
      RunStaysInsideClosure(t, states, events, n - 1);
      var s := states[n - 1];
      assert StepAt(t, states, events, n - 1);
      match events[n - 1].op
      case Init =>
      case Add(kind, values) =>
        ClosureUnion(t, s.rows, RowsOf(kind, values));
    }
  }

  /** What is in redis stays there in every run, failures included, as long as no removed row accounts for it. */
  lemma {:induction false} RunKeepsTheRest(t: Tables, states: seq<State>, events: seq<Event>, n: nat, kept: Index)
    requires Run(t, states, events) && n <= |events|
    requires kept.Within(states[0].index)
    requires forall i :: 0 <= i < n && events[i].op.Remove? ==>
               var gone := Closure(t, RowsOf(events[i].op.kind, events[i].op.values));
               kept.users !! gone.users && kept.contents !! gone.contents && kept.cids !! gone.cids
    ensures kept.Within(states[n].index)
  {
    if n > 0 {
      RunKeepsTheRest(t, states, events, n - 1, kept);
      assert StepAt(t, states, events, n - 1);
    }
  }

  /** Nor does any other run, removals and failures included, put anything outside the closure of the rows that were
      ever listed. */
  lemma {:induction false} RunHoldsNothingElse(t: Tables, states: seq<State>, events: seq<Event>, n: nat,
                                               ever: set<Row>)
    requires Run(t, states, events) && n <= |events|
    requires states[0].rows <= ever && states[0].index.Within(Closure(t, ever))
    requires forall i :: 0 <= i < n && events[i].op.Add? ==> RowsOf(events[i].op.kind, events[i].op.values) <= ever
    ensures states[n].rows <= ever && states[n].index.Within(Closure(t, ever))
  {
    if n > 0 {
      RunHoldsNothingElse(t, states, events, n - 1, ever);
      var s := states[n - 1];
      assert StepAt(t, states, events, n - 1);
      match events[n - 1].op
      case Init => ClosureMonotone(t, s.rows, ever);
      case Add(kind, values) => ClosureMonotone(t, RowsOf(kind, values), ever);
      case Remove(_, _) =>
    }
  }

  /**
   The index agrees with the table: over a run from empty redis in which every call returned normally, no sadd was
   refused and every removal was separable, redis is at every point exactly the closure of the rows it was told about.
   */
  lemma {:induction false} RunComputesClosure(t: Tables, states: seq<State>, events: seq<Event>, n: nat)
    requires Run(t, states, events) && AllReturned(events) && n <= |events|
    requires states[0].index == EMPTY && states[n].refusals == states[0].refusals
    requires RemovalsAreSeparable(t, states, events)
    ensures states[n].index == Closure(t, Told(states, events, n))
  {
    if n == 0 {
    } else {
      NothingRefusedBefore(t, states, events, n);
      RunComputesClosure(t, states, events, n - 1);
      assert StepAt(t, states, events, n - 1);
      StepComputesClosure(t, Told(states, events, n - 1), states[n - 1], events[n - 1], states[n]);
    }
  }

  /** One step from an index that is the closure of the rows told about. */
  lemma StepComputesClosure(t: Tables, told: set<Row>, s: State, event: Event, s': State)
    requires Step(t, s, event.op, event.ok, s') && event.ok
    requires s.index == Closure(t, told) && s'.refusals == s.refusals
    requires event.op.Remove? ==> Separable(t, told, RowsOf(event.op.kind, event.op.values))
    ensures event.op.Init? ==> s'.index == Closure(t, told + s.rows)
    ensures event.op.Add? ==> s'.index == Closure(t, told + RowsOf(event.op.kind, event.op.values))
    ensures event.op.Remove? ==> s'.index == Closure(t, told - RowsOf(event.op.kind, event.op.values))
  {
    match event.op
    case Init =>
      ClosureUnion(t, told, s.rows);
    case Add(kind, values) =>
      ClosureUnion(t, told, RowsOf(kind, values));
    case Remove(kind, values) =>
      RemovalAgreesExactlyWhenSeparable(t, told, RowsOf(kind, values));
  }

  lemma {:induction false} RefusalsGrow(t: Tables, states: seq<State>, events: seq<Event>, start: nat, until: nat)
    requires Run(t, states, events) && start <= until <= |events|
    ensures states[start].refusals <= states[until].refusals
    decreases until - start
  {
    if start < until {
      assert StepAt(t, states, events, start);
      RefusalsGrow(t, states, events, start + 1, until);
    }
  }

  lemma NothingRefusedBefore(t: Tables, states: seq<State>, events: seq<Event>, n: nat)
    requires Run(t, states, events) && 0 < n <= |events| && states[n].refusals == states[0].refusals
    ensures states[n - 1].refusals == states[0].refusals
  {
    RefusalsGrow(t, states, events, 0, n - 1);
    RefusalsGrow(t, states, events, n - 1, n);
  }

  /** Redis has been told about the whole table once it was told about the rows that were there first. */
  lemma {:induction false} ToldIsTheTable(t: Tables, states: seq<State>, events: seq<Event>, n: nat)
    requires Run(t, states, events) && AllReturned(events) && n <= |events|
    ensures Told(states, events, n) <= states[n].rows <= states[0].rows + Told(states, events, n)
    ensures states[0].rows == {} || (exists i :: 0 <= i < n && events[i].op.Init?) ==>
              Told(states, events, n) == states[n].rows
  {
    if n == 0 {
    } else {
      ToldIsTheTable(t, states, events, n - 1);
      assert StepAt(t, states, events, n - 1);
      StepChangesTable(t, states[n - 1], events[n - 1], states[n]);
    }
  }

  lemma StepChangesTable(t: Tables, s: State, event: Event, s': State)
    requires Step(t, s, event.op, event.ok, s') && event.ok
    ensures event.op.Init? ==> s'.rows == s.rows
    ensures event.op.Add? ==> s'.rows == s.rows + RowsOf(event.op.kind, event.op.values)
    ensures event.op.Remove? ==> s'.rows == s.rows - RowsOf(event.op.kind, event.op.values)
  {
  }

  /** The promise of the index: at every point of a run of successful inits, adds and separable removals that has seen
      an init (or started with an empty table), redis is the closure of the table. */
  lemma IndexAgreesWithTable(t: Tables, states: seq<State>, events: seq<Event>, n: nat)
    requires Run(t, states, events) && AllReturned(events) && n <= |events|
    requires RemovalsAreSeparable(t, states, events)
    requires states[0].index == EMPTY && states[n].refusals == states[0].refusals
    requires states[0].rows == {} || exists i :: 0 <= i < n && events[i].op.Init?
    ensures states[n].index == Closure(t, states[n].rows)
  {
    RunComputesClosure(t, states, events, n);
    ToldIsTheTable(t, states, events, n);
  }

  ghost predicate Agrees(t: Tables, s: State) {
    s.index == Closure(t, s.rows)
  }

  ghost predicate RemovesSeparably(t: Tables, s: State, op: Op) {
    op.Remove? ==> Separable(t, s.rows, RowsOf(op.kind, op.values))
  }

  lemma StepAgreesExactlyWhenSeparable(t: Tables, s: State, event: Event, s': State)
    requires Step(t, s, event.op, event.ok, s') && event.ok && s'.refusals == s.refusals
    requires Agrees(t, s)
    ensures Agrees(t, s') <==> RemovesSeparably(t, s, event.op)
  {
    StepChangesTable(t, s, event, s');
    match event.op
    case Init =>
      ClosureUnion(t, s.rows, s.rows);
      assert s.rows + s.rows == s.rows;
    case Add(kind, values) =>
      ClosureUnion(t, s.rows, RowsOf(kind, values));
    case Remove(kind, values) =>
      RemovalAgreesExactlyWhenSeparable(t, s.rows, RowsOf(kind, values));
  }

  lemma RunStepAgrees(t: Tables, states: seq<State>, events: seq<Event>, n: nat)
    requires Run(t, states, events) && AllReturned(events) && n < |events|
    requires states[n + 1].refusals == states[n].refusals && Agrees(t, states[n])
    ensures Agrees(t, states[n + 1]) <==> RemovesSeparably(t, states[n], events[n].op)
  {
    assert StepAt(t, states, events, n);
    StepAgreesExactlyWhenSeparable(t, states[n], events[n], states[n + 1]);
  }

  /** At the n-th state and all before it. */
  ghost predicate AgreesUpTo(t: Tables, states: seq<State>, n: nat)
    requires n < |states|
  {
    Agrees(t, states[n]) && (n == 0 || AgreesUpTo(t, states, n - 1))
  }

  /** The first n events. */
  ghost predicate RemoveSeparablyUpTo(t: Tables, states: seq<State>, events: seq<Event>, n: nat)
    requires n <= |events| <= |states|
  {
    n == 0 || (RemovesSeparably(t, states[n - 1], events[n - 1].op) && RemoveSeparablyUpTo(t, states, events, n - 1))
  }

  /** Once redis agrees with the table, it does so all along a run of inits, adds and removals exactly when every
      removal takes out something that no remaining row accounts for. */
  lemma {:induction false} IndexStaysExactlyWhenSeparable(t: Tables, states: seq<State>, events: seq<Event>, n: nat)
    requires Run(t, states, events) && AllReturned(events) && n <= |events|
    requires Agrees(t, states[0]) && states[n].refusals == states[0].refusals
    ensures AgreesUpTo(t, states, n) <==> RemoveSeparablyUpTo(t, states, events, n)
  {
    if n > 0 {
      NothingRefusedBefore(t, states, events, n);
      IndexStaysExactlyWhenSeparable(t, states, events, n - 1);
      if AgreesUpTo(t, states, n - 1) {
        RunStepAgrees(t, states, events, n - 1);
      }
    }
  }

  /** After any run of inits and adds, however they failed, one init that returns with no sadd refused makes redis agree
      with the table. */
  lemma InitRecovers(t: Tables, states: seq<State>, events: seq<Event>, n: nat)
    requires Run(t, states, events) && NoRemovals(events) && n < |events|
    requires states[0].index.Within(Closure(t, states[0].rows))
    requires events[n] == Event(Init, true) && states[n + 1].refusals == states[n].refusals
    ensures Agrees(t, states[n + 1])
  {
    RunStaysInsideClosure(t, states, events, n);
    assert StepAt(t, states, events, n);
  }

  // ---------------------------------------------------------------------------------------------
  // Removal
  // ---------------------------------------------------------------------------------------------

  /** Nothing that the removed values account for is also accounted for by a row that stays. */
  ghost predicate Separable(t: Tables, rows: set<Row>, gone: set<Row>) {
    Closure(t, gone).DisjointFrom(Closure(t, rows - gone))
  }

  /**
   Removing `gone` from the table and its closure from redis leaves redis equal to the closure of what stays
   exactly when the two closures share nothing.
   */
  lemma RemovalAgreesExactlyWhenSeparable(t: Tables, rows: set<Row>, gone: set<Row>)
    ensures Closure(t, rows).Minus(Closure(t, gone)) == Closure(t, rows - gone) <==> Separable(t, rows, gone)
  {
    var stays := rows - gone;
    ClosureUnion(t, stays, rows * gone);
    assert stays + rows * gone == rows;
    ClosureMonotone(t, rows * gone, gone);
    var before, out, after := Closure(t, rows), Closure(t, gone), Closure(t, stays);
    assert before.users - out.users == after.users - out.users;
    assert before.contents - out.contents == after.contents - out.contents;
    assert before.cids - out.cids == after.cids - out.cids;
    MinusIsSelf(after.users, out.users);
    MinusIsSelf(after.contents, out.contents);
    MinusIsSelf(after.cids, out.cids);
  }

  lemma MinusIsSelf<T>(a: set<T>, b: set<T>)
    ensures a - b == a <==> a !! b
  {
    if a - b == a {
      assert forall x :: x in a ==> x in a - b;
    }
  }

  /** add followed by remove of the same values gives back table and redis exactly when the values were not listed
      before and share nothing with the rest of the closure. */
  lemma RemoveUndoesAdd(t: Tables, rows: set<Row>, values: set<Row>)
    ensures (rows + values) - values == rows
            && Closure(t, rows).Union(Closure(t, values)).Minus(Closure(t, values)) == Closure(t, rows)
            <==> values !! rows && Closure(t, values).DisjointFrom(Closure(t, rows))
  {
    var c, v := Closure(t, rows), Closure(t, values);
    assert (rows + values) - values == rows - values;
    MinusIsSelf(rows, values);
    MinusIsSelf(c.users, v.users);
    MinusIsSelf(c.contents, v.contents);
    MinusIsSelf(c.cids, v.cids);
    assert (c.users + v.users) - v.users == c.users - v.users;
    assert (c.contents + v.contents) - v.contents == c.contents - v.contents;
    assert (c.cids + v.cids) - v.cids == c.cids - v.cids;
  }

  /** The separating condition can fail: a content listed on its own and through its owner is un-indexed when the
      owner is removed, although its row stays. */
  lemma RemovalCanUnlistAStayingRow()
    ensures var t := Tables([UserRecord("u", 1)], [ContentRecord("u", 7, None)], [], {});
            var rows := {Row(USER, Id(1)), Row(DIGITAL_CONTENT, Id(7))};
            var gone := RowsOf(USER, [Id(1)]);
            && Row(DIGITAL_CONTENT, Id(7)) in rows - gone
            && Id(7) in Closure(t, rows - gone).contents
            && Id(7) !in Closure(t, rows).Minus(Closure(t, gone)).contents
  {
    var t := Tables([UserRecord("u", 1)], [ContentRecord("u", 7, None)], [], {});
    var rows := {Row(USER, Id(1)), Row(DIGITAL_CONTENT, Id(7))};
    var gone := RowsOf(USER, [Id(1)]);
    assert Row(DIGITAL_CONTENT, Id(7)) in rows - gone;
    assert Row(USER, Id(1)) in gone;
    assert Id(1) in Listed(gone, USER);
    assert t.users[0] in t.users && t.contents[0] in t.contents;
    assert Owns(t, Listed(gone, USER), t.contents[0]);
    assert Id(7) in ContentsOf(t, Listed(gone, USER));
  }

  // ---------------------------------------------------------------------------------------------
  // The manager itself
  // ---------------------------------------------------------------------------------------------

  const BATCH_SIZE := 200

  /** `new Set(list)` spread back into a list. */
  function Distinct<T(==)>(s: seq<T>): (r: seq<T>)
    ensures SetOf(r) == SetOf(s)
    ensures forall i, j :: 0 <= i < j < |r| ==> r[i] != r[j]
  {
    if s == [] then []
    else
      var n := |s| - 1;
      assert s == s[..n] + [s[n]];
      assert SetOf(s) == SetOf(s[..n]) + {s[n]};
      var rest := Distinct(s[..n]);
      assert s[n] in SetOf(rest) <==> s[n] in rest;
      assert SetOf(rest + [s[n]]) == SetOf(rest) + {s[n]};
      if s[n] in rest then rest else rest + [s[n]]
  }

  /** select "blockchainId" from "DigitalContents" where the owner is one of the listed users */
  function SelectOwned(t: Tables, records: seq<ContentRecord>, users: set<Entry>): (ids: seq<Entry>)
    ensures SetOf(ids) == set c | c in records && Owns(t, users, c) :: Id(c.blockchainId)
  {
    if records == [] then []
    else
      assert records == [records[0]] + records[1..];
      var first := if Owns(t, users, records[0]) then [Id(records[0].blockchainId)] else [];
      var rest := SelectOwned(t, records[1..], users);
      assert SetOf(first + rest) == SetOf(first) + SetOf(rest);
      first + rest
  }

  /** DigitalContent.findAll({ where: { blockchainId: ids } }) */
  function SelectContents(records: seq<ContentRecord>, ids: set<Entry>): (found: seq<ContentRecord>)
    ensures forall c :: c in found <==> c in records && Id(c.blockchainId) in ids
  {
    if records == [] then []
    else
      (if Id(records[0].blockchainId) in ids then [records[0]] else []) + SelectContents(records[1..], ids)
  }

  /** File.findAll({ where: { digitalContentBlockchainId: ids } }) */
  function SelectFiles(records: seq<FileRecord>, ids: set<Entry>): (found: seq<FileRecord>)
    ensures forall f :: f in found <==> f in records && IsFileOf(f, ids)
  {
    if records == [] then []
    else
      (if IsFileOf(records[0], ids) then [records[0]] else []) + SelectFiles(records[1..], ids)
  }

  class BlacklistManager {
    const t: Tables
    /** No call to redis or to the database fails. */
    const healthy: bool
    var rows: set<Row>
    var index: Index
    var refusals: nat
    var initialized: bool

    constructor (t: Tables, rows: set<Row>, healthy: bool)
      ensures this.t == t && this.healthy == healthy && Now() == State(rows, EMPTY, 0) && !initialized
    {
      this.t, this.rows, this.healthy := t, rows, healthy;
      index, refusals, initialized := EMPTY, 0, false;
    }

    /** Whether the next call to redis or to the database fails. */
    method MayFail() returns (fails: bool)
      ensures healthy ==> !fails
    {
      fails := *;
      fails := fails && !healthy;
    }

    ghost function Now(): State
      reads this
    {
      State(rows, index, refusals)
    }

    function Members(key: RedisKey): set<Entry>
      reads this
    {
      match key
      case UserIdKey => index.users
      case ContentIdKey => index.contents
      case SegmentCidKey => index.cids
    }

    method SetMembers(key: RedisKey, members: set<Entry>)
      modifies this`index
      ensures index == With(old(index), key, members)
    {
      match key {
        case UserIdKey => index := index.(users := members);
        case ContentIdKey => index := index.(contents := members);
        case SegmentCidKey => index := index.(cids := members);
      }
    }

    static function With(index: Index, key: RedisKey, members: set<Entry>): Index {
      match key
      case UserIdKey => index.(users := members)
      case ContentIdKey => index.(contents := members)
      case SegmentCidKey => index.(cids := members)
    }

    /** redis.sadd: all the members are added, or the call fails and none is. */
    method Sadd(key: RedisKey, members: seq<Entry>) returns (ok: bool)
      modifies this`index, this`refusals
      ensures ok ==> index == With(old(index), key, old(Members(key)) + SetOf(members)) && refusals == old(refusals)
      ensures !ok ==> index == old(index) && refusals == old(refusals) + 1
      ensures healthy ==> ok
    {
      var fails := MayFail();
      if fails {
        refusals := refusals + 1;
        ok := false;
      } else {
        SetMembers(key, Members(key) + SetOf(members));
        ok := true;
      }
    }

    /** _addToRedisChunkHelper: a failed chunk stops the loop and is only logged. */
    method AddInChunks(key: RedisKey, data: seq<Entry>)
      modifies this`index, this`refusals
      ensures exists n :: 0 <= n <= |data| && index == With(old(index), key, old(Members(key)) + SetOf(data[..n]))
                          && (n == |data| <==> refusals == old(refusals))
      ensures old(refusals) <= refusals <= old(refusals) + 1
      ensures healthy ==> refusals == old(refusals)
    {
      var i := 0;
      assert With(index, key, Members(key) + SetOf(data[..0])) == index;
      while i < |data|
        invariant 0 <= i
        invariant index == With(old(index), key, old(Members(key)) + SetOf(data[..Min(i, |data|)]))
        invariant refusals == old(refusals)
      {
        var j := Min(i + CHUNK_SIZE, |data|);
        assert data[..j] == data[..i] + data[i..j];
        var ok := Sadd(key, data[i..j]);
        if !ok {
          return;
        }
        i := i + CHUNK_SIZE;
      }
      assert data[..|data|] == data;
    }

    /** addToRedis on one of the three sets. */
    method AddToRedis(key: RedisKey, data: seq<Entry>)
      modifies this`index, this`refusals
      ensures old(index).Within(index)
      ensures index.Within(With(old(index), key, old(Members(key)) + SetOf(data)))
      ensures refusals >= old(refusals)
      ensures refusals == old(refusals) ==> index == With(old(index), key, old(Members(key)) + SetOf(data))
      ensures healthy ==> refusals == old(refusals)
    {
      if |data| == 0 {
        return;
      }
      AddInChunks(key, data);
    }

    /** getCIDsToBlacklist: fills a set from the metadata segments, then from the files of the same contents. */
    method GetCidsToBlacklist(ids: seq<Entry>) returns (cids: Option<seq<Entry>>)
      ensures cids.Some? ==> SetOf(cids.value) == CidsOf(t, SetOf(ids))
      ensures healthy ==> cids.Some?
    {
      var fails := MayFail();
      if fails {
        return None;
      }
      var found: seq<Entry> := [];
      var contents := SelectContents(t.contents, SetOf(ids));
      for i := 0 to |contents|
        invariant SetOf(found) == set k, cid | 0 <= k < i && contents[k].segments.Some?
                    && cid in contents[k].segments.value && cid != "" && cid !in t.whitelist :: Hash(cid)
      {
        if contents[i].segments.Some? {
          found := AddSegments(found, contents[i].segments.value);
        }
      }
      assert SetOf(found) == SegmentCids(t, SetOf(ids));
      if |ids| > 0 {
        found := AddFiles(found, SelectFiles(t.files, SetOf(ids)));
      }
      assert ids == [] ==> FileCids(t, SetOf(ids)) == {};
      cids := Some(found);
    }

    method AddSegments(found: seq<Entry>, segments: seq<string>) returns (more: seq<Entry>)
      ensures SetOf(more) == SetOf(found) + set cid | cid in segments && cid != "" && cid !in t.whitelist :: Hash(cid)
    {
      more := found;
      for j := 0 to |segments|
        invariant SetOf(more) == SetOf(found)
                    + set cid | cid in segments[..j] && cid != "" && cid !in t.whitelist :: Hash(cid)
      {
        assert segments[..j + 1] == segments[..j] + [segments[j]];
        if segments[j] != "" && segments[j] !in t.whitelist && Hash(segments[j]) !in more {
          assert SetOf(more + [Hash(segments[j])]) == SetOf(more) + {Hash(segments[j])};
          more := more + [Hash(segments[j])];
        }
      }
      assert segments[..|segments|] == segments;
    }

    method AddFiles(found: seq<Entry>, files: seq<FileRecord>) returns (more: seq<Entry>)
      ensures SetOf(more) == SetOf(found) + set f | f in files && !Exempt(t, f) :: Hash(f.multihash)
    {
      more := found;
      for j := 0 to |files|
        invariant SetOf(more) == SetOf(found) + set f | f in files[..j] && !Exempt(t, f) :: Hash(f.multihash)
      {
        assert files[..j + 1] == files[..j] + [files[j]];
        var f := files[j];
        if f.fileType == "digital_content" || f.fileType == "copy320" || f.multihash !in t.whitelist {
          if Hash(f.multihash) !in more {
            assert SetOf(more + [Hash(f.multihash)]) == SetOf(more) + {Hash(f.multihash)};
            more := more + [Hash(f.multihash)];
          }
        }
      }
      assert files[..|files|] == files;
    }

    /** The CIDs of one batch of content ids. */
    method AddBatch(ids: seq<Entry>) returns (ok: bool)
      modifies this`index, this`refusals
      ensures index == old(index).(cids := index.cids)
      ensures old(index).cids <= index.cids <= old(index).cids + CidsOf(t, SetOf(ids))
      ensures refusals >= old(refusals)
      ensures ok && refusals == old(refusals) ==> index.cids == old(index).cids + CidsOf(t, SetOf(ids))
      ensures healthy ==> ok && refusals == old(refusals)
    {
      var cids := GetCidsToBlacklist(ids);
      if cids.None? {
        return false;
      }
      AddToRedis(SegmentCidKey, cids.value);
      ok := true;
    }

    /** addAggregateCIDsToRedis: one batch of content ids at a time; a failing batch ends the call, and so does
        the database transaction around it if it cannot be begun or committed. */
    method AddAggregateCids(ids: seq<Entry>) returns (ok: bool)
      modifies this`index, this`refusals
      ensures index == old(index).(cids := index.cids)
      ensures old(index).cids <= index.cids <= old(index).cids + CidsOf(t, SetOf(ids))
      ensures refusals >= old(refusals)
      ensures ok && refusals == old(refusals) ==> index.cids == old(index).cids + CidsOf(t, SetOf(ids))
      ensures healthy ==> ok && refusals == old(refusals)
    {
      var fails := MayFail();
      if fails {
        return false;
      }
      var i := 0;
      ghost var done: set<Entry> := {};
      CidsOfNothing(t, ids);
      while i < |ids|
        invariant 0 <= i
        invariant done == CidsOf(t, SetOf(ids[..Min(i, |ids|)])) <= CidsOf(t, SetOf(ids))
        invariant index == old(index).(cids := index.cids)
        invariant old(index).cids <= index.cids <= old(index).cids + done
        invariant refusals >= old(refusals)
        invariant refusals == old(refusals) ==> index.cids == old(index).cids + done
        invariant healthy ==> refusals == old(refusals)
      {
        var j := Min(i + BATCH_SIZE, |ids|);
        BatchGrows(t, ids, i, j);
        ok := AddBatch(ids[i..j]);
        if !ok {
          return;
        }
        done := done + CidsOf(t, SetOf(ids[i..j]));
        i := i + BATCH_SIZE;
      }
      assert ids[..|ids|] == ids;
      fails := MayFail();
      ok := !fails;
    }

    /** fetchCIDsAndAddToRedis */
    method FetchCidsAndAddToRedis(contentIds: seq<Entry>, userIds: seq<Entry>, segments: seq<Entry>,
                                  ghost all: set<Row>)
      returns (ok: bool)
      requires Listed(all, USER) == SetOf(userIds)
      requires Listed(all, DIGITAL_CONTENT) == SetOf(contentIds)
      requires Listed(all, CID) == SetOf(segments)
      modifies this`index, this`refusals
      ensures Indexed(t, old(Now()), all, ok, Now())
      ensures healthy ==> ok && refusals == old(refusals)
    {
      var fails := MayFail();
      if fails {
        return false;
      }
      var ids := contentIds + SelectOwned(t, t.contents, SetOf(userIds));
      assert SetOf(ids) == Closure(t, all).contents;
      AddToRedis(ContentIdKey, ids);
      AddToRedis(UserIdKey, userIds);
      AddToRedis(SegmentCidKey, segments);
      ok := AddAggregateCids(Distinct(ids));
    }

    /** ContentBlacklist.findAll for one kind: the listed values, in some order. */
    method SelectListed(kind: Kind) returns (values: seq<Entry>)
      ensures SetOf(values) == Listed(rows, kind)
    {
      values := [];
      var left := Listed(rows, kind);
      while left != {}
        invariant SetOf(values) + left == Listed(rows, kind)
        decreases |left|
      {
        var v :| v in left;
        assert SetOf(values + [v]) == SetOf(values) + {v};
        values, left := values + [v], left - {v};
      }
    }

    /** init: getDataToBlacklist, then redis. */
    method InitIndex() returns (ok: bool)
      modifies this`index, this`refusals, this`initialized
      ensures Step(t, old(Now()), Init, ok, Now())
      ensures healthy ==> ok && refusals == old(refusals)
      ensures initialized == (ok || old(initialized))
    {
      var contents := SelectListed(DIGITAL_CONTENT);
      var users := SelectListed(USER);
      var cids := SelectListed(CID);
      ok := FetchCidsAndAddToRedis(contents, users, cids, rows);
      if ok {
        initialized := true;
      }
    }

    /** add: the table first, then redis. */
    method AddValues(kind: Kind, values: seq<Entry>) returns (ok: bool)
      modifies this`rows, this`index, this`refusals
      ensures Step(t, old(Now()), Add(kind, values), ok, Now())
      ensures healthy ==> ok && refusals == old(refusals)
    {
      var fails := MayFail();
      if fails {
        return false;
      }
      var added := RowsOf(kind, values);
      rows := rows + added;
      ListedOfOneKind(kind, values);
      match kind {
        case USER => ok := FetchCidsAndAddToRedis([], values, [], added);
        case DIGITAL_CONTENT => ok := FetchCidsAndAddToRedis(values, [], [], added);
        case CID => ok := FetchCidsAndAddToRedis([], [], values, added);
      }
    }

    /** removeFromRedis: one srem, which either removes all the members or throws. */
    method RemoveFromRedis(key: RedisKey, data: seq<Entry>) returns (ok: bool)
      modifies this`index
      ensures ok ==> index == With(old(index), key, old(Members(key)) - SetOf(data))
      ensures !ok ==> index == old(index)
      ensures healthy ==> ok
    {
      if |data| == 0 {
        assert With(index, key, Members(key) - SetOf(data)) == index;
        return true;
      }
      var fails := MayFail();
      if fails {
        return false;
      }
      SetMembers(key, Members(key) - SetOf(data));
      ok := true;
    }

    /** fetchCIDsAndRemoveFromRedis */
    method FetchCidsAndRemoveFromRedis(contentIds: seq<Entry>, userIds: seq<Entry>, segments: seq<Entry>,
                                       ghost gone: set<Row>)
      returns (ok: bool)
      requires Listed(gone, USER) == SetOf(userIds)
      requires Listed(gone, DIGITAL_CONTENT) == SetOf(contentIds)
      requires Listed(gone, CID) == SetOf(segments)
      modifies this`index
      ensures old(index).Minus(Closure(t, gone)).Within(index) && index.Within(old(index))
      ensures ok ==> index == old(index).Minus(Closure(t, gone))
      ensures healthy ==> ok
    {
      var fails := MayFail();
      if fails {
        return false;
      }
      var ids := contentIds + SelectOwned(t, t.contents, SetOf(userIds));
      assert SetOf(ids) == Closure(t, gone).contents;
      var fromContents := GetCidsToBlacklist(Distinct(ids));
      if fromContents.None? {
        return false;
      }
      var cids := Distinct(fromContents.value + segments);
      assert SetOf(fromContents.value + segments) == SetOf(fromContents.value) + SetOf(segments);
      assert SetOf(cids) == Closure(t, gone).cids;
      ok := RemoveFromRedis(ContentIdKey, ids);
      if !ok {
        return;
      }
      ok := RemoveFromRedis(UserIdKey, userIds);
      if !ok {
        return;
      }
      ok := RemoveFromRedis(SegmentCidKey, cids);
    }

    /** remove: the table first, then redis. */
    method RemoveValues(kind: Kind, values: seq<Entry>) returns (ok: bool)
      modifies this`rows, this`index
      ensures Step(t, old(Now()), Remove(kind, values), ok, Now())
      ensures healthy ==> ok
      ensures ok && old(index) == Closure(t, old(rows)) ==>
                (index == Closure(t, rows) <==> Separable(t, old(rows), RowsOf(kind, values)))
    {
      var fails := MayFail();
      if fails {
        return false;
      }
      var gone := RowsOf(kind, values);
      rows := rows - gone;
      ListedOfOneKind(kind, values);
      match kind {
        case USER => ok := FetchCidsAndRemoveFromRedis([], values, [], gone);
        case DIGITAL_CONTENT => ok := FetchCidsAndRemoveFromRedis(values, [], [], gone);
        case CID => ok := FetchCidsAndRemoveFromRedis([], [], values, gone);
      }
      RemovalAgreesExactlyWhenSeparable(t, old(rows), gone);
    }
  }

  lemma ListedOfOneKind(kind: Kind, values: seq<Entry>)
    ensures forall k :: Listed(RowsOf(kind, values), k) == if k == kind then SetOf(values) else {}
  {
    forall v | v in values
      ensures v in Listed(RowsOf(kind, values), kind)
    {
      assert Row(kind, v) in RowsOf(kind, values);
    }
  }

  lemma CidsOfNothing(t: Tables, ids: seq<Entry>)
    ensures CidsOf(t, SetOf(ids[..0])) == {}
  {
    assert SetOf(ids[..0]) == {};
  }

  lemma BatchGrows(t: Tables, ids: seq<Entry>, i: nat, j: nat)
    requires i <= j <= |ids|
    ensures CidsOf(t, SetOf(ids[..j])) == CidsOf(t, SetOf(ids[..i])) + CidsOf(t, SetOf(ids[i..j]))
    ensures CidsOf(t, SetOf(ids[..j])) <= CidsOf(t, SetOf(ids))
  {
    assert ids[..j] == ids[..i] + ids[i..j];
    assert SetOf(ids[..j]) == SetOf(ids[..i]) + SetOf(ids[i..j]);
    CidsOfUnion(t, SetOf(ids[..i]), SetOf(ids[i..j]));
    assert SetOf(ids) == SetOf(ids[..j]) + SetOf(ids);
    CidsOfUnion(t, SetOf(ids[..j]), SetOf(ids));
  }
}
