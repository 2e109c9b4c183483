/**
 May this node serve a CID?

 `isServable` answers from redis where it can: from a cache of content id to segment CIDs, and from a set of ids
 already found to be invalid. `TableAnswer` is the answer computed from the content tables alone.
 */
module Servability {
  import opened Prelude
  import opened ContentTables

  /** The content id that came with a request: absent, some value that is not an integer, or an integer. */
  datatype GivenId = Absent | NotAnInteger | Int(n: int)

  /** `cache` has no empty sets, as redis has none. `refusals` counts failed sadd calls, which are swallowed. */
  datatype State = State(contents: seq<ContentRecord>, blocked: Index,
                         cache: map<int, set<string>>, invalid: set<int>, refusals: nat)

  /** The first row that findAll returns for an id. */
  function First(contents: seq<ContentRecord>, n: int): Option<ContentRecord> {
    if contents == [] then None
    else if contents[0].blockchainId == n then Some(contents[0])
    else First(contents[1..], n)
  }

  /** The i-th row is the first with this id. */
  ghost predicate IsFirst(contents: seq<ContentRecord>, n: int, i: int) {
    0 <= i < |contents| && contents[i].blockchainId == n && forall j :: 0 <= j < i ==> contents[j].blockchainId != n
  }

  lemma {:induction false} FirstIsFirst(contents: seq<ContentRecord>, n: int)
    ensures First(contents, n).None? <==> forall i :: 0 <= i < |contents| ==> contents[i].blockchainId != n
    ensures forall i :: IsFirst(contents, n, i) ==> First(contents, n) == Some(contents[i])
    ensures First(contents, n).Some? ==> exists i :: IsFirst(contents, n, i)
  {
    if contents != [] {
      if contents[0].blockchainId == n {
        assert IsFirst(contents, n, 0);
      } else {
        FirstIsFirst(contents[1..], n);
        forall i | IsFirst(contents, n, i)
          ensures First(contents, n) == Some(contents[i])
        {
          assert IsFirst(contents[1..], n, i - 1);
        }
        if i :| IsFirst(contents[1..], n, i) {
          assert IsFirst(contents, n, i + 1);
        }
        assert forall i :: 0 < i < |contents| ==> contents[i] == contents[1..][i - 1];
      }
    }
  }

  predicate StoredSegment(contents: seq<ContentRecord>, n: int, cid: string) {
    var r := First(contents, n);
    r.Some? && IsSegmentOf(r.value, cid)
  }

  // A zero id is falsy in the original, so it is not looked up in the blacklist.
  predicate IdIsBlocked(blocked: Index, id: GivenId) {
    id.Int? && id.n != 0 && Id(id.n) in blocked.contents
  }

  /** The answer the content tables give. */
  predicate TableAnswer(s: State, cid: string, id: GivenId) {
    && !IdIsBlocked(s.blocked, id)
    && (Hash(cid) !in s.blocked.cids || (id.Int? && id.n > 0 && StoredSegment(s.contents, id.n, cid)))
  }

  /** The answer of the tables, written out: a CID that is not blacklisted is served unless its positive or negative id
      is; one that is, only for a positive id that is not and whose first row has the segment. */
  lemma TableAnswerMeans(s: State, cid: string, id: GivenId)
    ensures id == Absent || id == NotAnInteger || id == Int(0) ==>
              (TableAnswer(s, cid, id) <==> Hash(cid) !in s.blocked.cids)
    ensures id.Int? && id.n < 0 ==>
              (TableAnswer(s, cid, id) <==> Id(id.n) !in s.blocked.contents && Hash(cid) !in s.blocked.cids)
    ensures id.Int? && id.n > 0 ==>
              (TableAnswer(s, cid, id) <==>
                 (&& Id(id.n) !in s.blocked.contents
                  && (|| Hash(cid) !in s.blocked.cids
                      || exists i :: IsFirst(s.contents, id.n, i) && s.contents[i].segments.Some?
                                     && cid in s.contents[i].segments.value)))
  {
    if id.Int? {
      FirstIsFirst(s.contents, id.n);
    }
  }

  /** What a query writes back to redis. */
  datatype Fill = Nothing | MarkInvalid(n: int) | CacheSegments(n: int, cids: seq<string>)

  datatype Reply = Reply(served: bool, fill: Fill)

  /** The reply through the two caches. */
  function Probe(s: State, cid: string, id: GivenId): Reply {
    if IdIsBlocked(s.blocked, id) then Reply(false, Nothing)
    else if Hash(cid) !in s.blocked.cids then Reply(true, Nothing)
    else if !id.Int? || id.n <= 0 then Reply(false, Nothing)
    else if id.n in s.cache then Reply(cid in s.cache[id.n], Nothing)
    else if id.n in s.invalid then Reply(false, Nothing)
    else
      var r := First(s.contents, id.n);
      if r.None? then Reply(false, MarkInvalid(id.n))
      else if r.value.segments.None? then Reply(false, Nothing)
      else Reply(cid in r.value.segments.value, CacheSegments(id.n, r.value.segments.value))
  }

  function Put(cache: map<int, set<string>>, n: int, cids: set<string>): map<int, set<string>> {
    if cids == {} then cache else cache[n := cids]
  }

  /** A fill may be refused by redis: then nothing is marked, or only a prefix of the segments is cached. */
  ghost predicate Filled(s: State, fill: Fill, s': State) {
    match fill
    case Nothing => s' == s
    case MarkInvalid(n) => s' == s.(invalid := s.invalid + {n}) || s' == s.(refusals := s.refusals + 1)
    case CacheSegments(n, cids) =>
      exists k :: 0 <= k <= |cids|
        && s' == s.(cache := Put(s.cache, n, SetOf(cids[..k])),
                    refusals := s.refusals + if k == |cids| then 0 else 1)
  }

  datatype Event =
    | Query(cid: string, id: GivenId, served: bool, fault: bool)
    | ExpireCached(n: int)
    | Upload(record: ContentRecord)
    | Reblock(blocked: Index)

  ghost predicate Step(s: State, e: Event, s': State) {
    match e
    case Query(cid, id, served, fault) =>
      if fault then !served && s' == s
      else served == Probe(s, cid, id).served && Filled(s, Probe(s, cid, id).fill, s')
    case ExpireCached(n) => s' == s.(cache := s.cache - {n})
    case Upload(record) => s' == s.(contents := s.contents + [record])
    case Reblock(blocked) => s' == s.(blocked := blocked)
  }

  ghost predicate Run(states: seq<State>, events: seq<Event>) {
    && |states| == |events| + 1
    && forall i :: 0 <= i < |events| ==> Step(states[i], events[i], states[i + 1])
  }

  // ---------------------------------------------------------------------------------------------
  // Invariants of the caches
  // ---------------------------------------------------------------------------------------------

  /** What is cached for an id is taken from the row stored for it. */
  ghost predicate Sound(s: State) {
    forall n :: n in s.cache ==>
      && s.cache[n] != {}
      && First(s.contents, n).Some? && First(s.contents, n).value.segments.Some?
      && s.cache[n] <= SetOf(First(s.contents, n).value.segments.value)
  }

  /** What is cached is all of it. */
  ghost predicate Full(s: State)
    requires Sound(s)
  {
    forall n :: n in s.cache ==> s.cache[n] == SetOf(First(s.contents, n).value.segments.value)
  }

  ghost predicate InvalidHaveNoRow(s: State) {
    forall n :: n in s.invalid ==> First(s.contents, n).None?
  }

  /** Empty caches, and a cached row. */
  lemma FreshCachesAreSound(s: State, record: ContentRecord, rest: seq<ContentRecord>)
    requires s.cache == map[] && s.invalid == {}
    requires record.segments.Some? && record.segments.value != [] && s.contents == [record] + rest
    ensures Sound(s) && Full(s) && InvalidHaveNoRow(s)
    ensures var s' := s.(cache := map[record.blockchainId := SetOf(record.segments.value)]); Sound(s') && Full(s')
  {
    assert record.segments.value[0] in SetOf(record.segments.value);
  }

  lemma {:induction false} FirstOfExtended(contents: seq<ContentRecord>, record: ContentRecord, n: int)
    ensures First(contents, n).Some? ==> First(contents + [record], n) == First(contents, n)
  {
    if contents != [] && contents[0].blockchainId != n {
      FirstOfExtended(contents[1..], record, n);
      assert (contents + [record])[1..] == contents[1..] + [record];
    }
  }

  lemma StepKeepsSound(s: State, e: Event, s': State)
    requires Sound(s) && Step(s, e, s')
    ensures Sound(s')
  {
    match e
    case Query(cid, id, served, fault) =>
      if !fault && Probe(s, cid, id).fill.CacheSegments? {
        var n, cids := Probe(s, cid, id).fill.n, Probe(s, cid, id).fill.cids;
        var k :| 0 <= k <= |cids| && s' == s.(cache := Put(s.cache, n, SetOf(cids[..k])),
                                              refusals := s.refusals + if k == |cids| then 0 else 1);
        assert SetOf(cids[..k]) <= SetOf(cids);
      }
    case ExpireCached(n) =>
    case Upload(record) =>
      forall n | n in s.cache {
        FirstOfExtended(s.contents, record, n);
      }
    case Reblock(blocked) =>
  }

  lemma StepKeepsFull(s: State, e: Event, s': State)
    requires Sound(s) && Sound(s') && Full(s) && Step(s, e, s')
    requires s'.refusals == s.refusals
    ensures Full(s')
  {
    match e
    case Query(cid, id, served, fault) =>
      if !fault && Probe(s, cid, id).fill.CacheSegments? {
        var n, cids := Probe(s, cid, id).fill.n, Probe(s, cid, id).fill.cids;
        var k :| 0 <= k <= |cids| && s' == s.(cache := Put(s.cache, n, SetOf(cids[..k])),
                                              refusals := s.refusals + if k == |cids| then 0 else 1);
        assert cids[..|cids|] == cids;
      }
    case ExpireCached(n) =>
    case Upload(record) =>
      forall n | n in s.cache {
        FirstOfExtended(s.contents, record, n);
      }
    case Reblock(blocked) =>
  }

  // ---------------------------------------------------------------------------------------------
  // Answers over whole runs
  // ---------------------------------------------------------------------------------------------

  /** Whatever happens (uploads, expiries, partial cache writes, redis faults), a CID is served only if the tables
      say so. */
  lemma {:induction false} RunNeverServesMoreThanTables(states: seq<State>, events: seq<Event>, i: nat)
    requires Run(states, events) && Sound(states[0])
    requires i < |events| && events[i].Query? && events[i].served
    ensures TableAnswer(states[i], events[i].cid, events[i].id)
  {
    RunKeepsSound(states, events, i);
    assert Step(states[i], events[i], states[i + 1]);
  }

  lemma {:induction false} RunKeepsSound(states: seq<State>, events: seq<Event>, i: nat)
    requires Run(states, events) && Sound(states[0]) && i <= |events|
    ensures Sound(states[i])
  {
    if i > 0 {
      RunKeepsSound(states, events, i - 1);
      StepKeepsSound(states[i - 1], events[i - 1], states[i]);
    }
  }

  lemma {:induction false} RunKeepsFull(states: seq<State>, events: seq<Event>, i: nat)
    requires Run(states, events) && Sound(states[0]) && Full(states[0]) && i <= |events|
    requires forall j :: 0 <= j <= |events| ==> states[j].refusals == states[0].refusals
    ensures Sound(states[i]) && Full(states[i])
  {
    RunKeepsSound(states, events, i);
    if i > 0 {
      RunKeepsSound(states, events, i - 1);
      RunKeepsFull(states, events, i - 1);
      StepKeepsFull(states[i - 1], events[i - 1], states[i]);
    }
  }

  lemma {:induction false} RunKeepsInvalidHonest(states: seq<State>, events: seq<Event>, i: nat)
    requires Run(states, events) && InvalidHaveNoRow(states[0]) && i <= |events|
    requires forall e :: e in events ==> !e.Upload?
    ensures InvalidHaveNoRow(states[i])
  {
    if i > 0 {
      RunKeepsInvalidHonest(states, events, i - 1);
      assert events[i - 1] in events;
      assert Step(states[i - 1], events[i - 1], states[i]);
    }
  }

  /** Over fixed content tables, with no refused writes, the two caches change nothing: every query that meets no
      redis fault is answered as the tables answer it. */
  lemma RunAnswersAsTables(states: seq<State>, events: seq<Event>, i: nat)
    requires Run(states, events) && Sound(states[0]) && Full(states[0]) && InvalidHaveNoRow(states[0])
    requires forall e :: e in events ==> !e.Upload?
    requires forall j :: 0 <= j <= |events| ==> states[j].refusals == states[0].refusals
    requires i < |events| && events[i].Query? && !events[i].fault
    ensures events[i].served <==> TableAnswer(states[i], events[i].cid, events[i].id)
  {
    RunKeepsFull(states, events, i);
    RunKeepsInvalidHonest(states, events, i);
    assert Step(states[i], events[i], states[i + 1]);
  }

  /** A stored segment that the caches do not know of: its id is marked invalid and has nothing cached, or a refused
      write left it out of what is cached. */
  ghost predicate Forgotten(s: State, n: int, cid: string) {
    && StoredSegment(s.contents, n, cid)
    && if n in s.cache then cid !in s.cache[n] else n in s.invalid
  }

  /** Over all runs, uploads and refused writes included, the answer differs from the tables' exactly when the caches
      have forgotten the segment that was asked for. */
  lemma RunDiffersExactlyOnForgottenSegments(states: seq<State>, events: seq<Event>, i: nat)
    requires Run(states, events) && Sound(states[0])
    requires i < |events| && events[i].Query? && !events[i].fault
    ensures var s, cid, id := states[i], events[i].cid, events[i].id;
            (events[i].served <==> TableAnswer(s, cid, id)) <==>
              !(&& id.Int? && id.n > 0 && Id(id.n) !in s.blocked.contents && Hash(cid) in s.blocked.cids
                && Forgotten(s, id.n, cid))
  {
    RunKeepsSound(states, events, i);
    assert Step(states[i], events[i], states[i + 1]);
  }

  /** The mark never expires: an id given up on stays given up on over every run, so none of its blacklisted CIDs is
      ever served for it again, whatever is uploaded. */
  lemma {:induction false} GivenUpForever(states: seq<State>, events: seq<Event>, n: int, i: nat)
    requires Run(states, events) && i <= |events|
    requires n in states[0].invalid && n !in states[0].cache
    ensures n in states[i].invalid && n !in states[i].cache
    ensures i < |events| && events[i].Query? && events[i].id == Int(n) ==>
              events[i].served ==> Hash(events[i].cid) !in states[i].blocked.cids
  {
    if i > 0 {
      GivenUpForever(states, events, n, i - 1);
      assert Step(states[i - 1], events[i - 1], states[i]);
    }
    if i < |events| {
      assert Step(states[i], events[i], states[i + 1]);
    }
  }

  /** A query before the upload is all it takes: afterwards the tables would serve, and the node does not. */
  lemma QueryBeforeUploadIsRefusedAfter(record: ContentRecord, cid: string, blocked: Index, s: State)
    requires record.blockchainId > 0 && IsSegmentOf(record, cid)
    requires Hash(cid) in blocked.cids && Id(record.blockchainId) !in blocked.contents
    requires s == State([], blocked, map[], {}, 0)
    ensures var n := record.blockchainId;
            var marked := s.(invalid := {n});
            var uploaded := marked.(contents := [record]);
            && Run([s, marked, uploaded], [Query(cid, Int(n), false, false), Upload(record)])
            && !Probe(uploaded, cid, Int(n)).served
            && TableAnswer(uploaded, cid, Int(n))
  {
    var n := record.blockchainId;
    var marked := s.(invalid := {n});
    var uploaded := marked.(contents := [record]);
    assert s.invalid + {n} == {n};
    assert marked.contents + [record] == [record];
    var states, events := [s, marked, uploaded], [Query(cid, Int(n), false, false), Upload(record)];
    assert Step(states[0], events[0], states[1]);
    assert Step(states[1], events[1], states[2]);
  }

  // ---------------------------------------------------------------------------------------------
  // isServable
  // ---------------------------------------------------------------------------------------------

  class Server {
    var contents: seq<ContentRecord>
    var blocked: Index
    var cache: map<int, set<string>>
    var invalid: set<int>
    var refusals: nat
    /** No call to redis or to the database fails. */
    const healthy: bool

    constructor (contents: seq<ContentRecord>, blocked: Index, healthy: bool)
      ensures Now() == State(contents, blocked, map[], {}, 0) && this.healthy == healthy
    {
      this.contents, this.blocked, this.healthy := contents, blocked, healthy;
      cache, invalid, refusals := map[], {}, 0;
    }

    method MayFail() returns (fails: bool)
      ensures healthy ==> !fails
    {
      fails := *;
      fails := fails && !healthy;
    }

    ghost function Now(): State
      reads this
    {
      State(contents, blocked, cache, invalid, refusals)
    }

    /** Any redis or database read may throw; the answer is then false. Failed writes are swallowed further down. */
    method IsServable(cid: string, id: GivenId) returns (served: bool, fault: bool)
      modifies this`cache, this`invalid, this`refusals
      ensures Step(old(Now()), Query(cid, id, served, fault), Now())
      ensures Sound(old(Now())) && served ==> TableAnswer(old(Now()), cid, id)
      ensures healthy ==> !fault && refusals == old(refusals)
      ensures var s := old(Now());
              healthy && id.Int? && id.n > 0 && Id(id.n) !in s.blocked.contents && Hash(cid) in s.blocked.cids
              && id.n !in s.cache && id.n !in s.invalid ==>
                match First(s.contents, id.n)
                case None => invalid == s.invalid + {id.n} && cache == s.cache
                case Some(row) =>
                  invalid == s.invalid
                  && if row.segments == None || row.segments == Some([]) then cache == s.cache
                     else cache == s.cache[id.n := SetOf(row.segments.value)]
    {
      var fails := MayFail();
      if fails {
        return false, true;
      }
      if IdIsBlocked(blocked, id) {
        return false, false;
      }
      if Hash(cid) !in blocked.cids {
        return true, false;
      }
      if !id.Int? || id.n <= 0 {
        return false, false;
      }
      var n := id.n;
      var cids := [];
      if n in cache {
        return cid in cache[n], false;
      }
      if n in invalid {
        return false, false;
      }
      var row := First(contents, n);
      if row.None? {
        MarkAsInvalid(n);
        return false, false;
      }
      if row.value.segments.Some? {
        cids := row.value.segments.value;
        CacheInChunks(n, cids);
      }
      return cid in cids, false;
    }

    method MarkAsInvalid(n: int)
      modifies this`invalid, this`refusals
      ensures Filled(old(Now()), MarkInvalid(n), Now())
      ensures healthy ==> refusals == old(refusals)
    {
      var fails := MayFail();
      if fails {
        refusals := refusals + 1;
      } else {
        invalid := invalid + {n};
      }
    }

    /** The chunked sadd of the segments of an id that has nothing cached. */
    method CacheInChunks(n: int, cids: seq<string>)
      requires n !in cache
      modifies this`cache, this`refusals
      ensures Filled(old(Now()), CacheSegments(n, cids), Now())
      ensures healthy ==> refusals == old(refusals)
      ensures healthy ==> cache == if cids == [] then old(cache) else old(cache)[n := SetOf(cids)]
    {
      assert cids != [] ==> cids[0] in SetOf(cids);
      var i := 0;
      assert SetOf(cids[..0]) == {};
      while i < |cids|
        invariant 0 <= i
        invariant cache == Put(old(cache), n, SetOf(cids[..Min(i, |cids|)]))
        invariant refusals == old(refusals)
      {
        var j := Min(i + CHUNK_SIZE, |cids|);
        var fails := MayFail();
        if fails {
          refusals := refusals + 1;
          return;
        }
        assert cids[..j] == cids[..i] + cids[i..j];
        assert SetOf(cids[..j]) == SetOf(cids[..i]) + SetOf(cids[i..j]);
        assert cids[i..j][0] in SetOf(cids[i..j]);
        var held := if n in cache then cache[n] else {};
        assert held == SetOf(cids[..i]);
        cache := Put(cache, n, held + SetOf(cids[i..j]));
        i := i + CHUNK_SIZE;
      }
      assert cids[..|cids|] == cids;
    }
  }
}
