/**
 Session tokens, held in the database and in redis at once.

 Creating, deleting and bulk-deleting sessions each take one step in the database and then one in redis, and the steps
 of different calls interleave. Deleting all data of a user removes the user's tokens from the database only.
 */
module Sessions {
  import opened Prelude

  type Token = string
  type User = string

  /** A call in progress: a row was created; a row was looked up for deletion; or rows were dealt with in the database
      and redis is next. */
  datatype Op = Creating(token: Token) | Found(token: Token) | Purging(tokens: set<Token>)

  /** `owner` remembers for whom each token was ever made, `gone` the deleted users, and `stranded` the tokens whose
      deletion from redis failed. */
  datatype State = State(users: set<User>, rows: map<Token, User>, redis: map<Token, User>, ops: map<nat, Op>,
                         owner: map<Token, User>, gone: set<User>, stranded: set<Token>)

  const START := State({}, map[], map[], map[], map[], {}, {})

  datatype Step =
    | AddUser(user: User)
    | CreateRow(id: nat, user: User, token: Token)
    | CreateInRedis(id: nat, fails: bool)
    | FindRow(id: nat, token: Token)
    | DestroyRow(id: nat, fails: bool)
    | BulkDestroy(id: nat, tokens: set<Token>, fails: bool)
    | DeleteFromRedis(id: nat, fails: bool)
    | DeleteUser(user: User)

  predicate BeingCreated(s: State, t: Token) {
    exists id :: id in s.ops && s.ops[id] == Creating(t)
  }

  /**
   The atomic steps. Tokens are random, so a new one was never used; users get a new uuid, and a row needs its user. A
   token is deleted only after its creation has finished. A failing database part ends a single deletion, and is
   swallowed by a bulk deletion.
   */
  ghost predicate Next(s: State, step: Step, s': State) {
    match step
    case AddUser(u) =>
      u !in s.users && u !in s.gone && s' == s.(users := s.users + {u})
    case CreateRow(id, u, t) =>
      && id !in s.ops && u in s.users && t !in s.owner
      && s' == s.(rows := s.rows[t := u], owner := s.owner[t := u], ops := s.ops[id := Creating(t)])
    case CreateInRedis(id, fails) =>
      && id in s.ops && s.ops[id].Creating? && s.ops[id].token in s.owner
      && var t := s.ops[id].token;
         s' == s.(redis := if fails then s.redis else s.redis[t := s.owner[t]], ops := s.ops - {id})
    case FindRow(id, t) =>
      && id !in s.ops && t in s.rows && !BeingCreated(s, t)
      && s' == s.(ops := s.ops[id := Found(t)])
    case DestroyRow(id, fails) =>
      && id in s.ops && s.ops[id].Found?
      && var t := s.ops[id].token;
         s' == if fails then s.(ops := s.ops - {id}) else s.(rows := s.rows - {t}, ops := s.ops[id := Purging({t})])
    case BulkDestroy(id, ts, fails) =>
      && id !in s.ops && (forall t :: t in ts ==> t in s.owner && !BeingCreated(s, t))
      && s' == s.(rows := if fails then s.rows else s.rows - ts, ops := s.ops[id := Purging(ts)])
    case DeleteFromRedis(id, fails) =>
      && id in s.ops && s.ops[id].Purging?
      && var ts := s.ops[id].tokens;
         s' == s.(redis := if fails then s.redis else s.redis - ts, ops := s.ops - {id},
                  stranded := if fails then s.stranded + ts else s.stranded)
    case DeleteUser(u) =>
      && u in s.users
      && s' == s.(users := s.users - {u}, gone := s.gone + {u}, rows := WithoutUser(s.rows, u))
  }

  function WithoutUser(rows: map<Token, User>, u: User): map<Token, User> {
    map t | t in rows && rows[t] != u :: rows[t]
  }

  ghost predicate Run(states: seq<State>, steps: seq<Step>) {
    && |states| == |steps| + 1
    && forall i :: 0 <= i < |steps| ==> Next(states[i], steps[i], states[i + 1])
  }

  // ---------------------------------------------------------------------------------------------
  // The invariant
  // ---------------------------------------------------------------------------------------------

  ghost predicate Deletes(op: Op, t: Token) {
    match op
    case Creating(_) => false
    case Found(token) => token == t
    case Purging(tokens) => t in tokens
  }

  ghost predicate DeletePending(s: State, t: Token) {
    exists id :: id in s.ops && Deletes(s.ops[id], t)
  }

  /** A deletion that is past its database part. */
  ghost predicate PurgePending(s: State, t: Token) {
    exists id :: id in s.ops && s.ops[id].Purging? && t in s.ops[id].tokens
  }

  /** Every token is where it should be: the database and redis hold it for the user it was made for. */
  ghost predicate Owned(s: State) {
    && (forall t :: t in s.rows ==> t in s.owner && s.rows[t] == s.owner[t] && s.rows[t] in s.users)
    && (forall t :: t in s.redis ==> t in s.owner && s.redis[t] == s.owner[t])
    && (forall t :: t in s.owner ==> s.owner[t] in s.users + s.gone)
    && s.users !! s.gone
  }

  /** A token being created is in no deletion, and in the database unless its user went. */
  ghost predicate CreationsClean(s: State) {
    forall id :: id in s.ops && s.ops[id].Creating? ==>
      var t := s.ops[id].token;
      && t in s.owner && !DeletePending(s, t)
      && (t in s.rows || s.owner[t] in s.gone)
  }

  /** Each token has at most one creation. */
  ghost predicate CreatedOnce(s: State) {
    forall i, j :: i in s.ops && j in s.ops && s.ops[i].Creating? && s.ops[i] == s.ops[j] ==> i == j
  }

  /** A deletion concerns tokens that were made. */
  ghost predicate DeletionsKnown(s: State) {
    forall id, t :: id in s.ops && Deletes(s.ops[id], t) ==> t in s.owner
  }

  /** A token in redis is in the database, or its deletion is past the database or has failed in redis, or its user is
      gone. */
  ghost predicate RedisAccounted(s: State) {
    forall t :: t in s.redis ==>
      t in s.rows || PurgePending(s, t) || t in s.stranded || s.redis[t] in s.gone
  }

  ghost predicate Inv(s: State) {
    Owned(s) && CreationsClean(s) && CreatedOnce(s) && DeletionsKnown(s) && RedisAccounted(s)
  }

  /** A deletion that is past its database part stays so until its own redis step. */
  lemma PendingStays(s: State, step: Step, s': State, t: Token)
    requires Next(s, step, s') && PurgePending(s, t)
    ensures PurgePending(s', t) || (step.DeleteFromRedis? && (t in s'.stranded || t !in s'.redis))
  {
    var id :| id in s.ops && s.ops[id].Purging? && t in s.ops[id].tokens;
    if step.DeleteFromRedis? && step.id == id {
    } else {
      assert id in s'.ops && s'.ops[id] == s.ops[id];
    }
  }

  lemma StepKeepsOwned(s: State, step: Step, s': State)
    requires Inv(s) && Next(s, step, s')
    ensures Owned(s') && DeletionsKnown(s')
  {
  }

  lemma StepKeepsCreations(s: State, step: Step, s': State)
    requires Inv(s) && Next(s, step, s')
    ensures CreationsClean(s')
    ensures CreatedOnce(s')
  {
    forall id | id in s'.ops && s'.ops[id].Creating?
      ensures var t := s'.ops[id].token;
              t in s'.owner && !DeletePending(s', t) && (t in s'.rows || s'.owner[t] in s'.gone)
    {
      var t := s'.ops[id].token;
      if DeletePending(s', t) {
        var other :| other in s'.ops && Deletes(s'.ops[other], t);
        NoDeletionOfCreated(s, step, s', id, other);
      }
      if id in s.ops {
        assert s.ops[id] == s'.ops[id];
      }
    }
  }

  lemma NoDeletionOfCreated(s: State, step: Step, s': State, id: nat, other: nat)
    requires Inv(s) && Next(s, step, s')
    requires id in s'.ops && s'.ops[id].Creating? && other in s'.ops
    ensures !Deletes(s'.ops[other], s'.ops[id].token)
  {
    var t := s'.ops[id].token;
    if id in s.ops && s.ops[id] == s'.ops[id] {
      assert BeingCreated(s, t);
      assert forall o :: o in s.ops && Deletes(s.ops[o], t) ==> DeletePending(s, t);
    }
  }

  lemma StepKeepsRedis(s: State, step: Step, s': State)
    requires Inv(s) && Next(s, step, s')
    ensures RedisAccounted(s')
  {
    forall t | t in s'.redis
      ensures t in s'.rows || PurgePending(s', t) || t in s'.stranded || s'.redis[t] in s'.gone
    {
      if t in s.redis && PurgePending(s, t) {
        PendingStays(s, step, s', t);
      } else if t in s.redis && t in s.rows && t !in s'.rows {
        match step
        case DestroyRow(id, _) => assert s'.ops[id].Purging? && t in s'.ops[id].tokens;
        case BulkDestroy(id, ts, fails) => assert s'.ops[id].Purging? && t in s'.ops[id].tokens;
        case DeleteUser(u) =>
      }
    }
  }

  /** Every run from the empty state keeps the invariant. */
  lemma {:induction false} RunKeepsInvariant(states: seq<State>, steps: seq<Step>, i: nat)
    requires Run(states, steps) && states[0] == START && i <= |steps|
    ensures Inv(states[i])
    ensures var s := states[i];
            && (forall t :: t in s.rows ==> t in s.owner && s.rows[t] == s.owner[t] && s.owner[t] in s.users)
            && (forall t :: t in s.redis ==> t in s.owner && s.redis[t] == s.owner[t])
            && (forall t :: t in s.owner ==> s.owner[t] in s.users + s.gone)
            && s.users !! s.gone
            && (forall i, j :: i in s.ops && j in s.ops && s.ops[i].Creating? && s.ops[i] == s.ops[j] ==> i == j)
  {
    if i > 0 {
      RunKeepsInvariant(states, steps, i - 1);
      StepKeepsOwned(states[i - 1], steps[i - 1], states[i]);
      StepKeepsCreations(states[i - 1], steps[i - 1], states[i]);
      StepKeepsRedis(states[i - 1], steps[i - 1], states[i]);
    }
  }

  // ---------------------------------------------------------------------------------------------
  // What sessions mean
  // ---------------------------------------------------------------------------------------------

  /** verifySession: redis first, then the database. */
  function Verify(rows: map<Token, User>, redis: map<Token, User>, t: Token): Option<User> {
    if t in redis then Some(redis[t]) else if t in rows then Some(rows[t]) else None
  }

  function DbLookup(rows: map<Token, User>, t: Token): Option<User> {
    if t in rows then Some(rows[t]) else None
  }

  /** authMiddleware up to the check that the user exists. */
  predicate Authenticates(s: State, t: Token) {
    var user := Verify(s.rows, s.redis, t);
    user.Some? && user.value in s.users
  }

  /** Who is let in: in every reachable state, exactly the tokens that the database or redis holds and that were made
      for a user who still exists. */
  lemma AuthenticatesExactlyWhen(states: seq<State>, steps: seq<Step>, i: nat, t: Token)
    requires Run(states, steps) && states[0] == START && i <= |steps|
    ensures var s := states[i];
            Authenticates(s, t) <==> (t in s.rows || t in s.redis) && t in s.owner && s.owner[t] in s.users
    ensures t in states[i].rows ==> Authenticates(states[i], t)
  {
    RunKeepsInvariant(states, steps, i);
  }

  /** In every reachable state, redis answers as the database would for each token that is not being deleted, was not
      left behind by a failed deletion, and has a user who still exists. */
  lemma VerifyIsTheDatabaseLookup(states: seq<State>, steps: seq<Step>, i: nat, t: Token)
    requires Run(states, steps) && states[0] == START && i <= |steps|
    requires !DeletePending(states[i], t) && t !in states[i].stranded
    requires t in states[i].owner ==> states[i].owner[t] !in states[i].gone
    ensures Verify(states[i].rows, states[i].redis, t) == DbLookup(states[i].rows, t)
  {
    RunKeepsInvariant(states, steps, i);
    assert forall id :: id in states[i].ops && states[i].ops[id].Purging? && t in states[i].ops[id].tokens ==>
        Deletes(states[i].ops[id], t);
  }

  /** Where they differ, it is a token that the database no longer has. */
  lemma VerifyDiffersExactlyOnStaleTokens(states: seq<State>, steps: seq<Step>, i: nat, t: Token)
    requires Run(states, steps) && states[0] == START && i <= |steps|
    ensures Verify(states[i].rows, states[i].redis, t) != DbLookup(states[i].rows, t) <==>
              (t in states[i].redis && t !in states[i].rows)
  {
    RunKeepsInvariant(states, steps, i);
  }

  lemma {:induction false} GoneStaysGone(states: seq<State>, steps: seq<Step>, i: nat, j: nat, t: Token)
    requires Run(states, steps) && i <= j <= |steps|
    requires t in states[i].owner && states[i].owner[t] in states[i].gone
    ensures t in states[j].owner && states[j].owner[t] == states[i].owner[t] && states[j].owner[t] in states[j].gone
  {
    if i < j {
      GoneStaysGone(states, steps, i, j - 1, t);
      assert Next(states[j - 1], steps[j - 1], states[j]);
    }
  }

  /** Once all data of a user has been deleted, none of the tokens made for that user before is accepted, in any later
      state, although redis may still hold it. */
  lemma DeletedUserIsRefused(states: seq<State>, steps: seq<Step>, i: nat, j: nat, t: Token)
    requires Run(states, steps) && states[0] == START && i < j <= |steps|
    requires steps[i].DeleteUser? && t in states[i].owner && states[i].owner[t] == steps[i].user
    ensures !Authenticates(states[j], t)
  {
    assert Next(states[i], steps[i], states[i + 1]);
    GoneStaysGone(states, steps, i + 1, j, t);
    RunKeepsInvariant(states, steps, j);
  }

  /** Redis may indeed: verifySession alone still accepts the token. */
  /** A token may be deleted once it is in the database and its own creation is over, whatever other calls are under
      way. */
  lemma DeletionMayStart(s: State, id: nat, t: Token)
    requires id !in s.ops && t in s.rows && t in s.owner && forall o :: o in s.ops ==> s.ops[o] != Creating(t)
    ensures Next(s, FindRow(id, t), s.(ops := s.ops[id := Found(t)]))
    ensures Next(s, BulkDestroy(id, {t}, false), s.(rows := s.rows - {t}, ops := s.ops[id := Purging({t})]))
  {
  }

  lemma RedisOutlivesTheUser(u: User, t: Token)
    ensures var made := START.(users := {u}, rows := map[t := u], owner := map[t := u], redis := map[t := u]);
            var after := made.(users := {}, rows := map[], gone := {u});
            && Run([START, START.(users := {u}), made.(redis := map[], ops := map[0 := Creating(t)]), made, after],
                   [AddUser(u), CreateRow(0, u, t), CreateInRedis(0, false), DeleteUser(u)])
            && Verify(after.rows, after.redis, t) == Some(u) && !Authenticates(after, t)
  {
    var added := START.(users := {u});
    var made := START.(users := {u}, rows := map[t := u], owner := map[t := u], redis := map[t := u]);
    var creating := made.(redis := map[], ops := map[0 := Creating(t)]);
    var after := made.(users := {}, rows := map[], gone := {u});
    assert {} + {u} == {u} && {u} - {u} == {};
    assert Next(START, AddUser(u), added);
    assert Next(added, CreateRow(0, u, t), creating);
    assert creating.ops - {0} == map[];
    assert Next(creating, CreateInRedis(0, false), made);
    assert WithoutUser(made.rows, u) == map[];
    assert Next(made, DeleteUser(u), after);
    var states := [START, added, creating, made, after];
    var steps := [AddUser(u), CreateRow(0, u, t), CreateInRedis(0, false), DeleteUser(u)];
    forall i | 0 <= i < |steps|
      ensures Next(states[i], steps[i], states[i + 1])
    {
    }
  }

  // ---------------------------------------------------------------------------------------------
  // The manager, one call at a time
  // ---------------------------------------------------------------------------------------------

  /** Steps of one call, with no other call in between. */
  ghost predicate Follows(s: State, steps: seq<Step>, s': State)
    decreases |steps|
  {
    if steps == [] then s' == s
    else exists mid :: Next(s, steps[0], mid) && Follows(mid, steps[1..], s')
  }

  /** They are a run of the state machine: no other state is reached. */
  lemma {:induction false} FollowsIsARun(s: State, steps: seq<Step>, s': State)
    ensures Follows(s, steps, s') <==>
              exists states :: Run(states, steps) && states[0] == s && states[|steps|] == s'
    decreases |steps|
  {
    if steps == [] {
      if Follows(s, steps, s') {
        assert Run([s], steps);
      }
    } else {
      var rest := steps[1..];
      if Follows(s, steps, s') {
        var mid :| Next(s, steps[0], mid) && Follows(mid, rest, s');
        FollowsIsARun(mid, rest, s');
        var states :| Run(states, rest) && states[0] == mid && states[|rest|] == s';
        assert Run([s] + states, steps);
      }
      if states :| Run(states, steps) && states[0] == s && states[|steps|] == s' {
        var later := states[1..];
        assert Run(later, rest) by {
          forall i | 0 <= i < |rest|
            ensures Next(later[i], rest[i], later[i + 1])
          {
            assert Next(states[i + 1], steps[i + 1], states[i + 2]);
          }
        }
        FollowsIsARun(later[0], rest, s');
        assert Next(s, steps[0], later[0]);
      }
    }
  }

  lemma TwoSteps(s: State, a: Step, mid: State, b: Step, s': State)
    requires Next(s, a, mid) && Next(mid, b, s')
    ensures Follows(s, [a, b], s')
  {
    assert [b][1..] == [] && Follows(s', [], s');
    assert [a, b][1..] == [b] && Follows(mid, [b], s');
  }

  lemma ThreeSteps(s: State, a: Step, first: State, b: Step, second: State, c: Step, s': State)
    requires Next(s, a, first) && Next(first, b, second) && Next(second, c, s')
    ensures Follows(s, [a, b, c], s')
  {
    TwoSteps(first, b, second, c, s');
    assert [a, b, c][1..] == [b, c];
  }

  /** A transaction that destroys rows: it commits; the statement fails and is rolled back, which is swallowed; or
      beginning, committing or rolling back throws. */
  datatype TxOutcome = Commits | StatementFails | TxThrows

  class SessionManager {
    var users: set<User>
    var rows: map<Token, User>
    var redis: map<Token, User>
    ghost var owner: map<Token, User>
    ghost var gone: set<User>
    ghost var stranded: set<Token>

    constructor ()
      ensures Now() == START
    {
      users, rows, redis, owner, gone, stranded := {}, map[], map[], map[], {}, {};
    }

    /** Between calls: the state with no call in progress. */
    ghost function Now(): State
      reads this
    {
      State(users, rows, redis, map[], owner, gone, stranded)
    }

    /** createSession with a fresh random token. */
    method CreateSession(user: User, token: Token, dbFails: bool, redisFails: bool) returns (made: Option<Token>)
      requires token !in owner
      modifies this
      ensures made == if user in old(users) && !dbFails && !redisFails then Some(token) else None
      ensures Follows(old(Now()), if user !in old(users) || dbFails then []
                                  else [CreateRow(0, user, token), CreateInRedis(0, redisFails)], Now())
      ensures made.Some? ==> Verify(rows, redis, token) == Some(user)
    {
      ghost var s := Now();
      if user !in users || dbFails {
        return None;
      }
      rows := rows[token := user];
      owner := owner[token := user];
      ghost var mid := Now().(ops := map[0 := Creating(token)]);
      assert Next(s, CreateRow(0, user, token), mid);
      assert mid.ops - {0} == map[];
      if redisFails {
        made := None;
      } else {
        redis := redis[token := user];
        made := Some(token);
      }
      TwoSteps(s, CreateRow(0, user, token), mid, CreateInRedis(0, redisFails), Now());
    }

    method VerifySession(token: Token) returns (user: Option<User>)
      ensures user == Verify(rows, redis, token)
    {
      if token in redis {
        return Some(redis[token]);
      }
      if token in rows {
        return Some(rows[token]);
      }
      user := None;
    }

    /** deleteSession: a token without a row is an error, and stays in redis if it is there. */
    method DeleteSession(token: Token, dbFails: bool, redisFails: bool) returns (ok: bool)
      modifies this
      ensures ok <==> token in old(rows) && !dbFails && !redisFails
      ensures Follows(old(Now()),
                      if token !in old(rows) then []
                      else if dbFails then [FindRow(0, token), DestroyRow(0, true)]
                      else [FindRow(0, token), DestroyRow(0, false), DeleteFromRedis(0, redisFails)], Now())
      ensures ok ==> Verify(rows, redis, token) == None
    {
      ghost var s := Now();
      if token !in rows {
        return false;
      }
      ghost var found := s.(ops := map[0 := Found(token)]);
      assert Next(s, FindRow(0, token), found);
      assert found.ops - {0} == map[];
      if dbFails {
        TwoSteps(s, FindRow(0, token), found, DestroyRow(0, true), s);
        return false;
      }
      rows := rows - {token};
      ghost var purging := Now().(ops := map[0 := Purging({token})]);
      assert found.ops[0 := Purging({token})] == purging.ops;
      assert Next(found, DestroyRow(0, false), purging);
      assert purging.ops - {0} == map[];
      if redisFails {
        stranded := stranded + {token};
        ok := false;
      } else {
        redis := redis - {token};
        ok := true;
      }
      ThreeSteps(s, FindRow(0, token), found, DestroyRow(0, false), purging, DeleteFromRedis(0, redisFails), Now());
    }

    /** deleteSessionTokensFromDB: a failing statement does not throw. */
    method DeleteSessionTokensFromDb(tokens: set<Token>, tx: TxOutcome) returns (threw: bool)
      modifies this`rows
      ensures threw == tx.TxThrows?
      ensures rows == if tx.Commits? then old(rows) - tokens else old(rows)
    {
      if tx.Commits? {
        rows := rows - tokens;
      }
      threw := tx.TxThrows?;
    }

    /**
     deleteSessions, of tokens that were made. The retry only happens when the first transaction threw. A call that
     returns normally has the tokens refused exactly if the transaction it settled for committed: otherwise every token
     with a row is accepted as before.
     */
    method DeleteSessions(tokens: set<Token>, first: TxOutcome, second: TxOutcome, redisFails: bool) returns (ok: bool)
      requires tokens <= owner.Keys
      modifies this
      ensures ok <==> !(first.TxThrows? && second.TxThrows?) && !redisFails
      ensures var settled := if first.TxThrows? then second else first;
              Follows(old(Now()), if settled.TxThrows? then []
                                  else [BulkDestroy(0, tokens, settled.StatementFails?),
                                        DeleteFromRedis(0, redisFails)], Now())
      ensures ok ==> forall t :: t in tokens && t in old(rows) ==>
                (Verify(rows, redis, t) == None <==> first.Commits? || (first.TxThrows? && second.Commits?))
                && (Verify(rows, redis, t) == None || Verify(rows, redis, t) == Some(old(rows)[t]))
    {
      ghost var s := Now();
      ghost var fails := if first.TxThrows? then second.StatementFails? else first.StatementFails?;
      var threw := DeleteSessionTokensFromDb(tokens, first);
      if threw {
        threw := DeleteSessionTokensFromDb(tokens, second);
        if threw {
          return false;
        }
      }
      ghost var purging := Now().(ops := map[0 := Purging(tokens)]);
      assert Next(s, BulkDestroy(0, tokens, fails), purging);
      assert purging.ops - {0} == map[];
      if redisFails {
        stranded := stranded + tokens;
        ok := false;
      } else {
        redis := redis - tokens;
        ok := true;
      }
      TwoSteps(s, BulkDestroy(0, tokens, fails), purging, DeleteFromRedis(0, redisFails), Now());
    }
  }
}
