/**
 The replica set of a user, and the 2-of-3 write quorum.

 A write is accepted with quorum enforced only when the primary and another node of the replica set hold it. The
 chain, redis, the peers and the clocks they report are arbitrary; the clock of a node is a function of its endpoint
 and of time.
 */
module WriteQuorum {
  import opened Prelude

  datatype Result<+T> = Ok(value: T) | Error

  // ---------------------------------------------------------------------------------------------
  // getReplicaSetSpIDs
  // ---------------------------------------------------------------------------------------------

  /** An absent or zero primary id counts as missing. */
  datatype ReplicaSet = ReplicaSet(primaryId: int, secondaryIds: seq<int>)

  datatype ChainAnswer = Throws | Replies(replicas: Option<ReplicaSet>)

  const BLOCK_RETRIES := 201
  const PRIMARY_RETRIES := 61

  /** The first of the n answers from the k-th on that does not throw. */
  function FirstReply(chain: nat -> ChainAnswer, k: nat, n: nat): Option<ChainAnswer>
    decreases n
  {
    if n == 0 then None
    else if chain(k).Replies? then Some(chain(k))
    else FirstReply(chain, k + 1, n - 1)
  }

  /** The first of the answers that replies, and none exactly when all throw. */
  lemma {:induction false} FirstReplyIsAnAnswer(chain: nat -> ChainAnswer, k: nat, n: nat)
    ensures FirstReply(chain, k, n).None? <==> forall j: nat :: k <= j < k + n ==> chain(j).Throws?
    ensures FirstReply(chain, k, n).Some? ==>
              exists j: nat :: k <= j < k + n && FirstReply(chain, k, n) == Some(chain(j)) && chain(j).Replies?
                               && forall i: nat :: k <= i < j ==> chain(i).Throws?
    decreases n
  {
    if n > 0 && !chain(k).Replies? {
      FirstReplyIsAnAnswer(chain, k + 1, n - 1);
    }
  }

  predicate NamesPrimary(answer: ChainAnswer, id: int) {
    answer.Replies? && answer.replicas.Some? && answer.replicas.value.primaryId == id
  }

  predicate HasPrimary(answer: ChainAnswer) {
    answer.Replies? && answer.replicas.Some? && answer.replicas.value.primaryId != 0
  }

  function Ids(r: ReplicaSet): seq<int> {
    [r.primaryId] + r.secondaryIds
  }

  /** The ids are those of an answer of the chain. */
  ghost predicate FromChain(chain: nat -> ChainAnswer, ids: seq<int>) {
    exists k :: chain(k).Replies? && chain(k).replicas.Some? && ids == Ids(chain(k).replicas.value)
  }

  method GetReplicaSetSpIds(chain: nat -> ChainAnswer, blockNumber: int, ensurePrimary: bool, selfId: int)
    returns (ids: Result<seq<int>>)
    ensures blockNumber != 0 ==>
              var reply := FirstReply(chain, 0, 201);
              ids == if reply.Some? && HasPrimary(reply.value) then Ok(Ids(reply.value.replicas.value)) else Error
    ensures blockNumber == 0 && ensurePrimary && selfId != 0 ==>
              && (ids.Ok? <==> exists k :: 0 <= k < 61 && NamesPrimary(chain(k), selfId))
              && (ids.Ok? ==> exists k :: 0 <= k < PRIMARY_RETRIES && NamesPrimary(chain(k), selfId)
                                && ids == Ok(Ids(chain(k).replicas.value))
                                && forall j :: 0 <= j < k ==> !NamesPrimary(chain(j), selfId))
    ensures blockNumber == 0 && !(ensurePrimary && selfId != 0) ==>
              ids == if HasPrimary(chain(0)) then Ok(Ids(chain(0).replicas.value)) else Error
  {
    var found: Option<ReplicaSet> := None;
    if blockNumber != 0 {
      var indexed := false;
      var retry := 0;
      while retry < BLOCK_RETRIES && !indexed
        invariant 0 <= retry <= BLOCK_RETRIES
        invariant !indexed ==> FirstReply(chain, 0, BLOCK_RETRIES) == FirstReply(chain, retry, BLOCK_RETRIES - retry)
        invariant indexed ==> FirstReply(chain, 0, BLOCK_RETRIES) == Some(Replies(found))
        decreases BLOCK_RETRIES - retry, !indexed
      {
        if chain(retry).Replies? {
          found := chain(retry).replicas;
          indexed := true;
        } else {
          retry := retry + 1;
        }
      }
      if indexed && (found.None? || found.value.primaryId == 0) {
        return Error;
      }
      if !indexed {
        return Error;
      }
    } else if ensurePrimary && selfId != 0 {
      var ensured := false;
      var retry := 0;
      while retry < PRIMARY_RETRIES && !ensured
        invariant 0 <= retry <= PRIMARY_RETRIES
        invariant forall j :: 0 <= j < retry ==> !NamesPrimary(chain(j), selfId)
        invariant ensured ==> retry < PRIMARY_RETRIES && NamesPrimary(chain(retry), selfId)
                              && found == chain(retry).replicas
        invariant !ensured ==> found.None? || found.value.primaryId != selfId
        decreases PRIMARY_RETRIES - retry, !ensured
      {
        if chain(retry).Replies? {
          found := chain(retry).replicas;
          ensured := found.Some? && found.value.primaryId == selfId;
        }
        if !ensured {
          retry := retry + 1;
        }
      }
      if found.None? || found.value.primaryId == 0 {
        return Error;
      }
      if found.value.primaryId != selfId {
        return Error;
      }
    } else {
      if chain(0).Replies? {
        found := chain(0).replicas;
      }
      if found.None? || found.value.primaryId == 0 {
        return Error;
      }
    }
    ids := Ok(Ids(found.value));
  }

  // ---------------------------------------------------------------------------------------------
  // Endpoints of the replica set
  // ---------------------------------------------------------------------------------------------

  datatype CNode = CNode(spId: int, endpoint: string)

  function NotSelf(nodes: seq<CNode>, own: string): (r: seq<CNode>)
    ensures forall n :: n in r <==> n in nodes && n.endpoint != own
  {
    if nodes == [] then []
    else (if nodes[0].endpoint != own then [nodes[0]] else []) + NotSelf(nodes[1..], own)
  }

  /** The endpoint of the first registered node with this id; "" if there is none. */
  function EndpointOf(registry: seq<CNode>, id: int): (e: string)
    ensures e != "" ==> exists n :: n in registry && n.endpoint == e && n.spId == id
  {
    if registry == [] then ""
    else if registry[0].spId == id then registry[0].endpoint
    else EndpointOf(registry[1..], id)
  }

  lemma {:induction false} EndpointOfFirst(registry: seq<CNode>, id: int, i: nat)
    requires i < |registry| && registry[i].spId == id && forall j :: 0 <= j < i ==> registry[j].spId != id
    ensures EndpointOf(registry, id) == registry[i].endpoint
  {
    if i > 0 {
      var rest := registry[1..];
      assert forall j :: 0 <= j < |rest| ==> rest[j] == registry[j + 1];
      EndpointOfFirst(rest, id, i - 1);
    }
  }

  /** The endpoints of the replicas in order, without those that are unknown. */
  function EndpointsOf(ids: seq<int>, selfId: int, own: string, registry: seq<CNode>): seq<string> {
    if ids == [] then []
    else
      var e := if ids[0] == selfId then own else EndpointOf(registry, ids[0]);
      (if e == "" then [] else [e]) + EndpointsOf(ids[1..], selfId, own, registry)
  }

  /** No other replica has this node's endpoint, because the registry lists none of that endpoint. */
  lemma {:induction false} OthersAreNotSelf(ids: seq<int>, selfId: int, own: string, registry: seq<CNode>)
    requires selfId !in ids
    requires forall n :: n in registry ==> n.endpoint != own
    ensures own !in EndpointsOf(ids, selfId, own, registry)
  {
    if ids != [] {
      OthersAreNotSelf(ids[1..], selfId, own, registry);
    }
  }

  // ---------------------------------------------------------------------------------------------
  // Syncing one secondary
  // ---------------------------------------------------------------------------------------------

  datatype SyncType = Manual | Recurring

  datatype NewOrExisting = Duplicate | Enqueue

  /** getNewOrExistingSyncReq: a manual sync is never treated as a duplicate. */
  function NewOrExistingSyncReq(wallet: string, primary: string, secondary: string, syncType: SyncType, waiting: bool)
    : Result<NewOrExisting>
  {
    if wallet == "" || primary == "" || secondary == "" then Error
    else if waiting && syncType != Manual then Ok(Duplicate)
    else Ok(Enqueue)
  }

  /** A waiting sync stands in for a recurring one alone, and a request lacks a name exactly when it is refused. */
  lemma OnlyRecurringSyncsAreDuplicates(wallet: string, primary: string, secondary: string, syncType: SyncType,
                                        waiting: bool)
    ensures var r := NewOrExistingSyncReq(wallet, primary, secondary, syncType, waiting);
            && (r.Error? <==> "" in {wallet, primary, secondary})
            && (r == Ok(Duplicate) <==> waiting && syncType == Recurring && "" !in {wallet, primary, secondary})
  {
  }

  /** A poll of a secondary's clock: no answer, or the clock it has at some time. */
  datatype Poll = NoAnswer | At(time: nat)

  /** What happens while one secondary is asked to sync; `polls` are those that fit into the polling duration. */
  datatype SyncScript = SyncScript(waiting: bool, queueThrows: bool, polls: seq<Poll>)

  type Clocks = (string, nat) -> int

  ghost predicate CaughtUp(clocks: Clocks, node: string, clock: int, script: SyncScript) {
    exists i :: 0 <= i < |script.polls| && script.polls[i].At? && clocks(node, script.polls[i].time) >= clock
  }

  /** issueSyncRequestsUntilSynced: it resolves exactly when the request is queued and a poll shows the clock. */
  method SyncUntilCaughtUp(clocks: Clocks, primary: string, secondary: string, wallet: string, clock: int,
                           script: SyncScript)
    returns (resolved: bool)
    ensures resolved <==> wallet != "" && primary != "" && secondary != "" && !script.queueThrows
                          && CaughtUp(clocks, secondary, clock, script)
  {
    var req := NewOrExistingSyncReq(wallet, primary, secondary, Manual, script.waiting);
    if req.Error? {
      return false;
    }
    if req.value.Duplicate? {
      return true;
    }
    if script.queueThrows {
      return false;
    }
    for i := 0 to |script.polls|
      invariant forall j :: 0 <= j < i && script.polls[j].At? ==> clocks(secondary, script.polls[j].time) < clock
    {
      if script.polls[i].At? && clocks(secondary, script.polls[i].time) >= clock {
        return true;
      }
    }
    resolved := false;
  }

  // ---------------------------------------------------------------------------------------------
  // issueAndWaitForSecondarySyncRequests
  // ---------------------------------------------------------------------------------------------

  datatype Config = Config(enforceWriteQuorum: bool, manualSyncsDisabled: bool)

  /** `endpoints` is None when it is missing or not an array; an empty wallet is a missing one. */
  datatype Session = Session(wallet: string, nodeIsPrimary: bool, endpoints: Option<seq<string>>)

  /** What ensurePrimaryMiddleware passes on for a replica set. */
  function PrimarySession(own: string, selfId: int, wallet: string, ids: seq<int>, registry: seq<CNode>): Session {
    Session(wallet, true, Some(EndpointsOf(ids, selfId, own, registry)))
  }

  /** The Enforce-Write-Quorum header, the environment and the parameter, in their order of precedence. */
  function Enforced(ignoreWriteQuorum: bool, header: Option<string>, config: Config): bool {
    if ignoreWriteQuorum then false
    else if header == Some("true") then true
    else if header == Some("false") then false
    else config.enforceWriteQuorum
  }

  function Reachable(nodes: seq<string>, isFqdn: string -> bool): (r: seq<string>)
    ensures forall n :: n in r <==> n in nodes && n != "" && isFqdn(n)
  {
    if nodes == [] then []
    else (if nodes[0] != "" && isFqdn(nodes[0]) then [nodes[0]] else []) + Reachable(nodes[1..], isFqdn)
  }

  datatype Outcome = Returned | Threw

  /** Some reachable secondary catches up with the clock. */
  ghost predicate SomeSynced(clocks: Clocks, secondaries: seq<string>, clock: int, scripts: nat -> SyncScript) {
    exists i :: 0 <= i < |secondaries| && !scripts(i).queueThrows
                && CaughtUp(clocks, secondaries[i], clock, scripts(i))
  }

  lemma SomeSyncedOneMore(clocks: Clocks, secondaries: seq<string>, i: nat, clock: int, scripts: nat -> SyncScript)
    requires i < |secondaries|
    ensures SomeSynced(clocks, secondaries[..i + 1], clock, scripts) <==>
              (SomeSynced(clocks, secondaries[..i], clock, scripts)
               || (!scripts(i).queueThrows && CaughtUp(clocks, secondaries[i], clock, scripts(i))))
  {
    var more := secondaries[..i + 1];
    if SomeSynced(clocks, secondaries[..i], clock, scripts) {
      var j :| 0 <= j < i && !scripts(j).queueThrows && CaughtUp(clocks, secondaries[..i][j], clock, scripts(j));
      assert more[j] == secondaries[..i][j];
    }
    if !scripts(i).queueThrows && CaughtUp(clocks, secondaries[i], clock, scripts(i)) {
      assert more[i] == secondaries[i];
    }
    if SomeSynced(clocks, more, clock, scripts) {
      var j :| 0 <= j < |more| && !scripts(j).queueThrows && CaughtUp(clocks, more[j], clock, scripts(j));
      assert j < i ==> secondaries[..i][j] == more[j];
    }
  }

  /** Nothing is in the way of a sync, and some reachable secondary catches up with the clock of the primary. */
  ghost predicate QuorumReached(own: string, isFqdn: string -> bool, config: Config, session: Session, clocks: Clocks,
                                dbThrows: bool, clock: Option<int>, scripts: nat -> SyncScript)
  {
    && !config.manualSyncsDisabled && session.wallet != "" && session.nodeIsPrimary
    && session.endpoints.Some? && session.endpoints.value != []
    && session.endpoints.value[0] == own && own != ""
    && !dbThrows && clock.Some? && clock.value != 0
    && SomeSynced(clocks, Reachable(session.endpoints.value[1..], isFqdn), clock.value, scripts)
  }

  class ContentNode {
    const own: string
    const selfId: int
    const config: Config
    const isFqdn: string -> bool
    var cached: Option<seq<CNode>>

    constructor (own: string, selfId: int, config: Config, isFqdn: string -> bool)
      ensures this.own == own && this.selfId == selfId && this.config == config && this.isFqdn == isFqdn
      ensures cached == None && CacheLeavesOutSelf()
    {
      this.own, this.selfId, this.config, this.isFqdn, cached := own, selfId, config, isFqdn, None;
    }

    ghost predicate CacheLeavesOutSelf()
      reads this
    {
      cached.Some? ==> forall n :: n in cached.value ==> n.endpoint != own
    }

    /** The half-hour expiry of the cached list. */
    method ExpireCache()
      modifies this
      ensures cached == None
    {
      cached := None;
    }

    /** getAllRegisteredCNodes: from redis, else from chain without this node; any failure gives the empty list. */
    method GetAllRegisteredCNodes(getFails: bool, chain: Option<seq<CNode>>, setFails: bool) returns (nodes: seq<CNode>)
      requires CacheLeavesOutSelf()
      modifies this
      ensures CacheLeavesOutSelf()
      ensures forall n :: n in nodes ==> n.endpoint != own
      ensures !getFails && old(cached).Some? ==> nodes == old(cached).value && cached == old(cached)
      ensures !getFails && old(cached).None? && chain.Some? && !setFails ==>
                (forall n :: n in nodes <==> n in chain.value && n.endpoint != own) && cached == Some(nodes)
      ensures getFails || (old(cached).None? && (chain.None? || setFails)) ==> nodes == [] && cached == old(cached)
    {
      if getFails {
        return [];
      }
      if cached.Some? {
        return cached.value;
      }
      if chain.None? {
        return [];
      }
      nodes := NotSelf(chain.value, own);
      if setFails {
        return [];
      }
      cached := Some(nodes);
    }

    /** ensurePrimaryMiddleware, from the replica ids to the endpoints stored in the session. */
    method EnsurePrimary(wallet: string, userId: int, blockNumber: int, chain: nat -> ChainAnswer,
                         getFails: bool, registered: Option<seq<CNode>>, setFails: bool)
      returns (session: Result<Session>, ghost ids: seq<int>, ghost registry: seq<CNode>)
      requires CacheLeavesOutSelf()
      modifies this
      ensures CacheLeavesOutSelf()
      ensures wallet == "" || userId == 0 || selfId == 0 ==> session.Error?
      ensures session.Ok? ==>
                && FromChain(chain, ids) && ids[0] == selfId && (forall n :: n in registry ==> n.endpoint != own)
                && session.value == PrimarySession(own, selfId, wallet, ids, registry)
                && (own != "" ==> session.value.endpoints.value != [] && session.value.endpoints.value[0] == own)
                && (selfId !in ids[1..] ==>
                      own !in if own == "" then session.value.endpoints.value else session.value.endpoints.value[1..])
      ensures wallet != "" && userId != 0 && selfId != 0 && blockNumber == 0 ==>
                && (session.Ok? <==> exists k :: 0 <= k < PRIMARY_RETRIES && NamesPrimary(chain(k), selfId))
                && (session.Ok? ==> exists k :: 0 <= k < PRIMARY_RETRIES && NamesPrimary(chain(k), selfId)
                                      && ids == Ids(chain(k).replicas.value)
                                      && forall j :: 0 <= j < k ==> !NamesPrimary(chain(j), selfId))
      ensures wallet != "" && userId != 0 && selfId != 0 && blockNumber != 0 ==>
                var reply := FirstReply(chain, 0, BLOCK_RETRIES);
                && (session.Ok? <==> reply.Some? && NamesPrimary(reply.value, selfId))
                && (session.Ok? ==> ids == Ids(reply.value.replicas.value))
    {
      ids, registry := [], [];
      if wallet == "" || userId == 0 || selfId == 0 {
        session := Error;
        return;
      }
      var fetched := GetReplicaSetSpIds(chain, blockNumber, true, selfId);
      if fetched.Error? || fetched.value[0] != selfId {
        session := Error;
        return;
      }
      ids := fetched.value;
      FirstReplyIsAnAnswer(chain, 0, BLOCK_RETRIES);
      var nodes := GetAllRegisteredCNodes(getFails, registered, setFails);
      registry := nodes;
      var endpoints := EndpointsOf(fetched.value, selfId, own, nodes);
      if selfId !in ids[1..] {
        OthersAreNotSelf(ids[1..], selfId, own, nodes);
      }
      session := Ok(Session(wallet, true, Some(endpoints)));
    }

    /** The call after a write. `clock` is what the database holds for the wallet: None if the user is missing. */
    method IssueAndWait(clocks: Clocks, session: Session, ignoreWriteQuorum: bool, header: Option<string>,
                        dbThrows: bool, clock: Option<int>, scripts: nat -> SyncScript)
      returns (outcome: Outcome)
      ensures ignoreWriteQuorum || header == Some("false") ==> outcome.Returned?
      ensures header != Some("true") && !config.enforceWriteQuorum ==> outcome.Returned?
      ensures !ignoreWriteQuorum
              && (header == Some("true") || (header != Some("false") && config.enforceWriteQuorum)) ==>
                (outcome.Returned? <==>
                   QuorumReached(own, isFqdn, config, session, clocks, dbThrows, clock, scripts))
      ensures !Enforced(ignoreWriteQuorum, header, config) ==> outcome.Returned?
      ensures Enforced(ignoreWriteQuorum, header, config) ==>
                (outcome.Returned? <==>
                   QuorumReached(own, isFqdn, config, session, clocks, dbThrows, clock, scripts))
    {
      var enforce := Enforced(ignoreWriteQuorum, header, config);
      var failed := if enforce then Threw else Returned;
      if config.manualSyncsDisabled || session.wallet == "" {
        return failed;
      }
      if !session.nodeIsPrimary || session.endpoints.None? {
        return failed;
      }
      if session.endpoints.value == [] || session.endpoints.value[0] != own {
        return failed;
      }
      var secondaries := Reachable(session.endpoints.value[1..], isFqdn);
      if dbThrows || clock.None? || clock.value == 0 {
        return failed;
      }
      var any := false;
      for i := 0 to |secondaries|
        invariant any <==> (own != "" && SomeSynced(clocks, secondaries[..i], clock.value, scripts))
      {
        assert secondaries[i] in secondaries;
        SomeSyncedOneMore(clocks, secondaries, i, clock.value, scripts);
        var resolved := SyncUntilCaughtUp(clocks, own, secondaries[i], session.wallet, clock.value, scripts(i));
        any := any || resolved;
      }
      assert secondaries[..|secondaries|] == secondaries;
      return if any then Returned else failed;
    }
  }

  // ---------------------------------------------------------------------------------------------
  // What an accepted write means
  // ---------------------------------------------------------------------------------------------

  ghost predicate NeverGoDown(clocks: Clocks) {
    forall node, s: nat, t: nat :: s <= t ==> clocks(node, s) <= clocks(node, t)
  }

  /** `end` is no earlier than any poll. */
  ghost predicate Ends(end: nat, scripts: nat -> SyncScript) {
    forall k, i :: 0 <= i < |scripts(k).polls| && scripts(k).polls[i].At? ==> scripts(k).polls[i].time <= end
  }

  /** After the loss of one node, another of the nodes still has the clock. */
  ghost predicate SurvivorHas(clocks: Clocks, nodes: set<string>, lost: string, later: nat, clock: int) {
    exists n :: n in nodes && n != lost && clocks(n, later) >= clock
  }

  /** No answer of the chain lists this node among the secondaries. */
  /**
   From the chain to the accepted write. With quorum enforced a write is accepted only when another node of the replica
   set holds it besides the primary: from then on the loss of any one node leaves a node that has it.
   */
  method AcceptedWriteSurvives(node: ContentNode, clocks: Clocks, wallet: string, userId: int, blockNumber: int,
                               chain: nat -> ChainAnswer, getFails: bool, registered: Option<seq<CNode>>,
                               setFails: bool, header: Option<string>, readAt: nat, scripts: nat -> SyncScript,
                               ghost end: nat)
    returns (session: Result<Session>, outcome: Outcome, ghost second: string)
    requires node.CacheLeavesOutSelf()
    requires Enforced(false, header, node.config)
    requires NeverGoDown(clocks) && readAt <= end && Ends(end, scripts)
    modifies node
    ensures outcome.Returned? <==>
              session.Ok? && QuorumReached(node.own, node.isFqdn, node.config, session.value, clocks, false,
                                           Some(clocks(node.own, readAt)), scripts)
    ensures outcome.Returned?
            && (forall k :: chain(k).Replies? && chain(k).replicas.Some? ==>
                              node.selfId !in chain(k).replicas.value.secondaryIds) ==>
              && second != node.own && session.value.endpoints.Some?
              && second in session.value.endpoints.value && node.own in session.value.endpoints.value
              && forall later: nat, lost: string :: later >= end ==>
                   SurvivorHas(clocks, {node.own, second}, lost, later, clocks(node.own, readAt))
  {
    second := "";
    ghost var ids, registry;
    session, ids, registry := node.EnsurePrimary(wallet, userId, blockNumber, chain, getFails, registered, setFails);
    if session.Error? {
      outcome := Threw;
      return;
    }
    var clock := clocks(node.own, readAt);
    outcome := node.IssueAndWait(clocks, session.value, false, header, false, Some(clock), scripts);
    if outcome.Returned? {
      var endpoints := session.value.endpoints.value;
      var secondaries := Reachable(endpoints[1..], node.isFqdn);
      ghost var i :| 0 <= i < |secondaries| && CaughtUp(clocks, secondaries[i], clock, scripts(i));
      second := secondaries[i];
      assert second in secondaries && second in endpoints[1..];
      SurvivesAnyLoss(clocks, node.own, second, clock, readAt, scripts(i), end);
    }
  }

  lemma SurvivesAnyLoss(clocks: Clocks, own: string, second: string, clock: int, readAt: nat, script: SyncScript,
                        end: nat)
    requires NeverGoDown(clocks) && clock == clocks(own, readAt) && readAt <= end
    requires CaughtUp(clocks, second, clock, script)
    requires forall i :: 0 <= i < |script.polls| && script.polls[i].At? ==> script.polls[i].time <= end
    ensures second != own ==>
              forall later: nat, lost: string :: later >= end ==>
                SurvivorHas(clocks, {own, second}, lost, later, clock)
  {
    var i :| 0 <= i < |script.polls| && script.polls[i].At? && clocks(second, script.polls[i].time) >= clock;
    forall later: nat, lost: string | later >= end && second != own
      ensures SurvivorHas(clocks, {own, second}, lost, later, clock)
    {
      assert clocks(own, readAt) <= clocks(own, later);
      assert clocks(second, script.polls[i].time) <= clocks(second, later);
      if lost == own {
        assert second in {own, second};
      } else {
        assert own in {own, second};
      }
    }
  }

  lemma {:induction false} OtherIsAnEndpoint(ids: seq<int>, selfId: int, own: string, registry: seq<CNode>, id: int)
    requires id in ids && id != selfId && EndpointOf(registry, id) != ""
    ensures EndpointOf(registry, id) in EndpointsOf(ids, selfId, own, registry)
  {
    if ids[0] != id {
      OtherIsAnEndpoint(ids[1..], selfId, own, registry, id);
    }
  }

  /** One secondary is enough: if it is registered with a domain name, its requests are queued and its polls show the
      clock, the quorum is reached, whatever the others do. */
  lemma OneSecondaryIsEnough(own: string, isFqdn: string -> bool, config: Config, wallet: string, selfId: int,
                             secondaryIds: seq<int>, registry: seq<CNode>, clocks: Clocks, clock: int,
                             scripts: nat -> SyncScript, i: nat)
    requires own != "" && wallet != "" && !config.manualSyncsDisabled && clock != 0
    requires i < |registry| && registry[i].spId in secondaryIds && registry[i].spId != selfId
    requires forall j :: 0 <= j < i ==> registry[j].spId != registry[i].spId
    requires registry[i].endpoint != "" && isFqdn(registry[i].endpoint)
    requires forall k :: !scripts(k).queueThrows && CaughtUp(clocks, registry[i].endpoint, clock, scripts(k))
    ensures QuorumReached(own, isFqdn, config, PrimarySession(own, selfId, wallet, [selfId] + secondaryIds, registry),
                          clocks, false, Some(clock), scripts)
  {
    var ids, e := [selfId] + secondaryIds, registry[i].endpoint;
    EndpointOfFirst(registry, registry[i].spId, i);
    OtherIsAnEndpoint(secondaryIds, selfId, own, registry, registry[i].spId);
    assert ids[1..] == secondaryIds;
    var endpoints := EndpointsOf(ids, selfId, own, registry);
    assert endpoints == [own] + EndpointsOf(secondaryIds, selfId, own, registry);
    assert endpoints[1..] == EndpointsOf(secondaryIds, selfId, own, registry);
    var secondaries := Reachable(endpoints[1..], isFqdn);
    assert e in secondaries;
    var k :| 0 <= k < |secondaries| && secondaries[k] == e;
    assert !scripts(k).queueThrows && CaughtUp(clocks, secondaries[k], clock, scripts(k));
  }

  // ---------------------------------------------------------------------------------------------
  // Exactly when a quorum is more than one copy
  // ---------------------------------------------------------------------------------------------

  /** All that a write with a given replica set meets: the registry without this node, the clocks, when the primary's
      clock is read, the polls, and a time after them. */
  datatype World = World(registry: seq<CNode>, clocks: Clocks, readAt: nat, scripts: nat -> SyncScript, end: nat)

  ghost predicate Plausible(w: World, own: string) {
    && (forall n :: n in w.registry ==> n.endpoint != own)
    && NeverGoDown(w.clocks) && w.readAt <= w.end && Ends(w.end, w.scripts)
  }

  /** An enforced write of the primary with these secondaries is accepted. */
  ghost predicate Accepted(own: string, isFqdn: string -> bool, config: Config, wallet: string, selfId: int,
                           secondaryIds: seq<int>, w: World)
  {
    QuorumReached(own, isFqdn, config, PrimarySession(own, selfId, wallet, [selfId] + secondaryIds, w.registry),
                  w.clocks, false, Some(w.clocks(own, w.readAt)), w.scripts)
  }

  /** Some other node holds the write. */
  ghost predicate HeldElsewhere(w: World, own: string) {
    exists n :: n != own && w.clocks(n, w.end) >= w.clocks(own, w.readAt)
  }

  /** In every world an accepted write is held by another node as well exactly when this node is not its own secondary,
      or cannot be reached as one. */
  lemma QuorumIsTwoCopiesExactlyWhen(own: string, isFqdn: string -> bool, config: Config, wallet: string, selfId: int,
                                     secondaryIds: seq<int>)
    ensures (forall w :: Plausible(w, own) && Accepted(own, isFqdn, config, wallet, selfId, secondaryIds, w) ==>
                           HeldElsewhere(w, own)) <==>
              (selfId !in secondaryIds || own == "" || !isFqdn(own) || wallet == "" || config.manualSyncsDisabled)
  {
    if selfId !in secondaryIds || own == "" || !isFqdn(own) || wallet == "" || config.manualSyncsDisabled {
      forall w | Plausible(w, own) && Accepted(own, isFqdn, config, wallet, selfId, secondaryIds, w)
        ensures HeldElsewhere(w, own)
      {
        AcceptedIsHeldElsewhere(own, isFqdn, config, wallet, selfId, secondaryIds, w);
      }
    } else {
      LonelyWriteIsAccepted(own, isFqdn, config, wallet, selfId, secondaryIds);
      assert !HeldElsewhere(Lonely(own), own);
    }
  }

  lemma CaughtUpBy(clocks: Clocks, node: string, clock: int, script: SyncScript, end: nat)
    requires NeverGoDown(clocks) && CaughtUp(clocks, node, clock, script)
    requires forall i :: 0 <= i < |script.polls| && script.polls[i].At? ==> script.polls[i].time <= end
    ensures clocks(node, end) >= clock
  {
    var i :| 0 <= i < |script.polls| && script.polls[i].At? && clocks(node, script.polls[i].time) >= clock;
    assert clocks(node, script.polls[i].time) <= clocks(node, end);
  }

  lemma AcceptedIsHeldElsewhere(own: string, isFqdn: string -> bool, config: Config, wallet: string, selfId: int,
                                secondaryIds: seq<int>, w: World)
    requires Plausible(w, own) && Accepted(own, isFqdn, config, wallet, selfId, secondaryIds, w)
    requires selfId !in secondaryIds || !isFqdn(own)
    ensures HeldElsewhere(w, own)
  {
    var ids := [selfId] + secondaryIds;
    assert ids[1..] == secondaryIds;
    var endpoints := EndpointsOf(ids, selfId, own, w.registry);
    assert endpoints == [own] + EndpointsOf(secondaryIds, selfId, own, w.registry);
    var secondaries := Reachable(endpoints[1..], isFqdn);
    var clock := w.clocks(own, w.readAt);
    var i :| 0 <= i < |secondaries| && CaughtUp(w.clocks, secondaries[i], clock, w.scripts(i));
    var second, script := secondaries[i], w.scripts(i);
    assert second in secondaries;
    if selfId !in secondaryIds {
      OthersAreNotSelf(secondaryIds, selfId, own, w.registry);
    }
    CaughtUpBy(w.clocks, second, clock, script, w.end);
  }

  /** A world in which only this node ever writes, and answers every poll. */
  function Lonely(own: string): World {
    World([], (n: string, t: nat) => if n == own then 1 else 0, 0, (k: nat) => SyncScript(false, false, [At(0)]), 0)
  }

  lemma LonelyWriteIsAccepted(own: string, isFqdn: string -> bool, config: Config, wallet: string, selfId: int,
                              secondaryIds: seq<int>)
    requires selfId in secondaryIds && own != "" && isFqdn(own) && wallet != "" && !config.manualSyncsDisabled
    ensures Plausible(Lonely(own), own)
    ensures Accepted(own, isFqdn, config, wallet, selfId, secondaryIds, Lonely(own))
  {
    var w := Lonely(own);
    var ids := [selfId] + secondaryIds;
    assert ids[1..] == secondaryIds;
    var endpoints := EndpointsOf(ids, selfId, own, w.registry);
    assert endpoints == [own] + EndpointsOf(secondaryIds, selfId, own, w.registry);
    assert endpoints[1..] == EndpointsOf(secondaryIds, selfId, own, w.registry);
    SelfIsAnEndpoint(secondaryIds, selfId, own, w.registry);
    SelfSyncsItself(w.clocks, Reachable(endpoints[1..], isFqdn), own, 1, 0, w.scripts);
  }

  lemma {:induction false} SelfIsAnEndpoint(ids: seq<int>, selfId: int, own: string, registry: seq<CNode>)
    requires selfId in ids && own != ""
    ensures own in EndpointsOf(ids, selfId, own, registry)
  {
    if ids[0] != selfId {
      SelfIsAnEndpoint(ids[1..], selfId, own, registry);
    }
  }

  /** A node that is asked to catch up with itself has done so when it answers. */
  lemma SelfSyncsItself(clocks: Clocks, secondaries: seq<string>, own: string, clock: int, readAt: nat,
                        scripts: nat -> SyncScript)
    requires own in secondaries && NeverGoDown(clocks) && clocks(own, readAt) == clock
    requires forall k :: AnswersOnce(scripts(k), readAt)
    ensures SomeSynced(clocks, secondaries, clock, scripts)
  {
    var i :| 0 <= i < |secondaries| && secondaries[i] == own;
    assert AnswersOnce(scripts(i), readAt);
    assert clocks(own, scripts(i).polls[0].time) >= clock;
    assert CaughtUp(clocks, secondaries[i], clock, scripts(i));
  }

  ghost predicate AnswersOnce(script: SyncScript, readAt: nat) {
    !script.queueThrows && script.polls != [] && script.polls[0].At? && script.polls[0].time >= readAt
  }

  /**
   From the chain on: when its first answer names this node both as primary and as secondary, an enforced call returns
   once the node answers its own poll, although no other node has the write and the loss of this one loses it.
   */
  method SelfTwiceIsNoQuorum(node: ContentNode, clocks: Clocks, wallet: string, userId: int, blockNumber: int,
                             chain: nat -> ChainAnswer, getFails: bool, registered: Option<seq<CNode>>, setFails: bool,
                             header: Option<string>, readAt: nat, scripts: nat -> SyncScript)
    returns (outcome: Outcome)
    requires node.CacheLeavesOutSelf()
    requires wallet != "" && userId != 0 && node.selfId != 0 && node.own != "" && node.isFqdn(node.own)
    requires !node.config.manualSyncsDisabled && Enforced(false, header, node.config)
    requires NamesPrimary(chain(0), node.selfId) && node.selfId in chain(0).replicas.value.secondaryIds
    requires NeverGoDown(clocks) && clocks(node.own, readAt) > 0
    requires forall n, t: nat :: n != node.own ==> clocks(n, t) < clocks(node.own, readAt)
    requires forall k :: AnswersOnce(scripts(k), readAt)
    modifies node
    ensures outcome.Returned?
    ensures forall nodes, later: nat :: !SurvivorHas(clocks, nodes, node.own, later, clocks(node.own, readAt))
  {
    ghost var ids, registry;
    var session;
    session, ids, registry := node.EnsurePrimary(wallet, userId, blockNumber, chain, getFails, registered, setFails);
    var secondaryIds := chain(0).replicas.value.secondaryIds;
    assert FirstReply(chain, 0, BLOCK_RETRIES) == Some(chain(0));
    assert ids == Ids(chain(0).replicas.value);
    var clock := clocks(node.own, readAt);
    outcome := node.IssueAndWait(clocks, session.value, false, header, false, Some(clock), scripts);
    assert ids[1..] == secondaryIds;
    ghost var endpoints := session.value.endpoints.value;
    assert endpoints[1..] == EndpointsOf(secondaryIds, node.selfId, node.own, registry);
    SelfIsAnEndpoint(secondaryIds, node.selfId, node.own, registry);
    SelfSyncsItself(clocks, Reachable(endpoints[1..], node.isFqdn), node.own, clock, readAt, scripts);
  }
}
