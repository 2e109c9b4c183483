/**
 The content-addressed store on disk: fetching a CID from gateways and peers, writing it, verifying it, retrying.

 Nothing about the outside world is assumed: gateways and peers answer anything, a stream may break and leave any
 bytes behind, and reading a file back may fail. What each call leaves at its path is computed by `Save`.
 The content hash is a parameter.
 */
module ContentStore {
  import opened Prelude

  type Bytes = seq<int>

  /** The one CID that an empty file may have. */
  const EMPTY_FILE_CID := "QmbFMke1KXqnYyBBWxB74N4c5SBnJMVAiMNRcGu6x1AwQH"

  /** A write to disk: all the bytes that arrived, or an error with whatever is then at the path. */
  datatype Write = Complete(bytes: Bytes) | Broken(left: Option<Bytes>)

  datatype GatewayAnswer = NoBody | Body(write: Write)

  /** A peer's body is hashed right after it is written, and that may fail too. */
  datatype PeerAnswer = Silent | Sends(write: Write, hashFails: bool)

  /** Everything the world does during one attempt. */
  datatype Attempt = Attempt(mkdirFails: bool, gateway: string -> GatewayAnswer,
                             redis: RedisAnswer, registered: seq<string>, peer: string -> PeerAnswer,
                             checkFails: bool)

  /** Recording a path as searched takes two calls: adding it, and setting the expiry of the day's set. */
  datatype RedisAnswer = Works | AddFails | ExpireFails

  // ---------------------------------------------------------------------------------------------
  // Searching the network
  // ---------------------------------------------------------------------------------------------

  /** The registered nodes that were not already tried as gateways, in order. */
  function Eligible(registered: seq<string>, tried: seq<string>): seq<string> {
    if registered == [] then []
    else (if registered[0] in tried then [] else [registered[0]]) + Eligible(registered[1..], tried)
  }

  /** Exactly the registered nodes that were not tried. */
  lemma {:induction false} EligibleMeans(registered: seq<string>, tried: seq<string>)
    ensures forall n :: n in Eligible(registered, tried) <==> n in registered && n !in tried
  {
    if registered != [] {
      EligibleMeans(registered[1..], tried);
    }
  }

  /** They keep their order, and are there as often as they are registered: lists are taken piece by piece, and a single
      node stays if it was not tried. */
  lemma {:induction false} EligibleKeepsOrder(registered: seq<string>, n: string, tried: seq<string>)
    ensures Eligible(registered + [n], tried) == Eligible(registered, tried) + if n in tried then [] else [n]
  {
    var last := if n in tried then [] else [n];
    if registered == [] {
      assert registered + [n] == [n] && [n][1..] == [];
    } else {
      var rest := registered[1..];
      EligibleKeepsOrder(rest, n, tried);
      assert (registered + [n])[1..] == rest + [n];
      Regroup(if registered[0] in tried then [] else [registered[0]], Eligible(rest, tried), last);
    }
  }

  lemma Regroup(a: seq<string>, b: seq<string>, c: seq<string>)
    ensures a + (b + c) == a + b + c
  {
  }

  datatype Search = Search(held: Option<Bytes>, found: bool)

  /** One node's answer: a verified body ends the search, a wrong one is unlinked, one that cannot be hashed stays. */
  function AskNode(hash: Bytes -> string, cid: string, held: Option<Bytes>, answer: PeerAnswer): (s: Search)
    ensures s.found ==> s.held.Some? && hash(s.held.value) == cid
  {
    match answer
    case Silent => Search(held, false)
    case Sends(Broken(left), _) => Search(left, false)
    case Sends(Complete(bytes), hashFails) =>
      if hashFails then Search(Some(bytes), false)
      else if hash(bytes) == cid then Search(Some(bytes), true)
      else Search(None, false)
  }

  /** What is at the path after asking the nodes in turn. */
  function SearchNodes(hash: Bytes -> string, cid: string, held: Option<Bytes>, nodes: seq<string>,
                       peer: string -> PeerAnswer): (s: Search)
    ensures s.found ==> s.held.Some? && hash(s.held.value) == cid
    decreases nodes
  {
    if nodes == [] then Search(held, false)
    else
      var s := AskNode(hash, cid, held, peer(nodes[0]));
      if s.found then s else SearchNodes(hash, cid, s.held, nodes[1..], peer)
  }

  predicate Good(hash: Bytes -> string, cid: string, answer: PeerAnswer) {
    answer.Sends? && answer.write.Complete? && !answer.hashFails && hash(answer.write.bytes) == cid
  }

  /** What the last node that wrote at all left at the path, read off the answers from the back. */
  function LastTouch(held: Option<Bytes>, nodes: seq<string>, peer: string -> PeerAnswer): Option<Bytes> {
    if nodes == [] then held
    else
      match peer(nodes[|nodes| - 1])
      case Silent => LastTouch(held, nodes[..|nodes| - 1], peer)
      case Sends(Broken(left), _) => left
      case Sends(Complete(bytes), hashFails) => if hashFails then Some(bytes) else None
  }

  lemma {:induction false} LastTouchFromFront(held: Option<Bytes>, nodes: seq<string>, peer: string -> PeerAnswer)
    requires nodes != []
    ensures LastTouch(held, nodes, peer) == LastTouch(LastTouch(held, nodes[..1], peer), nodes[1..], peer)
  {
    var n := |nodes| - 1;
    if n == 0 {
      assert nodes[..1] == nodes;
    } else {
      LastTouchFromFront(held, nodes[..n], peer);
      assert nodes[..n][..1] == nodes[..1];
      assert nodes[..n][1..] == nodes[1..][..n - 1];
    }
  }

  /** The search finds the CID exactly when some node sends good bytes; otherwise the last write stays. */
  lemma {:induction false} SearchOutcome(hash: Bytes -> string, cid: string, held: Option<Bytes>, nodes: seq<string>,
                                         peer: string -> PeerAnswer)
    ensures var s := SearchNodes(hash, cid, held, nodes, peer);
            && (s.found <==> exists n :: n in nodes && Good(hash, cid, peer(n)))
            && (s.found ==> s.held.Some? && hash(s.held.value) == cid)
            && (!s.found ==> s.held == LastTouch(held, nodes, peer))
    decreases nodes
  {
    if nodes != [] {
      LastTouchFromFront(held, nodes, peer);
      assert nodes == [nodes[0]] + nodes[1..];
      assert nodes[..1] == [nodes[0]];
      assert nodes[..1][..0] == [];
      assert LastTouch(held, [nodes[0]][..0], peer) == held;
      SearchOutcome(hash, cid, AskNode(hash, cid, held, peer(nodes[0])).held, nodes[1..], peer);
    }
  }

  // ---------------------------------------------------------------------------------------------
  // One attempt, and all of them
  // ---------------------------------------------------------------------------------------------

  /** The write of the first gateway that answers with a body. */
  function FirstBody(gateways: seq<string>, answer: string -> GatewayAnswer): Option<Write> {
    if gateways == [] then None
    else
      match answer(gateways[0])
      case Body(write) => Some(write)
      case NoBody => FirstBody(gateways[1..], answer)
  }

  /** The first gateway with a body, and none exactly when none has one. */
  lemma {:induction false} FirstBodyIsFirst(gateways: seq<string>, answer: string -> GatewayAnswer)
    ensures FirstBody(gateways, answer).None? <==> forall g :: g in gateways ==> answer(g).NoBody?
    ensures forall i :: 0 <= i < |gateways| && answer(gateways[i]).Body?
                        && (forall j :: 0 <= j < i ==> answer(gateways[j]).NoBody?) ==>
              FirstBody(gateways, answer) == Some(answer(gateways[i]).write)
  {
    if gateways != [] {
      FirstBodyIsFirst(gateways[1..], answer);
      forall i | 0 < i < |gateways| && answer(gateways[i]).Body?
                 && forall j :: 0 <= j < i ==> answer(gateways[j]).NoBody?
        ensures FirstBody(gateways, answer) == Some(answer(gateways[i]).write)
      {
        assert gateways[1..][i - 1] == gateways[i];
        assert forall j :: 0 <= j < i - 1 ==> gateways[1..][j] == gateways[j + 1];
      }
    }
  }

  /** `looked`: the network was searched for this path before, today. `again`: verification failed. */
  datatype Verdict = Verdict(held: Option<Bytes>, looked: bool, ok: bool, again: bool)

  predicate Passes(hash: Bytes -> string, cid: string, bytes: Bytes, checkFails: bool) {
    !checkFails && (bytes != [] || cid == EMPTY_FILE_CID) && hash(bytes) == cid
  }

  /** What fetching brings to a path that holds nothing, and whether the network counts as searched afterwards. */
  function Fetch(hash: Bytes -> string, cid: string, looked: bool, gateways: seq<string>, a: Attempt): (Search, bool) {
    var body := FirstBody(gateways, a.gateway);
    if body.Some? && body.value.Complete? then (Search(Some(body.value.bytes), true), looked)
    else
      var left := if body.Some? then body.value.left else None;
      if a.redis.AddFails? || looked then (Search(left, false), looked)
      else if a.redis.ExpireFails? then (Search(left, false), true)
      else (SearchNodes(hash, cid, left, Eligible(a.registered, gateways), a.peer), true)
  }

  function TryOnce(hash: Bytes -> string, cid: string, held: Option<Bytes>, looked: bool, gateways: seq<string>,
                   a: Attempt): (v: Verdict)
    ensures looked ==> v.looked
  {
    if a.mkdirFails then Verdict(held, looked, false, false)
    else if held.Some? then Verdict(held, looked, true, false)
    else
      var (s, looked') := Fetch(hash, cid, looked, gateways, a);
      if !s.found then Verdict(s.held, looked', false, false)
      else if Passes(hash, cid, s.held.value, a.checkFails) then Verdict(s.held, looked', true, false)
      else Verdict(None, looked', false, true)
  }

  /** The whole call; attempt k of `world` is the one made with k retries left. */
  function Save(hash: Bytes -> string, cid: string, held: Option<Bytes>, looked: bool, gateways: seq<string>,
                world: nat -> Attempt, retries: nat): (v: Verdict)
    ensures looked ==> v.looked
    decreases retries
  {
    var v := TryOnce(hash, cid, held, looked, gateways, world(retries));
    if v.again && retries > 0 then Save(hash, cid, None, v.looked, gateways, world, retries - 1) else v
  }

  /** The bytes of the first good answer. */
  function FirstGood(hash: Bytes -> string, cid: string, nodes: seq<string>, peer: string -> PeerAnswer)
    : Option<Bytes>
  {
    if nodes == [] then None
    else if Good(hash, cid, peer(nodes[0])) then Some(peer(nodes[0]).write.bytes)
    else FirstGood(hash, cid, nodes[1..], peer)
  }

  lemma {:induction false} SearchFindsFirstGood(hash: Bytes -> string, cid: string, held: Option<Bytes>,
                                                nodes: seq<string>, peer: string -> PeerAnswer)
    ensures var s := SearchNodes(hash, cid, held, nodes, peer);
            && (s.found <==> FirstGood(hash, cid, nodes, peer).Some?)
            && (s.found ==> s.held == FirstGood(hash, cid, nodes, peer))
    decreases nodes
  {
    if nodes != [] {
      var first := AskNode(hash, cid, held, peer(nodes[0]));
      if !first.found {
        SearchFindsFirstGood(hash, cid, first.held, nodes[1..], peer);
      }
    }
  }

  /** What the world delivers in one attempt: the first gateway body if it arrives whole, else the first good answer of
      a peer, unless the network was searched before or the path cannot be recorded as searched. */
  function Delivered(hash: Bytes -> string, cid: string, gateways: seq<string>, a: Attempt, looked: bool)
    : Option<Bytes>
  {
    var body := FirstBody(gateways, a.gateway);
    if body.Some? && body.value.Complete? then Some(body.value.bytes)
    else if !a.redis.Works? || looked then None
    else FirstGood(hash, cid, Eligible(a.registered, gateways), a.peer)
  }

  /** Whether the network counts as searched after an attempt. */
  predicate LookedAfter(gateways: seq<string>, a: Attempt, looked: bool) {
    var body := FirstBody(gateways, a.gateway);
    looked || (!(body.Some? && body.value.Complete?) && !a.redis.AddFails?)
  }

  /** The world delivers bytes that do not pass the check. */
  ghost predicate DeliversBad(hash: Bytes -> string, cid: string, gateways: seq<string>, a: Attempt, looked: bool) {
    var bytes := Delivered(hash, cid, gateways, a, looked);
    !a.mkdirFails && bytes.Some? && !Passes(hash, cid, bytes.value, a.checkFails)
  }

  /** The attempt that a call on an empty path ends with, and whether the network was searched before it: the first,
      counting down, in which the world does not deliver bad bytes, or the last one there is. */
  ghost function LastTry(hash: Bytes -> string, cid: string, looked: bool, gateways: seq<string>,
                         world: nat -> Attempt, retries: nat): (nat, bool)
    decreases retries
  {
    if DeliversBad(hash, cid, gateways, world(retries), looked) && retries > 0
    then LastTry(hash, cid, LookedAfter(gateways, world(retries), looked), gateways, world, retries - 1)
    else (retries, looked)
  }

  /** A retry is asked for exactly when the world delivered bad bytes. */
  lemma AgainExactlyWhenBad(hash: Bytes -> string, cid: string, looked: bool, gateways: seq<string>, a: Attempt)
    ensures var v := TryOnce(hash, cid, None, looked, gateways, a);
            && (v.again <==> DeliversBad(hash, cid, gateways, a, looked))
            && (v.ok <==> !a.mkdirFails && Delivered(hash, cid, gateways, a, looked).Some?
                          && !DeliversBad(hash, cid, gateways, a, looked))
            && (!a.mkdirFails ==> v.looked == LookedAfter(gateways, a, looked))
  {
    var body := FirstBody(gateways, a.gateway);
    var left := if body.Some? then (if body.value.Broken? then body.value.left else None) else None;
    SearchFindsFirstGood(hash, cid, left, Eligible(a.registered, gateways), a.peer);
  }

  /** No gateway delivers a whole body, and the network is not searched or has nothing. */
  ghost predicate FindsNothing(hash: Bytes -> string, cid: string, gateways: seq<string>, a: Attempt, looked: bool) {
    && !a.mkdirFails
    && (var body := FirstBody(gateways, a.gateway); body.Some? ==> body.value.Broken?)
    && (!a.redis.Works? || looked
        || forall n :: n in Eligible(a.registered, gateways) ==> !Good(hash, cid, a.peer(n)))
  }

  /** What was written last without being verified or removed. */
  function Leftover(gateways: seq<string>, a: Attempt, looked: bool): Option<Bytes> {
    var body := FirstBody(gateways, a.gateway);
    var left := if body.Some? && body.value.Broken? then body.value.left else None;
    if !a.redis.Works? || looked then left else LastTouch(left, Eligible(a.registered, gateways), a.peer)
  }

  lemma TryOnceOutcome(hash: Bytes -> string, cid: string, looked: bool, gateways: seq<string>, a: Attempt)
    ensures var v := TryOnce(hash, cid, None, looked, gateways, a);
            && (v.ok ==> v.held.Some? && hash(v.held.value) == cid && !v.again)
            && (!v.ok && FindsNothing(hash, cid, gateways, a, looked) ==>
                  v.held == Leftover(gateways, a, looked) && !v.again)
            && (!v.ok && !FindsNothing(hash, cid, gateways, a, looked) ==> v.held == None)
            && (FindsNothing(hash, cid, gateways, a, looked) ==> !v.ok)
  {
    var body := FirstBody(gateways, a.gateway);
    var left := if body.Some? && body.value.Broken? then body.value.left else None;
    SearchOutcome(hash, cid, left, Eligible(a.registered, gateways), a.peer);
  }

  /** A path that holds a file is trusted as soon as its directory can be made; otherwise the call fails. */
  lemma HeldFileIsTrusted(hash: Bytes -> string, cid: string, held: Bytes, looked: bool, gateways: seq<string>,
                          world: nat -> Attempt, retries: nat)
    ensures var v := Save(hash, cid, Some(held), looked, gateways, world, retries);
            v.held == Some(held) && (v.ok <==> !world(retries).mkdirFails)
  {
  }

  /** A gateway's body that arrives whole is stored in that attempt exactly when it can be hashed, hashes to the CID,
      and is not empty, unless the CID is the one an empty file may have. */
  lemma GatewayBodyIsStoredExactlyWhen(hash: Bytes -> string, cid: string, looked: bool, gateways: seq<string>,
                                       a: Attempt, i: nat, bytes: Bytes)
    requires !a.mkdirFails && i < |gateways| && a.gateway(gateways[i]) == Body(Complete(bytes))
    requires forall j :: 0 <= j < i ==> a.gateway(gateways[j]).NoBody?
    ensures var v := TryOnce(hash, cid, None, looked, gateways, a);
            && (v.ok <==> !a.checkFails && hash(bytes) == cid
                          && (bytes != [] || cid == "QmbFMke1KXqnYyBBWxB74N4c5SBnJMVAiMNRcGu6x1AwQH"))
            && v.held == if v.ok then Some(bytes) else None
  {
    FirstBodyIsFirst(gateways, a.gateway);
  }

  /** Where no gateway has a body, one registered node outside the gateways that sends good bytes is enough, whatever
      the other nodes send: the call succeeds with bytes of the CID. */
  lemma GoodPeerIsEnough(hash: Bytes -> string, cid: string, gateways: seq<string>, world: nat -> Attempt, retries: nat,
                         n: string, bytes: Bytes)
    requires var a := world(retries);
             && !a.mkdirFails && !a.checkFails && a.redis.Works?
             && (forall g :: g in gateways ==> a.gateway(g).NoBody?)
             && n in a.registered && n !in gateways && a.peer(n) == Sends(Complete(bytes), false)
    requires hash(bytes) == cid && (hash([]) != cid || cid == EMPTY_FILE_CID)
    ensures var v := Save(hash, cid, None, false, gateways, world, retries);
            v.ok && v.held.Some? && hash(v.held.value) == cid
  {
    var a := world(retries);
    FirstBodyIsFirst(gateways, a.gateway);
    EligibleMeans(a.registered, gateways);
    SearchOutcome(hash, cid, None, Eligible(a.registered, gateways), a.peer);
  }

  /** What a call leaves at a path that held nothing: a verified file exactly on success; after a failure nothing,
      except for what the last attempt wrote and found nothing better for. */
  lemma {:induction false} SaveOutcome(hash: Bytes -> string, cid: string, looked: bool, gateways: seq<string>,
                                       world: nat -> Attempt, retries: nat)
    ensures var v := Save(hash, cid, None, looked, gateways, world, retries);
            var (k, lookedBefore) := LastTry(hash, cid, looked, gateways, world, retries);
            var nothing := FindsNothing(hash, cid, gateways, world(k), lookedBefore);
            && k <= retries
            && (v.ok <==> !world(k).mkdirFails && Delivered(hash, cid, gateways, world(k), lookedBefore).Some?
                          && !DeliversBad(hash, cid, gateways, world(k), lookedBefore))
            && (v.ok ==> v.held.Some? && hash(v.held.value) == cid && !nothing)
            && (!v.ok ==> v.held == if nothing then Leftover(gateways, world(k), lookedBefore) else None)
    decreases retries
  {
    var v := TryOnce(hash, cid, None, looked, gateways, world(retries));
    TryOnceOutcome(hash, cid, looked, gateways, world(retries));
    AgainExactlyWhenBad(hash, cid, looked, gateways, world(retries));
    if v.again && retries > 0 {
      SaveOutcome(hash, cid, v.looked, gateways, world, retries - 1);
    }
  }

  /** The last attempt found nothing and left bytes that do not hash to the CID. */
  ghost predicate LeavesWrongBytes(hash: Bytes -> string, cid: string, looked: bool, gateways: seq<string>,
                                   world: nat -> Attempt, retries: nat)
  {
    var (k, lookedBefore) := LastTry(hash, cid, looked, gateways, world, retries);
    var left := Leftover(gateways, world(k), lookedBefore);
    FindsNothing(hash, cid, gateways, world(k), lookedBefore) && left.Some? && hash(left.value) != cid
  }

  /** A world where broken writes leave no file, files can be read back, and directories can be made. */
  ghost predicate CleanWorld(world: nat -> Attempt) {
    forall k ::
      && !world(k).mkdirFails
      && (forall g :: world(k).gateway(g).Body? && world(k).gateway(g).write.Broken? ==>
            world(k).gateway(g).write.left.None?)
      && (forall n :: world(k).peer(n).Sends? ==>
            !world(k).peer(n).hashFails
            && (world(k).peer(n).write.Broken? ==> world(k).peer(n).write.left.None?))
  }

  /** A world in which every body arrives whole. */
  lemma WholeBodiesAreClean(world: nat -> Attempt)
    requires forall k :: !world(k).mkdirFails
    requires forall k, g :: world(k).gateway(g).Body? ==> world(k).gateway(g).write.Complete?
    requires forall k, n :: world(k).peer(n).Sends? ==> world(k).peer(n).write.Complete? && !world(k).peer(n).hashFails
    ensures CleanWorld(world)
  {
  }

  lemma {:induction false} CleanLastTouch(nodes: seq<string>, peer: string -> PeerAnswer)
    requires forall n :: peer(n).Sends? ==>
               !peer(n).hashFails && (peer(n).write.Broken? ==> peer(n).write.left.None?)
    ensures LastTouch(None, nodes, peer) == None
  {
    if nodes != [] {
      CleanLastTouch(nodes[..|nodes| - 1], peer);
    }
  }

  lemma {:induction false} CleanFirstBody(gateways: seq<string>, answer: string -> GatewayAnswer)
    requires forall g :: answer(g).Body? && answer(g).write.Broken? ==> answer(g).write.left.None?
    ensures var body := FirstBody(gateways, answer); body.Some? && body.value.Broken? ==> body.value.left.None?
  {
    if gateways != [] {
      CleanFirstBody(gateways[1..], answer);
    }
  }

  /** There, a call succeeds exactly when the path holds a file afterwards, and what it stored is verified. */
  lemma CleanWorldSaves(hash: Bytes -> string, cid: string, held: Option<Bytes>, looked: bool, gateways: seq<string>,
                        world: nat -> Attempt, retries: nat)
    requires CleanWorld(world)
    ensures var v := Save(hash, cid, held, looked, gateways, world, retries);
            && (v.ok <==> v.held.Some?)
            && (held.Some? ==> v.held == held)
            && (held.None? && v.ok ==> hash(v.held.value) == cid)
  {
    if held.None? {
      SaveOutcome(hash, cid, looked, gateways, world, retries);
      var (k, lookedBefore) := LastTry(hash, cid, looked, gateways, world, retries);
      CleanFirstBody(gateways, world(k).gateway);
      CleanLastTouch(Eligible(world(k).registered, gateways), world(k).peer);
    } else {
      assert !world(retries).mkdirFails;
    }
  }

  lemma {:induction false} SilentLastTouch(held: Option<Bytes>, nodes: seq<string>, peer: string -> PeerAnswer)
    requires forall n :: n in nodes ==> peer(n).Silent?
    ensures LastTouch(held, nodes, peer) == held
  {
    if nodes != [] {
      SilentLastTouch(held, nodes[..|nodes| - 1], peer);
    }
  }

  /** Otherwise a file can be left that was never verified: the first gateway breaks off and no peer answers. From then
      on every call that can make the directory reports it as stored. */
  lemma BrokenWriteIsTrustedLater(hash: Bytes -> string, cid: string, half: Bytes, gateways: seq<string>,
                                  world: nat -> Attempt, retries: nat, later: nat -> Attempt, again: nat)
    requires hash(half) != cid
    requires !world(retries).mkdirFails
    requires FirstBody(gateways, world(retries).gateway) == Some(Broken(Some(half)))
    requires forall n :: n in Eligible(world(retries).registered, gateways) ==> world(retries).peer(n).Silent?
    requires !later(again).mkdirFails
    ensures var first := Save(hash, cid, None, false, gateways, world, retries);
            && !first.ok && first.held == Some(half)
            && Save(hash, cid, first.held, first.looked, gateways, later, again).ok
  {
    var a := world(retries);
    assert FindsNothing(hash, cid, gateways, a, false);
    TryOnceOutcome(hash, cid, false, gateways, a);
    SilentLastTouch(Some(half), Eligible(a.registered, gateways), a.peer);
  }

  // ---------------------------------------------------------------------------------------------
  // Saving a buffer
  // ---------------------------------------------------------------------------------------------

  datatype BufferAttempt = BufferAttempt(write: Write, checkFails: bool)

  datatype BufferResult = Saved(cid: string) | Unauthenticated | WriteThrew | Unverified

  datatype BufferVerdict = BufferVerdict(held: Option<Bytes>, result: BufferResult)

  /** fs.writeFile is outside the try block: its error ends the call at once. */
  function SaveBuffer(hash: Bytes -> string, cid: string, world: nat -> BufferAttempt, retries: nat): BufferVerdict {
    match world(retries).write
    case Broken(left) => BufferVerdict(left, WriteThrew)
    case Complete(bytes) =>
      if Passes(hash, cid, bytes, world(retries).checkFails) then BufferVerdict(Some(bytes), Saved(cid))
      else if retries > 0 then SaveBuffer(hash, cid, world, retries - 1)
      else BufferVerdict(None, Unverified)
  }

  /** The first write, counting down from `retries`, that throws or is verified ends the call. */
  ghost predicate Ends(hash: Bytes -> string, cid: string, a: BufferAttempt) {
    a.write.Broken? || Passes(hash, cid, a.write.bytes, a.checkFails)
  }

  /** The call saves exactly when some write is verified before any throws; then the bytes on disk hash to the CID. If
      all verifications fail nothing is left, and only a throwing write leaves its bytes. */
  lemma {:induction false} SaveBufferOutcome(hash: Bytes -> string, cid: string, world: nat -> BufferAttempt,
                                             retries: nat)
    ensures var v := SaveBuffer(hash, cid, world, retries);
            && (v.result == Saved(cid) <==> v.result.Saved?)
            && (v.result.Saved? ==> v.held.Some? && hash(v.held.value) == cid)
            && (v.result.Unverified? <==> forall k: nat :: k <= retries ==> !Ends(hash, cid, world(k)))
            && (v.result.Unverified? ==> v.held.None?)
            && (v.result.WriteThrew? <==> exists k: nat :: k <= retries && world(k).write == Broken(v.held)
                                            && forall j: nat :: k < j <= retries ==> !Ends(hash, cid, world(j)))
            && !v.result.Unauthenticated?
  {
    var v := SaveBuffer(hash, cid, world, retries);
    if Ends(hash, cid, world(retries)) {
      if world(retries).write.Broken? {
        assert forall j: nat :: retries < j <= retries ==> !Ends(hash, cid, world(j));
      }
    } else if retries > 0 {
      SaveBufferOutcome(hash, cid, world, retries - 1);
      if v.result.WriteThrew? {
        var k: nat :| k <= retries - 1 && world(k).write == Broken(v.held)
                      && forall j: nat :: k < j <= retries - 1 ==> !Ends(hash, cid, world(j));
        assert forall j: nat :: k < j <= retries ==> !Ends(hash, cid, world(j));
      }
    }
  }

  /** The first write to end the call breaks off and leaves bytes that do not hash to the CID. */
  ghost predicate LeavesWrongBuffer(hash: Bytes -> string, cid: string, world: nat -> BufferAttempt, retries: nat) {
    exists k: nat :: k <= retries && BreaksOffWrong(hash, cid, world(k))
                     && forall j: nat :: k < j <= retries ==> !Ends(hash, cid, world(j))
  }

  ghost predicate BreaksOffWrong(hash: Bytes -> string, cid: string, a: BufferAttempt) {
    a.write.Broken? && a.write.left.Some? && hash(a.write.left.value) != cid
  }

  lemma {:induction false} WrongBufferIsLeft(hash: Bytes -> string, cid: string, world: nat -> BufferAttempt,
                                             retries: nat)
    ensures var v := SaveBuffer(hash, cid, world, retries);
            LeavesWrongBuffer(hash, cid, world, retries) <==> v.held.Some? && hash(v.held.value) != cid
  {
    if Ends(hash, cid, world(retries)) {
      if BreaksOffWrong(hash, cid, world(retries)) {
        assert forall j: nat :: retries < j <= retries ==> !Ends(hash, cid, world(j));
      }
    } else if retries > 0 {
      WrongBufferIsLeft(hash, cid, world, retries - 1);
      if LeavesWrongBuffer(hash, cid, world, retries - 1) {
        var k: nat :| k <= retries - 1 && BreaksOffWrong(hash, cid, world(k))
                      && forall j: nat :: k < j <= retries - 1 ==> !Ends(hash, cid, world(j));
        assert forall j: nat :: k < j <= retries ==> !Ends(hash, cid, world(j));
      }
    }
  }

  // ---------------------------------------------------------------------------------------------
  // The store
  // ---------------------------------------------------------------------------------------------

  function At(disk: map<string, Bytes>, path: string): Option<Bytes> {
    if path in disk then Some(disk[path]) else None
  }

  function WithFile(disk: map<string, Bytes>, path: string, held: Option<Bytes>): map<string, Bytes> {
    if held.Some? then disk[path := held.value] else disk - {path}
  }

  class Store {
    const hash: Bytes -> string
    /** The CID that a storage path is for, and the path of a CID. */
    const cidAt: string -> string
    const pathOf: string -> string
    var disk: map<string, Bytes>
    var looked: set<string>

    constructor (hash: Bytes -> string, cidAt: string -> string, pathOf: string -> string)
      requires forall c :: cidAt(pathOf(c)) == c
      ensures this.hash == hash && this.cidAt == cidAt && this.pathOf == pathOf
      ensures disk == map[] && looked == {} && Verified()
    {
      this.hash, this.cidAt, this.pathOf, disk, looked := hash, cidAt, pathOf, map[], {};
    }

    /** Each stored path holds bytes hashing to its CID. */
    ghost predicate Verified()
      reads this
    {
      forall p :: p in disk ==> hash(disk[p]) == cidAt(p)
    }

    /** A new day: redis starts a new set of searched paths. */
    method NewDay()
      modifies this`looked
      ensures looked == {}
    {
      looked := {};
    }

    /** removeFile: a file that is not there is fine. */
    method RemoveFile(path: string)
      modifies this`disk
      ensures disk == old(disk) - {path}
    {
      disk := disk - {path};
    }

    method WriteTo(path: string, write: Write) returns (ok: bool)
      modifies this`disk
      ensures ok == write.Complete?
      ensures disk == WithFile(old(disk), path, if write.Complete? then Some(write.bytes) else write.left)
    {
      disk := WithFile(disk, path, if write.Complete? then Some(write.bytes) else write.left);
      ok := write.Complete?;
    }

    /** The loop over the gateways, and the write of the first body. */
    method FetchFromGateways(path: string, gateways: seq<string>, answer: string -> GatewayAnswer) returns (found: bool)
      requires path !in disk
      modifies this`disk
      ensures var body := FirstBody(gateways, answer);
              && found == (body.Some? && body.value.Complete?)
              && disk == WithFile(old(disk), path, if body.None? then None
                                                   else if body.value.Complete? then Some(body.value.bytes)
                                                   else body.value.left)
    {
      var i := 0;
      while i < |gateways|
        invariant 0 <= i <= |gateways|
        invariant FirstBody(gateways, answer) == FirstBody(gateways[i..], answer)
        invariant disk == old(disk)
      {
        var a := answer(gateways[i]);
        if a.Body? {
          found := WriteTo(path, a.write);
          return;
        }
        assert gateways[i..][1..] == gateways[i + 1..];
        i := i + 1;
      }
      assert disk == WithFile(disk, path, None);
      found := false;
    }

    /** findCIDInNetwork: at most once a day for each path. */
    method FindCidInNetwork(path: string, cid: string, exclude: seq<string>, a: Attempt) returns (found: bool)
      modifies this`disk, this`looked
      ensures looked == if a.redis.AddFails? then old(looked) else old(looked) + {path}
      ensures !a.redis.Works? || path in old(looked) ==> !found && disk == old(disk)
      ensures a.redis.Works? && path !in old(looked) ==>
                var s := SearchNodes(hash, cid, At(old(disk), path), Eligible(a.registered, exclude), a.peer);
                found == s.found && disk == WithFile(old(disk), path, s.held)
    {
      if a.redis.AddFails? {
        return false;
      }
      var attempted := path in looked;
      looked := looked + {path};
      if a.redis.ExpireFails? || attempted {
        return false;
      }
      found := SearchPeers(path, cid, Eligible(a.registered, exclude), a.peer);
    }

    /** The loop over the nodes. */
    method SearchPeers(path: string, cid: string, nodes: seq<string>, peer: string -> PeerAnswer) returns (found: bool)
      modifies this`disk
      ensures var s := SearchNodes(hash, cid, At(old(disk), path), nodes, peer);
              found == s.found && disk == WithFile(old(disk), path, s.held)
    {
      ghost var goal := SearchNodes(hash, cid, At(disk, path), nodes, peer);
      found := false;
      var i := 0;
      assert nodes[0..] == nodes;
      while i < |nodes|
        invariant 0 <= i <= |nodes|
        invariant disk == WithFile(old(disk), path, At(disk, path))
        invariant SearchNodes(hash, cid, At(disk, path), nodes[i..], peer) == goal
      {
        assert nodes[i..][1..] == nodes[i + 1..];
        found := AskPeer(path, cid, peer(nodes[i]));
        if found {
          return;
        }
        i := i + 1;
      }
    }

    /** One node: write what it sends, and unlink it if it hashes to something else. */
    method AskPeer(path: string, cid: string, answer: PeerAnswer) returns (found: bool)
      modifies this`disk
      ensures var s := AskNode(hash, cid, At(old(disk), path), answer);
              found == s.found && disk == WithFile(old(disk), path, s.held)
    {
      if answer.Silent? {
        return false;
      }
      var complete := WriteTo(path, answer.write);
      if !complete || answer.hashFails {
        return false;
      }
      if hash(answer.write.bytes) != cid {
        RemoveFile(path);
        return false;
      }
      return true;
    }

    /** saveFileForMultihashToFS; attempt k of `world` is the one made with k retries left. */
    method SaveFileForMultihash(cid: string, path: string, gateways: seq<string>, world: nat -> Attempt, retries: nat)
      returns (ok: bool)
      modifies this`disk, this`looked
      ensures var v := Save(hash, cid, At(old(disk), path), path in old(looked), gateways, world, retries);
              && ok == v.ok
              && disk == WithFile(old(disk), path, v.held)
              && looked == if v.looked then old(looked) + {path} else old(looked)
      ensures old(Verified()) && cidAt(path) == cid ==>
                (Verified() <==>
                   (path in old(disk) || !LeavesWrongBytes(hash, cid, path in old(looked), gateways, world, retries)))
      ensures CleanWorld(world) ==> (ok <==> path in disk)
      ensures forall p :: p != path ==> (p in disk <==> p in old(disk)) && (p in disk ==> disk[p] == old(disk)[p])
      ensures var v := Save(hash, cid, if path in old(disk) then Some(old(disk)[path]) else None, path in old(looked),
                            gateways, world, retries);
              v.held == if path in disk then Some(disk[path]) else None
      decreases retries
    {
      SaveOutcome(hash, cid, path in looked, gateways, world, retries);
      if CleanWorld(world) {
        CleanWorldSaves(hash, cid, At(disk, path), path in looked, gateways, world, retries);
      }
      ok := SaveAttempts(cid, path, gateways, world, retries);
      assert path !in old(disk) ==> (path in disk ==> At(disk, path) == Some(disk[path]));
    }

    /** The attempts of one call. */
    method SaveAttempts(cid: string, path: string, gateways: seq<string>, world: nat -> Attempt, retries: nat)
      returns (ok: bool)
      modifies this`disk, this`looked
      ensures var v := Save(hash, cid, At(old(disk), path), path in old(looked), gateways, world, retries);
              && ok == v.ok
              && disk == WithFile(old(disk), path, v.held)
              && looked == if v.looked then old(looked) + {path} else old(looked)
      decreases retries
    {
      var again;
      ok, again := SaveAttempt(cid, path, gateways, world(retries));
      if again && retries > 0 {
        ok := SaveAttempts(cid, path, gateways, world, retries - 1);
      }
    }

    /** One attempt: fetch if need be, verify, and remove what does not pass. */
    method SaveAttempt(cid: string, path: string, gateways: seq<string>, a: Attempt) returns (ok: bool, again: bool)
      modifies this`disk, this`looked
      ensures var v := TryOnce(hash, cid, At(old(disk), path), path in old(looked), gateways, a);
              && ok == v.ok && again == v.again && (again ==> path !in disk)
              && disk == WithFile(old(disk), path, v.held)
              && looked == if v.looked then old(looked) + {path} else old(looked)
    {
      if a.mkdirFails {
        return false, false;
      }
      if path in disk {
        return true, false;
      }
      var found := FetchFile(cid, path, gateways, a);
      if !found {
        return false, false;
      }
      if Passes(hash, cid, disk[path], a.checkFails) {
        return true, false;
      }
      RemoveFile(path);
      return false, true;
    }

    /** From the gateways if there are any, else or failing that from the network. */
    method FetchFile(cid: string, path: string, gateways: seq<string>, a: Attempt) returns (found: bool)
      requires path !in disk
      modifies this`disk, this`looked
      ensures var (s, looked') := Fetch(hash, cid, path in old(looked), gateways, a);
              && found == s.found && disk == WithFile(old(disk), path, s.held)
              && looked == if looked' then old(looked) + {path} else old(looked)
    {
      found := false;
      if |gateways| > 0 {
        found := FetchFromGateways(path, gateways, a.gateway);
      }
      if !found {
        found := FindCidInNetwork(path, cid, gateways, a);
      }
    }

    /** saveFileFromBufferToDisk */
    method SaveFileFromBuffer(authenticated: bool, buffer: Bytes, world: nat -> BufferAttempt, retries: nat)
      returns (result: BufferResult)
      requires forall c :: cidAt(pathOf(c)) == c
      modifies this`disk
      ensures !authenticated ==> result == Unauthenticated && disk == old(disk)
      ensures authenticated ==>
                var v := SaveBuffer(hash, hash(buffer), world, retries);
                result == v.result && disk == WithFile(old(disk), pathOf(hash(buffer)), v.held)
      ensures authenticated && old(Verified()) ==>
                (Verified() <==> !LeavesWrongBuffer(hash, hash(buffer), world, retries))
      ensures forall p :: p != pathOf(hash(buffer)) ==>
                (p in disk <==> p in old(disk)) && (p in disk ==> disk[p] == old(disk)[p])
      ensures result.Saved? ==> var path := pathOf(hash(buffer)); path in disk && hash(disk[path]) == hash(buffer)
      decreases retries
    {
      if !authenticated {
        return Unauthenticated;
      }
      WrongBufferIsLeft(hash, hash(buffer), world, retries);
      SaveBufferOutcome(hash, hash(buffer), world, retries);
      result := SaveBufferAttempts(buffer, world, retries);
      ghost var path, held := pathOf(hash(buffer)), SaveBuffer(hash, hash(buffer), world, retries).held;
      assert held.Some? ==> path in disk && disk[path] == held.value;
    }

    /** The attempts of one call. */
    method SaveBufferAttempts(buffer: Bytes, world: nat -> BufferAttempt, retries: nat) returns (result: BufferResult)
      modifies this`disk
      ensures var v := SaveBuffer(hash, hash(buffer), world, retries);
              result == v.result && disk == WithFile(old(disk), pathOf(hash(buffer)), v.held)
      decreases retries
    {
      var cid := hash(buffer);
      var path := pathOf(cid);
      var a := world(retries);
      var written := WriteTo(path, a.write);
      if !written {
        return WriteThrew;
      }
      if Passes(hash, cid, a.write.bytes, a.checkFails) {
        return Saved(cid);
      }
      RemoveFile(path);
      if retries > 0 {
        result := SaveBufferAttempts(buffer, world, retries - 1);
      } else {
        result := Unverified;
      }
    }
  }
}
