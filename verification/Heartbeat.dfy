/**
 A JSON response streamed in pieces: a string member `_h` that grows by one '1' per heartbeat while the work is
 under way, and then the members of the actual response.
 */
module Heartbeat {
  import opened Prelude
  import opened Json
  import opened ApiSigning

  /** A member value as JSON.stringify sees it. An Error instance has no enumerable properties. */
  datatype JsValue = Undefined | Plain(value: Value) | ErrorInstance(own: seq<Prop>)

  datatype Member = Member(key: string, value: JsValue)

  datatype Response = Response(statusCode: int, members: seq<Member>)

  predicate Truthy(v: JsValue) {
    match v
    case Undefined => false
    case ErrorInstance(_) => true
    case Plain(Null) => false
    case Plain(Bool(b)) => b
    case Plain(Num(n)) => n != 0
    case Plain(Str(s)) => s != ""
    case Plain(_) => true
  }

  function Indexed(values: seq<Value>, from: nat): seq<Prop>
    decreases values
  {
    if values == [] then [] else [Prop(Digits(from), values[0])] + Indexed(values[1..], from + 1)
  }

  function Letters(s: string): seq<Value> {
    if s == "" then [] else [Str([s[0]])] + Letters(s[1..])
  }

  /** Object.getOwnPropertyNames and the values under those names. */
  function OwnProps(v: JsValue): seq<Prop> {
    match v
    case ErrorInstance(own) => own
    case Plain(Obj(props)) => props
    case Plain(Arr(items)) => Indexed(items, 0) + [Prop("length", Num(|items|))]
    case Plain(Str(s)) => Indexed(Letters(s), 0) + [Prop("length", Num(|s|))]
    case _ => []
  }

  /** On any status but 200 a truthy error is replaced by an object of its own properties. */
  function ConvertErrors(r: Response): seq<Member> {
    if r.statusCode == 200 then r.members else ConvertMembers(r.members)
  }

  function ConvertMembers(members: seq<Member>): (r: seq<Member>)
    ensures |r| == |members|
  {
    if members == [] then []
    else
      var m := members[0];
      [if m.key == "error" && Truthy(m.value) then Member(m.key, Plain(Obj(OwnProps(m.value)))) else m]
      + ConvertMembers(members[1..])
  }

  /** The members that JSON.stringify writes: undefined ones are left out. */
  function Stringified(members: seq<Member>): seq<Prop> {
    if members == [] then []
    else
      var rest := Stringified(members[1..]);
      match members[0].value
      case Undefined => rest
      case Plain(v) => [Prop(members[0].key, v)] + rest
      case ErrorInstance(_) => [Prop(members[0].key, Obj([]))] + rest
  }

  /** String.prototype.replace with a one-character pattern: the first occurrence goes. */
  function RemoveFirst(t: string, c: char): string {
    if t == "" then "" else if t[0] == c then t[1..] else [t[0]] + RemoveFirst(t[1..], c)
  }

  const OPENING := "{\"_h\":\""

  function Terminator(r: Response): string {
    "\"," + RemoveFirst(Print(Obj(Stringified(ConvertErrors(r)))), '{')
  }

  function Ones(n: nat): string {
    if n == 0 then "" else Ones(n - 1) + "1"
  }

  /** What the whole stream is meant to say: the heartbeats, then the members of the response. */
  function Message(ticks: nat, r: Response): Value {
    Obj([Prop("_h", Str(Ones(ticks)))] + Stringified(ConvertErrors(r)))
  }

  lemma {:induction false} EscapeAllOnes(n: nat)
    ensures EscapeAll(Ones(n)) == Ones(n)
    ensures n > 0 ==> Ones(n) == "1" + Ones(n - 1)
  {
    if n > 0 {
      OnesFromFront(n);
      EscapeAllOnes(n - 1);
      assert Ones(n)[1..] == Ones(n - 1);
    }
  }

  lemma {:induction false} OnesFromFront(n: nat)
    ensures n > 0 ==> Ones(n) == "1" + Ones(n - 1)
  {
    if n > 1 {
      OnesFromFront(n - 1);
    }
  }

  /** The pieces are one JSON text, and it parses to the message, whenever there is a member to follow `_h`. */
  lemma StreamIsMessage(ticks: nat, r: Response)
    requires Stringified(ConvertErrors(r)) != []
    ensures OPENING + Ones(ticks) + Terminator(r) == Print(Message(ticks, r))
    ensures Parse(OPENING + Ones(ticks) + Terminator(r)) == Some(Message(ticks, r))
  {
    var props := Stringified(ConvertErrors(r));
    var h := Prop("_h", Str(Ones(ticks)));
    var all := [h] + props;
    assert all[1..] == props;
    EscapeAllOnes(ticks);
    HeartbeatMemberText(ticks);
    PropsText(all, "}");
    var body := PrintProps(props) + "}";
    assert Print(Obj(props)) == "{" + body;
    assert RemoveFirst("{" + body, '{') == body;
    Pieces(Ones(ticks), body);
    assert Print(Obj(all)) == "{" + (PrintProps(all) + "}");
    ParsePrint(Message(ticks, r));
  }

  lemma HeartbeatMemberText(ticks: nat)
    requires EscapeAll(Ones(ticks)) == Ones(ticks)
    ensures PrintProp(Prop("_h", Str(Ones(ticks)))) == "\"_h\":\"" + Ones(ticks) + "\""
  {
    var value := Quote(Ones(ticks));
    assert EscapeAll("h") == "h" + EscapeAll("");
    assert EscapeAll("_h") == "_" + EscapeAll("_h"[1..]) && "_h"[1..] == "h";
    assert Quote("_h") == "\"_h\"";
    assert Print(Str(Ones(ticks))) == value;
  }

  lemma Pieces(ones: string, body: string)
    ensures OPENING + ones + ("\"," + body) == "{" + (("\"_h\":\"" + ones + "\"") + ("," + body))
  {
  }

  /** With no member to follow, what comes after the comma is a brace: the text is not JSON. */
  lemma EmptyResponseIsNotJson(ticks: nat, r: Response)
    requires Stringified(ConvertErrors(r)) == []
    ensures Parse(OPENING + Ones(ticks) + Terminator(r)) == None
  {
    var h := Prop("_h", Str(Ones(ticks)));
    EscapeAllOnes(ticks);
    HeartbeatMemberText(ticks);
    assert Print(Obj([])) == "{}";
    assert RemoveFirst("{}", '{') == "}";
    var t := OPENING + Ones(ticks) + Terminator(r);
    Pieces(Ones(ticks), "}");
    assert t[1..] == PrintProp(h) + ",}";
    PropRoundTrip(h, ",}");
    assert ParseProp(t[1..]) == Done(h, ",}");
    TrailingComma(t[1..], h);
    assert t[0] == '{' && t[1] == '\"';
    FailedProps(t);
  }

  lemma TrailingComma(t: string, p: Prop)
    requires ParseProp(t) == Done(p, ",}")
    ensures ParseProps(t) == Fail
  {
    assert ",}"[1..] == "}";
    assert "}"[..1][0] == '}' && "\""[0] == '\"';
    assert !StartsWith("}", "\"");
    assert ParseProp("}") == Fail;
    assert ParseProps("}") == Fail;
  }

  lemma FailedProps(t: string)
    requires |t| > 1 && t[0] == '{' && t[1] != '}' && ParseProps(t[1..]) == Fail
    ensures ParseValue(t) == Fail
  {
    assert t[1..][..1][0] == t[1];
    assert "}"[0] == '}';
  }

  /** Nothing is converted in a successful response, and in another one only a member named error. */
  lemma {:induction false} OnlyErrorsAreConverted(members: seq<Member>, i: nat)
    requires i < |members|
    ensures ConvertErrors(Response(200, members)) == members
    ensures members[i].key != "error" ==> ConvertMembers(members)[i] == members[i]
    ensures members[i].key == "error" && !Truthy(members[i].value) ==> ConvertMembers(members)[i] == members[i]
    ensures members[i].key == "error" && Truthy(members[i].value) ==>
              ConvertMembers(members)[i] == Member("error", Plain(Obj(OwnProps(members[i].value))))
  {
    if i > 0 {
      OnlyErrorsAreConverted(members[1..], i - 1);
    }
  }

  function WrittenError(e: JsValue): seq<Prop> {
    Stringified(ConvertErrors(ErrorResponse(500, e)))
  }

  lemma ErrorIsWritten(e: JsValue)
    ensures WrittenError(e) == if e.Undefined? then []
                               else if Truthy(e) then [Prop("error", Obj(OwnProps(e)))] else [Prop("error", e.value)]
  {
    var members := [Member("error", e)];
    OnlyErrorsAreConverted(members, 0);
    assert members[1..] == [];
    var converted := ConvertMembers(members);
    assert converted == [converted[0]] && converted[1..] == [];
    assert Stringified(converted[1..]) == [];
  }

  /** What is written for an error: an Error instance or an object as its own properties, a string by its characters, an
      array by its elements, other truthy values as an empty object, and falsy ones as they are. */
  lemma ErrorsAre(own: seq<Prop>, v: Value, n: int)
    ensures WrittenError(ErrorInstance(own)) == [Prop("error", Obj(own))] == WrittenError(Plain(Obj(own)))
    ensures WrittenError(Plain(Str("no"))) ==
              [Prop("error", Obj([Prop("0", Str("n")), Prop("1", Str("o")), Prop("length", Num(2))]))]
    ensures WrittenError(Plain(Arr([v]))) == [Prop("error", Obj([Prop("0", v), Prop("length", Num(1))]))]
    ensures WrittenError(Plain(Bool(true))) == [Prop("error", Obj([]))]
    ensures WrittenError(Plain(Num(n))) == [Prop("error", if n == 0 then Num(0) else Obj([]))]
    ensures WrittenError(Plain(Str(""))) == [Prop("error", Str(""))]
    ensures WrittenError(Plain(Bool(false))) == [Prop("error", Bool(false))]
    ensures WrittenError(Plain(Null)) == [Prop("error", Null)] && WrittenError(Undefined) == []
  {
    ErrorIsWritten(ErrorInstance(own));
    ErrorIsWritten(Plain(Obj(own)));
    ErrorIsWritten(Plain(Str("no")));
    ErrorIsWritten(Plain(Arr([v])));
    ErrorIsWritten(Plain(Bool(true)));
    ErrorIsWritten(Plain(Num(n)));
    ErrorIsWritten(Plain(Str("")));
    ErrorIsWritten(Plain(Bool(false)));
    ErrorIsWritten(Plain(Null));
    ErrorIsWritten(Undefined);
    LettersOfNo();
    assert Digits(0) == "0";
    assert Indexed([v], 0) == [Prop("0", v)];
    assert OwnProps(Plain(Str("no"))) == [Prop("0", Str("n")), Prop("1", Str("o")), Prop("length", Num(2))];
    assert OwnProps(Plain(Arr([v]))) == [Prop("0", v), Prop("length", Num(1))];
  }

  lemma LettersOfNo()
    ensures Indexed(Letters("no"), 0) == [Prop("0", Str("n")), Prop("1", Str("o"))]
  {
    assert "no"[1..] == "o" && "o"[1..] == "";
    assert Letters("o") == [Str("o")];
    var letters := [Str("n"), Str("o")];
    assert Letters("no") == letters && letters[1..] == [Str("o")];
    assert Digits(0) == "0" && Digits(1) == "1";
    assert Indexed([Str("o")], 1) == [Prop("1", Str("o"))];
  }

  // ---------------------------------------------------------------------------------------------
  // The handler
  // ---------------------------------------------------------------------------------------------

  /**
   How the work ends: with a response (after which next() may throw), with something that is no response, on which
   reading the status throws, or with an error.
   */
  datatype Outcome =
    | Resolves(r: Response, nextThrows: Option<JsValue>)
    | Unusable(error: JsValue)
    | Rejects(error: JsValue)

  function ErrorResponse(statusCode: int, error: JsValue): Response {
    Response(statusCode, [Member("error", error)])
  }

  /** The response that is written: the first one to reach the terminator. */
  function Written(outcome: Outcome): Response {
    match outcome
    case Resolves(r, _) => r
    case Unusable(error) => ErrorResponse(500, error)
    case Rejects(error) => ErrorResponse(500, error)
  }

  class Stream {
    var text: string
    var finished: bool

    constructor ()
      ensures text == "" && !finished
    {
      text, finished := "", false;
    }

    method Write(piece: string)
      requires !finished
      modifies this
      ensures text == old(text) + piece && !finished
    {
      text := text + piece;
    }

    /** Ending a stream that is already finished writes nothing. */
    method End(piece: string)
      modifies this
      ensures finished
      ensures text == if old(finished) then old(text) else old(text) + piece
    {
      if !finished {
        text, finished := text + piece, true;
      }
    }

    /** The interval's callback. */
    method Tick()
      modifies this
      ensures finished == old(finished)
      ensures text == if finished then old(text) else old(text) + "1"
    {
      if !finished {
        Write("1");
      }
    }

    method SendTerminator(r: Response)
      modifies this
      ensures finished
      ensures text == if old(finished) then old(text) else old(text) + Terminator(r)
    {
      End(Terminator(r));
    }

    /**
     handleResponseWithHeartbeat. `before` ticks fire while the work is under way and `after` afterwards: the interval
     is only cleared when the work resolves. The text is one JSON text, the message, exactly when there is a member to
     follow the heartbeats.
     */
    method Handle(outcome: Outcome, before: nat, after: nat)
      requires text == "" && !finished
      modifies this
      ensures finished
      ensures text == OPENING + Ones(before) + Terminator(Written(outcome))
      ensures Written(outcome) ==
              if outcome.Resolves? then outcome.r else Response(500, [Member("error", outcome.error)])
      ensures Stringified(ConvertErrors(Written(outcome))) != [] ==>
                && text == Print(Message(before, Written(outcome)))
                && Parse(text) == Some(Message(before, Written(outcome)))
      ensures Stringified(ConvertErrors(Written(outcome))) == [] ==> Parse(text) == None
    {
      Write(OPENING);
      for i := 0 to before
        invariant !finished && text == OPENING + Ones(i)
      {
        Tick();
      }
      var interval := true;
      match outcome {
        case Resolves(r, nextThrows) =>
          interval := false;
          SendTerminator(r);
          if nextThrows.Some? {
            SendTerminator(ErrorResponse(500, nextThrows.value));
          }
        case Unusable(error) =>
          interval := false;
          SendTerminator(ErrorResponse(500, error));
        case Rejects(error) =>
          SendTerminator(ErrorResponse(500, error));
      }
      ghost var ended := text;
      for i := 0 to after
        invariant finished && text == ended
      {
        if interval {
          Tick();
        }
      }
      if Stringified(ConvertErrors(Written(outcome))) != [] {
        StreamIsMessage(before, Written(outcome));
      } else {
        EmptyResponseIsNotJson(before, Written(outcome));
      }
    }
  }

  /** The failure path writes a member exactly when what was thrown is not undefined. */
  lemma FailureHasAMember(error: JsValue)
    ensures Stringified(ConvertErrors(ErrorResponse(500, error))) != [] <==> error != Undefined
  {
    var r := ErrorResponse(500, error);
    var m := ConvertErrors(r);
    assert r.members[1..] == [] && ConvertMembers([]) == [];
    assert m == [m[0]];
    assert m[1..] == [] && Stringified([]) == [];
  }

  // ---------------------------------------------------------------------------------------------
  // Success responses
  // ---------------------------------------------------------------------------------------------

  function SignedData(obj: seq<Prop>, signer: string): seq<Prop> {
    [Prop("data", Obj(obj)), Prop("signer", Str(signer))]
  }

  /** successResponse, signed at a given time. */
  function SuccessResponse(c: Crypto, obj: seq<Prop>, signer: string, timestamp: string, key: string): Response {
    var s := GenerateSignature(c, SignedData(obj, signer), timestamp, key);
    Response(200, [Member("data", Plain(Obj(obj))), Member("signer", Plain(Str(signer))),
                   Member("timestamp", Plain(Str(s.timestamp))), Member("signature", Plain(Str(s.signature)))])
  }

  /** End to end: what a client parses from the stream is the heartbeats, the data signed by the node, and a signature
      from which, over the members between the two, the node's wallet is recovered. */
  lemma StreamedSuccessIsVerifiable(c: Crypto, obj: seq<Prop>, signer: string, timestamp: string, key: string,
                                    ticks: nat)
    requires RecoversSigner(c)
    ensures var text := OPENING + Ones(ticks) + Terminator(SuccessResponse(c, obj, signer, timestamp, key));
            exists signature: string ::
              && Parse(text) == Some(Obj([Prop("_h", Str(Ones(ticks)))]
                                         + SignedData(obj, signer)
                                         + [Prop("timestamp", Str(timestamp)), Prop("signature", Str(signature))]))
              && RecoverWallet(c, Obj(SignedData(obj, signer) + [Prop("timestamp", Str(timestamp))]), signature)
                 == c.address(key)
  {
    var r := SuccessResponse(c, obj, signer, timestamp, key);
    var signature := SuccessSignature(c, obj, signer, timestamp, key);
    StreamIsMessage(ticks, r);
    assert Message(ticks, r).props
        == [Prop("_h", Str(Ones(ticks)))] + SignedData(obj, signer)
           + [Prop("timestamp", Str(timestamp)), Prop("signature", Str(signature))];
  }

  lemma SuccessSignature(c: Crypto, obj: seq<Prop>, signer: string, timestamp: string, key: string)
    returns (signature: string)
    requires RecoversSigner(c)
    ensures Stringified(ConvertErrors(SuccessResponse(c, obj, signer, timestamp, key)))
            == SignedData(obj, signer) + [Prop("timestamp", Str(timestamp)), Prop("signature", Str(signature))]
    ensures RecoverWallet(c, Obj(SignedData(obj, signer) + [Prop("timestamp", Str(timestamp))]), signature)
            == c.address(key)
  {
    var s := GenerateSignature(c, SignedData(obj, signer), timestamp, key);
    var r := SuccessResponse(c, obj, signer, timestamp, key);
    signature := s.signature;
    SuccessMembers(r.members, [Obj(obj), Str(signer), Str(timestamp), Str(signature)]);
    SignedTimestamp(obj, signer, timestamp);
  }

  lemma SuccessMembers(m: seq<Member>, v: seq<Value>)
    requires |v| == 4
    requires m == [Member("data", Plain(v[0])), Member("signer", Plain(v[1])),
                   Member("timestamp", Plain(v[2])), Member("signature", Plain(v[3]))]
    ensures Stringified(m)
            == [Prop("data", v[0]), Prop("signer", v[1]), Prop("timestamp", v[2]), Prop("signature", v[3])]
  {
    assert Stringified(m[4..]) == [];
    assert m[3..][1..] == m[4..] && m[2..][1..] == m[3..] && m[1..][1..] == m[2..];
    assert Stringified(m[3..]) == [Prop("signature", v[3])];
    assert Stringified(m[2..]) == [Prop("timestamp", v[2])] + Stringified(m[3..]);
    assert Stringified(m[1..]) == [Prop("signer", v[1])] + Stringified(m[2..]);
  }

  lemma SignedTimestamp(obj: seq<Prop>, signer: string, timestamp: string)
    ensures ToSign(SignedData(obj, signer), timestamp)
            == Obj(SignedData(obj, signer) + [Prop("timestamp", Str(timestamp))])
  {
    var key := "timestamp";
    assert key[0] in key && !IsDigit(key[0]);
    assert !HasKey(SignedData(obj, signer), key);
  }
}
