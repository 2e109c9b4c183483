/**
 Signing data as canonical JSON text, in JavaScript and in Python.

 Both sides sort keys at every depth and sign the keccak hash of the compact text. A signature is recovered from any
 reordering of the signed data, and across the two languages exactly when their key orders agree on the data.
 */
module ApiSigning {
  import opened Prelude
  import opened Json
  import opened KeyOrder
  import opened Canonical

  // ---------------------------------------------------------------------------------------------
  // sortKeys
  // ---------------------------------------------------------------------------------------------

  /** `{ ...o, [key]: value }`: a present key keeps its place, a new array index goes among the indices by value, any
      other new key goes last. */
  function Put(o: seq<Prop>, p: Prop): seq<Prop> {
    if HasKey(o, p.key) then Replace(o, p)
    else if IsIndex(p.key) then InsertProp(JsBefore, p, o)
    else o + [p]
  }

  predicate HasKey(o: seq<Prop>, key: string) {
    exists q :: q in o && q.key == key
  }

  function Replace(o: seq<Prop>, p: Prop): (r: seq<Prop>)
    ensures |r| == |o|
    ensures forall i :: 0 <= i < |o| ==> r[i] == if o[i].key == p.key then p else o[i]
  {
    if o == [] then [] else [if o[0].key == p.key then p else o[0]] + Replace(o[1..], p)
  }

  /** The reduce over the sorted keys. */
  function Assemble(o: seq<Prop>, props: seq<Prop>): seq<Prop>
    decreases props
  {
    if props == [] then o else Assemble(Put(o, props[0]), props[1..])
  }

  function JsOrdering(props: seq<Prop>): seq<Prop> {
    Assemble([], SortProps(JsLess, props))
  }

  function SortKeys(x: Value): Value {
    Canon(JsOrdering, x)
  }

  lemma PutSorts(o: seq<Prop>, p: Prop)
    requires Sorted(JsBefore, o) && !HasKey(o, p.key)
    requires forall q :: q in o && !IsIndex(q.key) ==> JsLess(q.key, p.key)
    ensures Sorted(JsBefore, Put(o, p))
    ensures forall q :: q in Put(o, p) <==> q == p || q in o
  {
    JsBeforeIsAnOrder();
    if IsIndex(p.key) {
      InsertSorts(JsBefore, p, o);
    } else {
      var r := o + [p];
      forall i, j | 0 <= i < j < |r|
        ensures JsBefore(r[i].key, r[j].key)
      {
        assert r[i] in o;
      }
    }
  }

  lemma FirstIsLeast(props: seq<Prop>)
    requires props != [] && Sorted(JsLess, props)
    ensures forall p :: p in props[1..] ==> p in props && JsLess(props[0].key, p.key)
  {
    forall p | p in props[1..]
      ensures p in props && JsLess(props[0].key, p.key)
    {
      var i :| 0 <= i < |props[1..]| && props[1..][i] == p;
      assert p == props[i + 1];
    }
  }

  /** Once the least of the properties is put, the others still belong after what is there. */
  lemma PutStaysBefore(o: seq<Prop>, props: seq<Prop>)
    requires props != [] && Sorted(JsLess, props) && Sorted(JsBefore, o) && StrictTotalOrder(JsLess)
    requires forall p, q :: q in o && p in props ==> q.key != p.key && (!IsIndex(q.key) ==> JsLess(q.key, p.key))
    ensures Sorted(JsBefore, Put(o, props[0])) && forall q :: q in Put(o, props[0]) <==> q == props[0] || q in o
    ensures forall p, q :: q in Put(o, props[0]) && p in props[1..] ==>
              q.key != p.key && (!IsIndex(q.key) ==> JsLess(q.key, p.key))
  {
    assert props[0] in props;
    PutSorts(o, props[0]);
    FirstIsLeast(props);
  }

  lemma {:induction false} AssembleSorts(o: seq<Prop>, props: seq<Prop>)
    requires Sorted(JsBefore, o) && Sorted(JsLess, props)
    requires forall p, q :: q in o && p in props ==> q.key != p.key && (!IsIndex(q.key) ==> JsLess(q.key, p.key))
    ensures Sorted(JsBefore, Assemble(o, props))
    ensures forall q :: q in Assemble(o, props) <==> q in o || q in props
    decreases props
  {
    if props != [] {
      JsLessIsAnOrder();
      PutStaysBefore(o, props);
      AssembleSorts(Put(o, props[0]), props[1..]);
      assert props == [props[0]] + props[1..];
    }
  }

  lemma JsOrderingOrders()
    ensures Orders(JsOrdering, JsBefore)
  {
    JsBeforeIsAnOrder();
    JsLessIsAnOrder();
    forall props | DistinctKeys(props)
      ensures Sorted(JsBefore, JsOrdering(props)) && forall p :: p in JsOrdering(props) <==> p in props
    {
      SortSorts(JsLess, props);
      AssembleSorts([], SortProps(JsLess, props));
    }
  }

  /** sortKeys is a canonical form: equal results mean equal values up to key order at every depth. */
  lemma SortKeysIsCanonical(x: Value, y: Value)
    requires WellFormed(x) && WellFormed(y)
    ensures SortKeys(x) == SortKeys(y) <==> Same(x, y)
  {
    JsOrderingOrders();
    CanonicalForm(JsOrdering, JsBefore, x, y);
  }

  lemma SortKeysIsIdempotent(x: Value)
    requires WellFormed(x)
    ensures SortKeys(SortKeys(x)) == SortKeys(x) && Same(SortKeys(x), x)
  {
    JsOrderingOrders();
    CanonIsIdempotent(JsOrdering, JsBefore, x);
    CanonIsSame(JsOrdering, JsBefore, x);
  }

  /** JSON.stringify(sortKeys(x)) */
  function JsText(x: Value): string {
    Print(SortKeys(x))
  }

  /** The signed text, too, tells values apart exactly up to key order. */
  lemma JsTextIsCanonical(x: Value, y: Value)
    requires WellFormed(x) && WellFormed(y)
    ensures JsText(x) == JsText(y) <==> Same(x, y)
  {
    SortKeysIsCanonical(x, y);
    PrintIsInjective(SortKeys(x), SortKeys(y));
  }

  // ---------------------------------------------------------------------------------------------
  // json.dumps(data, sort_keys=True, ensure_ascii=False, separators=(",", ":"))
  // ---------------------------------------------------------------------------------------------

  function PyOrdering(props: seq<Prop>): seq<Prop> {
    SortProps(PyLess, props)
  }

  lemma PyOrderingOrders()
    ensures Orders(PyOrdering, PyLess)
  {
    PyLessIsAnOrder();
    forall props | DistinctKeys(props)
      ensures Sorted(PyLess, PyOrdering(props)) && forall p :: p in PyOrdering(props) <==> p in props
    {
      SortSorts(PyLess, props);
    }
  }

  function FourHex(n: nat): string
    requires n < 0x10000
  {
    [HEX[n / 0x1000], HEX[n / 0x100 % 0x10], HEX[n / 0x10 % 0x10], HEX[n % 0x10]]
  }

  /** ESCAPE_DCT of Python's encoder, which replaces control characters, backslash and double quote. */
  function PyEscape(c: char): string {
    if c == '\\' then "\\\\"
    else if c == '\"' then "\\\""
    else if (c as int) >= 0x20 then [c]
    else
      match c
      case '\U{08}' => "\\b"
      case '\U{0C}' => "\\f"
      case '\n' => "\\n"
      case '\r' => "\\r"
      case '\t' => "\\t"
      case _ => "\\u" + FourHex(c as int)
  }

  function PyEscapeAll(s: string): string {
    if s == "" then "" else PyEscape(s[0]) + PyEscapeAll(s[1..])
  }

  function PyPrint(v: Value): string
    decreases v, 1
  {
    match v
    case Null => "null"
    case Bool(b) => if b then "true" else "false"
    case Num(n) => IntText(n)
    case Str(s) => "\"" + PyEscapeAll(s) + "\""
    case Arr(items) => "[" + PyItems(items, true)
    case Obj(props) => "{" + PyProps(props, true)
  }

  /** The encoder writes a separator before every item but the first, and the bracket at the end. */
  function PyItems(items: seq<Value>, first: bool): string
    decreases items, 0
  {
    if items == [] then "]" else (if first then "" else ",") + PyPrint(items[0]) + PyItems(items[1..], false)
  }

  function PyProps(props: seq<Prop>, first: bool): string
    decreases props, 0
  {
    if props == [] then "}" else (if first then "" else ",") + PyProp(props[0]) + PyProps(props[1..], false)
  }

  function PyProp(p: Prop): string
    decreases p, 2
  {
    "\"" + PyEscapeAll(p.key) + "\"" + ":" + PyPrint(p.value)
  }

  function PyText(x: Value): string {
    PyPrint(Canon(PyOrdering, x))
  }

  lemma EscapesAgree(c: char)
    ensures PyEscape(c) == Escape(c)
  {
    if c < ' ' {
      var n := c as int;
      assert n / 0x1000 == 0 && n / 0x100 % 0x10 == 0 && n / 0x10 % 0x10 == n / 16 && n % 0x10 == n % 16;
    }
  }

  lemma {:induction false} QuotesAgree(s: string)
    ensures PyEscapeAll(s) == EscapeAll(s)
  {
    if s != "" {
      EscapesAgree(s[0]);
      QuotesAgree(s[1..]);
    }
  }

  /** The two printers write the same text for the same ordered value. */
  lemma {:induction false} PrintersAgree(v: Value)
    ensures PyPrint(v) == Print(v)
    decreases v, 1
  {
    match v
    case Str(s) => QuotesAgree(s);
    case Arr(items) => ItemPrintersAgree(items);
    case Obj(props) => PropPrintersAgree(props);
    case _ =>
  }

  lemma {:induction false} ItemPrintersAgree(items: seq<Value>)
    ensures PyItems(items, true) == PrintItems(items) + "]"
    ensures items != [] ==> PyItems(items, false) == "," + (PrintItems(items) + "]")
    decreases items, 0
  {
    if items != [] {
      PrintersAgree(items[0]);
      ItemPrintersAgree(items[1..]);
      ItemsText(items, "]");
      Separated(Print(items[0]), PyItems(items[1..], false));
      assert |items| == 1 ==> PyItems(items[1..], false) == "]";
    }
  }

  lemma Separated(text: string, rest: string)
    ensures "" + text + rest == text + rest
    ensures "," + text + rest == "," + (text + rest)
  {
  }

  lemma {:induction false} PropPrinterAgrees(p: Prop)
    ensures PyProp(p) == PrintProp(p)
    decreases p, 2
  {
    PrintersAgree(p.value);
    QuotesAgree(p.key);
  }

  lemma {:induction false} PropPrintersAgree(props: seq<Prop>)
    ensures PyProps(props, true) == PrintProps(props) + "}"
    ensures props != [] ==> PyProps(props, false) == "," + (PrintProps(props) + "}")
    decreases props, 0
  {
    if props != [] {
      PropPrinterAgrees(props[0]);
      PropPrintersAgree(props[1..]);
      PropsText(props, "}");
      Separated(PrintProp(props[0]), PyProps(props[1..], false));
      assert |props| == 1 ==> PyProps(props[1..], false) == "}";
    }
  }

  // ---------------------------------------------------------------------------------------------
  // The two texts
  // ---------------------------------------------------------------------------------------------

  /** JavaScript and Python sign the same text exactly when, in every object of the data, their orders agree on every
      pair of keys. */
  lemma TextsAgreeExactlyWhenOrdersAgree(x: Value)
    requires WellFormed(x)
    ensures JsText(x) == PyText(x) <==> OrdersAgree(JsBefore, PyLess, x)
  {
    JsOrderingOrders();
    PyOrderingOrders();
    PrintersAgree(Canon(PyOrdering, x));
    PrintIsInjective(SortKeys(x), Canon(PyOrdering, x));
    CanonsAgree(JsOrdering, JsBefore, PyOrdering, PyLess, x);
  }

  /** One UTF-16 code unit per character. */
  predicate SingleUnits(s: string) {
    forall c :: c in s ==> (c as int) < 0x10000
  }

  /** No key is an array index, and none has a character beyond the basic plane. */
  ghost predicate PlainKeys(x: Value) {
    match x
    case Arr(items) => forall i :: 0 <= i < |items| ==> PlainKeys(items[i])
    case Obj(props) =>
      forall i :: 0 <= i < |props| ==> !IsIndex(props[i].key) && SingleUnits(props[i].key) && PlainKeys(props[i].value)
    case _ => true
  }

  lemma PlainKeysMean(items: seq<Value>, props: seq<Prop>)
    ensures PlainKeys(Arr(items)) <==> forall v :: v in items ==> PlainKeys(v)
    ensures PlainKeys(Obj(props)) <==>
              forall p :: p in props ==>
                            !IsIndex(p.key) && (forall c :: c in p.key ==> c <= '\U{FFFF}') && PlainKeys(p.value)
    ensures PlainKeys(Null) && forall s :: PlainKeys(Str(s))
  {
    assert forall i :: 0 <= i < |items| ==> items[i] in items;
    assert forall i :: 0 <= i < |props| ==> props[i] in props;
  }

  lemma {:induction false} SingleUnitsAreCodePoints(s: string)
    requires SingleUnits(s)
    ensures CodeUnits(s) == CodePoints(s)
  {
    if s != "" {
      assert s[0] in s;
      assert forall c :: c in s[1..] ==> c in s;
      SingleUnitsAreCodePoints(s[1..]);
    }
  }

  lemma {:induction false} PlainKeysAgree(x: Value)
    requires PlainKeys(x)
    ensures OrdersAgree(JsBefore, PyLess, x)
    decreases x
  {
    match x
    case Arr(items) =>
      forall i | 0 <= i < |items| {
        PlainKeysAgree(items[i]);
      }
    case Obj(props) =>
      forall i | 0 <= i < |props|
        ensures CodeUnits(props[i].key) == CodePoints(props[i].key)
        ensures OrdersAgree(JsBefore, PyLess, props[i].value)
      {
        SingleUnitsAreCodePoints(props[i].key);
        PlainKeysAgree(props[i].value);
      }
    case _ =>
  }

  /** So the two texts are the same for all data with plain keys, in particular ASCII keys that are no array indices. */
  lemma PlainTextsAgree(x: Value)
    requires WellFormed(x) && PlainKeys(x)
    ensures JsText(x) == PyText(x)
  {
    PlainKeysAgree(x);
    TextsAgreeExactlyWhenOrdersAgree(x);
  }

  /** Array indices are enumerated by value: 9 before 10, where Python puts "10" first. */
  lemma IndexKeysDiffer(v: Value, w: Value)
    requires WellFormed(v) && WellFormed(w)
    ensures var x := Obj([Prop("9", v), Prop("10", w)]); WellFormed(x) && JsText(x) != PyText(x)
  {
    var x := Obj([Prop("9", v), Prop("10", w)]);
    IndexOfDigits(9);
    IndexOfDigits(10);
    assert Digits(9) == "9";
    assert Digits(10) == Digits(1) + "0" == "10";
    assert JsBefore(x.props[0].key, x.props[1].key);
    assert CodePoints("9")[0] == '9' as int && CodePoints("10")[0] == '1' as int;
    assert !PyLess(x.props[0].key, x.props[1].key);
    TextsAgreeExactlyWhenOrdersAgree(x);
  }

  lemma IndexOfDigits(n: nat)
    requires n <= MAX_ARRAY_INDEX
    ensures IsIndex(Digits(n)) && IndexOf(Digits(n)) == n
  {
    ToNatOfDigits(n);
  }

  /** Surrogates sort below the top of the basic plane, code points above it. */
  lemma AstralKeysDiffer(v: Value, w: Value)
    requires WellFormed(v) && WellFormed(w)
    ensures var x := Obj([Prop("\U{1F3B5}", v), Prop("\U{FFFD}", w)]); WellFormed(x) && JsText(x) != PyText(x)
  {
    var astral, basic := "\U{1F3B5}", "\U{FFFD}";
    var x := Obj([Prop(astral, v), Prop(basic, w)]);
    assert !IsDigit(astral[0]) && astral[0] in astral && !IsDigit(basic[0]) && basic[0] in basic;
    assert CodeUnits(astral)[0] == 0xD83C && CodeUnits(basic)[0] == 0xFFFD;
    assert CodePoints(astral)[0] == 0x1F3B5 && CodePoints(basic)[0] == 0xFFFD;
    assert JsBefore(x.props[0].key, x.props[1].key) && !PyLess(x.props[0].key, x.props[1].key);
    TextsAgreeExactlyWhenOrdersAgree(x);
  }

  // ---------------------------------------------------------------------------------------------
  // Signing and recovering
  // ---------------------------------------------------------------------------------------------

  /** The cryptography: a hash of texts, signing a hash with a key, and recovering a wallet from a hash. */
  datatype Crypto = Crypto(keccak: string -> string, sign: (string, string) -> string,
                           recover: (string, string) -> string, address: string -> string)

  ghost predicate RecoversSigner(c: Crypto) {
    forall h, k :: c.recover(h, c.sign(h, k)) == c.address(k)
  }

  /** As far as these two texts go, the hash does not collide, and the signer of the one is not recovered from its
      signature and the other. */
  ghost predicate TellsApart(c: Crypto, signed: string, received: string, key: string) {
    && (c.keccak(received) == c.keccak(signed) ==> received == signed)
    && (c.recover(c.keccak(received), c.sign(c.keccak(signed), key)) == c.address(key) ==>
          c.keccak(received) == c.keccak(signed))
  }

  /** The laws do not contradict each other. */
  lemma LawsCanHold()
    ensures exists c :: RecoversSigner(c) && forall signed, received, key :: TellsApart(c, signed, received, key)
  {
    var recover := (h: string, s: string) => if |h| <= |s| && s[..|h|] == h then s[|h|..] else "";
    var c := Crypto((t: string) => t, (h: string, k: string) => h + "0" + k, recover, (k: string) => "0" + k);
    forall h, k: string
      ensures c.recover(h, c.sign(h, k)) == c.address(k)
    {
      assert (h + "0" + k)[..|h|] == h && (h + "0" + k)[|h|..] == "0" + k;
    }
    forall signed, received, key
      ensures TellsApart(c, signed, received, key)
    {
      var s := signed + "0" + key;
      if c.recover(received, s) == "0" + key {
        assert |received| == |signed|;
        assert s[..|signed|] == signed;
      }
    }
    assert RecoversSigner(c) && forall signed, received, key :: TellsApart(c, signed, received, key);
  }

  datatype Signature = Signature(timestamp: string, signature: string)

  /** `{ ...data, timestamp }` */
  function ToSign(data: seq<Prop>, timestamp: string): Value {
    Obj(Put(data, Prop("timestamp", Str(timestamp))))
  }

  /** generateTimestampAndSignature at a given time. */
  function GenerateSignature(c: Crypto, data: seq<Prop>, timestamp: string, key: string): Signature {
    Signature(timestamp, c.sign(c.keccak(JsText(ToSign(data, timestamp))), key))
  }

  function RecoverWallet(c: Crypto, data: Value, signature: string): string {
    c.recover(c.keccak(JsText(data)), signature)
  }

  /** recover_wallet of the discovery node. */
  function PyRecoverWallet(c: Crypto, data: Value, signature: string): string {
    c.recover(c.keccak(PyText(data)), signature)
  }

  lemma ToSignIsWellFormed(data: seq<Prop>, timestamp: string)
    requires WellFormed(Obj(data))
    ensures WellFormed(ToSign(data, timestamp))
  {
    var p := Prop("timestamp", Str(timestamp));
    assert p.key[0] in p.key && !IsDigit(p.key[0]);
    var r := Put(data, p);
    forall i, j | 0 <= i < j < |r|
      ensures r[i].key != r[j].key
    {
      if !HasKey(data, p.key) {
        assert r[i] in data;
      }
    }
  }

  /** What is signed: the data as it is, but with this timestamp, which replaces one that was there. */
  lemma ToSignMeans(data: seq<Prop>, timestamp: string)
    requires WellFormed(Obj(data))
    ensures var x := ToSign(data, timestamp);
            x.Obj? && forall p :: p in x.props <==>
                        p == Prop("timestamp", Str(timestamp)) || (p in data && p.key != "timestamp")
  {
    var p := Prop("timestamp", Str(timestamp));
    assert p.key[0] in p.key && !IsDigit(p.key[0]);
    var r := Put(data, p);
    if HasKey(data, p.key) {
      forall q
        ensures q in r <==> q == p || (q in data && q.key != p.key)
      {
        if q in r {
          var i :| 0 <= i < |r| && r[i] == q;
          assert data[i] in data;
        }
        if q in data && q.key != p.key {
          var i :| 0 <= i < |data| && data[i] == q;
          assert r[i] == q;
        }
        var k :| 0 <= k < |data| && data[k].key == p.key;
        assert r[k] == p;
      }
    }
  }

  /** The signer is recovered from any data equal to the signed data up to key order, at every depth. */
  lemma ReorderedDataRecoversSigner(c: Crypto, data: seq<Prop>, timestamp: string, key: string, received: Value)
    requires RecoversSigner(c) && WellFormed(Obj(data)) && WellFormed(received)
    requires Same(received, ToSign(data, timestamp))
    ensures RecoverWallet(c, received, GenerateSignature(c, data, timestamp, key).signature) == c.address(key)
  {
    ToSignIsWellFormed(data, timestamp);
    JsTextIsCanonical(received, ToSign(data, timestamp));
  }

  /** ... and, where the cryptography tells the two texts apart, from no other data. */
  lemma OnlyReorderedDataRecoversSigner(c: Crypto, data: seq<Prop>, timestamp: string, key: string, received: Value)
    requires RecoversSigner(c) && WellFormed(Obj(data)) && WellFormed(received)
    requires TellsApart(c, JsText(ToSign(data, timestamp)), JsText(received), key)
    ensures (RecoverWallet(c, received, GenerateSignature(c, data, timestamp, key).signature) == c.address(key)) <==>
              Same(received, ToSign(data, timestamp))
  {
    ToSignIsWellFormed(data, timestamp);
    JsTextIsCanonical(received, ToSign(data, timestamp));
  }

  /** A discovery node recovers the signer from data signed by a content node if, and where the cryptography tells the
      two texts apart only if, the two key orders agree on it. */
  lemma SignerIsRecoveredInPython(c: Crypto, data: seq<Prop>, timestamp: string, key: string)
    requires WellFormed(Obj(data))
    ensures var x := ToSign(data, timestamp);
            var wallet := PyRecoverWallet(c, x, GenerateSignature(c, data, timestamp, key).signature);
            && (RecoversSigner(c) && OrdersAgree(JsBefore, PyLess, x) ==> wallet == c.address(key))
            && (RecoversSigner(c) && TellsApart(c, JsText(x), PyText(x), key) ==>
                  (wallet == c.address(key) <==> OrdersAgree(JsBefore, PyLess, x)))
  {
    ToSignIsWellFormed(data, timestamp);
    TextsAgreeExactlyWhenOrdersAgree(ToSign(data, timestamp));
  }

  // ---------------------------------------------------------------------------------------------
  // The cached listen signature
  // ---------------------------------------------------------------------------------------------

  const MAX_SIGNATURE_AGE_MS := 300000

  const LISTEN := [Prop("data", Str("listen"))]

  lemma ListenText(timestamp: string)
    ensures ToSign(LISTEN, timestamp) == Obj([Prop("data", Str("listen")), Prop("timestamp", Str(timestamp))])
  {
    assert "timestamp"[0] in "timestamp" && !IsDigit("timestamp"[0]);
  }

  datatype Cached = Cached(at: int, signature: Signature)

  class ListenSigner {
    const c: Crypto
    /** toISOString of a time in milliseconds. */
    const iso: int -> string
    var cached: Option<Cached>
    ghost var signedWith: string

    constructor (c: Crypto, iso: int -> string)
      requires RecoversSigner(c)
      ensures this.c == c && this.iso == iso && cached.None? && Valid()
    {
      this.c, this.iso, cached, signedWith := c, iso, None, "";
    }

    ghost predicate Valid()
      reads this
    {
      RecoversSigner(c) &&
      (cached.Some? ==>
         cached.value.signature == GenerateSignature(c, LISTEN, iso(cached.value.at), signedWith))
    }

    /**
     generateListenTimestampAndSignature: the signature returned is less than five minutes old. It is the cached one
     if that is fresh, whatever key is given now, and otherwise a new one.
     */
    method Generate(now: int, key: string) returns (s: Signature)
      requires Valid()
      modifies this
      ensures Valid()
      ensures cached.Some? && s == cached.value.signature && now - cached.value.at < 300000
      ensures s.timestamp == iso(cached.value.at)
      ensures if old(cached).Some? && now - old(cached).value.at < 300000
              then cached == old(cached) && signedWith == old(signedWith)
              else cached.value.at == now && signedWith == key
      ensures RecoverWallet(c, Obj([Prop("data", Str("listen")), Prop("timestamp", Str(s.timestamp))]), s.signature)
              == c.address(signedWith)
    {
      ListenText(iso(now));
      if cached.Some? {
        ListenText(cached.value.signature.timestamp);
      }
      if cached.Some? {
        if now - cached.value.at >= MAX_SIGNATURE_AGE_MS {
          cached := None;
        } else {
          return cached.value.signature;
        }
      }
      s := GenerateSignature(c, LISTEN, iso(now), key);
      cached := Some(Cached(now, s));
      signedWith := key;
    }
  }
}
