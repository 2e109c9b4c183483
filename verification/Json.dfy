/**
 JSON values, the text JSON.stringify gives for them, and a parser of such texts.

 An object is the list of its properties in the order in which they are enumerated. Numbers are integers; characters
 are Unicode scalar values.
 */
module Json {
  import opened Prelude

  datatype Value =
    | Null
    | Bool(b: bool)
    | Num(n: int)
    | Str(s: string)
    | Arr(items: seq<Value>)
    | Obj(props: seq<Prop>)

  datatype Prop = Prop(key: string, value: Value)

  // ---------------------------------------------------------------------------------------------
  // Printing
  // ---------------------------------------------------------------------------------------------

  const DIGITS := "0123456789"
  const HEX := "0123456789abcdef"

  predicate IsDigit(c: char) {
    '0' <= c <= '9'
  }

  function Digits(n: nat): (t: string)
    ensures t != "" && forall c :: c in t ==> IsDigit(c)
    ensures n < 10 ==> |t| == 1
    ensures n > 0 ==> t[0] != '0'
  {
    if n < 10 then [DIGITS[n]] else Digits(n / 10) + [DIGITS[n % 10]]
  }

  function IntText(n: int): string {
    if n < 0 then "-" + Digits(-n) else Digits(n)
  }

  /** QuoteJSONString of ECMA-262 section 25.5.2.3, for one code point. */
  function Escape(c: char): string {
    if c == '\U{08}' then "\\b"
    else if c == '\t' then "\\t"
    else if c == '\n' then "\\n"
    else if c == '\U{0C}' then "\\f"
    else if c == '\r' then "\\r"
    else if c == '\"' then "\\\""
    else if c == '\\' then "\\\\"
    else if c < ' ' then "\\u00" + [HEX[(c as int) / 16], HEX[(c as int) % 16]]
    else [c]
  }

  function EscapeAll(s: string): string {
    if s == "" then "" else Escape(s[0]) + EscapeAll(s[1..])
  }

  function Quote(s: string): string {
    "\"" + EscapeAll(s) + "\""
  }

  /** JSON.stringify without indentation. */
  function Print(v: Value): string
    decreases v, 1
  {
    match v
    case Null => "null"
    case Bool(b) => if b then "true" else "false"
    case Num(n) => IntText(n)
    case Str(s) => Quote(s)
    case Arr(items) => "[" + PrintItems(items) + "]"
    case Obj(props) => "{" + PrintProps(props) + "}"
  }

  function PrintItems(items: seq<Value>): string
    decreases items, 0
  {
    if items == [] then ""
    else if |items| == 1 then Print(items[0])
    else Print(items[0]) + ("," + PrintItems(items[1..]))
  }

  function PrintProps(props: seq<Prop>): string
    decreases props, 0
  {
    if props == [] then ""
    else if |props| == 1 then PrintProp(props[0])
    else PrintProp(props[0]) + ("," + PrintProps(props[1..]))
  }

  function PrintProp(p: Prop): string
    decreases p, 2
  {
    Quote(p.key) + ":" + Print(p.value)
  }

  // ---------------------------------------------------------------------------------------------
  // Parsing
  // ---------------------------------------------------------------------------------------------

  lemma EscapesAre()
    ensures Escape('\"') == "\\\"" && Escape('\\') == "\\\\" && Escape('\n') == "\\n" && Escape('\r') == "\\r"
    ensures Escape('\t') == "\\t" && Escape('\U{08}') == "\\b" && Escape('\U{0C}') == "\\f"
    ensures Escape('\U{01}') == "\\u0001" && Escape('\U{1F}') == "\\u001f"
    ensures forall c :: c >= ' ' && c != '\"' && c != '\\' ==> Escape(c) == [c]
  {
  }

  lemma NumbersAre()
    ensures IntText(1203) == "1203" && IntText(-40) == "-40" && IntText(0) == "0"
  {
    assert Digits(1) == "1" && Digits(12) == "12" && Digits(120) == "120" && Digits(1203) == "1203";
    assert Digits(4) == "4" && Digits(40) == "40";
  }

  /** The text of words, strings and containers. */
  lemma WordsAre(s: string)
    ensures Print(Null) == "null" && Print(Bool(true)) == "true" && Print(Bool(false)) == "false"
    ensures Print(Str(s)) == "\"" + EscapeAll(s) + "\"" && Print(Obj([])) == "{}" && Print(Arr([])) == "[]"
    ensures forall n :: Print(Num(n)) == IntText(n)
  {
  }

  lemma ArraysAre(v: Value, more: seq<Value>)
    ensures Print(Arr(more)) == "[" + PrintItems(more) + "]"
    ensures PrintItems([]) == "" && PrintItems([v]) == Print(v)
    ensures more != [] ==> PrintItems([v] + more) == Print(v) + "," + PrintItems(more)
  {
    assert ([v] + more)[1..] == more;
  }

  lemma ObjectsAre(p: Prop, more: seq<Prop>)
    ensures Print(Obj(more)) == "{" + PrintProps(more) + "}"
    ensures PrintProps([]) == "" && PrintProps([p]) == "\"" + EscapeAll(p.key) + "\"" + ":" + Print(p.value)
    ensures more != [] ==> PrintProps([p] + more) == PrintProps([p]) + "," + PrintProps(more)
  {
    assert ([p] + more)[1..] == more;
  }

  /** A parsed value and the text after it. */
  datatype Parsed<+T> = Fail | Done(value: T, rest: string)

  function DigitRun(t: string): (n: nat)
    ensures n <= |t|
    ensures forall i :: 0 <= i < n ==> IsDigit(t[i])
    ensures n < |t| ==> !IsDigit(t[n])
  {
    if t == "" || !IsDigit(t[0]) then 0 else 1 + DigitRun(t[1..])
  }

  function DigitValue(c: char): nat
    requires IsDigit(c)
  {
    (c as int) - ('0' as int)
  }

  function ToNat(digits: string): nat
    requires forall c :: c in digits ==> IsDigit(c)
  {
    if digits == "" then 0
    else
      var n := |digits| - 1;
      assert digits[n] in digits;
      10 * ToNat(digits[..n]) + DigitValue(digits[n])
  }

  function ParseNat(t: string): (r: Parsed<nat>)
    ensures r.Done? ==> |r.rest| < |t|
  {
    var n := DigitRun(t);
    if n == 0 || (n > 1 && t[0] == '0') then Fail else Done(ToNat(t[..n]), t[n..])
  }

  function ParseInt(t: string): (r: Parsed<int>)
    ensures r.Done? ==> |r.rest| < |t|
  {
    if t != "" && t[0] == '-' then
      var r := ParseNat(t[1..]);
      if r.Fail? then Fail else Done(0 - (r.value as int), r.rest)
    else
      var r := ParseNat(t);
      if r.Fail? then Fail else Done(r.value as int, r.rest)
  }

  function HexValue(c: char): (n: int)
    ensures n < 16
  {
    if '0' <= c <= '9' then (c as int) - ('0' as int)
    else if 'a' <= c <= 'f' then 10 + (c as int) - ('a' as int)
    else -1
  }

  /** One possibly escaped character of a string; of the \u escapes, those below 0x100. */
  function ParseChar(t: string): (r: Parsed<char>)
    ensures r.Done? ==> |r.rest| < |t|
  {
    if t == "" || t[0] == '\"' || t[0] < ' ' then Fail
    else if t[0] != '\\' then Done(t[0], t[1..])
    else if |t| < 2 then Fail
    else
      match t[1]
      case 'b' => Done('\U{08}', t[2..])
      case 't' => Done('\t', t[2..])
      case 'n' => Done('\n', t[2..])
      case 'f' => Done('\U{0C}', t[2..])
      case 'r' => Done('\r', t[2..])
      case '\"' => Done('\"', t[2..])
      case '\\' => Done('\\', t[2..])
      case '/' => Done('/', t[2..])
      case 'u' =>
        if |t| >= 6 && t[2] == '0' && t[3] == '0' && HexValue(t[4]) >= 0 && HexValue(t[5]) >= 0
        then Done((16 * HexValue(t[4]) + HexValue(t[5])) as char, t[6..])
        else Fail
      case _ => Fail
  }

  /** The characters up to the closing quote. */
  function ParseChars(t: string): (r: Parsed<string>)
    ensures r.Done? ==> |r.rest| < |t|
    decreases |t|
  {
    if t == "" then Fail
    else if t[0] == '\"' then Done("", t[1..])
    else
      match ParseChar(t)
      case Fail => Fail
      case Done(c, rest) =>
        match ParseChars(rest)
        case Fail => Fail
        case Done(s, rest') => Done([c] + s, rest')
  }

  predicate StartsWith(t: string, word: string) {
    |word| <= |t| && t[..|word|] == word
  }

  function ParseValue(t: string): (r: Parsed<Value>)
    ensures r.Done? ==> |r.rest| < |t|
    decreases |t|, 2
  {
    if t == "" then Fail
    else if t[0] == 'n' then if StartsWith(t, "null") then Done(Null, t[4..]) else Fail
    else if t[0] == 't' then if StartsWith(t, "true") then Done(Bool(true), t[4..]) else Fail
    else if t[0] == 'f' then if StartsWith(t, "false") then Done(Bool(false), t[5..]) else Fail
    else if t[0] == '\"' then
      match ParseChars(t[1..])
      case Fail => Fail
      case Done(s, rest) => Done(Str(s), rest)
    else if t[0] == '[' then
      if StartsWith(t[1..], "]") then Done(Arr([]), t[2..])
      else
        match ParseItems(t[1..])
        case Fail => Fail
        case Done(items, rest) => Done(Arr(items), rest)
    else if t[0] == '{' then
      if StartsWith(t[1..], "}") then Done(Obj([]), t[2..])
      else
        match ParseProps(t[1..])
        case Fail => Fail
        case Done(props, rest) => Done(Obj(props), rest)
    else
      match ParseInt(t)
      case Fail => Fail
      case Done(n, rest) => Done(Num(n), rest)
  }

  /** One or more values, up to the closing bracket. */
  function ParseItems(t: string): (r: Parsed<seq<Value>>)
    ensures r.Done? ==> |r.rest| < |t|
    decreases |t|, 3
  {
    match ParseValue(t)
    case Fail => Fail
    case Done(v, rest) =>
      if StartsWith(rest, "]") then Done([v], rest[1..])
      else if StartsWith(rest, ",") then
        match ParseItems(rest[1..])
        case Fail => Fail
        case Done(items, rest') => Done([v] + items, rest')
      else Fail
  }

  function ParseProp(t: string): (r: Parsed<Prop>)
    ensures r.Done? ==> |r.rest| < |t|
    decreases |t|, 3
  {
    if !StartsWith(t, "\"") then Fail
    else
      match ParseChars(t[1..])
      case Fail => Fail
      case Done(key, rest) =>
        if !StartsWith(rest, ":") then Fail
        else
          match ParseValue(rest[1..])
          case Fail => Fail
          case Done(v, rest') => Done(Prop(key, v), rest')
  }

  /** One or more properties, up to the closing brace. */
  function ParseProps(t: string): (r: Parsed<seq<Prop>>)
    ensures r.Done? ==> |r.rest| < |t|
    decreases |t|, 4
  {
    match ParseProp(t)
    case Fail => Fail
    case Done(p, rest) =>
      if StartsWith(rest, "}") then Done([p], rest[1..])
      else if StartsWith(rest, ",") then
        match ParseProps(rest[1..])
        case Fail => Fail
        case Done(props, rest') => Done([p] + props, rest')
      else Fail
  }

  /** A whole text. */
  function Parse(t: string): Option<Value> {
    match ParseValue(t)
    case Fail => None
    case Done(v, rest) => if rest == "" then Some(v) else None
  }

  lemma DigitOfValue(c: char)
    requires IsDigit(c)
    ensures DigitValue(c) < 10 && DIGITS[DigitValue(c)] == c
  {
  }

  lemma {:induction false} DigitsOfToNat(s: string)
    requires s != "" && (forall c :: c in s ==> IsDigit(c)) && (|s| == 1 || s[0] != '0')
    ensures Digits(ToNat(s)) == s
    ensures s[0] != '0' ==> ToNat(s) > 0
  {
    var n := |s| - 1;
    var front, v := s[..n], DigitValue(s[n]);
    assert s == front + [s[n]];
    assert ToNat(s) == 10 * ToNat(front) + v;
    DigitOfValue(s[n]);
    if n > 0 {
      assert front[0] == s[0];
      DigitsOfToNat(front);
      assert ToNat(s) / 10 == ToNat(front) && ToNat(s) % 10 == v;
    } else {
      assert front == "" && ToNat(front) == 0;
    }
  }

  /** A number is only read where its decimal text stands: no leading zero, and no digit left. */
  lemma NumbersAreRead(t: string)
    requires ParseNat(t).Done?
    ensures t == Digits(ParseNat(t).value) + ParseNat(t).rest
    ensures ParseNat(t).rest != "" ==> !IsDigit(ParseNat(t).rest[0])
  {
    var n := DigitRun(t);
    assert t == t[..n] + t[n..] && t[..n][0] == t[0];
    DigitsOfToNat(t[..n]);
  }

  /** A character is only read as what it is, or as its escape, or as two hexadecimal digits of an escape. */
  lemma CharsAreRead(t: string)
    requires ParseChar(t).Done?
    ensures var c, rest := ParseChar(t).value, ParseChar(t).rest;
            || t == Escape(c) + rest
            || (c == '/' && t == "\\/" + rest)
            || (exists x, y :: t == "\\u00" + [x, y] + rest && HexValue(x) >= 0 && HexValue(y) >= 0
                               && c as int == 16 * HexValue(x) + HexValue(y))
  {
    if t[0] == '\\' {
      assert t == [t[0], t[1]] + t[2..];
      if t[1] == 'u' {
        assert t == "\\u00" + [t[4], t[5]] + t[6..];
      }
    } else {
      assert t == [t[0]] + t[1..];
    }
  }

  // ---------------------------------------------------------------------------------------------
  // Parsing undoes printing
  // ---------------------------------------------------------------------------------------------

  lemma {:induction false} ToNatOfDigits(n: nat)
    ensures ToNat(Digits(n)) == n
  {
    var t := Digits(n);
    if n >= 10 {
      ToNatOfDigits(n / 10);
      assert t[..|t| - 1] == Digits(n / 10);
    } else {
      assert t[..0] == "";
    }
  }

  /** What may follow a number. */
  predicate NoDigitFirst(s: string) {
    s == "" || !IsDigit(s[0])
  }

  lemma {:induction false} RunOfDigits(t: string, s: string)
    requires (forall c :: c in t ==> IsDigit(c)) && NoDigitFirst(s)
    ensures DigitRun(t + s) == |t|
  {
    if t == "" {
      assert t + s == s;
    } else {
      assert (t + s)[1..] == t[1..] + s;
      assert t[0] in t;
      RunOfDigits(t[1..], s);
    }
  }

  lemma NatRoundTrip(n: nat, s: string)
    requires NoDigitFirst(s)
    ensures ParseNat(Digits(n) + s) == Done(n, s)
  {
    var t := Digits(n);
    RunOfDigits(t, s);
    ToNatOfDigits(n);
    assert (t + s)[..|t|] == t && (t + s)[|t|..] == s;
  }

  lemma SignedRoundTrip(d: string, n: nat, s: string)
    requires d != "" && IsDigit(d[0]) && ParseNat(d + s) == Done(n, s)
    ensures ParseInt(d + s) == Done(n, s)
    ensures ParseInt("-" + d + s) == Done(0 - (n as int), s)
  {
    assert (d + s)[0] == d[0];
    var t := "-" + d + s;
    assert t[0] == '-' && t[1..] == d + s;
  }

  lemma IntRoundTrip(n: int, s: string)
    requires NoDigitFirst(s)
    ensures ParseInt(IntText(n) + s) == Done(n, s)
  {
    var m: nat := if n < 0 then -n else n;
    var d := Digits(m);
    NatRoundTrip(m, s);
    assert d[0] in d;
    SignedRoundTrip(d, m, s);
    assert IntText(n) == if n < 0 then "-" + d else d;
  }

  lemma HexRoundTrip(n: nat)
    requires n < 16
    ensures HexValue(HEX[n]) == n
  {
  }

  lemma CharRoundTrip(c: char, s: string)
    ensures ParseChar(Escape(c) + s) == Done(c, s)
    ensures Escape(c)[0] != '\"'
  {
    var e := Escape(c);
    assert (e + s)[|e|..] == s;
    if c < ' ' {
      HexRoundTrip((c as int) / 16);
      HexRoundTrip((c as int) % 16);
    }
  }

  lemma {:induction false} CharsRoundTrip(s: string, rest: string)
    ensures ParseChars(EscapeAll(s) + "\"" + rest) == Done(s, rest)
  {
    var t := EscapeAll(s) + "\"" + rest;
    if s == "" {
      assert t == "\"" + rest;
      assert t[1..] == rest;
    } else {
      var tail := EscapeAll(s[1..]) + "\"" + rest;
      assert t == Escape(s[0]) + tail;
      CharRoundTrip(s[0], tail);
      assert t[0] == Escape(s[0])[0];
      CharsRoundTrip(s[1..], rest);
      assert s == [s[0]] + s[1..];
    }
  }

  lemma FirstChar(v: Value)
    ensures Print(v) != ""
    ensures var c := Print(v)[0];
            match v
            case Null => c == 'n'
            case Bool(b) => c == if b then 't' else 'f'
            case Num(_) => c == '-' || IsDigit(c)
            case Str(_) => c == '\"'
            case Arr(_) => c == '['
            case Obj(_) => c == '{'
  {
    if v.Num? {
      var t := IntText(v.n);
      assert v.n >= 0 ==> t[0] in t;
    }
  }

  // One step of the parser on each kind of text, so that the round trip need not unfold it.

  lemma WordStep(t: string)
    ensures StartsWith(t, "null") ==> ParseValue(t) == Done(Null, t[4..])
    ensures StartsWith(t, "true") ==> ParseValue(t) == Done(Bool(true), t[4..])
    ensures StartsWith(t, "false") ==> ParseValue(t) == Done(Bool(false), t[5..])
  {
    assert StartsWith(t, "null") ==> t[0] == t[..4][0];
    assert StartsWith(t, "true") ==> t[0] == t[..4][0];
    assert StartsWith(t, "false") ==> t[0] == t[..5][0];
  }

  lemma NumberStep(t: string)
    requires t != "" && (t[0] == '-' || IsDigit(t[0])) && ParseInt(t).Done?
    ensures ParseValue(t) == Done(Num(ParseInt(t).value), ParseInt(t).rest)
  {
    var c := t[0];
    assert c != 'n' && c != 't' && c != 'f' && c != '\"' && c != '[' && c != '{';
  }

  lemma StringStep(t: string, str: string, s: string)
    requires t != "" && t[0] == '\"' && ParseChars(t[1..]) == Done(str, s)
    ensures ParseValue(t) == Done(Str(str), s)
  {
  }

  lemma ContainerStep(t: string)
    requires t != ""
    ensures t[0] == '[' && StartsWith(t[1..], "]") ==> ParseValue(t) == Done(Arr([]), t[2..])
    ensures t[0] == '[' && !StartsWith(t[1..], "]") && ParseItems(t[1..]).Done? ==>
              ParseValue(t) == Done(Arr(ParseItems(t[1..]).value), ParseItems(t[1..]).rest)
    ensures t[0] == '{' && StartsWith(t[1..], "}") ==> ParseValue(t) == Done(Obj([]), t[2..])
    ensures t[0] == '{' && !StartsWith(t[1..], "}") && ParseProps(t[1..]).Done? ==>
              ParseValue(t) == Done(Obj(ParseProps(t[1..]).value), ParseProps(t[1..]).rest)
  {
  }

  lemma ItemsStep(t: string, v: Value, s: string)
    requires ParseValue(t) == Done(v, "]" + s)
    ensures ParseItems(t) == Done([v], s)
  {
    assert ("]" + s)[1..] == s;
  }

  lemma MoreItemsStep(t: string, v: Value, u: string, items: seq<Value>, s: string)
    requires ParseValue(t) == Done(v, "," + u) && ParseItems(u) == Done(items, s)
    ensures ParseItems(t) == Done([v] + items, s)
  {
    assert ("," + u)[1..] == u;
  }

  lemma PropStep(t: string, key: string, u: string, v: Value, s: string)
    requires StartsWith(t, "\"") && ParseChars(t[1..]) == Done(key, ":" + u) && ParseValue(u) == Done(v, s)
    ensures ParseProp(t) == Done(Prop(key, v), s)
  {
    assert (":" + u)[1..] == u;
  }

  lemma PropsStep(t: string, p: Prop, s: string)
    requires ParseProp(t) == Done(p, "}" + s)
    ensures ParseProps(t) == Done([p], s)
  {
    assert ("}" + s)[1..] == s;
  }

  lemma MorePropsStep(t: string, p: Prop, u: string, props: seq<Prop>, s: string)
    requires ParseProp(t) == Done(p, "," + u) && ParseProps(u) == Done(props, s)
    ensures ParseProps(t) == Done([p] + props, s)
  {
    assert ("," + u)[1..] == u;
  }

  /** The parser gives back the value, and the text that followed it. */
  lemma {:induction false} RoundTrip(v: Value, s: string)
    requires NoDigitFirst(s)
    ensures ParseValue(Print(v) + s) == Done(v, s)
    decreases v, 1
  {
    match v
    case Arr(items) => ArrRoundTrip(items, s);
    case Obj(props) => ObjRoundTrip(props, s);
    case _ => ScalarRoundTrip(v, s);
  }

  lemma ScalarRoundTrip(v: Value, s: string)
    requires NoDigitFirst(s) && !v.Arr? && !v.Obj?
    ensures ParseValue(Print(v) + s) == Done(v, s)
  {
    var t := Print(v) + s;
    FirstChar(v);
    assert t[0] == Print(v)[0];
    match v
    case Num(n) =>
      IntRoundTrip(n, s);
      NumberStep(t);
    case Str(str) =>
      assert t[1..] == EscapeAll(str) + "\"" + s;
      CharsRoundTrip(str, s);
      StringStep(t, str, s);
    case _ => WordRoundTrip(v, s);
  }

  lemma WordRoundTrip(v: Value, s: string)
    ensures v.Null? || v.Bool? ==> ParseValue(Print(v) + s) == Done(v, s)
  {
    var word := Print(v);
    WordStep(word + s);
    assert (word + s)[|word|..] == s && (word + s)[..|word|] == word;
  }

  lemma {:induction false} ArrRoundTrip(items: seq<Value>, s: string)
    ensures ParseValue("[" + PrintItems(items) + "]" + s) == Done(Arr(items), s)
    decreases items, 1
  {
    var t := "[" + PrintItems(items) + "]" + s;
    ContainerStep(t);
    if items == [] {
      assert t == "[]" + s;
      assert t[1..][..1] == "]" && t[2..] == s;
    } else {
      var u := PrintItems(items) + ("]" + s);
      assert t[1..] == u;
      FirstChar(items[0]);
      assert u[0] == Print(items[0])[0];
      assert u[..1][0] != ']';
      ItemsRoundTrip(items, s);
    }
  }

  lemma {:induction false} ObjRoundTrip(props: seq<Prop>, s: string)
    ensures ParseValue("{" + PrintProps(props) + "}" + s) == Done(Obj(props), s)
    decreases props, 1
  {
    var t := "{" + PrintProps(props) + "}" + s;
    var u := PrintProps(props) + ("}" + s);
    assert t[1..] == u;
    ContainerStep(t);
    if props == [] {
      assert u == "}" + s;
      assert t[1..][..1] == "}" && t[2..] == s;
    } else {
      assert u[0] == PrintProp(props[0])[0] == '\"';
      assert u[..1][0] != '}';
      PropsRoundTrip(props, s);
    }
  }

  lemma Reassociate(a: string, b: string, c: string, d: string)
    ensures a + (b + c) + d == a + (b + (c + d))
  {
  }

  lemma ItemsText(items: seq<Value>, end: string)
    requires items != []
    ensures |items| == 1 ==> PrintItems(items) + end == Print(items[0]) + end
    ensures |items| > 1 ==> PrintItems(items) + end == Print(items[0]) + ("," + (PrintItems(items[1..]) + end))
  {
    if |items| > 1 {
      Reassociate(Print(items[0]), ",", PrintItems(items[1..]), end);
    }
  }

  lemma PropsText(props: seq<Prop>, end: string)
    requires props != []
    ensures |props| == 1 ==> PrintProps(props) + end == PrintProp(props[0]) + end
    ensures |props| > 1 ==> PrintProps(props) + end == PrintProp(props[0]) + ("," + (PrintProps(props[1..]) + end))
  {
    if |props| > 1 {
      Reassociate(PrintProp(props[0]), ",", PrintProps(props[1..]), end);
    }
  }

  lemma {:induction false} ItemsRoundTrip(items: seq<Value>, s: string)
    requires items != []
    ensures ParseItems(PrintItems(items) + ("]" + s)) == Done(items, s)
    decreases items, 0
  {
    var v := items[0];
    ItemsText(items, "]" + s);
    if |items| == 1 {
      RoundTrip(v, "]" + s);
      ItemsStep(Print(v) + ("]" + s), v, s);
      assert items == [v];
    } else {
      var u := PrintItems(items[1..]) + ("]" + s);
      RoundTrip(v, "," + u);
      ItemsRoundTrip(items[1..], s);
      MoreItemsStep(Print(v) + ("," + u), v, u, items[1..], s);
      assert items == [v] + items[1..];
    }
  }

  lemma PropPieces(key: string, value: string, s: string)
    ensures var t := "\"" + key + "\"" + ":" + value + s;
            |t| > 0 && t[..1] == "\"" && t[1..] == key + "\"" + (":" + (value + s))
  {
  }

  lemma PropText(p: Prop, s: string)
    ensures var t := PrintProp(p) + s;
            StartsWith(t, "\"") && t[1..] == EscapeAll(p.key) + "\"" + (":" + (Print(p.value) + s))
  {
    PropPieces(EscapeAll(p.key), Print(p.value), s);
  }

  lemma {:induction false} PropRoundTrip(p: Prop, s: string)
    requires NoDigitFirst(s)
    ensures ParseProp(PrintProp(p) + s) == Done(p, s)
    decreases p, 2
  {
    var u := Print(p.value) + s;
    PropText(p, s);
    CharsRoundTrip(p.key, ":" + u);
    RoundTrip(p.value, s);
    PropStep(PrintProp(p) + s, p.key, u, p.value, s);
  }

  lemma {:induction false} PropsRoundTrip(props: seq<Prop>, s: string)
    requires props != []
    ensures ParseProps(PrintProps(props) + ("}" + s)) == Done(props, s)
    decreases props, 0
  {
    var p, end := props[0], "}" + s;
    PropsText(props, end);
    if |props| == 1 {
      PropRoundTrip(p, end);
      PropsStep(PrintProp(p) + end, p, s);
      assert props == [p];
    } else {
      var rest := props[1..];
      var u := PrintProps(rest) + end;
      PropRoundTrip(p, "," + u);
      PropsRoundTrip(rest, s);
      MorePropsStep(PrintProp(p) + ("," + u), p, u, rest, s);
      assert props == [p] + rest;
    }
  }

  lemma ParsePrint(v: Value)
    ensures Parse(Print(v)) == Some(v)
  {
    RoundTrip(v, "");
    assert Print(v) + "" == Print(v);
  }

  /** What follows the text of a value is refused, if it cannot be part of a number. */
  lemma TrailingTextIsRefused(v: Value, s: string)
    requires NoDigitFirst(s) && s != ""
    ensures Parse(Print(v) + s) == None
  {
    RoundTrip(v, s);
  }

  /** Hence different values have different texts. */
  lemma PrintIsInjective(v: Value, w: Value)
    ensures Print(v) == Print(w) <==> v == w
  {
    ParsePrint(v);
    ParsePrint(w);
  }
}
