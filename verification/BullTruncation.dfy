/**
 Truncation of large job data for display: nesting is cut at seven levels, arrays at 100 elements, and, directly under
 an object key, strings at 10000 characters and objects at 100 keys.
 */
module BullTruncation {
  import opened Json
  import opened KeyOrder

  const MAX_DEPTH := 7
  const MAX_SIZE := 100
  const MAX_STRING := 10000

  /** String length in JavaScript: UTF-16 code units. */
  function Length(s: string): nat {
    |CodeUnits(s)|
  }

  function ArrayNote(n: nat): Value {
    Str("[Truncated array with " + Digits(n) + " elements]")
  }

  function ObjectNote(n: nat): Value {
    Str("[Truncated object with " + Digits(n) + " keys]")
  }

  function StringNote(n: nat): Value {
    Str("[Truncated string of length " + Digits(n) + "]")
  }

  function Truncated(v: Value, depth: nat): Value
    decreases v, 1
  {
    match v
    case Arr(items) =>
      if depth >= MAX_DEPTH || |items| > MAX_SIZE then ArrayNote(|items|)
      else Arr(TruncatedItems(items, depth + 1))
    case Obj(props) =>
      if depth >= MAX_DEPTH then ObjectNote(|props|) else Obj(TruncatedProps(props, depth + 1))
    case _ => v
  }

  function TruncatedItems(items: seq<Value>, depth: nat): (r: seq<Value>)
    ensures |r| == |items|
    decreases items, 0
  {
    if items == [] then [] else [Truncated(items[0], depth)] + TruncatedItems(items[1..], depth)
  }

  function TruncatedProps(props: seq<Prop>, depth: nat): (r: seq<Prop>)
    ensures |r| == |props|
    decreases props, 0
  {
    if props == [] then []
    else [Prop(props[0].key, TruncatedMember(props[0].value, depth))] + TruncatedProps(props[1..], depth)
  }

  /** A value under an object key; null and the empty object are kept at any depth. */
  function TruncatedMember(v: Value, depth: nat): Value
    decreases v, 2
  {
    match v
    case Str(s) => if Length(s) > MAX_STRING then StringNote(Length(s)) else v
    case Arr(items) => if |items| > MAX_SIZE then ArrayNote(|items|) else Truncated(v, depth)
    case Obj(props) =>
      if props == [] then v else if |props| > MAX_SIZE then ObjectNote(|props|) else Truncated(v, depth)
    case _ => v
  }

  /** What stands in for what, with the depths, sizes and texts as documented. */
  lemma NotesSayWhatWasThere(items: seq<Value>, props: seq<Prop>, s: string, depth: nat)
    ensures var v := Truncated(Arr(items), depth);
            if depth >= 7 || |items| > 100 then v == Str("[Truncated array with " + Digits(|items|) + " elements]")
            else v.Arr? && |v.items| == |items|
    ensures var v := Truncated(Obj(props), depth);
            if depth >= 7 then v == Str("[Truncated object with " + Digits(|props|) + " keys]")
            else v.Obj? && |v.props| == |props| && forall i :: 0 <= i < |props| ==> v.props[i].key == props[i].key
    ensures TruncatedMember(Str(s), depth) ==
              if |CodeUnits(s)| <= 10000 then Str(s)
              else Str("[Truncated string of length " + Digits(|CodeUnits(s)|) + "]")
    ensures |props| > 100 ==>
              TruncatedMember(Obj(props), depth) == Str("[Truncated object with " + Digits(|props|) + " keys]")
    ensures 0 < |props| <= 100 ==> TruncatedMember(Obj(props), depth) == Truncated(Obj(props), depth)
    ensures TruncatedMember(Obj([]), depth) == Obj([]) && TruncatedMember(Null, depth) == Null
    ensures TruncatedMember(Arr(items), depth) == Truncated(Arr(items), depth)
    ensures Truncated(Str(s), depth) == Str(s)
  {
    if depth < 7 {
      forall i | 0 <= i < |props|
        ensures TruncatedProps(props, depth + 1)[i].key == props[i].key
      {
        PropAt(props, depth + 1, i);
      }
    }
  }

  // ---------------------------------------------------------------------------------------------
  // The limits
  // ---------------------------------------------------------------------------------------------

  /** Data that needs no truncation at this depth. */
  ghost predicate Within(v: Value, depth: nat)
    decreases v, 1
  {
    match v
    case Arr(items) =>
      depth < MAX_DEPTH && |items| <= MAX_SIZE && forall i :: 0 <= i < |items| ==> Within(items[i], depth + 1)
    case Obj(props) =>
      depth < MAX_DEPTH && forall i :: 0 <= i < |props| ==> MemberWithin(props[i].value, depth + 1)
    case _ => true
  }

  ghost predicate MemberWithin(v: Value, depth: nat)
    decreases v, 2
  {
    match v
    case Str(s) => Length(s) <= MAX_STRING
    case Arr(_) => Within(v, depth)
    case Obj(props) => props == [] || (|props| <= MAX_SIZE && Within(v, depth))
    case _ => true
  }

  lemma {:induction false} ItemAt(items: seq<Value>, depth: nat, i: nat)
    requires i < |items|
    ensures TruncatedItems(items, depth)[i] == Truncated(items[i], depth)
  {
    if i > 0 {
      ItemAt(items[1..], depth, i - 1);
    }
  }

  lemma {:induction false} PropAt(props: seq<Prop>, depth: nat, i: nat)
    requires i < |props|
    ensures TruncatedProps(props, depth)[i] == Prop(props[i].key, TruncatedMember(props[i].value, depth))
  {
    if i > 0 {
      PropAt(props[1..], depth, i - 1);
    }
  }

  /** Data is left unchanged exactly when it is within the limits. */
  lemma {:induction false} UnchangedExactlyWithin(v: Value, depth: nat)
    ensures Truncated(v, depth) == v <==> Within(v, depth)
    decreases v, 1
  {
    match v
    case Arr(items) =>
      if depth < MAX_DEPTH && |items| <= MAX_SIZE {
        var r := TruncatedItems(items, depth + 1);
        forall i | 0 <= i < |items|
          ensures r[i] == items[i] <==> Within(items[i], depth + 1)
        {
          ItemAt(items, depth + 1, i);
          UnchangedExactlyWithin(items[i], depth + 1);
        }
        assert r == items <==> forall i :: 0 <= i < |items| ==> r[i] == items[i];
      }
    case Obj(props) =>
      if depth < MAX_DEPTH {
        var r := TruncatedProps(props, depth + 1);
        forall i | 0 <= i < |props|
          ensures r[i] == props[i] <==> MemberWithin(props[i].value, depth + 1)
        {
          PropAt(props, depth + 1, i);
          MemberUnchangedExactlyWithin(props[i].value, depth + 1);
        }
        assert r == props <==> forall i :: 0 <= i < |props| ==> r[i] == props[i];
      }
    case _ =>
  }

  lemma {:induction false} MemberUnchangedExactlyWithin(v: Value, depth: nat)
    ensures TruncatedMember(v, depth) == v <==> MemberWithin(v, depth)
    decreases v, 2
  {
    match v
    case Str(s) =>
      if Length(s) > MAX_STRING {
        NoteIsShorter(s);
      }
    case Arr(_) => UnchangedExactlyWithin(v, depth);
    case Obj(_) => UnchangedExactlyWithin(v, depth);
    case _ =>
  }

  // ---------------------------------------------------------------------------------------------
  // The output
  // ---------------------------------------------------------------------------------------------

  predicate Ascii(a: string) {
    forall i :: 0 <= i < |a| ==> (a[i] as int) < 0x80
  }

  lemma {:induction false} UnitsOfAscii(a: string)
    requires Ascii(a)
    ensures Length(a) == |a|
  {
    if a != "" {
      UnitsOfAscii(a[1..]);
    }
  }

  /** A note has one unit per character. */
  lemma NoteLength(before: string, n: nat, after: string)
    requires Ascii(before) && Ascii(after)
    ensures Length(before + Digits(n) + after) == |before| + |Digits(n)| + |after|
  {
    var d := Digits(n);
    forall i | 0 <= i < |d|
      ensures (d[i] as int) < 0x80
    {
      assert d[i] in d;
    }
    UnitsOfAscii(before + d + after);
  }

  lemma {:induction false} DigitsAreFew(n: nat)
    ensures |Digits(n)| <= n + 1
    ensures n >= 10 ==> 2 * |Digits(n)| <= n
  {
    if n >= 10 {
      DigitsAreFew(n / 10);
      assert |Digits(n)| == |Digits(n / 10)| + 1;
    }
  }

  /** So a long string is never its own note. */
  lemma NoteIsShorter(s: string)
    requires Length(s) > MAX_STRING
    ensures StringNote(Length(s)) != Str(s)
  {
    NoteLength("[Truncated string of length ", Length(s), "]");
    DigitsAreFew(Length(s));
  }

  /** Sizes are below 2^53, as all lengths in JavaScript are. */
  const MAX_LENGTH := 0x20_0000_0000_0000

  ghost predicate Sized(v: Value) {
    match v
    case Str(s) => Length(s) < MAX_LENGTH
    case Arr(items) => |items| < MAX_LENGTH && forall i :: 0 <= i < |items| ==> Sized(items[i])
    case Obj(props) => |props| < MAX_LENGTH && forall i :: 0 <= i < |props| ==> Sized(props[i].value)
    case _ => true
  }

  lemma {:induction false} DigitsBound(n: nat, k: nat, power: nat)
    requires k > 0 && power == Power10(k) && n < power
    ensures |Digits(n)| <= k
  {
    if n >= 10 {
      assert k > 1;
      DigitsBound(n / 10, k - 1, Power10(k - 1));
    }
  }

  function Power10(k: nat): nat {
    if k == 0 then 1 else 10 * Power10(k - 1)
  }

  lemma MaxLengthDigits(n: nat)
    requires n < MAX_LENGTH
    ensures |Digits(n)| <= 16
  {
    assert Power10(8) == 100000000;
    assert Power10(16) == 10000000000000000;
    DigitsBound(n, 16, Power10(16));
  }

  lemma NotesAreShort(n: nat)
    requires n < MAX_LENGTH
    ensures Length(ArrayNote(n).s) <= MAX_STRING
    ensures Length(ObjectNote(n).s) <= MAX_STRING
    ensures Length(StringNote(n).s) <= MAX_STRING
  {
    MaxLengthDigits(n);
    NoteLength("[Truncated array with ", n, " elements]");
    NoteLength("[Truncated object with ", n, " keys]");
    NoteLength("[Truncated string of length ", n, "]");
  }

  /** What comes out is within the limits. */
  lemma {:induction false} OutputIsWithin(v: Value, depth: nat)
    requires Sized(v)
    ensures Within(Truncated(v, depth), depth)
    decreases v, 1
  {
    match v
    case Arr(items) =>
      if depth < MAX_DEPTH && |items| <= MAX_SIZE {
        var r := TruncatedItems(items, depth + 1);
        forall i | 0 <= i < |items|
          ensures Within(r[i], depth + 1)
        {
          ItemAt(items, depth + 1, i);
          OutputIsWithin(items[i], depth + 1);
        }
      }
    case Obj(props) =>
      if depth < MAX_DEPTH {
        var r := TruncatedProps(props, depth + 1);
        forall i | 0 <= i < |props|
          ensures MemberWithin(r[i].value, depth + 1)
        {
          PropAt(props, depth + 1, i);
          MemberOutputIsWithin(props[i].value, depth + 1);
        }
      }
    case _ =>
  }

  lemma {:induction false} MemberOutputIsWithin(v: Value, depth: nat)
    requires Sized(v)
    ensures MemberWithin(TruncatedMember(v, depth), depth)
    decreases v, 2
  {
    match v
    case Str(s) => NotesAreShort(Length(s));
    case Arr(items) =>
      NotesAreShort(|items|);
      OutputIsWithin(v, depth);
    case Obj(props) =>
      NotesAreShort(|props|);
      OutputIsWithin(v, depth);
    case _ =>
  }

  lemma TruncationIsIdempotent(v: Value, depth: nat)
    requires Sized(v)
    ensures Truncated(Truncated(v, depth), depth) == Truncated(v, depth)
  {
    OutputIsWithin(v, depth);
    UnchangedExactlyWithin(Truncated(v, depth), depth);
  }

  /** Non-empty containers nest at most n deep. */
  ghost predicate NestsAtMost(v: Value, n: nat) {
    match v
    case Arr(items) => items == [] || (n > 0 && forall i :: 0 <= i < |items| ==> NestsAtMost(items[i], n - 1))
    case Obj(props) => props == [] || (n > 0 && forall i :: 0 <= i < |props| ==> NestsAtMost(props[i].value, n - 1))
    case _ => true
  }

  /** No array anywhere is longer than the limit, and no string directly under a key is. */
  ghost predicate ShortThroughout(v: Value) {
    match v
    case Arr(items) => |items| <= MAX_SIZE && forall i :: 0 <= i < |items| ==> ShortThroughout(items[i])
    case Obj(props) =>
      forall i :: 0 <= i < |props| ==>
        ShortThroughout(props[i].value) && (props[i].value.Str? ==> Length(props[i].value.s) <= MAX_STRING)
    case _ => true
  }

  lemma SizedMeans(items: seq<Value>, props: seq<Prop>)
    ensures Sized(Arr(items)) <==> |items| < 0x20_0000_0000_0000 && forall v :: v in items ==> Sized(v)
    ensures Sized(Obj(props)) <==> |props| < 0x20_0000_0000_0000 && forall p :: p in props ==> Sized(p.value)
    ensures Sized(Null) && forall s :: Sized(Str(s)) <==> |CodeUnits(s)| < 0x20_0000_0000_0000
  {
    assert forall i :: 0 <= i < |items| ==> items[i] in items;
    assert forall i :: 0 <= i < |props| ==> props[i] in props;
  }

  /** Nesting, one level at a time. */
  lemma NestingMeans(items: seq<Value>, props: seq<Prop>, n: nat)
    ensures NestsAtMost(Arr(items), 0) <==> items == []
    ensures NestsAtMost(Obj(props), 0) <==> props == []
    ensures NestsAtMost(Arr(items), n + 1) <==> forall v :: v in items ==> NestsAtMost(v, n)
    ensures NestsAtMost(Obj(props), n + 1) <==> forall p :: p in props ==> NestsAtMost(p.value, n)
  {
    assert NestsAtMost(Arr(items), n + 1) <==> forall i :: 0 <= i < |items| ==> NestsAtMost(items[i], n);
    assert NestsAtMost(Obj(props), n + 1) <==> forall i :: 0 <= i < |props| ==> NestsAtMost(props[i].value, n);
    assert forall i :: 0 <= i < |items| ==> items[i] in items;
    assert forall i :: 0 <= i < |props| ==> props[i] in props;
  }

  /** Sizes, one level at a time. */
  lemma SizesMean(items: seq<Value>, props: seq<Prop>)
    ensures ShortThroughout(Arr(items)) <==> |items| <= 100 && forall v :: v in items ==> ShortThroughout(v)
    ensures ShortThroughout(Obj(props)) <==>
              forall p :: p in props ==>
                            ShortThroughout(p.value) && (p.value.Str? ==> |CodeUnits(p.value.s)| <= 10000)
  {
    assert forall i :: 0 <= i < |items| ==> items[i] in items;
    assert forall i :: 0 <= i < |props| ==> props[i] in props;
  }

  lemma {:induction false} WithinMeansSmall(v: Value, depth: nat)
    requires depth <= MAX_DEPTH && (Within(v, depth) || MemberWithin(v, depth))
    ensures NestsAtMost(v, MAX_DEPTH - depth) && ShortThroughout(v)
    decreases v
  {
    match v
    case Arr(items) =>
      assert Within(v, depth);
      forall i | 0 <= i < |items|
        ensures NestsAtMost(items[i], MAX_DEPTH - depth - 1) && ShortThroughout(items[i])
      {
        WithinMeansSmall(items[i], depth + 1);
      }
    case Obj(props) =>
      assert props != [] ==> Within(v, depth);
      forall i | 0 <= i < |props|
        ensures NestsAtMost(props[i].value, MAX_DEPTH - depth - 1) && ShortThroughout(props[i].value)
        ensures props[i].value.Str? ==> Length(props[i].value.s) <= MAX_STRING
      {
        assert MemberWithin(props[i].value, depth + 1);
        WithinMeansSmall(props[i].value, depth + 1);
      }
    case _ =>
  }

  /** The output of a top-level call is small in every respect that the code limits. */
  lemma OutputIsSmall(v: Value)
    requires Sized(v)
    ensures NestsAtMost(Truncated(v, 0), MAX_DEPTH) && ShortThroughout(Truncated(v, 0))
  {
    OutputIsWithin(v, 0);
    WithinMeansSmall(Truncated(v, 0), 0);
  }

  // ---------------------------------------------------------------------------------------------
  // The limits as documented
  // ---------------------------------------------------------------------------------------------

  /** The limits that the documentation sets for every value: strings, arrays and objects alike, wherever they are. */
  ghost predicate Documented(v: Value) {
    match v
    case Str(s) => Length(s) <= MAX_STRING
    case Arr(items) => |items| <= MAX_SIZE && forall i :: 0 <= i < |items| ==> Documented(items[i])
    case Obj(props) => |props| <= MAX_SIZE && forall i :: 0 <= i < |props| ==> Documented(props[i].value)
    case _ => true
  }

  /** Nothing too large stands where the code does not look: no long string and no object of many keys at the root or in
      an array that is kept. */
  ghost predicate NothingLargeOverlooked(v: Value, depth: nat)
    decreases v, 1
  {
    match v
    case Str(s) => Length(s) <= MAX_STRING
    case Arr(items) =>
      depth >= MAX_DEPTH || |items| > MAX_SIZE
      || forall i :: 0 <= i < |items| ==> NothingLargeOverlooked(items[i], depth + 1)
    case Obj(props) =>
      depth >= MAX_DEPTH
      || (|props| <= MAX_SIZE && forall i :: 0 <= i < |props| ==> NothingLargeInMember(props[i].value, depth + 1))
    case _ => true
  }

  /** Long strings and large objects under a key are seen. */
  ghost predicate NothingLargeInMember(v: Value, depth: nat)
    decreases v, 2
  {
    match v
    case Str(_) => true
    case Obj(props) => |props| > MAX_SIZE || NothingLargeOverlooked(v, depth)
    case _ => NothingLargeOverlooked(v, depth)
  }

  /** The output meets the documented limits exactly when nothing large stands where the code does not look. */
  lemma {:induction false} DocumentedExactlyWhen(v: Value, depth: nat)
    requires Sized(v)
    ensures Documented(Truncated(v, depth)) <==> NothingLargeOverlooked(v, depth)
    decreases v, 1
  {
    match v
    case Arr(items) => NotesAreShort(|items|); ItemsDocumentedExactlyWhen(v, depth);
    case Obj(props) => NotesAreShort(|props|); PropsDocumentedExactlyWhen(v, depth);
    case _ =>
  }

  lemma {:induction false} ItemsDocumentedExactlyWhen(v: Value, depth: nat)
    requires Sized(v) && v.Arr?
    ensures depth < MAX_DEPTH && |v.items| <= MAX_SIZE ==>
              (Documented(Truncated(v, depth)) <==> NothingLargeOverlooked(v, depth))
    decreases v, 0
  {
    var r := TruncatedItems(v.items, depth + 1);
    forall i | 0 <= i < |v.items|
      ensures Documented(r[i]) <==> NothingLargeOverlooked(v.items[i], depth + 1)
    {
      ItemAt(v.items, depth + 1, i);
      DocumentedExactlyWhen(v.items[i], depth + 1);
    }
  }

  lemma {:induction false} PropsDocumentedExactlyWhen(v: Value, depth: nat)
    requires Sized(v) && v.Obj?
    ensures depth < MAX_DEPTH ==> (Documented(Truncated(v, depth)) <==> NothingLargeOverlooked(v, depth))
    decreases v, 0
  {
    var r := TruncatedProps(v.props, depth + 1);
    forall i | 0 <= i < |v.props|
      ensures Documented(r[i].value) <==> NothingLargeInMember(v.props[i].value, depth + 1)
    {
      PropAt(v.props, depth + 1, i);
      MemberDocumentedExactlyWhen(v.props[i].value, depth + 1);
    }
  }

  lemma {:induction false} MemberDocumentedExactlyWhen(v: Value, depth: nat)
    requires Sized(v)
    ensures Documented(TruncatedMember(v, depth)) <==> NothingLargeInMember(v, depth)
    decreases v, 2
  {
    match v
    case Str(s) => NotesAreShort(Length(s));
    case Arr(items) =>
      NotesAreShort(|items|);
      DocumentedExactlyWhen(v, depth);
    case Obj(props) =>
      NotesAreShort(|props|);
      DocumentedExactlyWhen(v, depth);
    case _ =>
  }

  /** A top-level call meets all that is documented, with the nesting, under the same condition. */
  lemma OutputIsAsDocumentedExactlyWhen(v: Value)
    requires Sized(v)
    ensures NestsAtMost(Truncated(v, 0), MAX_DEPTH)
    ensures Documented(Truncated(v, 0)) <==> NothingLargeOverlooked(v, 0)
  {
    OutputIsSmall(v);
    DocumentedExactlyWhen(v, 0);
  }

  /** It fails for a string that is an array element and for an object that is one or is the root: they keep their
      size. */
  lemma ElementsAndRootAreNotLimited(s: string, props: seq<Prop>)
    ensures Truncated(Arr([Str(s)]), 0) == Arr([Str(s)])
    ensures Truncated(Obj(props), 0).Obj? && |Truncated(Obj(props), 0).props| == |props|
    ensures var r := Truncated(Arr([Obj(props)]), 0);
            r.Arr? && |r.items| == 1 && r.items[0].Obj? && |r.items[0].props| == |props|
    ensures Length(s) > MAX_STRING ==> !Documented(Truncated(Arr([Str(s)]), 0))
    ensures |props| > MAX_SIZE ==>
              !Documented(Truncated(Obj(props), 0)) && !Documented(Truncated(Arr([Obj(props)]), 0))
  {
    ItemAt([Str(s)], 1, 0);
    ItemAt([Obj(props)], 1, 0);
    assert TruncatedItems([Str(s)], 1) == [Str(s)];
    assert Documented(Arr([Str(s)])) ==> Documented([Str(s)][0]);
    var r := Truncated(Arr([Obj(props)]), 0);
    assert Documented(r) ==> Documented(r.items[0]);
  }

  // ---------------------------------------------------------------------------------------------
  // _truncateBull
  // ---------------------------------------------------------------------------------------------

  method TruncateBull(v: Value, depth: nat) returns (r: Value)
    ensures r == Truncated(v, depth)
    decreases v, 1
  {
    match v {
      case Arr(items) =>
        if depth >= MAX_DEPTH || |items| > MAX_SIZE {
          return ArrayNote(|items|);
        }
        var out: seq<Value> := [];
        for i := 0 to |items|
          invariant |out| == i
          invariant forall j :: 0 <= j < i ==> out[j] == Truncated(items[j], depth + 1)
        {
          var e := TruncateBull(items[i], depth + 1);
          out := out + [e];
        }
        forall j | 0 <= j < |items| {
          ItemAt(items, depth + 1, j);
        }
        assert out == TruncatedItems(items, depth + 1);
        r := Arr(out);
      case Obj(props) =>
        if depth >= MAX_DEPTH {
          return ObjectNote(|props|);
        }
        var json := props;
        for i := 0 to |props|
          invariant |json| == |props|
          invariant forall j :: 0 <= j < i ==> json[j] == Prop(props[j].key, TruncatedMember(props[j].value, depth + 1))
          invariant forall j :: i <= j < |props| ==> json[j] == props[j]
        {
          var m := TruncateMember(props[i].value, depth + 1);
          json := json[i := Prop(props[i].key, m)];
        }
        forall j | 0 <= j < |props| {
          PropAt(props, depth + 1, j);
        }
        assert json == TruncatedProps(props, depth + 1);
        r := Obj(json);
      case _ =>
        r := v;
    }
  }

  method TruncateMember(v: Value, depth: nat) returns (r: Value)
    ensures r == TruncatedMember(v, depth)
    decreases v, 2
  {
    match v {
      case Str(s) =>
        r := if Length(s) > MAX_STRING then StringNote(Length(s)) else v;
      case Arr(items) =>
        if |items| > MAX_SIZE {
          r := ArrayNote(|items|);
        } else {
          r := TruncateBull(v, depth);
        }
      case Obj(props) =>
        if props == [] {
          r := v;
        } else if |props| > MAX_SIZE {
          r := ObjectNote(|props|);
        } else {
          r := TruncateBull(v, depth);
        }
      case _ =>
        r := v;
    }
  }
}
