/**
 The orders in which JavaScript and Python put the keys of an object.

 `Array.prototype.sort` compares UTF-16 code units, Python compares code points, and a JavaScript object enumerates
 array indices before all other keys (OrdinaryOwnPropertyKeys, ECMA-262 section 10.1.11.1).
 */
module KeyOrder {
  import opened Json

  ghost predicate StrictTotalOrder(less: (string, string) -> bool) {
    && (forall a :: !less(a, a))
    && (forall a, b :: less(a, b) ==> !less(b, a))
    && (forall a, b :: a == b || less(a, b) || less(b, a))
    && (forall a, b, c :: less(a, b) && less(b, c) ==> less(a, c))
  }

  // ---------------------------------------------------------------------------------------------
  // Lexicographic comparison
  // ---------------------------------------------------------------------------------------------

  predicate LexLess(a: seq<int>, b: seq<int>) {
    b != [] && (a == [] || a[0] < b[0] || (a[0] == b[0] && LexLess(a[1..], b[1..])))
  }

  lemma {:induction false} LexAsymmetric(a: seq<int>, b: seq<int>)
    ensures !(LexLess(a, b) && LexLess(b, a))
  {
    if a != [] && b != [] {
      LexAsymmetric(a[1..], b[1..]);
    }
  }

  lemma {:induction false} LexTotal(a: seq<int>, b: seq<int>)
    ensures a == b || LexLess(a, b) || LexLess(b, a)
  {
    if a != [] && b != [] && a[0] == b[0] {
      LexTotal(a[1..], b[1..]);
      assert a == [a[0]] + a[1..] && b == [b[0]] + b[1..];
    }
  }

  lemma {:induction false} LexTransitive(a: seq<int>, b: seq<int>, c: seq<int>)
    requires LexLess(a, b) && LexLess(b, c)
    ensures LexLess(a, c)
  {
    if a != [] && a[0] == b[0] == c[0] {
      LexTransitive(a[1..], b[1..], c[1..]);
    }
  }

  /** a comes before b exactly when, after all they have in common at the front, a is at its end or smaller. */
  lemma {:induction false} LexLessMeans(a: seq<int>, b: seq<int>)
    ensures LexLess(a, b) <==>
              exists k :: 0 <= k <= |a| && k < |b| && a[..k] == b[..k] && (k == |a| || a[k] < b[k])
  {
    if a == [] || b == [] {
      if b != [] {
        assert a[..0] == b[..0];
      }
    } else if a[0] != b[0] {
      assert a[..0] == b[..0];
      assert forall k :: 0 < k <= |a| && k < |b| ==> a[..k][0] == a[0] && b[..k][0] == b[0];
    } else {
      LexLessMeans(a[1..], b[1..]);
      if k :| 0 <= k <= |a[1..]| && k < |b[1..]| && a[1..][..k] == b[1..][..k]
              && (k == |a[1..]| || a[1..][k] < b[1..][k]) {
        assert a[..k + 1] == [a[0]] + a[1..][..k] && b[..k + 1] == [b[0]] + b[1..][..k];
      }
      if k :| 0 <= k <= |a| && k < |b| && a[..k] == b[..k] && (k == |a| || a[k] < b[k]) {
        assert k > 0;
        assert a[1..][..k - 1] == a[..k][1..] && b[1..][..k - 1] == b[..k][1..];
      }
    }
  }

  /** A comparison by an injective image is a strict total order. */
  lemma LexOrder(less: (string, string) -> bool, image: string -> seq<int>)
    requires forall a, b :: less(a, b) <==> LexLess(image(a), image(b))
    requires forall a, b :: image(a) == image(b) ==> a == b
    ensures StrictTotalOrder(less)
  {
    forall a, b
      ensures less(a, b) ==> !less(b, a)
      ensures a == b || less(a, b) || less(b, a)
      ensures !less(a, a)
    {
      LexAsymmetric(image(a), image(a));
      LexAsymmetric(image(a), image(b));
      LexTotal(image(a), image(b));
    }
    forall a, b, c | less(a, b) && less(b, c)
      ensures less(a, c)
    {
      LexTransitive(image(a), image(b), image(c));
    }
  }

  // ---------------------------------------------------------------------------------------------
  // Code points and code units
  // ---------------------------------------------------------------------------------------------

  function CodePoints(s: string): seq<int> {
    if s == "" then [] else [s[0] as int] + CodePoints(s[1..])
  }

  /** The UTF-16 code units of a string. */
  function CodeUnits(s: string): seq<int> {
    if s == "" then [] else UnitsOf(s[0] as int) + CodeUnits(s[1..])
  }

  function UnitsOf(c: int): seq<int> {
    if c < 0x10000 then [c] else [0xD800 + (c - 0x10000) / 0x400, 0xDC00 + (c - 0x10000) % 0x400]
  }

  /** One unit for a character of the basic plane, and the surrogates of one beyond it. */
  lemma UnitsAre()
    ensures CodeUnits("a\U{1F3B5}\U{10FFFF}") == [0x61, 0xD83C, 0xDFB5, 0xDBFF, 0xDFFF]
    ensures CodePoints("a\U{1F3B5}\U{10FFFF}") == [0x61, 0x1F3B5, 0x10FFFF]
  {
    var s := "a\U{1F3B5}\U{10FFFF}";
    assert s[1..] == "\U{1F3B5}\U{10FFFF}" && s[1..][1..] == "\U{10FFFF}" && s[1..][1..][1..] == "";
    assert UnitsOf(0x1F3B5) == [0xD83C, 0xDFB5] && UnitsOf(0x10FFFF) == [0xDBFF, 0xDFFF];
    assert CodeUnits("\U{10FFFF}") == [0xDBFF, 0xDFFF];
    assert CodeUnits("\U{1F3B5}\U{10FFFF}") == [0xD83C, 0xDFB5] + [0xDBFF, 0xDFFF];
    assert CodePoints("\U{10FFFF}") == [0x10FFFF];
    assert CodePoints("\U{1F3B5}\U{10FFFF}") == [0x1F3B5, 0x10FFFF];
  }

  lemma {:induction false} CodePointsInjective(a: string, b: string)
    requires CodePoints(a) == CodePoints(b)
    ensures a == b
  {
    if a != "" && b != "" {
      assert CodePoints(a)[1..] == CodePoints(a[1..]) && CodePoints(b)[1..] == CodePoints(b[1..]);
      assert CodePoints(a)[0] == CodePoints(b)[0];
      CodePointsInjective(a[1..], b[1..]);
      assert a == [a[0]] + a[1..] && b == [b[0]] + b[1..];
    }
  }

  /** Scalar values leave out the surrogates, so the first code unit tells how many belong to the character. */
  lemma UnitsTellTheCharacter(c: char, d: char, s: seq<int>, t: seq<int>)
    requires UnitsOf(c as int) + s == UnitsOf(d as int) + t
    ensures c == d && s == t
  {
    var u, v := UnitsOf(c as int), UnitsOf(d as int);
    assert (u + s)[0] == u[0] && (v + t)[0] == v[0];
    assert (u + s)[|u|..] == s && (v + t)[|v|..] == t;
    if |u| == 2 && |v| == 2 {
      assert (u + s)[1] == u[1] && (v + t)[1] == v[1];
    }
  }

  lemma {:induction false} CodeUnitsInjective(a: string, b: string)
    requires CodeUnits(a) == CodeUnits(b)
    ensures a == b
  {
    if a != "" && b != "" {
      UnitsTellTheCharacter(a[0], b[0], CodeUnits(a[1..]), CodeUnits(b[1..]));
      CodeUnitsInjective(a[1..], b[1..]);
      assert a == [a[0]] + a[1..] && b == [b[0]] + b[1..];
    }
  }

  /** Array.prototype.sort */
  predicate JsLess(a: string, b: string) {
    LexLess(CodeUnits(a), CodeUnits(b))
  }

  /** Python's comparison of str. */
  predicate PyLess(a: string, b: string) {
    LexLess(CodePoints(a), CodePoints(b))
  }

  lemma JsLessIsAnOrder()
    ensures StrictTotalOrder(JsLess)
  {
    forall a, b | CodeUnits(a) == CodeUnits(b)
      ensures a == b
    {
      CodeUnitsInjective(a, b);
    }
    LexOrder(JsLess, CodeUnits);
  }

  lemma PyLessIsAnOrder()
    ensures StrictTotalOrder(PyLess)
  {
    forall a, b | CodePoints(a) == CodePoints(b)
      ensures a == b
    {
      CodePointsInjective(a, b);
    }
    LexOrder(PyLess, CodePoints);
  }

  // ---------------------------------------------------------------------------------------------
  // Enumeration order of a JavaScript object
  // ---------------------------------------------------------------------------------------------

  const MAX_ARRAY_INDEX := 4294967294

  predicate AllDigits(k: string) {
    forall c :: c in k ==> IsDigit(c)
  }

  /** A canonical numeric string that is an array index. */
  predicate IsIndex(k: string) {
    AllDigits(k) && ToNat(k) <= MAX_ARRAY_INDEX && k == Digits(ToNat(k))
  }

  /** The array indices are the decimal texts of the numbers below 2^32 - 1. */
  lemma IndexMeans(k: string)
    ensures IsIndex(k) <==> exists n: nat :: n < 0xFFFF_FFFF && k == Digits(n)
    ensures forall n: nat :: k == Digits(n) && IsIndex(k) ==> IndexOf(k) == n
  {
    forall n: nat | k == Digits(n)
      ensures AllDigits(k) && ToNat(k) == n
    {
      ToNatOfDigits(n);
    }
    if IsIndex(k) {
      assert k == Digits(ToNat(k));
    }
  }

  function IndexOf(k: string): nat
    requires IsIndex(k)
  {
    ToNat(k)
  }

  /** Array indices first, by value; then the other keys as `sortKeys` inserts them. */
  predicate JsBefore(a: string, b: string) {
    if IsIndex(a) && IsIndex(b) then IndexOf(a) < IndexOf(b)
    else if IsIndex(a) || IsIndex(b) then IsIndex(a)
    else JsLess(a, b)
  }

  lemma JsBeforeIsAnOrder()
    ensures StrictTotalOrder(JsBefore)
  {
    JsLessIsAnOrder();
    forall a, b, c | JsBefore(a, b) && JsBefore(b, c)
      ensures JsBefore(a, c)
    {
      if !IsIndex(a) && !IsIndex(b) && !IsIndex(c) {
        assert JsLess(a, b) && JsLess(b, c);
      }
    }
  }

  // ---------------------------------------------------------------------------------------------
  // Sorting properties
  // ---------------------------------------------------------------------------------------------

  ghost predicate Sorted(less: (string, string) -> bool, props: seq<Prop>) {
    forall i, j :: 0 <= i < j < |props| ==> less(props[i].key, props[j].key)
  }

  /** An object has each key once. */
  ghost predicate DistinctKeys(props: seq<Prop>) {
    forall i, j :: 0 <= i < j < |props| ==> props[i].key != props[j].key
  }

  function InsertProp(less: (string, string) -> bool, p: Prop, props: seq<Prop>): seq<Prop> {
    if props == [] || less(p.key, props[0].key) then [p] + props
    else [props[0]] + InsertProp(less, p, props[1..])
  }

  function SortProps(less: (string, string) -> bool, props: seq<Prop>): seq<Prop> {
    if props == [] then [] else InsertProp(less, props[0], SortProps(less, props[1..]))
  }

  lemma SortedCons(less: (string, string) -> bool, p: Prop, props: seq<Prop>)
    requires Sorted(less, props) && forall q :: q in props ==> less(p.key, q.key)
    ensures Sorted(less, [p] + props)
  {
    forall i, j | 0 <= i < j < |[p] + props|
      ensures less(([p] + props)[i].key, ([p] + props)[j].key)
    {
      assert ([p] + props)[j] == props[j - 1];
      assert props[j - 1] in props;
    }
  }

  lemma {:induction false} InsertSorts(less: (string, string) -> bool, p: Prop, props: seq<Prop>)
    requires StrictTotalOrder(less) && Sorted(less, props)
    requires forall q :: q in props ==> q.key != p.key
    ensures Sorted(less, InsertProp(less, p, props))
    ensures forall q :: q in InsertProp(less, p, props) <==> q == p || q in props
    ensures |InsertProp(less, p, props)| == |props| + 1
  {
    if props == [] {
      assert InsertProp(less, p, props) == [p];
    } else {
      assert forall q :: q in props[1..] ==> less(props[0].key, q.key);
      if less(p.key, props[0].key) {
        SortedCons(less, p, props);
      } else {
        assert props[0] in props;
        InsertSorts(less, p, props[1..]);
        SortedCons(less, props[0], InsertProp(less, p, props[1..]));
        assert props == [props[0]] + props[1..];
      }
    }
  }

  lemma {:induction false} SortSorts(less: (string, string) -> bool, props: seq<Prop>)
    requires StrictTotalOrder(less) && DistinctKeys(props)
    ensures Sorted(less, SortProps(less, props))
    ensures forall q :: q in SortProps(less, props) <==> q in props
    ensures |SortProps(less, props)| == |props|
  {
    if props != [] {
      SortSorts(less, props[1..]);
      forall q | q in SortProps(less, props[1..])
        ensures q.key != props[0].key
      {
        var i :| 0 <= i < |props[1..]| && props[1..][i] == q;
        assert props[i + 1] == q;
      }
      InsertSorts(less, props[0], SortProps(less, props[1..]));
      assert props == [props[0]] + props[1..];
    }
  }

  /** The sorted sequence is determined by what is in it. */
  lemma {:induction false} SortedIsUnique(less: (string, string) -> bool, a: seq<Prop>, b: seq<Prop>)
    requires StrictTotalOrder(less) && Sorted(less, a) && Sorted(less, b)
    requires forall p :: p in a <==> p in b
    ensures a == b
  {
    if a == [] {
      assert forall i :: 0 <= i < |b| ==> b[i] in b;
    } else {
      assert a[0] in b && b[0] in a;
      assert a[0] == b[0];
      forall p
        ensures p in a[1..] <==> p in b[1..]
      {
        if p in a[1..] {
          var i :| 0 <= i < |a[1..]| && a[1..][i] == p;
          assert p == a[i + 1] && less(a[0].key, p.key) && p in b;
        }
        if p in b[1..] {
          var i :| 0 <= i < |b[1..]| && b[1..][i] == p;
          assert p == b[i + 1] && less(b[0].key, p.key) && p in a;
        }
      }
      SortedIsUnique(less, a[1..], b[1..]);
      assert a == [a[0]] + a[1..] && b == [b[0]] + b[1..];
    }
  }

  lemma SortedIsDistinct(less: (string, string) -> bool, props: seq<Prop>)
    requires StrictTotalOrder(less) && Sorted(less, props)
    ensures DistinctKeys(props)
  {
  }
}
