/**
 Bringing the keys of an object into a fixed order, at every depth.

 `Canon` takes the ordering of one object's properties as a parameter: the JavaScript `sortKeys` and Python's
 `sort_keys=True` are two instances.
 */
module Canonical {
  import opened Json
  import opened KeyOrder

  type Ordering = seq<Prop> -> seq<Prop>

  function Canon(order: Ordering, x: Value): Value
    decreases x, 1
  {
    match x
    case Arr(items) => Arr(CanonItems(order, items))
    case Obj(props) => Obj(order(CanonProps(order, props)))
    case _ => x
  }

  function CanonItems(order: Ordering, items: seq<Value>): (r: seq<Value>)
    ensures |r| == |items|
    decreases items, 0
  {
    if items == [] then [] else [Canon(order, items[0])] + CanonItems(order, items[1..])
  }

  function CanonProps(order: Ordering, props: seq<Prop>): (r: seq<Prop>)
    ensures |r| == |props|
    decreases props, 0
  {
    if props == [] then [] else [CanonProp(order, props[0])] + CanonProps(order, props[1..])
  }

  function CanonProp(order: Ordering, p: Prop): Prop
    decreases p, 2
  {
    Prop(p.key, Canon(order, p.value))
  }

  /** The ordering sorts by `less` and neither loses nor adds anything. */
  ghost predicate Orders(order: Ordering, less: (string, string) -> bool) {
    && StrictTotalOrder(less)
    && forall props :: DistinctKeys(props) ==>
         Sorted(less, order(props)) && forall p :: p in order(props) <==> p in props
  }

  /** Every object in the value has each of its keys once. */
  ghost predicate WellFormed(x: Value) {
    match x
    case Arr(items) => forall i :: 0 <= i < |items| ==> WellFormed(items[i])
    case Obj(props) => DistinctKeys(props) && forall i :: 0 <= i < |props| ==> WellFormed(props[i].value)
    case _ => true
  }

  lemma WellFormedMeans(items: seq<Value>, props: seq<Prop>)
    ensures WellFormed(Arr(items)) <==> forall v :: v in items ==> WellFormed(v)
    ensures WellFormed(Obj(props)) <==>
              (&& (forall i, j :: 0 <= i < j < |props| ==> props[i].key != props[j].key)
               && forall p :: p in props ==> WellFormed(p.value))
    ensures WellFormed(Null) && forall s :: WellFormed(Str(s))
  {
    assert forall i :: 0 <= i < |items| ==> items[i] in items;
    assert forall i :: 0 <= i < |props| ==> props[i] in props;
  }

  /** Equal up to the order of keys, at every depth; the order of array elements counts. */
  ghost predicate Same(x: Value, y: Value)
    decreases x, 1
  {
    match x
    case Arr(items) =>
      y.Arr? && |items| == |y.items| && forall i :: 0 <= i < |items| ==> Same(items[i], y.items[i])
    case Obj(props) =>
      && y.Obj?
      && (forall i :: 0 <= i < |props| ==> HasMatch(props[i], y.props))
      && (forall j :: 0 <= j < |y.props| ==> IsMatched(props, y.props[j]))
    case _ => x == y
  }

  ghost predicate HasMatch(p: Prop, others: seq<Prop>)
    decreases p, 3
  {
    exists j :: 0 <= j < |others| && SameProp(p, others[j])
  }

  ghost predicate IsMatched(props: seq<Prop>, q: Prop)
    decreases props, 0
  {
    exists i :: 0 <= i < |props| && SameProp(props[i], q)
  }

  ghost predicate SameProp(p: Prop, q: Prop)
    decreases p, 2
  {
    p.key == q.key && Same(p.value, q.value)
  }

  /** p is the canonical form of one of the properties. */
  ghost predicate IsCanonOf(order: Ordering, p: Prop, props: seq<Prop>) {
    exists i :: 0 <= i < |props| && p == CanonProp(order, props[i])
  }

  lemma {:induction false} CanonItemAt(order: Ordering, items: seq<Value>, i: nat)
    requires i < |items|
    ensures CanonItems(order, items)[i] == Canon(order, items[i])
  {
    if i > 0 {
      CanonItemAt(order, items[1..], i - 1);
    }
  }

  lemma {:induction false} CanonPropAt(order: Ordering, props: seq<Prop>, i: nat)
    requires i < |props|
    ensures CanonProps(order, props)[i] == CanonProp(order, props[i])
  {
    if i > 0 {
      CanonPropAt(order, props[1..], i - 1);
    }
  }

  lemma CanonKeepsKeys(order: Ordering, props: seq<Prop>)
    requires DistinctKeys(props)
    ensures DistinctKeys(CanonProps(order, props))
  {
    forall i | 0 <= i < |props| {
      CanonPropAt(order, props, i);
    }
  }

  /** What is in an ordered object: the canonical form of each property, and nothing else. */
  lemma OrderedObject(order: Ordering, less: (string, string) -> bool, props: seq<Prop>)
    requires Orders(order, less) && DistinctKeys(props)
    ensures var r := order(CanonProps(order, props));
            && Sorted(less, r)
            && (forall i :: 0 <= i < |props| ==> CanonProp(order, props[i]) in r)
            && (forall p :: p in r ==> IsCanonOf(order, p, props))
  {
    var c := CanonProps(order, props);
    CanonKeepsKeys(order, props);
    forall i | 0 <= i < |props|
      ensures c[i] == CanonProp(order, props[i])
    {
      CanonPropAt(order, props, i);
    }
    forall p | p in order(c)
      ensures IsCanonOf(order, p, props)
    {
      assert p in c;
      var i :| 0 <= i < |c| && c[i] == p;
      assert p == CanonProp(order, props[i]);
    }
    forall i | 0 <= i < |props|
      ensures CanonProp(order, props[i]) in order(c)
    {
      assert c[i] in c;
    }
  }

  // ---------------------------------------------------------------------------------------------
  // The canonical form
  // ---------------------------------------------------------------------------------------------

  /** Two values have the same canonical form exactly when they are equal up to key order. */
  lemma {:induction false} CanonicalForm(order: Ordering, less: (string, string) -> bool, x: Value, y: Value)
    requires Orders(order, less) && WellFormed(x) && WellFormed(y)
    ensures Canon(order, x) == Canon(order, y) <==> Same(x, y)
    decreases x
  {
    if x.Arr? && y.Arr? && |x.items| == |y.items| {
      CanonicalArrays(order, less, x, y);
    } else if x.Arr? && y.Arr? {
      assert |CanonItems(order, x.items)| != |CanonItems(order, y.items)|;
    } else if x.Obj? && y.Obj? {
      if Same(x, y) {
        SameObjects(order, less, x, y);
      }
      if Canon(order, x) == Canon(order, y) {
        EqualObjects(order, less, x, y);
      }
    }
  }

  lemma {:induction false} CanonicalArrays(order: Ordering, less: (string, string) -> bool, x: Value, y: Value)
    requires Orders(order, less) && WellFormed(x) && WellFormed(y)
    requires x.Arr? && y.Arr? && |x.items| == |y.items|
    ensures Canon(order, x) == Canon(order, y) <==> Same(x, y)
    decreases x, 0
  {
    var c, d := CanonItems(order, x.items), CanonItems(order, y.items);
    forall i | 0 <= i < |x.items|
      ensures c[i] == d[i] <==> Same(x.items[i], y.items[i])
    {
      CanonItemAt(order, x.items, i);
      CanonItemAt(order, y.items, i);
      CanonicalForm(order, less, x.items[i], y.items[i]);
    }
    assert c == d <==> forall i :: 0 <= i < |c| ==> c[i] == d[i];
  }

  lemma {:induction false} SameObjects(order: Ordering, less: (string, string) -> bool, x: Value, y: Value)
    requires Orders(order, less) && WellFormed(x) && WellFormed(y) && x.Obj? && Same(x, y)
    ensures Canon(order, x) == Canon(order, y)
    decreases x, 0
  {
    OrderedObject(order, less, x.props);
    OrderedObject(order, less, y.props);
    var r, s := order(CanonProps(order, x.props)), order(CanonProps(order, y.props));
    forall p | p in r
      ensures p in s
    {
      assert IsCanonOf(order, p, x.props);
      var i :| 0 <= i < |x.props| && p == CanonProp(order, x.props[i]);
      assert HasMatch(x.props[i], y.props);
      var j :| 0 <= j < |y.props| && SameProp(x.props[i], y.props[j]);
      CanonicalForm(order, less, x.props[i].value, y.props[j].value);
      assert p == CanonProp(order, y.props[j]);
    }
    forall p | p in s
      ensures p in r
    {
      assert IsCanonOf(order, p, y.props);
      var j :| 0 <= j < |y.props| && p == CanonProp(order, y.props[j]);
      assert IsMatched(x.props, y.props[j]);
      var i :| 0 <= i < |x.props| && SameProp(x.props[i], y.props[j]);
      CanonicalForm(order, less, x.props[i].value, y.props[j].value);
      assert p == CanonProp(order, x.props[i]);
    }
    SortedIsUnique(less, r, s);
  }

  lemma {:induction false} EqualObjects(order: Ordering, less: (string, string) -> bool, x: Value, y: Value)
    requires Orders(order, less) && WellFormed(x) && WellFormed(y) && x.Obj? && y.Obj?
    requires Canon(order, x) == Canon(order, y)
    ensures Same(x, y)
    decreases x, 0
  {
    OrderedObject(order, less, x.props);
    OrderedObject(order, less, y.props);
    forall i | 0 <= i < |x.props|
      ensures HasMatch(x.props[i], y.props)
    {
      var p := CanonProp(order, x.props[i]);
      assert IsCanonOf(order, p, y.props);
      var j :| 0 <= j < |y.props| && p == CanonProp(order, y.props[j]);
      CanonicalForm(order, less, x.props[i].value, y.props[j].value);
      assert SameProp(x.props[i], y.props[j]);
    }
    forall j | 0 <= j < |y.props|
      ensures IsMatched(x.props, y.props[j])
    {
      var p := CanonProp(order, y.props[j]);
      assert IsCanonOf(order, p, x.props);
      var i :| 0 <= i < |x.props| && p == CanonProp(order, x.props[i]);
      CanonicalForm(order, less, x.props[i].value, y.props[j].value);
      assert SameProp(x.props[i], y.props[j]);
    }
  }

  /** The canonical form is the value itself, up to key order. */
  lemma {:induction false} CanonIsSame(order: Ordering, less: (string, string) -> bool, x: Value)
    requires Orders(order, less) && WellFormed(x)
    ensures WellFormed(Canon(order, x)) && Same(Canon(order, x), x)
    decreases x
  {
    match x
    case Arr(items) =>
      forall i | 0 <= i < |items|
        ensures WellFormed(CanonItems(order, items)[i]) && Same(CanonItems(order, items)[i], items[i])
      {
        CanonItemAt(order, items, i);
        CanonIsSame(order, less, items[i]);
      }
    case Obj(props) =>
      forall i | 0 <= i < |props|
        ensures WellFormed(CanonProp(order, props[i]).value) && SameProp(CanonProp(order, props[i]), props[i])
      {
        CanonIsSame(order, less, props[i].value);
      }
      CanonObjectIsSame(order, less, x);
    case _ =>
  }

  lemma CanonObjectIsSame(order: Ordering, less: (string, string) -> bool, x: Value)
    requires Orders(order, less) && WellFormed(x) && x.Obj?
    requires forall i :: 0 <= i < |x.props| ==>
               WellFormed(CanonProp(order, x.props[i]).value) && SameProp(CanonProp(order, x.props[i]), x.props[i])
    ensures WellFormed(Canon(order, x)) && Same(Canon(order, x), x)
  {
    var r := order(CanonProps(order, x.props));
    OrderedObject(order, less, x.props);
    SortedIsDistinct(less, r);
    forall j | 0 <= j < |r|
      ensures WellFormed(r[j].value)
      ensures HasMatch(r[j], x.props)
    {
      assert r[j] in r;
      var i :| 0 <= i < |x.props| && r[j] == CanonProp(order, x.props[i]);
      assert SameProp(r[j], x.props[i]);
    }
    forall i | 0 <= i < |x.props|
      ensures IsMatched(r, x.props[i])
    {
      var p := CanonProp(order, x.props[i]);
      assert p in r;
      var j :| 0 <= j < |r| && r[j] == p;
      assert SameProp(r[j], x.props[i]);
    }
  }

  lemma CanonIsIdempotent(order: Ordering, less: (string, string) -> bool, x: Value)
    requires Orders(order, less) && WellFormed(x)
    ensures Canon(order, Canon(order, x)) == Canon(order, x)
  {
    CanonIsSame(order, less, x);
    CanonicalForm(order, less, Canon(order, x), x);
  }

  // ---------------------------------------------------------------------------------------------
  // Two orderings
  // ---------------------------------------------------------------------------------------------

  /** In every object in the value, the two orders agree on every pair of keys. */
  ghost predicate OrdersAgree(less: (string, string) -> bool, less': (string, string) -> bool, x: Value) {
    match x
    case Arr(items) => forall i :: 0 <= i < |items| ==> OrdersAgree(less, less', items[i])
    case Obj(props) =>
      && (forall i, j :: 0 <= i < |props| && 0 <= j < |props| ==>
            (less(props[i].key, props[j].key) <==> less'(props[i].key, props[j].key)))
      && (forall i :: 0 <= i < |props| ==> OrdersAgree(less, less', props[i].value))
    case _ => true
  }

  /** Two orderings give a value the same canonical form exactly when they agree on the keys that occur together. */
  lemma {:induction false} CanonsAgree(order: Ordering, less: (string, string) -> bool,
                                       order': Ordering, less': (string, string) -> bool, x: Value)
    requires Orders(order, less) && Orders(order', less') && WellFormed(x)
    ensures Canon(order, x) == Canon(order', x) <==> OrdersAgree(less, less', x)
    decreases x
  {
    match x
    case Arr(items) =>
      var c, d := CanonItems(order, items), CanonItems(order', items);
      forall i | 0 <= i < |items|
        ensures c[i] == d[i] <==> OrdersAgree(less, less', items[i])
      {
        CanonItemAt(order, items, i);
        CanonItemAt(order', items, i);
        CanonsAgree(order, less, order', less', items[i]);
      }
      assert c == d <==> forall i :: 0 <= i < |c| ==> c[i] == d[i];
    case Obj(props) =>
      if OrdersAgree(less, less', x) {
        AgreeingObjects(order, less, order', less', x);
      }
      if Canon(order, x) == Canon(order', x) {
        EqualCanonsOfObject(order, less, order', less', x);
      }
    case _ =>
  }

  lemma {:induction false} AgreeingObjects(order: Ordering, less: (string, string) -> bool,
                                           order': Ordering, less': (string, string) -> bool, x: Value)
    requires Orders(order, less) && Orders(order', less') && WellFormed(x) && x.Obj?
    requires OrdersAgree(less, less', x)
    ensures Canon(order, x) == Canon(order', x)
    decreases x, 0
  {
    var r, s := order(CanonProps(order, x.props)), order'(CanonProps(order', x.props));
    OrderedObject(order, less, x.props);
    OrderedObject(order', less', x.props);
    forall i | 0 <= i < |x.props|
      ensures CanonProp(order, x.props[i]) == CanonProp(order', x.props[i])
    {
      CanonsAgree(order, less, order', less', x.props[i].value);
    }
    forall i, j | 0 <= i < j < |s|
      ensures less(s[i].key, s[j].key)
    {
      assert IsCanonOf(order', s[i], x.props) && IsCanonOf(order', s[j], x.props);
      var m :| 0 <= m < |x.props| && s[i] == CanonProp(order', x.props[m]);
      var n :| 0 <= n < |x.props| && s[j] == CanonProp(order', x.props[n]);
      assert less'(x.props[m].key, x.props[n].key);
    }
    forall p
      ensures p in r <==> p in s
    {
      assert p in r ==> IsCanonOf(order, p, x.props);
      assert p in s ==> IsCanonOf(order', p, x.props);
    }
    SortedIsUnique(less, r, s);
  }

  lemma {:induction false} EqualCanonsOfObject(order: Ordering, less: (string, string) -> bool,
                                               order': Ordering, less': (string, string) -> bool, x: Value)
    requires Orders(order, less) && Orders(order', less') && WellFormed(x) && x.Obj?
    requires Canon(order, x) == Canon(order', x)
    ensures OrdersAgree(less, less', x)
    decreases x, 0
  {
    var r := order(CanonProps(order, x.props));
    OrderedObject(order, less, x.props);
    OrderedObject(order', less', x.props);
    forall i | 0 <= i < |x.props|
      ensures OrdersAgree(less, less', x.props[i].value)
    {
      var p := CanonProp(order, x.props[i]);
      assert IsCanonOf(order', p, x.props);
      var j :| 0 <= j < |x.props| && p == CanonProp(order', x.props[j]);
      assert i == j;
      CanonsAgree(order, less, order', less', x.props[i].value);
    }
    forall i, j | 0 <= i < |x.props| && 0 <= j < |x.props|
      ensures less(x.props[i].key, x.props[j].key) <==> less'(x.props[i].key, x.props[j].key)
    {
      SortedBothWays(less, less', r, CanonProp(order, x.props[i]), CanonProp(order, x.props[j]));
    }
  }

  lemma SortedBothWays(less: (string, string) -> bool, less': (string, string) -> bool, r: seq<Prop>, p: Prop, q: Prop)
    requires StrictTotalOrder(less) && StrictTotalOrder(less') && Sorted(less, r) && Sorted(less', r)
    requires p in r && q in r
    ensures less(p.key, q.key) <==> less'(p.key, q.key)
  {
    var m :| 0 <= m < |r| && r[m] == p;
    var n :| 0 <= n < |r| && r[n] == q;
    if m < n {
      assert less(r[m].key, r[n].key) && less'(r[m].key, r[n].key);
    } else if n < m {
      assert less(r[n].key, r[m].key) && less'(r[n].key, r[m].key);
    }
  }
}
