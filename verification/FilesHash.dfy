/**
 The hash by which replicas compare their logs: md5 of a user's file multihashes, joined in clock order, optionally
 for a range of clocks.

 The Files table is a sequence in no particular order. md5 is a parameter: everything is said of the text it is
 given.
 */
module FilesHash {
  import opened Prelude

  datatype FileRow = FileRow(user: string, clock: int, multihash: string)

  /** The unique index on (cnodeUserUUID, clock). */
  ghost predicate Unique(rows: seq<FileRow>) {
    forall i, j :: 0 <= i < j < |rows| && rows[i].user == rows[j].user ==> rows[i].clock != rows[j].clock
  }

  /** A bound that is absent or zero is no bound. */
  predicate InRange(min: Option<int>, max: Option<int>, clock: int) {
    && (min.None? || min.value == 0 || min.value <= clock)
    && (max.None? || max.value == 0 || clock < max.value)
  }

  function Select(rows: seq<FileRow>, user: string, min: Option<int>, max: Option<int>): (r: seq<FileRow>)
    ensures forall x :: x in r <==> x in rows && x.user == user && InRange(min, max, x.clock)
  {
    if rows == [] then []
    else
      var rest := Select(rows[1..], user, min, max);
      if rows[0].user == user && InRange(min, max, rows[0].clock) then [rows[0]] + rest else rest
  }

  function Insert(r: FileRow, sorted: seq<FileRow>): seq<FileRow> {
    if sorted == [] || r.clock <= sorted[0].clock then [r] + sorted
    else [sorted[0]] + Insert(r, sorted[1..])
  }

  /** order by "clock" asc */
  function OrderByClock(rows: seq<FileRow>): seq<FileRow> {
    if rows == [] then [] else Insert(rows[0], OrderByClock(rows[1..]))
  }

  function Multihashes(rows: seq<FileRow>): (r: seq<string>)
    ensures |r| == |rows|
  {
    if rows == [] then [] else [rows[0].multihash] + Multihashes(rows[1..])
  }

  /** The CIDs of a user's files in a clock range, in clock order. */
  function Cids(rows: seq<FileRow>, user: string, min: Option<int>, max: Option<int>): seq<string> {
    Multihashes(OrderByClock(Select(rows, user, min, max)))
  }

  /** string_agg: null over no rows. */
  function StringAgg(cids: seq<string>): Option<string> {
    if cids == [] then None else Some(Join(cids))
  }

  function Join(cids: seq<string>): string
    requires cids != []
  {
    if |cids| == 1 then cids[0] else cids[0] + "," + Join(cids[1..])
  }

  // ---------------------------------------------------------------------------------------------
  // The ordered sequence depends on the set of rows only
  // ---------------------------------------------------------------------------------------------

  ghost predicate StrictlyOrdered(s: seq<FileRow>) {
    forall i, j :: 0 <= i < j < |s| ==> s[i].clock < s[j].clock
  }

  ghost predicate DistinctClocks(s: seq<FileRow>) {
    forall i, j :: 0 <= i < j < |s| ==> s[i].clock != s[j].clock
  }

  lemma {:induction false} InsertOrders(r: FileRow, sorted: seq<FileRow>)
    requires StrictlyOrdered(sorted)
    requires forall x :: x in sorted ==> x.clock != r.clock
    ensures StrictlyOrdered(Insert(r, sorted))
    ensures forall x :: x in Insert(r, sorted) <==> x == r || x in sorted
  {
    if sorted != [] && r.clock > sorted[0].clock {
      InsertOrders(r, sorted[1..]);
      var rest := Insert(r, sorted[1..]);
      forall x | x in rest
        ensures sorted[0].clock < x.clock
      {
      }
      forall i, j | 0 <= i < j < |[sorted[0]] + rest|
        ensures ([sorted[0]] + rest)[i].clock < ([sorted[0]] + rest)[j].clock
      {
        if i == 0 {
          assert rest[j - 1] in rest;
        } else {
          assert rest[i - 1].clock < rest[j - 1].clock;
        }
      }
    }
  }

  lemma {:induction false} OrderOrders(rows: seq<FileRow>)
    requires DistinctClocks(rows)
    ensures StrictlyOrdered(OrderByClock(rows))
    ensures forall x :: x in OrderByClock(rows) <==> x in rows
  {
    if rows != [] {
      OrderOrders(rows[1..]);
      InsertOrders(rows[0], OrderByClock(rows[1..]));
    }
  }

  lemma {:induction false} SelectUnique(rows: seq<FileRow>, user: string, min: Option<int>, max: Option<int>)
    requires Unique(rows)
    ensures DistinctClocks(Select(rows, user, min, max))
  {
    if rows != [] {
      SelectUnique(rows[1..], user, min, max);
      var rest := Select(rows[1..], user, min, max);
      if rows[0].user == user {
        forall x | x in rest
          ensures x.clock != rows[0].clock
        {
          var k :| 0 <= k < |rows[1..]| && rows[1..][k] == x;
          assert rows[k + 1] == x;
        }
        forall j | 0 <= j < |rest|
          ensures rest[j].clock != rows[0].clock
        {
          assert rest[j] in rest;
        }
      }
    }
  }

  function Ordered(rows: seq<FileRow>, user: string, min: Option<int>, max: Option<int>): seq<FileRow> {
    OrderByClock(Select(rows, user, min, max))
  }

  lemma OrderedFacts(rows: seq<FileRow>, user: string, min: Option<int>, max: Option<int>)
    requires Unique(rows)
    ensures StrictlyOrdered(Ordered(rows, user, min, max))
    ensures forall x :: x in Ordered(rows, user, min, max) <==>
              x in rows && x.user == user && InRange(min, max, x.clock)
  {
    SelectUnique(rows, user, min, max);
    OrderOrders(Select(rows, user, min, max));
  }

  /** Two strictly ordered sequences with the same members are equal. */
  lemma {:induction false} OrderIsUnique(a: seq<FileRow>, b: seq<FileRow>)
    requires StrictlyOrdered(a) && StrictlyOrdered(b)
    requires forall x :: x in a <==> x in b
    ensures a == b
  {
    if a == [] {
      assert forall i :: 0 <= i < |b| ==> b[i] in b;
    } else {
      assert a[0] in b && b[0] in a;
      assert a[0] == b[0];
      forall x
        ensures x in a[1..] <==> x in b[1..]
      {
        if x in a[1..] {
          var i :| 0 <= i < |a[1..]| && a[1..][i] == x;
          assert x == a[i + 1] && x.clock > a[0].clock && x in b;
        }
        if x in b[1..] {
          var i :| 0 <= i < |b[1..]| && b[1..][i] == x;
          assert x == b[i + 1] && x.clock > b[0].clock && x in a;
        }
      }
      OrderIsUnique(a[1..], b[1..]);
      assert a == [a[0]] + a[1..] && b == [b[0]] + b[1..];
    }
  }

  lemma {:induction false} MultihashesOfConcat(a: seq<FileRow>, b: seq<FileRow>)
    ensures Multihashes(a + b) == Multihashes(a) + Multihashes(b)
  {
    if a == [] {
      assert a + b == b;
    } else {
      MultihashesOfConcat(a[1..], b);
      assert (a + b)[1..] == a[1..] + b;
      var x := [a[0].multihash];
      assert x + (Multihashes(a[1..]) + Multihashes(b)) == (x + Multihashes(a[1..])) + Multihashes(b);
    }
  }

  /** Where the rows are stored makes no difference. */
  lemma StorageOrderIsIrrelevant(rows: seq<FileRow>, others: seq<FileRow>, user: string,
                                 min: Option<int>, max: Option<int>)
    requires Unique(rows) && Unique(others)
    requires forall x :: x in rows <==> x in others
    ensures Cids(rows, user, min, max) == Cids(others, user, min, max)
  {
    OrderedFacts(rows, user, min, max);
    OrderedFacts(others, user, min, max);
    OrderIsUnique(Ordered(rows, user, min, max), Ordered(others, user, min, max));
  }

  lemma {:induction false} MultihashAt(rows: seq<FileRow>, i: nat)
    requires i < |rows|
    ensures Multihashes(rows)[i] == rows[i].multihash
  {
    if i > 0 {
      MultihashAt(rows[1..], i - 1);
    }
  }

  /** What the sequence is, read off the table: if s lists exactly the user's files within the bounds, by rising clock,
      it is their multihashes in that order. */
  lemma CidsAreTheMultihashes(rows: seq<FileRow>, user: string, min: Option<int>, max: Option<int>, s: seq<FileRow>)
    requires Unique(rows)
    requires forall i, j :: 0 <= i < j < |s| ==> s[i].clock < s[j].clock
    requires forall x :: x in s <==>
               (&& x in rows && x.user == user
                && (min.None? || min.value == 0 || x.clock >= min.value)
                && (max.None? || max.value == 0 || x.clock < max.value))
    ensures |Cids(rows, user, min, max)| == |s|
    ensures forall i :: 0 <= i < |s| ==> Cids(rows, user, min, max)[i] == s[i].multihash
  {
    OrderedFacts(rows, user, min, max);
    OrderIsUnique(Ordered(rows, user, min, max), s);
    forall i | 0 <= i < |s|
      ensures Cids(rows, user, min, max)[i] == s[i].multihash
    {
      MultihashAt(s, i);
    }
  }

  /** Changing the multihash of one file changes the sequences of exactly the ranges the file is in. */
  lemma ChangedFileShows(rows: seq<FileRow>, k: nat, multihash: string, min: Option<int>, max: Option<int>)
    requires Unique(rows) && k < |rows| && multihash != rows[k].multihash
    ensures var changed := rows[k := rows[k].(multihash := multihash)];
            Cids(rows, rows[k].user, min, max) != Cids(changed, rows[k].user, min, max) <==>
              InRange(min, max, rows[k].clock)
  {
    var user := rows[k].user;
    var x, y := rows[k], rows[k].(multihash := multihash);
    var others := rows[k := y];
    OrderedFacts(rows, user, min, max);
    OrderedFacts(others, user, min, max);
    var a, b := Ordered(rows, user, min, max), Ordered(others, user, min, max);
    Replaced(rows, k, y);
    if InRange(min, max, x.clock) {
      assert x in a;
      var i :| 0 <= i < |a| && a[i] == x;
      ReplacedInOrder(a, i, y, b);
      MultihashAt(a, i);
      MultihashAt(b, i);
    } else {
      OrderIsUnique(a, b);
    }
  }

  /** Replacing one member by another of the same clock replaces it in place. */
  lemma ReplacedInOrder(a: seq<FileRow>, i: nat, y: FileRow, b: seq<FileRow>)
    requires StrictlyOrdered(a) && StrictlyOrdered(b) && i < |a| && y.clock == a[i].clock
    requires forall z :: z in b <==> z == y || (z in a && z != a[i])
    ensures b == a[i := y]
  {
    var c := a[i := y];
    forall z
      ensures z in c <==> z == y || (z in a && z != a[i])
    {
      if z in c && z != y {
        var j :| 0 <= j < |c| && c[j] == z;
        assert a[j] == z && j != i;
      }
      if z in a && z != a[i] {
        var j :| 0 <= j < |a| && a[j] == z;
        assert c[j] == z;
      }
      assert c[i] == y;
    }
    OrderIsUnique(c, b);
  }

  lemma Replaced(rows: seq<FileRow>, k: nat, y: FileRow)
    requires Unique(rows) && k < |rows| && y.user == rows[k].user && y.clock == rows[k].clock
    ensures Unique(rows[k := y])
    ensures forall z :: z in rows[k := y] <==> z == y || (z in rows && z != rows[k])
  {
    forall z
      ensures z in rows[k := y] <==> z == y || (z in rows && z != rows[k])
    {
      if z in rows && z != rows[k] {
        var j :| 0 <= j < |rows| && rows[j] == z;
        assert rows[k := y][j] == z;
      }
      if z in rows[k := y] && z != y {
        var j :| 0 <= j < |rows| && rows[k := y][j] == z;
        assert rows[j] == z && j != k;
      }
      assert rows[k := y][k] == y;
    }
  }

  // ---------------------------------------------------------------------------------------------
  // Ranges and prefixes
  // ---------------------------------------------------------------------------------------------

  /** A bound that is not zero cuts the log: [a, c) is [a, b) followed by [b, c). Either end may be open. */
  lemma RangesConcatenate(rows: seq<FileRow>, user: string, a: Option<int>, b: int, c: Option<int>)
    requires Unique(rows) && b != 0
    requires (a.None? || a.value == 0 || a.value <= b) && (c.None? || c.value == 0 || b <= c.value)
    ensures Cids(rows, user, a, c) == Cids(rows, user, a, Some(b)) + Cids(rows, user, Some(b), c)
  {
    var all := Ordered(rows, user, a, c);
    var low: seq<FileRow>, high: seq<FileRow> := Ordered(rows, user, a, Some(b)), Ordered(rows, user, Some(b), c);
    OrderedFacts(rows, user, a, c);
    OrderedFacts(rows, user, a, Some(b));
    OrderedFacts(rows, user, Some(b), c);
    forall i, j | 0 <= i < j < |low + high|
      ensures (low + high)[i].clock < (low + high)[j].clock
    {
      if i < |low| <= j {
        assert low[i] in low && high[j - |low|] in high;
      }
    }
    OrderIsUnique(all, low + high);
    MultihashesOfConcat(low, high);
  }

  /** A cut at zero cuts nothing off, so the two halves are the two ranges as they would be without it: the log is their
      concatenation exactly when b is not zero, or the user has no file in either. */
  lemma RangesConcatenateExactlyWhen(rows: seq<FileRow>, user: string, a: Option<int>, b: int, c: Option<int>)
    requires Unique(rows)
    requires b != 0 ==> (a.None? || a.value == 0 || a.value <= b) && (c.None? || c.value == 0 || b <= c.value)
    ensures Cids(rows, user, a, c) == Cids(rows, user, a, Some(b)) + Cids(rows, user, Some(b), c) <==>
              b != 0 || (Cids(rows, user, a, None) == [] && Cids(rows, user, None, c) == [])
  {
    if b != 0 {
      RangesConcatenate(rows, user, a, b, c);
    } else {
      SelectSame(rows, user, a, Some(0), a, None);
      SelectSame(rows, user, Some(0), c, None, c);
      CidsShorter(rows, user, a, c, a, None);
      CidsShorter(rows, user, a, c, None, c);
    }
  }

  /** In particular the whole log would be counted twice. */
  lemma ZeroBoundIsNoBound(rows: seq<FileRow>, user: string)
    ensures Cids(rows, user, None, Some(0)) == Cids(rows, user, None, None) == Cids(rows, user, Some(0), None)
  {
    SelectSame(rows, user, None, Some(0), None, None);
    SelectSame(rows, user, Some(0), None, None, None);
  }

  lemma CidsShorter(rows: seq<FileRow>, user: string, min: Option<int>, max: Option<int>,
                    min': Option<int>, max': Option<int>)
    requires forall k :: InRange(min, max, k) ==> InRange(min', max', k)
    ensures |Cids(rows, user, min, max)| <= |Cids(rows, user, min', max')|
  {
    SelectShorter(rows, user, min, max, min', max');
    OrderLength(Select(rows, user, min, max));
    OrderLength(Select(rows, user, min', max'));
  }

  lemma {:induction false} SelectShorter(rows: seq<FileRow>, user: string, min: Option<int>, max: Option<int>,
                                         min': Option<int>, max': Option<int>)
    requires forall k :: InRange(min, max, k) ==> InRange(min', max', k)
    ensures |Select(rows, user, min, max)| <= |Select(rows, user, min', max')|
  {
    if rows != [] {
      SelectShorter(rows[1..], user, min, max, min', max');
    }
  }

  lemma {:induction false} OrderLength(rows: seq<FileRow>)
    ensures |OrderByClock(rows)| == |rows|
  {
    if rows != [] {
      OrderLength(rows[1..]);
      InsertLength(rows[0], OrderByClock(rows[1..]));
    }
  }

  lemma {:induction false} InsertLength(r: FileRow, sorted: seq<FileRow>)
    ensures |Insert(r, sorted)| == |sorted| + 1
  {
    if sorted != [] && r.clock > sorted[0].clock {
      InsertLength(r, sorted[1..]);
    }
  }

  lemma {:induction false} SelectSame(rows: seq<FileRow>, user: string, min: Option<int>, max: Option<int>,
                                      min': Option<int>, max': Option<int>)
    requires forall k :: InRange(min, max, k) <==> InRange(min', max', k)
    ensures Select(rows, user, min, max) == Select(rows, user, min', max')
  {
    if rows != [] {
      SelectSame(rows[1..], user, min, max, min', max');
    }
  }

  /** The log only grows at its end: with records of later clocks added anywhere in the table, the old sequence is the
      new one cut off at the first of those clocks. */
  lemma NewRecordsExtendTheEnd(rows: seq<FileRow>, more: seq<FileRow>, user: string, next: int)
    requires Unique(rows) && Unique(more) && next > 0
    requires forall x :: x in rows <==> x in more && (x.user == user ==> x.clock < next)
    ensures Cids(more, user, None, Some(next)) == Cids(rows, user, None, None)
    ensures Cids(more, user, None, None) == Cids(rows, user, None, None) + Cids(more, user, Some(next), None)
  {
    OrderedFacts(rows, user, None, None);
    OrderedFacts(more, user, None, Some(next));
    OrderIsUnique(Ordered(rows, user, None, None), Ordered(more, user, None, Some(next)));
    RangesConcatenate(more, user, None, next, None);
  }

  lemma JoinedTwo(x: string, y: string)
    ensures Join([x]) == x && Join([x, y]) == x + "," + y
  {
    assert [x, y][1..] == [y];
  }

  /** Two files stored in the wrong order: the text that is hashed, and what a bound leaves of it. */
  lemma TwoFiles(md5: string -> string)
    ensures var rows := [FileRow("u", 2, "QmB"), FileRow("v", 1, "QmC"), FileRow("u", 1, "QmA")];
            && HashOf(md5, rows, "u", None, None) == Some(md5("QmA,QmB"))
            && HashOf(md5, rows, "u", Some(2), None) == Some(md5("QmB"))
            && HashOf(md5, rows, "u", None, Some(2)) == Some(md5("QmA"))
  {
    var rows := [FileRow("u", 2, "QmB"), FileRow("v", 1, "QmC"), FileRow("u", 1, "QmA")];
    var a, b := FileRow("u", 1, "QmA"), FileRow("u", 2, "QmB");
    assert a == rows[2] && b == rows[0];
    CidsAreTheMultihashes(rows, "u", None, None, [a, b]);
    assert Cids(rows, "u", None, None) == ["QmA", "QmB"];
    JoinedTwo("QmA", "QmB");
    assert "QmA" + "," + "QmB" == "QmA,QmB";
    CidsAreTheMultihashes(rows, "u", Some(2), None, [b]);
    assert Cids(rows, "u", Some(2), None) == ["QmB"];
    CidsAreTheMultihashes(rows, "u", None, Some(2), [a]);
    assert Cids(rows, "u", None, Some(2)) == ["QmA"];
  }

  // ---------------------------------------------------------------------------------------------
  // The joined text determines the sequence
  // ---------------------------------------------------------------------------------------------

  /** Equal texts come from equal sequences, provided no CID contains a comma. */
  lemma {:induction false} TextDeterminesCids(a: seq<string>, b: seq<string>)
    requires forall c :: c in a + b ==> ',' !in c
    requires StringAgg(a) == StringAgg(b)
    ensures a == b
  {
    if a != [] && b != [] {
      HeadIsUpToTheComma(a);
      HeadIsUpToTheComma(b);
      assert a[0] in a && b[0] in b;
      SameHead(Join(a), a[0], b[0], |a| == 1, |b| == 1);
      if |a| > 1 {
        assert Join(a)[|a[0]| + 1..] == Join(a[1..]);
        assert Join(b)[|b[0]| + 1..] == Join(b[1..]);
        assert forall c :: c in a[1..] ==> c in a;
        assert forall c :: c in b[1..] ==> c in b;
        TextDeterminesCids(a[1..], b[1..]);
      }
      assert a == [a[0]] + a[1..] && b == [b[0]] + b[1..];
    }
  }

  lemma HeadIsUpToTheComma(cids: seq<string>)
    requires cids != []
    ensures |cids| == 1 ==> Join(cids) == cids[0]
    ensures |cids| > 1 ==>
              |Join(cids)| > |cids[0]| && Join(cids)[..|cids[0]|] == cids[0] && Join(cids)[|cids[0]|] == ','
  {
  }

  lemma SameHead(text: string, x: string, y: string, xLast: bool, yLast: bool)
    requires ',' !in x && ',' !in y
    requires if xLast then text == x else |text| > |x| && text[..|x|] == x && text[|x|] == ','
    requires if yLast then text == y else |text| > |y| && text[..|y|] == y && text[|y|] == ','
    ensures x == y && xLast == yLast
  {
    assert forall k :: 0 <= k < |x| ==> x[k] in x && text[k] != ',';
    assert forall k :: 0 <= k < |y| ==> y[k] in y && text[k] != ',';
  }

  /** A comma inside a multihash makes two different logs look the same. */
  lemma CommasConfuse()
    ensures StringAgg(["a,b"]) == StringAgg(["a", "b"])
  {
    assert ["a", "b"][1..] == ["b"];
    assert Join(["a", "b"]) == "a" + "," + "b" == "a,b";
  }

  // ---------------------------------------------------------------------------------------------
  // The two queries
  // ---------------------------------------------------------------------------------------------

  datatype HashResult = NoLookupKey | Hash(value: Option<string>)

  function Md5(md5: string -> string, text: Option<string>): Option<string> {
    if text.None? then None else Some(md5(text.value))
  }

  /** The hash over a clock range of one user. */
  function HashOf(md5: string -> string, rows: seq<FileRow>, user: string, min: Option<int>, max: Option<int>)
    : Option<string>
  {
    Md5(md5, StringAgg(Cids(rows, user, min, max)))
  }

  /** A replica whose files are the primary's up to some clock has the hash that the primary gives for that range. */
  lemma ReplicaMatchesRange(md5: string -> string, primary: seq<FileRow>, replica: seq<FileRow>, user: string,
                            next: int)
    requires Unique(primary) && Unique(replica) && next > 0
    requires forall x :: x in replica <==> x in primary && (x.user == user ==> x.clock < next)
    ensures HashOf(md5, replica, user, None, None) == HashOf(md5, primary, user, None, Some(next))
  {
    NewRecordsExtendTheEnd(replica, primary, user, next);
  }

  /** Conversely, where md5 does not collide on the two texts, equal hashes mean that the replica's range holds exactly
      the CIDs of the primary's, in order. */
  lemma EqualHashesMeanEqualLogs(md5: string -> string, primary: seq<FileRow>, replica: seq<FileRow>, user: string,
                                 min: Option<int>, max: Option<int>, min': Option<int>, max': Option<int>)
    requires var a, b := StringAgg(Cids(replica, user, min', max')), StringAgg(Cids(primary, user, min, max));
             a.Some? && b.Some? && md5(a.value) == md5(b.value) ==> a == b
    requires forall c :: c in Cids(primary, user, min, max) + Cids(replica, user, min', max') ==> ',' !in c
    ensures HashOf(md5, replica, user, min', max') == HashOf(md5, primary, user, min, max) <==>
              Cids(replica, user, min', max') == Cids(primary, user, min, max)
  {
    if HashOf(md5, replica, user, min', max') == HashOf(md5, primary, user, min, max) {
      TextDeterminesCids(Cids(replica, user, min', max'), Cids(primary, user, min, max));
    }
  }

  /** select "cnodeUserUUID" ... group by "cnodeUserUUID": the users of the selected rows, each once. */
  function GroupedUsers(rows: seq<FileRow>, users: seq<string>): (r: seq<string>)
    ensures forall u :: u in r <==> u in users && exists x :: x in rows && x.user == u
    ensures forall i, j :: 0 <= i < j < |r| ==> r[i] != r[j]
  {
    if rows == [] then []
    else
      var rest := GroupedUsers(rows[1..], users);
      if rows[0].user in users && rows[0].user !in rest then [rows[0].user] + rest else rest
  }

  function Subquery(rows: seq<FileRow>, users: seq<string>): seq<FileRow> {
    if rows == [] then []
    else (if rows[0].user in users then [rows[0]] else []) + Subquery(rows[1..], users)
  }

  lemma {:induction false} SubqueryKeepsGroup(rows: seq<FileRow>, users: seq<string>, user: string)
    requires user in users
    ensures Select(Subquery(rows, users), user, None, None) == Select(rows, user, None, None)
  {
    if rows != [] {
      SubqueryKeepsGroup(rows[1..], users, user);
      var rest := Subquery(rows[1..], users);
      if rows[0].user in users {
        assert Subquery(rows, users)[1..] == rest;
      } else {
        assert Subquery(rows, users) == rest;
      }
    }
  }

  lemma NoRowsNoHash(md5: string -> string, rows: seq<FileRow>, user: string)
    requires forall x :: x in rows ==> x.user != user
    ensures HashOf(md5, rows, user, None, None) == None
  {
    var s := Select(rows, user, None, None);
    assert forall i :: 0 <= i < |s| ==> s[i] in s;
  }

  class FilesTable {
    const md5: string -> string
    var rows: seq<FileRow>
    var wallets: map<string, string>

    constructor (md5: string -> string, rows: seq<FileRow>, wallets: map<string, string>)
      ensures this.md5 == md5 && this.rows == rows && this.wallets == wallets
    {
      this.md5, this.rows, this.wallets := md5, rows, wallets;
    }

    /** fetchFilesHashFromDB: by uuid if given, else by wallet; an unknown wallet selects no rows. */
    method FetchFilesHash(uuid: Option<string>, wallet: Option<string>, min: Option<int>, max: Option<int>)
      returns (hash: HashResult)
      ensures uuid.Some? ==> hash == Hash(HashOf(md5, rows, uuid.value, min, max))
      ensures uuid.None? && wallet.Some? ==>
                hash == Hash(if wallet.value in wallets then HashOf(md5, rows, wallets[wallet.value], min, max)
                             else None)
      ensures uuid.None? && wallet.None? <==> hash.NoLookupKey?
    {
      var user: string;
      if uuid.Some? {
        user := uuid.value;
      } else if wallet.Some? {
        if wallet.value !in wallets {
          return Hash(None);
        }
        user := wallets[wallet.value];
      } else {
        return NoLookupKey;
      }
      hash := Hash(Md5(md5, StringAgg(Multihashes(OrderByClock(Select(rows, user, min, max))))));
    }

    /** fetchFilesHashesFromDB: one query for all users agrees with the single query for each, files or not. */
    method FetchFilesHashes(users: seq<string>) returns (hashes: map<string, Option<string>>)
      ensures hashes.Keys == SetOf(users)
      ensures forall u :: u in hashes ==> hashes[u] == HashOf(md5, rows, u, None, None)
    {
      hashes := map[];
      for i := 0 to |users|
        invariant hashes.Keys == SetOf(users[..i])
        invariant forall u :: u in hashes ==> hashes[u] == None
      {
        assert users[..i + 1] == users[..i] + [users[i]];
        hashes := hashes[users[i] := None];
      }
      assert users[..|users|] == users;
      var subquery := Subquery(rows, users);
      var groups := GroupedUsers(rows, users);
      for i := 0 to |groups|
        invariant hashes.Keys == SetOf(users)
        invariant HashedUpTo(md5, rows, hashes, groups[..i])
      {
        var u := groups[i];
        assert groups[..i + 1] == groups[..i] + [u] && u in groups;
        SubqueryKeepsHash(md5, rows, users, u);
        OneMoreHashed(md5, rows, hashes, groups[..i], u);
        hashes := hashes[u := Md5(md5, StringAgg(Multihashes(OrderByClock(Select(subquery, u, None, None)))))];
      }
      assert groups[..|groups|] == groups;
      GroupsSuffice(md5, rows, users, hashes);
    }
  }

  /** The users done so far have their hash, and the others none. */
  ghost predicate HashedUpTo(md5: string -> string, rows: seq<FileRow>, hashes: map<string, Option<string>>,
                             done: seq<string>) {
    forall u :: u in hashes ==> hashes[u] == if u in done then HashOf(md5, rows, u, None, None) else None
  }

  lemma OneMoreHashed(md5: string -> string, rows: seq<FileRow>, hashes: map<string, Option<string>>,
                      done: seq<string>, user: string)
    requires HashedUpTo(md5, rows, hashes, done)
    ensures HashedUpTo(md5, rows, hashes[user := HashOf(md5, rows, user, None, None)], done + [user])
  {
  }

  lemma SubqueryKeepsHash(md5: string -> string, rows: seq<FileRow>, users: seq<string>, user: string)
    requires user in users
    ensures HashOf(md5, Subquery(rows, users), user, None, None) == HashOf(md5, rows, user, None, None)
  {
    SubqueryKeepsGroup(rows, users, user);
  }

  /** A user without a group has no files, hence no hash. */
  lemma GroupsSuffice(md5: string -> string, rows: seq<FileRow>, users: seq<string>,
                      hashes: map<string, Option<string>>)
    requires hashes.Keys == SetOf(users) && HashedUpTo(md5, rows, hashes, GroupedUsers(rows, users))
    ensures forall u :: u in hashes ==> hashes[u] == HashOf(md5, rows, u, None, None)
  {
    forall u | u in hashes && u !in GroupedUsers(rows, users)
      ensures HashOf(md5, rows, u, None, None) == None
    {
      NoRowsNoHash(md5, rows, u);
    }
  }
}
