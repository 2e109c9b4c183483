/**
 Removing the upload folder of a digital content.

 The file system is a map from paths to kinds. The folder is removed entry by entry, in the order in which the
 directory happens to be listed; an unexpected subdirectory stops the removal half-way.
 */
module ContentFolder {
  import opened Prelude

  type Path = seq<string>

  datatype Kind = File | Dir

  type Nodes = map<Path, Kind>

  predicate Under(p: Path, dir: Path) {
    |p| > |dir| && p[..|dir|] == dir
  }

  /** Whatever lies under a node lies under a directory, one level at a time. */
  ghost predicate Tree(nodes: Nodes) {
    forall p, i :: p in nodes && 0 <= i < |p| ==> p[..i] in nodes && nodes[p[..i]].Dir?
  }

  predicate IsChild(p: Path, dir: Path) {
    |p| == |dir| + 1 && p[..|dir|] == dir
  }

  function Children(nodes: Nodes, dir: Path): set<Path> {
    set p | p in nodes && IsChild(p, dir)
  }

  const SEGMENTS := "segments"

  /** The only subdirectory is 'segments', and that has none. */
  ghost predicate Expected(nodes: Nodes, dir: Path) {
    && (forall p :: p in Children(nodes, dir) && nodes[p].Dir? ==> p == dir + [SEGMENTS])
    && (forall p :: p in Children(nodes, dir + [SEGMENTS]) ==> nodes[p].File?)
  }

  /** Everything under `dir` and, if `self`, the directory too. */
  function Without(nodes: Nodes, dir: Path, self: bool): Nodes {
    nodes - set p | p in nodes && (Under(p, dir) || (self && p == dir))
  }

  /** What a removal that stops half-way may have removed. */
  ghost predicate MayGo(nodes: Nodes, dir: Path, p: Path) {
    && p in nodes
    && ( || (IsChild(p, dir) && nodes[p].File?)
         || (IsChild(p, dir + [SEGMENTS]) && nodes[p].File?)
         || (p == dir + [SEGMENTS] && forall c :: c in Children(nodes, p) ==> nodes[c].File?))
  }

  ghost predicate OnlyMayGo(before: Nodes, dir: Path, after: Nodes) {
    && (forall p :: p in after ==> p in before && after[p] == before[p])
    && (forall p :: p in before && p !in after ==> MayGo(before, dir, p))
  }

  /** Nothing outside the folder, and nothing under a subdirectory other than 'segments', may go. */
  lemma MayGoIsLocal(nodes: Nodes, dir: Path, p: Path)
    requires Tree(nodes) && MayGo(nodes, dir, p)
    ensures Under(p, dir)
    ensures |p| > |dir| + 1 ==> p[|dir|] == SEGMENTS
    ensures nodes[p].Dir? ==> p == dir + [SEGMENTS]
  {
    if IsChild(p, dir + [SEGMENTS]) {
      assert p[..|dir|] == (dir + [SEGMENTS])[..|dir|];
      assert p[..|dir| + 1][|dir|] == SEGMENTS;
    }
  }

  /** The child of `dir` that p is, or lies under. */
  function Ancestor(dir: Path, p: Path): Path
    requires Under(p, dir)
  {
    p[..|dir| + 1]
  }

  lemma AncestorFacts(nodes: Nodes, dir: Path, p: Path)
    requires Tree(nodes) && p in nodes && Under(p, dir)
    ensures Ancestor(dir, p) in Children(nodes, dir)
    ensures p == Ancestor(dir, p) || (Under(p, Ancestor(dir, p)) && nodes[Ancestor(dir, p)].Dir?)
  {
    var q := p[..|dir| + 1];
    assert q[..|dir|] == p[..|dir|];
    if |p| == |dir| + 1 {
      assert q == p;
    }
  }

  lemma SiblingsDoNotOverlap(dir: Path, q: Path, r: Path, p: Path)
    requires IsChild(q, dir) && IsChild(r, dir) && q != r
    ensures !((p == q || Under(p, q)) && (p == r || Under(p, r)))
  {
  }

  ghost predicate Distinct(listing: seq<Path>) {
    forall j, k :: 0 <= j < k < |listing| ==> listing[j] != listing[k]
  }

  lemma DistinctAppend(listing: seq<Path>, p: Path)
    requires Distinct(listing) && p !in listing
    ensures Distinct(listing + [p])
    ensures SetOf(listing + [p]) == SetOf(listing) + {p}
  {
  }

  datatype Failure = NullDir | NotADirectory | UnexpectedSubdirectory | IoError

  class Disk {
    var nodes: Nodes
    /** No call to the file system fails that need not. */
    const healthy: bool

    constructor (nodes: Nodes, healthy: bool)
      ensures this.nodes == nodes && this.healthy == healthy
    {
      this.nodes, this.healthy := nodes, healthy;
    }

    method MayFail() returns (fails: bool)
      ensures healthy ==> !fails
    {
      fails := *;
      fails := fails && !healthy;
    }

    /** fs.readdir: the children, each once, in any order. */
    method ReadDir(dir: Path) returns (listing: seq<Path>)
      ensures SetOf(listing) == Children(nodes, dir)
      ensures Distinct(listing)
    {
      listing := [];
      var left := Children(nodes, dir);
      while left != {}
        invariant SetOf(listing) !! left && SetOf(listing) + left == Children(nodes, dir)
        invariant Distinct(listing)
        decreases |left|
      {
        var p :| p in left;
        assert p !in SetOf(listing);
        DistinctAppend(listing, p);
        listing, left := listing + [p], left - {p};
      }
    }

    method Unlink(p: Path) returns (ok: bool)
      requires p in nodes && nodes[p].File?
      modifies this
      ensures nodes == if ok then old(nodes) - {p} else old(nodes)
      ensures healthy ==> ok
    {
      var fails := MayFail();
      if fails {
        return false;
      }
      nodes := nodes - {p};
      ok := true;
    }

    /** fs.rmdir fails on a directory that is not empty. */
    method RmDir(p: Path) returns (ok: bool)
      requires p in nodes && nodes[p].Dir? && Children(nodes, p) == {}
      modifies this
      ensures nodes == if ok then old(nodes) - {p} else old(nodes)
      ensures healthy ==> ok
    {
      var fails := MayFail();
      if fails {
        return false;
      }
      nodes := nodes - {p};
      ok := true;
    }

    /** The loop over 'segments': files go, a subdirectory stops it; then the directory itself goes. */
    method RemoveSegments(dir: Path) returns (failure: Option<Failure>)
      requires Tree(nodes) && dir in nodes && nodes[dir].Dir?
      modifies this
      ensures failure.None? ==> nodes == Without(old(nodes), dir, true)
                                && forall p :: p in Children(old(nodes), dir) ==> old(nodes)[p].File?
      ensures failure == Some(UnexpectedSubdirectory) ==>
                exists p :: p in Children(old(nodes), dir) && old(nodes)[p].Dir?
      ensures failure.Some? ==> (failure.value.UnexpectedSubdirectory? || failure.value.IoError?)
      ensures healthy ==> failure != Some(IoError)
      ensures failure.Some? ==>
                && (forall p :: p in nodes ==> p in old(nodes) && nodes[p] == old(nodes)[p])
                && (forall p :: p in old(nodes) && p !in nodes ==> IsChild(p, dir) && old(nodes)[p].File?)
    {
      var listing := ReadDir(dir);
      var i := 0;
      while i < |listing|
        invariant 0 <= i <= |listing|
        invariant forall p :: p in listing[..i] ==> p in old(nodes) && IsChild(p, dir) && old(nodes)[p].File?
        invariant nodes == old(nodes) - SetOf(listing[..i])
      {
        var p := listing[i];
        assert p in SetOf(listing);
        assert listing[..i + 1] == listing[..i] + [p];
        assert p !in SetOf(listing[..i]);
        if nodes[p].Dir? {
          return Some(UnexpectedSubdirectory);
        }
        var ok := Unlink(p);
        if !ok {
          return Some(IoError);
        }
        i := i + 1;
      }
      assert listing[..|listing|] == listing;
      var ok := RmDir(dir);
      if !ok {
        return Some(IoError);
      }
      OnlyChildren(old(nodes), dir);
      assert SetOf(listing) == Children(old(nodes), dir);
      failure := None;
    }

    /** removeDigitalContentFolder: None is success. */
    method RemoveFolder(folder: Option<Path>) returns (failure: Option<Failure>)
      requires Tree(nodes)
      modifies this
      ensures folder.None? ==> failure == Some(NullDir) && nodes == old(nodes)
      ensures folder.Some? && (folder.value !in old(nodes) || old(nodes)[folder.value].File?) ==>
                failure.Some? && nodes == old(nodes)
      ensures folder.Some? && failure.None? ==> nodes == Without(old(nodes), folder.value, true)
      ensures folder.Some? && folder.value in old(nodes) && old(nodes)[folder.value].Dir? ==>
                failure == Some(IoError) || (failure.None? <==> Expected(old(nodes), folder.value))
      ensures healthy && folder.Some? && folder.value in old(nodes) && old(nodes)[folder.value].Dir? ==>
                (failure.None? <==> Expected(old(nodes), folder.value)) && failure != Some(IoError)
      ensures folder.Some? && failure.Some? ==> OnlyMayGo(old(nodes), folder.value, nodes)
      ensures forall p :: folder.Some? && failure.Some? && p in old(nodes) && p !in nodes ==>
                MayGo(old(nodes), folder.value, p)
    {
      if folder.None? {
        return Some(NullDir);
      }
      var dir := folder.value;
      if dir !in nodes {
        return Some(IoError);
      }
      if nodes[dir].File? {
        return Some(NotADirectory);
      }
      var listing := ReadDir(dir);
      AfterAllEntries(nodes, dir, listing);
      FineExactlyWhenExpected(nodes, dir, listing);
      failure := RemoveEntries(dir, listing);
      if failure.Some? {
        return;
      }
      AfterEntriesOnlyMayGo(old(nodes), dir, listing);
      var ok := RmDir(dir);
      if !ok {
        return Some(IoError);
      }
      failure := None;
    }

    /** The loop over the entries. */
    method RemoveEntries(dir: Path, listing: seq<Path>) returns (failure: Option<Failure>)
      requires Tree(nodes) && SetOf(listing) == Children(nodes, dir) && Distinct(listing)
      modifies this
      ensures failure.None? ==> nodes == AfterEntries(old(nodes), listing) && AllFine(old(nodes), dir, listing)
      ensures failure == Some(UnexpectedSubdirectory) ==> !AllFine(old(nodes), dir, listing)
      ensures failure.Some? ==> OnlyMayGo(old(nodes), dir, nodes)
      ensures failure.Some? ==> failure.value.UnexpectedSubdirectory? || failure.value.IoError?
      ensures healthy ==> failure != Some(IoError)
    {
      var i := 0;
      while i < |listing|
        invariant 0 <= i <= |listing|
        invariant AllFine(old(nodes), dir, listing[..i])
        invariant nodes == AfterEntries(old(nodes), listing[..i])
      {
        BeforeEntry(old(nodes), dir, listing, i);
        failure := RemoveEntry(dir, listing[i], old(nodes));
        if failure.Some? {
          return;
        }
        i := i + 1;
      }
      assert listing[..|listing|] == listing;
      failure := None;
    }

    /** One entry of the folder. */
    method RemoveEntry(dir: Path, p: Path, ghost before: Nodes) returns (failure: Option<Failure>)
      requires Tree(nodes) && Tree(before) && p in nodes && IsChild(p, dir)
      requires OnlyMayGo(before, dir, nodes)
      requires forall x :: x in before && (x == p || Under(x, p)) ==> x in nodes
      modifies this
      ensures failure.None? ==> nodes == Without(old(nodes), p, true) && Fine(before, dir, p)
      ensures failure == Some(UnexpectedSubdirectory) ==> !Fine(before, dir, p)
      ensures failure.Some? ==> OnlyMayGo(before, dir, nodes)
      ensures failure.Some? ==> failure.value.UnexpectedSubdirectory? || failure.value.IoError?
      ensures healthy ==> failure != Some(IoError)
    {
      if nodes[p].File? {
        NothingUnderFile(nodes, p);
        var ok := Unlink(p);
        return if ok then None else Some(IoError);
      }
      if p != dir + [SEGMENTS] {
        return Some(UnexpectedSubdirectory);
      }
      assert Children(nodes, p) == Children(before, p);
      failure := RemoveSegments(p);
    }
  }

  lemma NothingUnderFile(nodes: Nodes, p: Path)
    requires Tree(nodes) && p in nodes && nodes[p].File?
    ensures nodes - {p} == Without(nodes, p, true)
  {
    assert forall x :: x in nodes && |x| > |p| ==> x[..|p|] in nodes && nodes[x[..|p|]].Dir?;
  }

  lemma OnlyChildren(nodes: Nodes, dir: Path)
    requires Tree(nodes)
    requires forall p :: p in Children(nodes, dir) ==> nodes[p].File?
    ensures forall p :: p in nodes && Under(p, dir) ==> p in Children(nodes, dir)
  {
    forall p | p in nodes && Under(p, dir)
      ensures p in Children(nodes, dir)
    {
      AncestorFacts(nodes, dir, p);
    }
  }

  /** An entry that does not stop the removal. */
  ghost predicate Fine(nodes: Nodes, dir: Path, p: Path) {
    p in nodes && (nodes[p].Dir? ==> p == dir + [SEGMENTS] && forall c :: c in Children(nodes, p) ==> nodes[c].File?)
  }

  ghost predicate AllFine(nodes: Nodes, dir: Path, listing: seq<Path>) {
    forall q :: q in listing ==> Fine(nodes, dir, q)
  }

  predicate Covered(p: Path, gone: seq<Path>) {
    exists q :: q in gone && (p == q || Under(p, q))
  }

  lemma CoveredByOneMore(p: Path, gone: seq<Path>, q: Path)
    ensures Covered(p, gone + [q]) <==> Covered(p, gone) || p == q || Under(p, q)
  {
    if Covered(p, gone) {
      var r :| r in gone && (p == r || Under(p, r));
      assert r in gone + [q];
    }
    if p == q || Under(p, q) {
      assert q in gone + [q];
    }
  }

  /** The nodes left when the listed entries, and all under them, are gone. */
  function AfterEntries(nodes: Nodes, gone: seq<Path>): Nodes {
    nodes - set p | p in nodes && Covered(p, gone)
  }

  lemma AfterEntriesKeepsTheRest(nodes: Nodes, dir: Path, listing: seq<Path>, i: nat)
    requires Tree(nodes) && SetOf(listing) == Children(nodes, dir) && i < |listing| && Distinct(listing)
    ensures var now := AfterEntries(nodes, listing[..i]);
            && listing[i] in nodes && IsChild(listing[i], dir)
            && (forall x :: x in nodes && (x == listing[i] || Under(x, listing[i])) ==> x in now)
            && Tree(now)
  {
    var now := AfterEntries(nodes, listing[..i]);
    assert listing[i] in SetOf(listing);
    forall x | x in nodes && (x == listing[i] || Under(x, listing[i]))
      ensures x in now
    {
      forall q | q in listing[..i]
        ensures !(x == q || Under(x, q))
      {
        assert q in SetOf(listing);
        SiblingsDoNotOverlap(dir, listing[i], q, x);
      }
    }
    forall x, k | x in now && 0 <= k < |x|
      ensures x[..k] in now && now[x[..k]].Dir?
    {
      forall q | q in listing[..i]
        ensures !(x[..k] == q || Under(x[..k], q))
      {
        assert x[..k] == q || Under(x[..k], q) ==> Under(x, q) by {
          assert |q| <= k ==> x[..k][..|q|] == x[..|q|];
        }
      }
    }
  }

  lemma AfterOneMore(nodes: Nodes, listing: seq<Path>, i: nat)
    requires i < |listing|
    ensures AfterEntries(nodes, listing[..i + 1]) == Without(AfterEntries(nodes, listing[..i]), listing[i], true)
  {
    assert listing[..i + 1] == listing[..i] + [listing[i]];
    var now, next := AfterEntries(nodes, listing[..i]), AfterEntries(nodes, listing[..i + 1]);
    forall x
      ensures x in next <==> x in now && !(x == listing[i] || Under(x, listing[i]))
    {
      CoveredByOneMore(x, listing[..i], listing[i]);
    }
  }

  /** All that holds when the next entry is about to be removed. */
  lemma BeforeEntry(nodes: Nodes, dir: Path, listing: seq<Path>, i: nat)
    requires Tree(nodes) && SetOf(listing) == Children(nodes, dir) && i < |listing| && Distinct(listing)
    requires AllFine(nodes, dir, listing[..i])
    ensures var now := AfterEntries(nodes, listing[..i]);
            && Tree(now) && listing[i] in now && IsChild(listing[i], dir) && OnlyMayGo(nodes, dir, now)
            && (forall x :: x in nodes && (x == listing[i] || Under(x, listing[i])) ==> x in now)
            && AfterEntries(nodes, listing[..i + 1]) == Without(now, listing[i], true)
    ensures AllFine(nodes, dir, listing[..i + 1]) <==> Fine(nodes, dir, listing[i])
    ensures !Fine(nodes, dir, listing[i]) ==> !AllFine(nodes, dir, listing)
  {
    AfterEntriesKeepsTheRest(nodes, dir, listing, i);
    assert SetOf(listing[..i]) <= SetOf(listing);
    AfterEntriesOnlyMayGo(nodes, dir, listing[..i]);
    AfterOneMore(nodes, listing, i);
    assert listing[..i + 1] == listing[..i] + [listing[i]];
  }

  lemma FineExactlyWhenExpected(nodes: Nodes, dir: Path, listing: seq<Path>)
    requires Tree(nodes) && dir in nodes && nodes[dir].Dir? && SetOf(listing) == Children(nodes, dir)
    ensures AllFine(nodes, dir, listing) <==> Expected(nodes, dir)
  {
    assert forall q :: q in Children(nodes, dir) <==> q in SetOf(listing);
    var segments := dir + [SEGMENTS];
    if AllFine(nodes, dir, listing) {
      assert forall q :: q in Children(nodes, dir) ==> q in listing && Fine(nodes, dir, q);
      forall p | p in Children(nodes, segments)
        ensures nodes[p].File?
      {
        AncestorFacts(nodes, dir, p);
        assert Ancestor(dir, p) == segments;
      }
    }
    if Expected(nodes, dir) {
      forall q | q in listing
        ensures Fine(nodes, dir, q)
      {
        assert q in SetOf(listing);
      }
    }
  }

  /** The layout of a folder of segments is as expected, and any other directory in it is not. */
  lemma LayoutIsExpected(nodes: Nodes, dir: Path)
    requires Tree(nodes) && dir in nodes && nodes[dir].Dir?
    requires forall p :: p in nodes && Under(p, dir) && nodes[p].Dir? ==> p == dir + ["segments"]
    ensures Expected(nodes, dir)
  {
  }

  /** An upload folder with a file, the segments directory and two segments. */
  const UPLOAD: Nodes := map[[] := Dir, ["u"] := Dir, ["u", "master"] := File, ["u", "segments"] := Dir,
                             ["u", "segments", "0"] := File, ["u", "segments", "1"] := File]

  lemma UploadIsExpected()
    ensures Tree(UPLOAD) && Expected(UPLOAD, ["u"]) && Without(UPLOAD, ["u"], true) == map[[] := Dir]
  {
    forall p, i | p in UPLOAD && 0 <= i < |p|
      ensures p[..i] in UPLOAD && UPLOAD[p[..i]].Dir?
    {
      assert i == 0 ==> p[..i] == [];
      assert i == 1 ==> p[..i] == ["u"];
      assert i == 2 ==> p[..i] == ["u", "segments"];
    }
  }

  lemma OtherDirectoryIsUnexpected(nodes: Nodes, dir: Path, name: string)
    requires dir + [name] in nodes && nodes[dir + [name]].Dir? && name != "segments"
    ensures !Expected(nodes, dir)
  {
    assert IsChild(dir + [name], dir);
  }

  lemma AfterEntriesOnlyMayGo(nodes: Nodes, dir: Path, gone: seq<Path>)
    requires Tree(nodes) && SetOf(gone) <= Children(nodes, dir)
    requires AllFine(nodes, dir, gone)
    ensures OnlyMayGo(nodes, dir, AfterEntries(nodes, gone))
  {
    forall p | p in nodes && p !in AfterEntries(nodes, gone)
      ensures MayGo(nodes, dir, p)
    {
      var q :| q in gone && (p == q || Under(p, q));
      assert q in SetOf(gone);
      if p != q {
        AncestorFacts(nodes, q, p);
        assert p[..|q|] in nodes;
      }
    }
  }

  lemma AfterAllEntries(nodes: Nodes, dir: Path, listing: seq<Path>)
    requires Tree(nodes) && dir in nodes && nodes[dir].Dir? && SetOf(listing) == Children(nodes, dir)
    ensures AfterEntries(nodes, listing) == Without(nodes, dir, false)
    ensures dir in Without(nodes, dir, false) && Children(Without(nodes, dir, false), dir) == {}
    ensures Without(nodes, dir, false) - {dir} == Without(nodes, dir, true)
  {
    forall p | p in nodes
      ensures Under(p, dir) <==> Covered(p, listing)
    {
      if Under(p, dir) {
        AncestorFacts(nodes, dir, p);
        assert Ancestor(dir, p) in SetOf(listing);
      }
      if q :| q in listing && (p == q || Under(p, q)) {
        assert q in SetOf(listing);
        assert p[..|dir|] == p[..|q|][..|dir|];
      }
    }
  }
}
