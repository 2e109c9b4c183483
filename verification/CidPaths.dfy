/**
 Storage paths of CIDs: printing them, and finding the CIDs in them again.

 A path is printed as root/files/xyz/cid or root/files/xyz/dir/file, where xyz are the three characters of the CID
 before its last. It is read back by the leftmost match of a regular expression.
 */
module CidPaths {
  import opened Prelude

  const CID_LENGTH := 46

  predicate IsAlphanumeric(c: char) {
    'a' <= c <= 'z' || 'A' <= c <= 'Z' || '0' <= c <= '9'
  }

  /** Qm[a-zA-Z0-9]{44} at position k */
  predicate CidAt(t: string, k: nat) {
    && k + CID_LENGTH <= |t|
    && t[k] == 'Q' && t[k + 1] == 'm'
    && forall j :: k + 2 <= j < k + CID_LENGTH ==> IsAlphanumeric(t[j])
  }

  predicate IsCid(s: string) {
    |s| == CID_LENGTH && CidAt(s, 0)
  }

  /** A string is a CID exactly when it is Qm and 44 letters or digits. */
  lemma CidMeans(s: string)
    ensures IsCid(s) <==>
              (&& |s| == 46 && s[..2] == "Qm"
               && forall i :: 2 <= i < 46 ==> 'a' <= s[i] <= 'z' || 'A' <= s[i] <= 'Z' || '0' <= s[i] <= '9')
  {
    if |s| == 46 {
      assert s[..2] == [s[0], s[1]];
    }
  }

  // ---------------------------------------------------------------------------------------------
  // The regular expression \/(?<outer>Qm[a-zA-Z0-9]{44})\/?(?<inner>Qm[a-zA-Z0-9]{44})?
  // ---------------------------------------------------------------------------------------------

  predicate MatchAt(t: string, i: nat) {
    i < |t| && t[i] == '/' && CidAt(t, i + 1)
  }

  /** A match is a slash, Qm, and 44 letters or digits. */
  lemma MatchMeans(t: string, i: nat)
    ensures MatchAt(t, i) <==>
              (&& i + 47 <= |t| && t[i] == '/' && t[i + 1] == 'Q' && t[i + 2] == 'm'
               && forall j :: i + 3 <= j < i + 47 ==>
                                'a' <= t[j] <= 'z' || 'A' <= t[j] <= 'Z' || '0' <= t[j] <= '9')
  {
  }

  /** The leftmost match at or after i. */
  function SearchFrom(t: string, i: nat): (r: Option<nat>)
    requires i <= |t|
    ensures r.None? <==> forall j :: i <= j < |t| ==> !MatchAt(t, j)
    ensures r.Some? ==> i <= r.value < |t| && MatchAt(t, r.value) && forall j :: i <= j < r.value ==> !MatchAt(t, j)
    decreases |t| - i
  {
    if i == |t| then None else if MatchAt(t, i) then Some(i) else SearchFrom(t, i + 1)
  }

  /** The second CID, right after the first or after one slash. */
  function InnerAt(t: string, end: nat): Option<string> {
    var k := if end < |t| && t[end] == '/' then end + 1 else end;
    if CidAt(t, k) then Some(t[k..k + CID_LENGTH]) else None
  }

  datatype Found = Found(isDir: bool, outer: string, inner: Option<string>)

  function FoundAt(t: string, i: nat): Found
    requires MatchAt(t, i)
  {
    var inner := InnerAt(t, i + 1 + CID_LENGTH);
    Found(inner.Some?, t[i + 1..i + 1 + CID_LENGTH], inner)
  }

  /** extractCIDsFromFSPath */
  function ExtractCids(t: string): Option<Found> {
    var i := SearchFrom(t, 0);
    if i.None? then None else Some(FoundAt(t, i.value))
  }

  /** A second CID is taken with a slash before it and without. */
  lemma SecondCid(a: string, b: string)
    requires IsCid(a) && IsCid(b)
    ensures ExtractCids("/" + a) == Some(Found(false, a, None))
    ensures ExtractCids("/" + a + b) == Some(Found(true, a, Some(b))) == ExtractCids("/" + a + "/" + b)
    ensures ExtractCids(a) == None
  {
    var alone, joined, apart := "/" + a, "/" + a + b, "/" + a + "/" + b;
    assert alone[1..47] == a && joined[1..47] == a && apart[1..47] == a;
    assert joined[47..93] == b && apart[48..94] == b;
    assert forall j :: 0 <= j < 46 ==> alone[j + 1] == a[j] && joined[j + 1] == a[j] && apart[j + 1] == a[j];
    assert forall j :: 0 <= j < 46 ==> joined[j + 47] == b[j] && apart[j + 48] == b[j];
    assert MatchAt(alone, 0) && MatchAt(joined, 0) && MatchAt(apart, 0);
    assert CidAt(joined, 47) && CidAt(apart, 48);
  }

  // ---------------------------------------------------------------------------------------------
  // Printing
  // ---------------------------------------------------------------------------------------------

  const FILES := "/files/"

  /** cid.slice(-4, -1) */
  function Shard(cid: string): string {
    var end := if |cid| >= 1 then |cid| - 1 else 0;
    var start := if |cid| >= 4 then |cid| - 4 else 0;
    if start <= end then cid[start..end] else ""
  }

  function ParentDir(root: string, cid: string): string {
    root + FILES + Shard(cid)
  }

  function FilePath(root: string, cid: string): string {
    ParentDir(root, cid) + "/" + cid
  }

  function FilePathInDir(root: string, dir: string, file: string): string {
    FilePath(root, dir) + "/" + file
  }

  // ---------------------------------------------------------------------------------------------
  // Parsing undoes printing
  // ---------------------------------------------------------------------------------------------

  /** What is printed after the root: "/files/", the shard, "/", the CID, and whatever follows. */
  function Tail(cid: string, rest: string): string {
    FILES + Shard(cid) + "/" + cid + rest
  }

  ghost predicate Layout(root: string, cid: string, rest: string, t: string) {
    IsCid(cid) && t == root + Tail(cid, rest)
  }

  lemma TailFacts(cid: string, rest: string)
    requires IsCid(cid)
    ensures var tail := Tail(cid, rest);
            && |tail| == 57 + |rest|
            && tail[0] == '/' && tail[1] == 'f' && tail[6] == '/' && tail[10] == '/'
            && (forall i :: 0 < i < 10 && i != 6 ==> tail[i] != '/')
            && tail[11..57] == cid && tail[57..] == rest
  {
    var tail := Tail(cid, rest);
    assert |Shard(cid)| == 3;
    assert tail[..7] == FILES;
    assert forall i :: 0 <= i < 7 ==> tail[i] == FILES[i];
    assert forall i :: 7 <= i < 10 ==> tail[i] == cid[35 + i] && IsAlphanumeric(cid[35 + i]);
  }

  lemma LayoutFacts(root: string, cid: string, rest: string, t: string)
    requires Layout(root, cid, rest, t)
    ensures |t| == |root| + 57 + |rest|
    ensures forall i :: 0 <= i < |root| ==> t[i] == root[i]
    ensures t[|root|] == '/' && t[|root| + 1] == 'f' && t[|root| + 6] == '/' && t[|root| + 10] == '/'
    ensures forall i :: |root| < i < |root| + 10 && i != |root| + 6 ==> t[i] != '/'
    ensures t[|root| + 11..|root| + 57] == cid && t[|root| + 57..] == rest
    ensures CidAt(t, |root| + 11)
  {
    var tail := Tail(cid, rest);
    TailFacts(cid, rest);
    assert forall i :: |root| <= i < |t| ==> t[i] == tail[i - |root|];
    assert forall i :: 0 <= i < CID_LENGTH ==> tail[11 + i] == tail[11..57][i] == cid[i];
    assert forall i :: |root| + 11 <= i < |root| + 57 ==> t[i] == cid[i - |root| - 11];
  }

  /** Inside the root the path matches where the root does: a CID does not reach across the slash that follows. */
  lemma MatchesInRoot(root: string, cid: string, rest: string, t: string, i: nat)
    requires Layout(root, cid, rest, t) && i < |root|
    ensures MatchAt(t, i) <==> MatchAt(root, i)
    ensures MatchAt(t, i) ==> FoundAt(t, i) == FoundAt(root, i)
  {
    assert t[i] == root[i];
    CidsInRoot(root, cid, rest, t, i + 1);
    if MatchAt(root, i) {
      InnerInRoot(root, cid, rest, t, i + 1 + CID_LENGTH);
    }
  }

  lemma InnerInRoot(root: string, cid: string, rest: string, t: string, end: nat)
    requires Layout(root, cid, rest, t) && end <= |root|
    ensures InnerAt(t, end) == InnerAt(root, end)
  {
    SlashAfterRoot(root, cid, rest, t);
    CidsInRoot(root, cid, rest, t, end);
    CidsInRoot(root, cid, rest, t, end + 1);
    if end < |root| {
      assert t[end] == root[end];
    }
  }

  lemma SlashAfterRoot(root: string, cid: string, rest: string, t: string)
    requires Layout(root, cid, rest, t)
    ensures |root| < |t| && t[|root|] == '/'
  {
    TailFacts(cid, rest);
  }

  lemma CidsInRoot(root: string, cid: string, rest: string, t: string, k: nat)
    requires Layout(root, cid, rest, t) && k <= |root| + 1
    ensures CidAt(t, k) <==> CidAt(root, k)
    ensures CidAt(root, k) ==> t[k..k + CID_LENGTH] == root[k..k + CID_LENGTH]
  {
    LayoutFacts(root, cid, rest, t);
    if k <= |root| && k + CID_LENGTH > |root| {
      assert t[|root|] == '/';
      assert k + 2 <= |root| ==> !IsAlphanumeric(t[|root|]);
    }
  }

  /** Neither "files" nor the shard is taken for a CID. */
  lemma NoMatchBeforeCid(root: string, cid: string, rest: string, t: string, i: nat)
    requires Layout(root, cid, rest, t) && |root| <= i < |root| + 10
    ensures !MatchAt(t, i)
  {
    LayoutFacts(root, cid, rest, t);
    if i == |root| + 6 {
      assert !IsAlphanumeric(t[|root| + 10]);
    }
  }

  /** For every root: the path gives the CID it was printed for, unless the root itself contains one. */
  lemma ExtractFromLayout(root: string, cid: string, rest: string, t: string)
    requires Layout(root, cid, rest, t)
    ensures ExtractCids(root).Some? ==> ExtractCids(t) == ExtractCids(root)
    ensures ExtractCids(root).None? ==>
              ExtractCids(t) == Some(Found(InnerAt(rest, 0).Some?, cid, InnerAt(rest, 0)))
  {
    if ExtractCids(root).Some? {
      var at := SearchFrom(root, 0).value;
      forall j | 0 <= j < at
        ensures !MatchAt(t, j)
      {
        MatchesInRoot(root, cid, rest, t, j);
      }
      MatchesInRoot(root, cid, rest, t, at);
      FirstMatch(t, at);
    } else {
      forall j | 0 <= j < |root| + 10
        ensures !MatchAt(t, j)
      {
        if j < |root| {
          MatchesInRoot(root, cid, rest, t, j);
        } else {
          NoMatchBeforeCid(root, cid, rest, t, j);
        }
      }
      MatchAtCid(root, cid, rest, t);
      FirstMatch(t, |root| + 10);
    }
  }

  lemma FirstMatch(t: string, at: nat)
    requires MatchAt(t, at) && forall j :: 0 <= j < at ==> !MatchAt(t, j)
    ensures ExtractCids(t) == Some(FoundAt(t, at))
  {
    assert SearchFrom(t, 0) == Some(at);
  }

  lemma MatchAtCid(root: string, cid: string, rest: string, t: string)
    requires Layout(root, cid, rest, t)
    ensures |root| + 57 <= |t| && MatchAt(t, |root| + 10)
    ensures FoundAt(t, |root| + 10) == Found(InnerAt(rest, 0).Some?, cid, InnerAt(rest, 0))
  {
    LayoutFacts(root, cid, rest, t);
    InnerOfRest(t, |root| + 57, rest);
  }

  lemma InnerOfRest(t: string, end: nat, rest: string)
    requires end <= |t| && t[end..] == rest
    ensures InnerAt(t, end) == InnerAt(rest, 0)
  {
    assert |t| == end + |rest|;
    assert forall i :: 0 <= i < |rest| ==> t[end + i] == rest[i];
    forall k: nat
      ensures CidAt(t, end + k) <==> CidAt(rest, k)
      ensures CidAt(rest, k) ==> t[end + k..end + k + CID_LENGTH] == rest[k..k + CID_LENGTH]
    {
      ShiftedCid(t, end, rest, k);
    }
    if rest != "" && rest[0] == '/' {
      assert CidAt(t, end + 1) <==> CidAt(rest, 1);
    } else {
      assert CidAt(t, end + 0) <==> CidAt(rest, 0);
    }
  }

  lemma ShiftedCid(t: string, end: nat, rest: string, k: nat)
    requires end <= |t| && |t| == end + |rest|
    requires forall i :: 0 <= i < |rest| ==> t[end + i] == rest[i]
    ensures CidAt(t, end + k) <==> CidAt(rest, k)
    ensures CidAt(rest, k) ==> t[end + k..end + k + CID_LENGTH] == rest[k..k + CID_LENGTH]
  {
    if k + CID_LENGTH <= |rest| {
      assert forall j :: k <= j < k + CID_LENGTH ==> t[end + j] == rest[j];
      assert forall j :: end + k <= j < end + k + CID_LENGTH ==> t[j] == rest[j - end];
    }
  }

  lemma FileLayout(root: string, cid: string)
    ensures FilePath(root, cid) == root + Tail(cid, "")
  {
    RegroupFile(root, FILES, Shard(cid), "/", cid);
  }

  lemma RegroupFile(root: string, a: string, b: string, s: string, c: string)
    ensures root + a + b + s + c == root + (a + b + s + c + "")
  {
  }

  lemma FileInDirLayout(root: string, dir: string, file: string)
    ensures FilePathInDir(root, dir, file) == root + Tail(dir, "/" + file)
  {
    RegroupFileInDir(root, FILES, Shard(dir), "/", dir, file);
  }

  lemma RegroupFileInDir(root: string, a: string, b: string, s: string, c: string, d: string)
    ensures root + a + b + s + c + s + d == root + (a + b + s + c + (s + d))
  {
  }

  /** The path of a file: not a directory, and the CID, for every root that contains no CID component. */
  lemma FilePathRoundTrip(root: string, cid: string)
    requires IsCid(cid)
    ensures ExtractCids(FilePath(root, cid)) ==
              if ExtractCids(root).Some? then ExtractCids(root) else Some(Found(false, cid, None))
  {
    var t := FilePath(root, cid);
    FileLayout(root, cid);
    ExtractFromLayout(root, cid, "", t);
  }

  /** The path of a file in a directory: a directory, and exactly the two CIDs. */
  lemma FilePathInDirRoundTrip(root: string, dir: string, file: string)
    requires IsCid(dir) && IsCid(file)
    ensures ExtractCids(FilePathInDir(root, dir, file)) ==
              if ExtractCids(root).Some? then ExtractCids(root) else Some(Found(true, dir, Some(file)))
  {
    var t := FilePathInDir(root, dir, file);
    var rest := "/" + file;
    FileInDirLayout(root, dir, file);
    ExtractFromLayout(root, dir, rest, t);
    InnerAfterSlash(file);
  }

  lemma InnerAfterSlash(file: string)
    requires IsCid(file)
    ensures InnerAt("/" + file, 0) == Some(file)
  {
    var rest := "/" + file;
    assert rest[0] == '/';
    assert forall j :: 1 <= j < 1 + CID_LENGTH ==> rest[j] == file[j - 1];
    assert rest[1..1 + CID_LENGTH] == file;
  }

  /** The CID and what follows can be read off a path from its end, given the root. */
  lemma PathTail(root: string, cid: string, rest: string, other: string, rest': string)
    requires IsCid(cid) && IsCid(other) && root + Tail(cid, rest) == root + Tail(other, rest')
    ensures cid == other && rest == rest'
  {
    var t := root + Tail(cid, rest);
    LayoutFacts(root, cid, rest, t);
    LayoutFacts(root, other, rest', t);
  }

  /** The text of a path: the shard is the three characters before the last, or as many of them as there are. */
  lemma PathText(root: string, cid: string, file: string)
    ensures |cid| >= 4 ==> FilePath(root, cid) == root + "/files/" + cid[|cid| - 4..|cid| - 1] + "/" + cid
    ensures 1 <= |cid| < 4 ==> FilePath(root, cid) == root + "/files/" + cid[..|cid| - 1] + "/" + cid
    ensures cid == "" ==> FilePath(root, cid) == root + "/files/" + "" + "/" + cid
    ensures FilePathInDir(root, cid, file) == FilePath(root, cid) + "/" + file
  {
  }

  /** Different CIDs have different paths, in a directory or not, and no file path is a path in a directory; whatever
      the root. */
  lemma PathsAreDistinct(root: string, cid: string, other: string, dir: string, file: string,
                         dir': string, file': string)
    requires IsCid(cid) && IsCid(other) && IsCid(dir) && IsCid(file) && IsCid(dir') && IsCid(file')
    ensures FilePath(root, cid) == FilePath(root, other) <==> cid == other
    ensures FilePathInDir(root, dir, file) == FilePathInDir(root, dir', file') <==> dir == dir' && file == file'
    ensures FilePath(root, cid) != FilePathInDir(root, dir, file)
  {
    FileLayout(root, cid);
    FileLayout(root, other);
    FileInDirLayout(root, dir, file);
    FileInDirLayout(root, dir', file');
    if FilePath(root, cid) == FilePath(root, other) {
      PathTail(root, cid, "", other, "");
    }
    if FilePathInDir(root, dir, file) == FilePathInDir(root, dir', file') {
      PathTail(root, dir, "/" + file, dir', "/" + file');
      assert ("/" + file)[1..] == file && ("/" + file')[1..] == file';
    }
    LayoutFacts(root, cid, "", FilePath(root, cid));
    LayoutFacts(root, dir, "/" + file, FilePathInDir(root, dir, file));
  }

  // ---------------------------------------------------------------------------------------------
  // The disk manager
  // ---------------------------------------------------------------------------------------------

  datatype PathResult = Path(path: string) | InvalidCid | MissingName | MkdirFailed

  class DiskManager {
    const root: string
    /** Whether the CID library accepts a string. */
    const isValidCid: string -> bool
    var dirs: set<string>

    constructor (root: string, isValidCid: string -> bool)
      ensures this.root == root && this.isValidCid == isValidCid && dirs == {}
    {
      this.root, this.isValidCid, dirs := root, isValidCid, {};
    }

    /** computeFilePath; `mkdirFails` says whether a directory that has to be made can be. */
    method ComputeFilePath(cid: string, ensureDir: bool, mkdirFails: bool) returns (r: PathResult)
      modifies this
      ensures !isValidCid(cid) ==> r == InvalidCid && dirs == old(dirs)
      ensures isValidCid(cid) && ensureDir && mkdirFails ==> r == MkdirFailed && dirs == old(dirs)
      ensures isValidCid(cid) && !(ensureDir && mkdirFails) ==>
                && r == Path(FilePath(root, cid))
                && dirs == old(dirs) + (if ensureDir then {ParentDir(root, cid)} else {})
      ensures r.Path? && IsCid(cid) && ExtractCids(root).None? ==> ExtractCids(r.path) == Some(Found(false, cid, None))
    {
      if !isValidCid(cid) {
        return InvalidCid;
      }
      var parent := ParentDir(root, cid);
      if ensureDir {
        if mkdirFails {
          return MkdirFailed;
        }
        dirs := dirs + {parent};
      }
      if IsCid(cid) {
        FilePathRoundTrip(root, cid);
      }
      r := Path(parent + "/" + cid);
    }

    /** computeFilePathInDir */
    method ComputeFilePathInDir(dir: string, file: string, mkdirFails: bool) returns (r: PathResult)
      modifies this
      ensures dir == "" || file == "" <==> r == MissingName
      ensures dir != "" && file != "" ==>
                && (r == InvalidCid <==> !isValidCid(dir) || !isValidCid(file))
                && (r == MkdirFailed <==> isValidCid(dir) && isValidCid(file) && mkdirFails)
      ensures r.Path? ==> r.path == FilePathInDir(root, dir, file) && dirs == old(dirs) + {ParentDir(root, dir)}
      ensures !r.Path? ==> dirs == old(dirs)
      ensures r.Path? && IsCid(dir) && IsCid(file) && ExtractCids(root).None? ==>
                ExtractCids(r.path) == Some(Found(true, dir, Some(file)))
    {
      if dir == "" || file == "" {
        return MissingName;
      }
      if !isValidCid(dir) || !isValidCid(file) {
        return InvalidCid;
      }
      var parent := ComputeFilePath(dir, true, mkdirFails);
      if !parent.Path? {
        return parent;
      }
      if IsCid(dir) && IsCid(file) {
        FilePathInDirRoundTrip(root, dir, file);
      }
      r := Path(parent.path + "/" + file);
    }
  }
}
