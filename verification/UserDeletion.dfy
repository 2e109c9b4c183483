/**
 Deleting all data of a user, under foreign keys that restrict.

 `deleteAllCNodeUserDataFromDB` destroys table after table in a fixed order. Each statement is refused when a row that
 stays references one that goes. An error rolls the transaction back and is not reported.
 */
module UserDeletion {
  import opened Prelude

  datatype UserRow = UserRow(uuid: string, wallet: string)

  /** `contentId` is set on the files of a digital content, and null on image and metadata files. */
  datatype FileRow = FileRow(id: string, owner: string, clock: int, contentId: Option<int>)

  /** A row of ColivingUsers, DigitalContents or ContentLists, with the files it references. */
  datatype MetaRow = MetaRow(owner: string, clock: int, files: set<string>)

  datatype ClockRow = ClockRow(owner: string, clock: int)

  datatype SessionRow = SessionRow(owner: string, token: string)

  datatype Db = Db(users: set<UserRow>, colivingUsers: set<MetaRow>, contents: set<MetaRow>, lists: set<MetaRow>,
                   files: set<FileRow>, clocks: set<ClockRow>, sessions: set<SessionRow>)

  // ---------------------------------------------------------------------------------------------
  // Referential integrity
  // ---------------------------------------------------------------------------------------------

  predicate HasUser(db: Db, uuid: string) {
    exists u :: u in db.users && u.uuid == uuid
  }

  predicate HasFile(db: Db, id: string) {
    exists f :: f in db.files && f.id == id
  }

  /** ContentLists has no foreign key into ClockRecords; the other data tables do. */
  predicate MetaIntact(db: Db, r: MetaRow, clocked: bool) {
    && HasUser(db, r.owner)
    && (clocked ==> ClockRow(r.owner, r.clock) in db.clocks)
    && forall id :: id in r.files ==> HasFile(db, id)
  }

  /** No row references a row that is not there. */
  predicate Intact(db: Db) {
    && (forall r :: r in db.colivingUsers ==> MetaIntact(db, r, true))
    && (forall r :: r in db.contents ==> MetaIntact(db, r, true))
    && (forall r :: r in db.lists ==> MetaIntact(db, r, false))
    && (forall f :: f in db.files ==> HasUser(db, f.owner) && ClockRow(f.owner, f.clock) in db.clocks)
    && (forall c :: c in db.clocks ==> HasUser(db, c.owner))
    && (forall s :: s in db.sessions ==> HasUser(db, s.owner))
  }

  /** The primary keys of CNodeUsers and Files, and the unique wallet. */
  ghost predicate Keyed(db: Db) {
    && (forall u, v :: u in db.users && v in db.users && (u.uuid == v.uuid || u.wallet == v.wallet) ==> u == v)
    && (forall f, g :: f in db.files && g in db.files && f.id == g.id ==> f == g)
  }

  // ---------------------------------------------------------------------------------------------
  // The seven statements
  // ---------------------------------------------------------------------------------------------

  const STATEMENTS := 7

  function MetaWithout(rows: set<MetaRow>, uuid: string): set<MetaRow> {
    set r | r in rows && r.owner != uuid
  }

  /** The database after destroying what statement k destroys. */
  function Destroy(db: Db, uuid: string, k: nat): Db {
    match k
    case 0 => db.(colivingUsers := MetaWithout(db.colivingUsers, uuid))
    case 1 => db.(files := set f | f in db.files && !(f.owner == uuid && f.contentId.Some?))
    case 2 => db.(contents := MetaWithout(db.contents, uuid))
    case 3 => db.(files := set f | f in db.files && f.owner != uuid)
    case 4 => db.(clocks := set c | c in db.clocks && c.owner != uuid)
    case 5 => db.(sessions := set s | s in db.sessions && s.owner != uuid)
    case _ => db.(users := set u | u in db.users && u.uuid != uuid)
  }

  function DestroyedUpTo(db: Db, uuid: string, k: nat): Db {
    if k == 0 then db else Destroy(DestroyedUpTo(db, uuid, k - 1), uuid, k - 1)
  }

  /** Every row of the user is gone from the six tables the deletion knows of; nothing else is. */
  function Purged(db: Db, uuid: string): Db {
    Db((set u | u in db.users && u.uuid != uuid),
       MetaWithout(db.colivingUsers, uuid),
       MetaWithout(db.contents, uuid),
       db.lists,
       (set f | f in db.files && f.owner != uuid),
       (set c | c in db.clocks && c.owner != uuid),
       (set s | s in db.sessions && s.owner != uuid))
  }

  ghost predicate ReferencesFileOf(db: Db, r: MetaRow, uuid: string) {
    exists f :: f in db.files && f.owner == uuid && f.id in r.files
  }

  ghost predicate ReferencesContentFileOf(db: Db, r: MetaRow, uuid: string) {
    exists f :: f in db.files && f.owner == uuid && f.contentId.Some? && f.id in r.files
  }

  /**
   What it takes for all seven statements to pass: the user has no content list, no content of the user references a
   file that belongs to a digital content, and nobody else's row references a file of the user.
   */
  ghost predicate Deletable(db: Db, uuid: string) {
    && (forall r :: r in db.lists ==> r.owner != uuid && !ReferencesFileOf(db, r, uuid))
    && (forall r :: r in db.contents && r.owner == uuid ==> !ReferencesContentFileOf(db, r, uuid))
    && (forall r :: r in db.colivingUsers + db.contents && r.owner != uuid ==> !ReferencesFileOf(db, r, uuid))
  }

  /** Two users with rows of every kind. */
  const FIRST := UserRow("1", "0xA")
  const SECOND := UserRow("2", "0xB")
  const F := FileRow("f", "1", 1, None)
  const G := FileRow("g", "2", 1, Some(5))
  const TWO := Db({FIRST, SECOND}, {MetaRow("1", 1, {"f"})}, {MetaRow("2", 2, {})}, {MetaRow("2", 3, {"g"})}, {F, G},
                  {ClockRow("1", 1), ClockRow("2", 1), ClockRow("2", 2)}, {SessionRow("1", "s"), SessionRow("2", "t")})

  lemma TwoIsIntact()
    ensures Intact(TWO) && Keyed(TWO)
  {
    assert FIRST in TWO.users && SECOND in TWO.users && F in TWO.files && G in TWO.files;
    assert HasUser(TWO, "1") && HasUser(TWO, "2") && HasFile(TWO, "f") && HasFile(TWO, "g");
  }

  /** The first can be deleted, since only the second has a content list; this is what stays. */
  lemma FirstOfTwoGoes()
    ensures Deletable(TWO, "1") && !Deletable(TWO, "2")
    ensures Purged(TWO, "1") == Db({SECOND}, {}, {MetaRow("2", 2, {})}, {MetaRow("2", 3, {"g"})}, {G},
                                   {ClockRow("2", 1), ClockRow("2", 2)}, {SessionRow("2", "t")})
  {
    assert MetaRow("2", 3, {"g"}) in TWO.lists;
  }

  // ---------------------------------------------------------------------------------------------
  // Which statements pass
  // ---------------------------------------------------------------------------------------------

  lemma DestroyedShape(db: Db, uuid: string, k: nat)
    requires k <= STATEMENTS
    ensures DestroyedUpTo(db, uuid, k) ==
              Db(if k > 6 then (set u | u in db.users && u.uuid != uuid) else db.users,
                 if k > 0 then MetaWithout(db.colivingUsers, uuid) else db.colivingUsers,
                 if k > 2 then MetaWithout(db.contents, uuid) else db.contents,
                 db.lists,
                 if k > 3 then (set f | f in db.files && f.owner != uuid)
                 else if k > 1 then (set f | f in db.files && !(f.owner == uuid && f.contentId.Some?)) else db.files,
                 if k > 4 then (set c | c in db.clocks && c.owner != uuid) else db.clocks,
                 if k > 5 then (set s | s in db.sessions && s.owner != uuid) else db.sessions)
  {
    if k > 0 {
      DestroyedShape(db, uuid, k - 1);
    }
    if k == 4 {
      var some := set f | f in db.files && !(f.owner == uuid && f.contentId.Some?);
      assert (set f | f in some && f.owner != uuid) == set f | f in db.files && f.owner != uuid;
    }
  }

  /** No prefix of the order leaves a dangling reference. */
  lemma NoPrefixDangles(db: Db, uuid: string, k: nat)
    requires Intact(db) && Keyed(db) && Deletable(db, uuid) && k <= STATEMENTS
    ensures Intact(DestroyedUpTo(db, uuid, k))
  {
    DestroyedShape(db, uuid, k);
    var after := DestroyedUpTo(db, uuid, k);
    forall v | HasUser(db, v) && v != uuid
      ensures HasUser(after, v)
    {
      var u :| u in db.users && u.uuid == v;
      assert u in after.users;
    }
    forall r | r in after.colivingUsers + after.contents + after.lists
      ensures HasUser(after, r.owner)
      ensures forall id :: id in r.files ==> HasFile(after, id)
    {
      StillReferenced(db, uuid, k, r);
    }
  }

  lemma StillReferenced(db: Db, uuid: string, k: nat, r: MetaRow)
    requires Intact(db) && Keyed(db) && Deletable(db, uuid) && k <= STATEMENTS
    requires var after := DestroyedUpTo(db, uuid, k); r in after.colivingUsers + after.contents + after.lists
    ensures HasUser(DestroyedUpTo(db, uuid, k), r.owner)
    ensures forall id :: id in r.files ==> HasFile(DestroyedUpTo(db, uuid, k), id)
  {
    DestroyedShape(db, uuid, k);
    var after := DestroyedUpTo(db, uuid, k);
    var u :| u in db.users && u.uuid == r.owner;
    assert u in after.users;
    forall id | id in r.files
      ensures HasFile(after, id)
    {
      var f :| f in db.files && f.id == id;
      assert f in after.files;
    }
  }

  /** The end, read off the tables: the rows of the user are gone from six of them, and every other row is there. */
  lemma PurgedMeans(db: Db, uuid: string)
    ensures var d := Purged(db, uuid);
            && (forall u :: u in d.users <==> u in db.users && u.uuid != uuid)
            && (forall r :: r in d.colivingUsers <==> r in db.colivingUsers && r.owner != uuid)
            && (forall r :: r in d.contents <==> r in db.contents && r.owner != uuid)
            && (forall f :: f in d.files <==> f in db.files && f.owner != uuid)
            && (forall c :: c in d.clocks <==> c in db.clocks && c.owner != uuid)
            && (forall s :: s in d.sessions <==> s in db.sessions && s.owner != uuid)
            && d.lists == db.lists
  {
  }

  /** Why the order: a statement that destroys what rows of the user still refer to is refused. */
  lemma OrderIsNeeded(db: Db, uuid: string)
    requires Intact(db)
    ensures forall r :: r in db.colivingUsers + db.contents && r.owner == uuid ==> !Intact(Destroy(db, uuid, 4))
    ensures forall f :: f in db.files && f.owner == uuid ==> !Intact(Destroy(db, uuid, 4))
    ensures forall r, f :: r in db.colivingUsers + db.contents && f in db.files && f.owner == uuid && f.id in r.files
                           && (forall g :: g in db.files && g.id == f.id ==> g == f) ==>
              !Intact(Destroy(db, uuid, 3))
    ensures forall c :: c in db.clocks && c.owner == uuid ==> !Intact(Destroy(db, uuid, 6))
    ensures forall s :: s in db.sessions && s.owner == uuid ==> !Intact(Destroy(db, uuid, 6))
  {
    if r, f :| r in db.colivingUsers + db.contents && f in db.files && f.owner == uuid && f.id in r.files
               && forall g :: g in db.files && g.id == f.id ==> g == f {
      assert !HasFile(Destroy(db, uuid, 3), f.id);
    }
    assert !HasUser(Destroy(db, uuid, 6), uuid);
  }

  lemma PurgedIsTheEnd(db: Db, uuid: string)
    ensures DestroyedUpTo(db, uuid, STATEMENTS) == Purged(db, uuid)
  {
    DestroyedShape(db, uuid, STATEMENTS);
  }

  /** The first k statements pass: each leaves a database without dangling references. */
  ghost predicate PassedUpTo(db: Db, uuid: string, k: nat) {
    forall j :: 0 <= j <= k ==> Intact(DestroyedUpTo(db, uuid, j))
  }

  /** All statements pass exactly when nothing stands in the way. */
  lemma AllPassExactlyWhenDeletable(db: Db, uuid: string)
    requires Intact(db) && Keyed(db)
    ensures PassedUpTo(db, uuid, STATEMENTS) <==> Deletable(db, uuid)
  {
    if Deletable(db, uuid) {
      forall k | 0 <= k <= STATEMENTS
        ensures Intact(DestroyedUpTo(db, uuid, k))
      {
        NoPrefixDangles(db, uuid, k);
      }
    }
    if PassedUpTo(db, uuid, STATEMENTS) {
      PassedMeansDeletable(db, uuid);
    }
  }

  /** If the second, the fourth and the last statement pass, nothing stood in the way. */
  lemma PassedMeansDeletable(db: Db, uuid: string)
    requires Intact(db) && Keyed(db)
    requires Intact(DestroyedUpTo(db, uuid, 2)) && Intact(DestroyedUpTo(db, uuid, 4))
    requires Intact(DestroyedUpTo(db, uuid, 7))
    ensures Deletable(db, uuid)
  {
    DestroyedShape(db, uuid, 2);
    DestroyedShape(db, uuid, 4);
    DestroyedShape(db, uuid, 7);
    var d2, d4, d7 := DestroyedUpTo(db, uuid, 2), DestroyedUpTo(db, uuid, 4), DestroyedUpTo(db, uuid, 7);
    forall r | r in db.lists
      ensures r.owner != uuid && !ReferencesFileOf(db, r, uuid)
    {
      assert MetaIntact(d7, r, false);
      assert MetaIntact(d4, r, false);
      NotReferenced(db, d4, r, uuid);
    }
    forall r | r in db.contents && r.owner == uuid
      ensures !ReferencesContentFileOf(db, r, uuid)
    {
      assert MetaIntact(d2, r, true);
      if f :| f in db.files && f.owner == uuid && f.contentId.Some? && f.id in r.files {
        assert false;
      }
    }
    forall r | r in db.colivingUsers + db.contents && r.owner != uuid
      ensures !ReferencesFileOf(db, r, uuid)
    {
      assert r in d4.colivingUsers || r in d4.contents;
      assert MetaIntact(d4, r, true);
      NotReferenced(db, d4, r, uuid);
    }
  }

  lemma NotReferenced(db: Db, after: Db, r: MetaRow, uuid: string)
    requires Keyed(db) && after.files == set f | f in db.files && f.owner != uuid
    requires forall id :: id in r.files ==> HasFile(after, id)
    ensures !ReferencesFileOf(db, r, uuid)
  {
    if f :| f in db.files && f.owner == uuid && f.id in r.files {
      assert false;
    }
  }

  /** Where every row references its owner's files only, and metadata and images are not content files, the one thing
      that keeps a user from being deleted is a content list. */
  lemma ContentListsBlockDeletion(db: Db, uuid: string)
    requires Intact(db) && Keyed(db)
    requires forall r, f :: r in db.colivingUsers + db.contents + db.lists && f in db.files && f.id in r.files ==>
               f.owner == r.owner && f.contentId.None?
    ensures Deletable(db, uuid) <==> forall r :: r in db.lists ==> r.owner != uuid
  {
  }

  // ---------------------------------------------------------------------------------------------
  // deleteAllCNodeUserDataFromDB
  // ---------------------------------------------------------------------------------------------

  datatype Lookup = ByUuid(uuid: string) | ByWallet(wallet: string)

  predicate Matches(u: UserRow, lookup: Lookup) {
    match lookup
    case ByUuid(uuid) => u.uuid == uuid
    case ByWallet(wallet) => u.wallet == wallet
  }

  class DBManager {
    var db: Db

    constructor (db: Db)
      ensures this.db == db
    {
      this.db := db;
    }

    /** The statements one after the other; one that a foreign key refuses, or that meets an unrelated fault, is the
        last. */
    method DestroyAll(uuid: string, fault: Option<nat>) returns (failed: bool)
      requires Intact(db)
      modifies this
      ensures failed <==> !PassedUpTo(old(db), uuid, STATEMENTS) || (fault.Some? && fault.value < STATEMENTS)
      ensures !failed ==> db == DestroyedUpTo(old(db), uuid, STATEMENTS)
    {
      var k := 0;
      while k < STATEMENTS
        invariant 0 <= k <= STATEMENTS
        invariant db == DestroyedUpTo(old(db), uuid, k)
        invariant PassedUpTo(old(db), uuid, k)
        invariant fault.None? || fault.value >= k
      {
        var next := Destroy(db, uuid, k);
        assert next == DestroyedUpTo(old(db), uuid, k + 1);
        if fault == Some(k) || !Intact(next) {
          return true;
        }
        db := next;
        k := k + 1;
      }
      failed := false;
    }

    /**
     Deletes all of the user, or nothing at all; the caller is told neither. `rollback` is the state at the start of an
     external transaction, if the call is part of one: an error undoes that as well. `lookupFails` and `fault` are
     errors that have nothing to do with the data, in the lookup and in a statement.
     */
    method DeleteAllCNodeUserData(lookup: Lookup, rollback: Option<Db>, lookupFails: bool, fault: Option<nat>)
      requires Intact(db) && Keyed(db)
      modifies this
      ensures lookupFails ==> db == if rollback.Some? then rollback.value else old(db)
      ensures !lookupFails && (forall u :: u in old(db).users ==> !Matches(u, lookup)) ==> db == old(db)
      ensures forall u :: !lookupFails && u in old(db).users
                          && (if lookup.ByWallet? then u.wallet == lookup.wallet else u.uuid == lookup.uuid) ==>
                db == if Deletable(old(db), u.uuid) && (fault.None? || fault.value >= 7)
                      then Purged(old(db), u.uuid)
                      else if rollback.Some? then rollback.value else old(db)
    {
      var start := if rollback.Some? then rollback.value else db;
      if lookupFails {
        db := start;
        return;
      }
      if user :| user in db.users && Matches(user, lookup) {
        AllPassExactlyWhenDeletable(db, user.uuid);
        PurgedIsTheEnd(db, user.uuid);
        var failed := DestroyAll(user.uuid, fault);
        if failed {
          db := start;
        }
      }
    }
  }
}
