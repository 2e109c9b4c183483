/** The content tables of a node's database and the redis sets of the content blacklist. */
module ContentTables {
  import opened Prelude

  /** A member of a redis set or of the `value` column: a numeric id or a CID. */
  datatype Entry = Id(n: int) | Hash(text: string)

  datatype UserRecord = UserRecord(owner: string, blockchainId: int)

  /** `segments` is None when metadataJSON or its segment list is missing; a segment without a multihash is "". */
  datatype ContentRecord = ContentRecord(owner: string, blockchainId: int, segments: Option<seq<string>>)

  datatype FileRecord = FileRecord(contentId: Option<int>, fileType: string, multihash: string)

  datatype Tables = Tables(users: seq<UserRecord>, contents: seq<ContentRecord>, files: seq<FileRecord>,
                           whitelist: set<string>)

  predicate IsSegmentOf(c: ContentRecord, cid: string) {
    c.segments.Some? && cid in c.segments.value
  }

  /** The three redis sets. */
  datatype Index = Index(users: set<Entry>, contents: set<Entry>, cids: set<Entry>) {
    function Union(other: Index): Index {
      Index(users + other.users, contents + other.contents, cids + other.cids)
    }

    function Minus(other: Index): Index {
      Index(users - other.users, contents - other.contents, cids - other.cids)
    }

    ghost predicate Within(other: Index) {
      users <= other.users && contents <= other.contents && cids <= other.cids
    }

    ghost predicate DisjointFrom(other: Index) {
      users !! other.users && contents !! other.contents && cids !! other.cids
    }
  }

  /** sadd takes at most this many members in one call. */
  const CHUNK_SIZE := 100000
}
