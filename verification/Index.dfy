/** One line of a snapshot index, as every part of the program reads and writes it. */
module Index {
  import opened Text
  import opened Paths

  /** A content hash. Zero is the hash that is not set; no content has it. */
  type Hash = nat

  const ZERO_HASH: Hash := 0

  type Bytes = seq<bv8>

  datatype EntryType = File | Dir | Symlink

  /** The nine permission bits. */
  type Mode = bv9

  datatype Entry = Entry(path: string, kind: EntryType, mode: Mode, size: nat, modTime: int, inode: nat,
                         hash: Hash, target: string)

  /** Path order, each path once. */
  ghost predicate PathOrdered(entries: seq<Entry>) {
    && (forall i, j | 0 <= i < j < |entries| :: Less(entries[i].path, entries[j].path))
    && (forall e | e in entries :: Relative(e.path))
  }

  /** Every entry's directory is an entry too. */
  ghost predicate WithParents(entries: seq<Entry>) {
    forall e | e in entries && ParentOf(e.path) != "" ::
      exists d :: d in entries && d.path == ParentOf(e.path) && d.kind.Dir?
  }

  lemma LessIsEarlier(entries: seq<Entry>, i: nat, j: nat)
    requires PathOrdered(entries) && i < |entries| && j < |entries| && Less(entries[i].path, entries[j].path)
    ensures i < j
  {
    LessIsStrict(entries[i].path, entries[j].path);
  }

  lemma PathIsNew(entries: seq<Entry>, n: nat)
    requires PathOrdered(entries) && n < |entries|
    ensures forall j | 0 <= j < |entries| && j != n :: entries[j].path != entries[n].path
  {
    forall j | 0 <= j < |entries| && j != n ensures entries[j].path != entries[n].path {
      LessIsStrict(entries[j].path, entries[n].path);
    }
  }
}
