/** Table files, the seven levels of a version and the order the levels keep.
    Levels are sets of files here; VersionSet.dfy works on the sorted vectors. */
module Versions {
  import opened Format

  const NUM_LEVELS: nat := 7

  /** File metadata together with the contents of the table it names. */
  datatype FileMetaData = FileMetaData(number: nat, size: nat, entries: seq<Entry>) {
    ghost predicate Ok() {
      && entries != []
      && Sorted(entries)
      && forall e :: e in entries ==> e.ik.seqno <= MAX_SEQUENCE
    }

    function Smallest(): IKey
      requires entries != []
    {
      entries[0].ik
    }

    function Largest(): IKey
      requires entries != []
    {
      entries[|entries| - 1].ik
    }

    /** The user-key range of the file contains `u`. */
    predicate Spans(u: int)
      requires entries != []
    {
      Smallest().user <= u <= Largest().user
    }

    /** The user-key range of the file meets [lo, hi]. */
    predicate Overlaps(lo: int, hi: int)
      requires entries != []
    {
      lo <= Largest().user && Smallest().user <= hi
    }
  }

  /** A table that was built has at least one entry and is sorted. */
  type File = f: FileMetaData | f.Ok() witness FileMetaData(0, 0, [Entry(IKey(0, 0, Value), "")])

  lemma FileRange(f: File, e: Entry)
    requires e in f.entries
    ensures f.Spans(e.ik.user)
    ensures !Less(e.ik, f.Smallest()) && !Less(f.Largest(), e.ik)
  {
  }

  lemma FileEnds(f: File)
    ensures f.entries[0] in f.entries && f.entries[|f.entries| - 1] in f.entries
    ensures !Less(f.Largest(), f.Smallest())
  {
  }

  /** The entries stored in a set of files. */
  ghost function EntriesOf(fs: set<File>): set<Entry> {
    set f, e | f in fs && e in f.entries :: e
  }

  /** The order `a` then `b` between two files whose internal-key ranges do not meet. */
  predicate FileBefore(a: File, b: File)
  {
    Less(a.Largest(), b.Smallest())
  }

  /** Files of a level above zero do not meet. */
  ghost predicate Apart(fs: set<File>)
  {
    forall f, g :: f in fs && g in fs && f != g ==> FileBefore(f, g) || FileBefore(g, f)
  }

  /** In level zero a file with a higher number holds newer entries. */
  ghost predicate NewestByNumber(fs: set<File>) {
    forall f, g :: f in fs && g in fs && f.number > g.number ==> Newer(Elements(f.entries), Elements(g.entries))
  }

  type Levels = seq<set<File>>

  /** A file number names one file of one level. */
  ghost predicate NumbersUnique(v: Levels) {
    forall i, j, f, g :: 0 <= i < |v| && 0 <= j < |v| && f in v[i] && g in v[j] && f.number == g.number ==>
        i == j && f == g
  }

  /** Levels above zero are made of disjoint files; every user key has its newer entries in
      shallower levels and, in level zero, in files with higher numbers; a sequence number is
    used once. */
  ghost predicate VersionOk(v: Levels) {
    && |v| == NUM_LEVELS
    && (forall i :: 1 <= i < NUM_LEVELS ==> Apart(v[i]))
    && NewestByNumber(v[0])
    && (forall i, j :: 0 <= i < j < NUM_LEVELS ==> Newer(EntriesOf(v[i]), EntriesOf(v[j])))
    && Distinct(AllEntries(v))
  }

  /** All entries of levels lo, lo+1, ..., hi-1. */
  ghost function Between(v: Levels, lo: nat, hi: nat): set<Entry>
    requires hi <= |v|
  {
    set i, f, e | lo <= i < hi && f in v[i] && e in f.entries :: e
  }

  ghost function AllEntries(v: Levels): set<Entry> {
    Between(v, 0, |v|)
  }

  lemma InEntriesOf(fs: set<File>, f: File, e: Entry)
    requires f in fs && e in f.entries
    ensures e in EntriesOf(fs)
  {
  }

  lemma InAll(v: Levels, i: nat, f: File, e: Entry)
    requires i < |v| && f in v[i] && e in f.entries
    ensures e in AllEntries(v)
  {
  }
}
