// Table files (db/version_edit.h, FileMetaData) and their ranges.

module Files {
  import opened DbFormat

  // A table file: its number, its size, its key range as recorded in the manifest, its entries.
  datatype File = File(number: nat, size: nat, smallest: Key, largest: Key, run: seq<Entry>)
  {
    ghost predicate Valid() {
      run != [] && Sorted(run) && smallest == run[0].key && largest == run[|run| - 1].key
    }

    // The file's user-key range contains `user`.
    predicate Spans(user: UserKey) { smallest.user <= user <= largest.user }

    function Entries(): set<Entry> { Elements(run) }
  }

  // A user-key range overlap, as AfterFile and BeforeFile test it.
  predicate Overlaps(f: File, start: UserKey, limit: UserKey) {
    !(start > f.largest.user) && !(limit < f.smallest.user)
  }

  predicate Precedes(f: File, g: File) { Less(f.largest, g.smallest) }

  function Contents(files: set<File>): set<Entry> {
    set f, e | f in files && e in f.run :: e
  }

  // Entries stay within their file's range.
  lemma InRange(f: File, e: Entry)
    requires f.Valid() && e in f.run
    ensures f.Spans(e.key.user)
    ensures !Less(e.key, f.smallest) && !Less(f.largest, e.key)
  {
  }
}
