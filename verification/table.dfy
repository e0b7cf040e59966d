// Tables: data blocks, an index of shortened separators and an optional filter (table/table_builder.cc,
// table/table.cc).

module Tables {
  import opened Wrappers
  import opened Coding
  import opened Comparators
  import opened Blocks
  import opened Formats
  import opened Filters

  // ---- What a table holds ----

  // A written block: where it is, what it stores, and which of the table's entries these are.
  datatype Done = Done(offset: nat, layout: Layout, from: nat)
  {
    function Handle(): BlockHandle
      requires layout.Valid()
    {
      BlockHandle(offset, |layout.Stored()|)
    }

    function End(): nat { from + |layout.es| }
  }

  ghost predicate Sized(all: seq<Pair>) { forall p :: 0 <= p < |all| ==> |all[p].key| >= 8 }

  // A block is a non-empty stretch of the entries, and the file holds it.
  ghost predicate BlockStands(file: Bytes, all: seq<Pair>, b: Done) {
    && b.layout.Valid() && b.layout.es != [] && b.End() <= |all| && b.layout.es == all[b.from..b.End()]
    && Holds(file, b.offset, b.layout.Stored())
  }

  // The blocks follow each other from the first entry on.
  ghost predicate BlocksStand(file: Bytes, all: seq<Pair>, blocks: seq<Done>) {
    && (forall i :: 0 <= i < |blocks| ==> BlockStands(file, all, blocks[i]))
    && (blocks != [] ==> blocks[0].from == 0)
    && forall i :: 0 <= i < |blocks| - 1 ==> blocks[i + 1].from == blocks[i].End()
  }

  function Covered(blocks: seq<Done>): nat { if blocks == [] then 0 else blocks[|blocks| - 1].End() }

  // A separator is its block's last key, or belongs to a user key strictly between that and the next one.
  ghost predicate Separator(sep: Bytes, last: Bytes, next: Option<Bytes>) {
    && |sep| >= 8 && |last| >= 8 && (next.Some? ==> |next.value| >= 8)
    && (sep == last || (Below(UserOf(last), UserOf(sep)) && (next.Some? ==> Below(UserOf(sep), UserOf(next.value)))))
  }

  // The key at place e, perhaps one about to be added.
  ghost function NextKey(all: seq<Pair>, e: nat, coming: Option<Bytes>): Option<Bytes> {
    if e < |all| then Some(all[e].key) else coming
  }

  ghost predicate EntryStands(all: seq<Pair>, b: Done, entry: Pair, coming: Option<Bytes>) {
    && b.layout.Valid() && 0 < b.End() <= |all|
    && entry.value == EncodeHandle(b.Handle())
    && Separator(entry.key, all[b.End() - 1].key, NextKey(all, b.End(), coming))
  }

  // The index entries of the first |index| blocks.
  ghost predicate IndexStands(all: seq<Pair>, blocks: seq<Done>, index: seq<Pair>, coming: Option<Bytes>) {
    |index| <= |blocks| && forall i :: 0 <= i < |index| ==> EntryStands(all, blocks[i], index[i], coming)
  }

  // Every entry's user key is known to the filter of its block's offset.
  ghost predicate FilterStands(all: seq<Pair>, blocks: seq<Done>, added: set<(nat, Bytes)>, offset: nat) {
    && Sized(all)
    && (forall i, p :: 0 <= i < |blocks| && blocks[i].from <= p < blocks[i].End() && p < |all| ==>
          (blocks[i].offset / FILTER_BASE, UserOf(all[p].key)) in added)
    && forall p :: Covered(blocks) <= p < |all| ==> (offset / FILTER_BASE, UserOf(all[p].key)) in added
  }

  // The entries are those of the blocks and of the block being filled. The index lacks at most the last
  // block, whose handle is then pending, and only while nothing has come after it.
  ghost predicate Building(file: Bytes, all: seq<Pair>, blocks: seq<Done>, index: seq<Pair>, data: seq<Pair>,
                           pending: Option<BlockHandle>, coming: Option<Bytes>)
  {
    && Sized(all) && Ascending(all, InternalBelow)
    && BlocksStand(file, all, blocks) && Covered(blocks) <= |all| && data == all[Covered(blocks)..]
    && IndexStands(all, blocks, index, coming)
    && match pending
       case Some(h) => |index| + 1 == |blocks| && coming.None? && data == [] && Covers(blocks[|blocks| - 1], h)
       case None => |index| == |blocks| && (coming.None? && blocks != [] ==> data != [])
  }

  ghost predicate Covers(b: Done, h: BlockHandle) { b.layout.Valid() && h == b.Handle() }

  // ---- A finished table ----

  const PREFIX: Bytes := [102, 105, 108, 116, 101, 114, 46]

  // The filter policy's name, where there is one; its hash, the filters, and the user keys known to each.
  datatype Built = Built(all: seq<Pair>, blocks: seq<Done>, index: Layout, meta: Layout, footer: Footer,
                         filterHandle: BlockHandle, name: Option<Bytes>, filters: seq<Bytes>, added: set<(nat, Bytes)>,
                           hash: Hash)

  ghost predicate Stands(file: Bytes, t: Built) {
    && EntriesStand(file, t)
    && t.index.Valid() && Holds(file, t.footer.index.offset, t.index.Stored())
    && t.footer.index.size == |t.index.Stored()|
    && t.meta.Valid() && Holds(file, t.footer.metaindex.offset, t.meta.Stored())
    && t.footer.metaindex.size == |t.meta.Stored()|
    && |file| >= FOOTER && file[|file| - FOOTER..] == EncodeFooter(t.footer)
    && t.meta.es == (match t.name case None => [] case Some(n) => [Pair(PREFIX + n, EncodeHandle(t.filterHandle))])
    && (t.name.Some? ==> FiltersStand(file, t))
  }

  ghost predicate EntriesStand(file: Bytes, t: Built) {
    && Sized(t.all) && Ascending(t.all, InternalBelow)
    && BlocksStand(file, t.all, t.blocks) && Complete(t.all, t.blocks, t.index.es)
  }

  ghost predicate Complete(all: seq<Pair>, blocks: seq<Done>, index: seq<Pair>) {
    Covered(blocks) == |all| && |index| == |blocks| && IndexStands(all, blocks, index, None)
  }

  ghost predicate Known(filters: seq<Bytes>, added: set<(nat, Bytes)>, hash: Hash) {
    forall p :: p in added ==> p.0 < |filters| && MayMatch(hash, p.1, filters[p.0])
  }

  ghost predicate FiltersStand(file: Bytes, t: Built) {
    && Holds(file, t.filterHandle.offset, FilterBlock(t.filters)) && t.filterHandle.size == |FilterBlock(t.filters)|
    && Known(t.filters, t.added, t.hash)
    && exists offset :: FilterStands(t.all, t.blocks, t.added, offset)
  }

  // ---- The builder ----

  class TableBuilder {
    const blockSize: nat
    const interval: nat
    const name: Bytes
    const dataBlock: BlockBuilder
    const indexBlock: BlockBuilder
    const filterBlock: FilterBlockBuilder?
    var file: Bytes
    var lastKey: Bytes
    var pendingIndexEntry: bool
    var pendingHandle: BlockHandle
    var closed: bool
    ghost var all: seq<Pair>
    ghost var blocks: seq<Done>

    // Between calls nothing is coming; while an entry is added, the index may already account for it.
    ghost predicate Inv(coming: Option<Bytes>)
      reads this, dataBlock, indexBlock, filterBlock
    {
      && interval >= 1 && dataBlock != indexBlock && dataBlock.Valid() && indexBlock.Valid()
      && (coming.None? && all != [] ==> lastKey == all[|all| - 1].key)
      && Building(file, all, blocks, indexBlock.layout.es, dataBlock.layout.es, Pending(), coming)
      && (filterBlock != null ==> FilterInv())
    }

    ghost function Pending(): Option<BlockHandle>
      reads this
    {
      if pendingIndexEntry then Some(pendingHandle) else None
    }

    ghost predicate FilterInv()
      requires filterBlock != null
      reads this, filterBlock
    {
      && filterBlock.Valid() && |filterBlock.filters| == |file| / FILTER_BASE
      && FilterStands(all, blocks, filterBlock.added, |file|)
    }

    constructor (blockSize: nat, interval: nat, policy: BloomFilterPolicy?, name: Bytes)
      requires interval >= 1 && (policy != null ==> 1 <= policy.k <= 30)
      ensures Inv(None) && !closed && all == [] && fresh(dataBlock) && fresh(indexBlock)
      ensures if policy == null then filterBlock == null
        else filterBlock != null && fresh(filterBlock) && filterBlock.policy == policy
      ensures this.name == name
    {
      hide Building, FilterStands, BlockBuilder.Valid, FilterBlockBuilder.Valid;
      var filter: FilterBlockBuilder? := null;
      if policy != null {
        filter := new FilterBlockBuilder(policy);
        filter.StartBlock(0);
      }
      this.blockSize, this.interval, this.name := blockSize, interval, name;
      dataBlock := new BlockBuilder(interval);
      indexBlock := new BlockBuilder(1);
      filterBlock := filter;
      file, lastKey, pendingIndexEntry, pendingHandle, closed := [], [], false, BlockHandle(0, 0), false;
      all, blocks := [], [];
      NothingBuilt();
    }

    method Add(key: Bytes, value: Bytes)
      requires Inv(None) && !closed && |key| >= 8 && (all != [] ==> InternalBelow(all[|all| - 1].key, key))
      modifies this, dataBlock, indexBlock, filterBlock
      ensures Inv(None) && !closed && all == old(all) + [Pair(key, value)]
    {
      hide Building, FilterStands, InternalBelow, Below, BlockBuilder.Valid, FilterBlockBuilder.Valid;
      if pendingIndexEntry {
        AddSeparator(key);
      } else {
        NothingCame(file, all, blocks, indexBlock.layout.es, dataBlock.layout.es, key);
      }
      AddEntry(key, value);
      if dataBlock.CurrentSizeEstimate() >= blockSize {
        Flush();
      }
    }

    // The index entry waits for the key after its block, so that it can be short.
    method AddSeparator(key: Bytes)
      requires Inv(None) && pendingIndexEntry && |key| >= 8 && (all != [] ==> InternalBelow(all[|all| - 1].key, key))
      modifies this`lastKey, this`pendingIndexEntry, indexBlock
      ensures Inv(Some(key)) && !pendingIndexEntry
    {
      hide Building, FilterStands, InternalBelow, Below, EncodeHandle, Layout.Stored, BlockBuilder.Valid,
           FilterBlockBuilder.Valid;
      PendingHas(file, all, blocks, indexBlock.layout.es, dataBlock.layout.es, pendingHandle);
      lastKey := InternalShortestSeparator(lastKey, key);
      SeparatorCame(file, all, blocks, indexBlock.layout.es, dataBlock.layout.es, pendingHandle, lastKey, key);
      indexBlock.Add(lastKey, EncodeHandle(pendingHandle));
      pendingIndexEntry := false;
    }

    method AddEntry(key: Bytes, value: Bytes)
      requires Inv(Some(key)) && !pendingIndexEntry && |key| >= 8
      requires (all != [] ==> InternalBelow(all[|all| - 1].key, key))
      modifies this`lastKey, this`all, dataBlock, filterBlock
      ensures Inv(None) && all == old(all) + [Pair(key, value)]
    {
      hide Building, FilterStands, InternalBelow, Below, BlockBuilder.Valid, FilterBlockBuilder.Valid;
      ghost var e := Pair(key, value);
      if filterBlock != null {
        filterBlock.AddKey(UserOf(key));
        EntryKnown(file, all, e, blocks, indexBlock.layout.es, dataBlock.layout.es, old(filterBlock.added),
          filterBlock.added);
      }
      lastKey := key;
      EntryCame(file, all, e, blocks, indexBlock.layout.es, dataBlock.layout.es);
      dataBlock.Add(key, value);
      all := all + [e];
    }

    method WriteRawBlock(contents: Bytes) returns (handle: BlockHandle)
      modifies this`file
      ensures handle == BlockHandle(|old(file)|, |contents|) && file == old(file) + contents + Trailer(contents)
    {
      handle := BlockHandle(|file|, |contents|);
      file := file + contents;
      file := file + Trailer(contents);
    }

    method WriteBlock(block: BlockBuilder) returns (handle: BlockHandle)
      requires block.Valid()
      modifies this`file, block
      ensures var raw := old(block.layout.Stored());
              handle == BlockHandle(|old(file)|, |raw|) && file == old(file) + raw + Trailer(raw)
      ensures block.Valid() && block.layout.es == [] && old(block.layout.Valid())
    {
      hide Layout.Stored, Trailer;
      var raw := block.Finish();
      handle := WriteRawBlock(raw);
      block.Reset();
    }

    method Flush()
      requires Inv(None) && !closed
      modifies this, dataBlock, filterBlock
      ensures Inv(None) && !closed && all == old(all) && dataBlock.layout.es == []
    {
      hide Building, FilterStands, Layout.Stored, Trailer, BlockBuilder.Valid, FilterBlockBuilder.Valid;
      if dataBlock.Empty() {
        return;
      }
      ghost var done := Done(|file|, dataBlock.layout, Covered(blocks));
      BlockCame(file, all, blocks, done, indexBlock.layout.es, Pending());
      if filterBlock != null {
        BlockKnown(file, all, blocks, done, indexBlock.layout.es, filterBlock.added,
          |file| + |done.layout.Stored()| + TRAILER);
      }
      pendingHandle := WriteBlock(dataBlock);
      pendingIndexEntry := true;
      blocks := blocks + [done];
      if filterBlock != null {
        filterBlock.StartBlock(|file|);
      }
    }

    // With no key to come, the last index entry is a short key at or after the block.
    method AddSuccessor(ghost start: Bytes)
      requires indexBlock.Valid() && (all != [] ==> lastKey == all[|all| - 1].key) && pendingIndexEntry
      requires Building(start, all, blocks, indexBlock.layout.es, [], Some(pendingHandle), None)
      modifies this`lastKey, this`pendingIndexEntry, indexBlock
      ensures indexBlock.Valid() && Complete(all, blocks, indexBlock.layout.es)
    {
      hide Building, Complete, InternalBelow, Below, EncodeHandle, Layout.Stored;
      PendingHas(start, all, blocks, indexBlock.layout.es, [], pendingHandle);
      lastKey := InternalShortSuccessor(lastKey);
      SuccessorCame(start, all, blocks, indexBlock.layout.es, pendingHandle, lastKey);
      indexBlock.Add(lastKey, EncodeHandle(pendingHandle));
      pendingIndexEntry := false;
    }

    // The metaindex names the filter and where it is.
    method MetaIndex(filterHandle: BlockHandle) returns (meta: BlockBuilder)
      requires interval >= 1
      ensures fresh(meta) && meta.Valid()
      ensures meta.layout.es == if filterBlock == null then [] else [Pair(PREFIX + name, EncodeHandle(filterHandle))]
    {
      meta := new BlockBuilder(interval);
      if filterBlock != null {
        meta.Add(PREFIX + name, EncodeHandle(filterHandle));
      }
    }

    method WriteFilterBlock() returns (handle: BlockHandle, ghost filters: seq<Bytes>, ghost added: set<(nat, Bytes)>)
      requires filterBlock != null ==> FilterInv()
      modifies this`file, filterBlock
      ensures filterBlock == null ==> file == old(file)
      ensures filterBlock != null ==>
        && file == old(file) + FilterBlock(filters) + Trailer(FilterBlock(filters))
        && handle == BlockHandle(|old(file)|, |FilterBlock(filters)|)
        && Known(filters, added, filterBlock.policy.hash) && FilterStands(all, blocks, added, |old(file)|)
    {
      hide FilterStands, FilterBlock, MayMatch, Trailer, FilterBlockBuilder.Valid;
      handle, filters, added := BlockHandle(0, 0), [], {};
      if filterBlock != null {
        var contents := filterBlock.Finish();
        filters, added := filterBlock.filters, filterBlock.added;
        handle := WriteRawBlock(contents);
      }
    }

    // The filter block, the metaindex block, the index block and the footer.
    method Finish() returns (ghost t: Built)
      requires Inv(None) && !closed
      modifies this, dataBlock, indexBlock, filterBlock
      ensures closed && t.all == old(all) && Stands(file, t)
      ensures t.name == if filterBlock == null then None else Some(name)
      ensures filterBlock != null ==> t.hash == filterBlock.policy.hash
    {
      hide Building, Complete, Known, FilterStands, FilterBlock, Layout.Stored, Trailer, BlockBuilder.Valid,
           FilterBlockBuilder.Valid, Stands,
           EncodeHandle, EncodeFooter, MayMatch, InternalBelow, Below, EntriesStand;
      Flush();
      closed := true;
      ghost var start := file;
      var filterHandle;
      ghost var filters, added;
      filterHandle, filters, added := WriteFilterBlock();
      ghost var filtered := file;
      var meta := MetaIndex(filterHandle);
      ghost var metaLayout := meta.layout;
      var metaHandle := WriteBlock(meta);
      ghost var described := file;
      if pendingIndexEntry {
        AddSuccessor(start);
      } else {
        NothingPending(start, all, blocks, indexBlock.layout.es);
      }
      ghost var indexLayout := indexBlock.layout;
      var indexHandle := WriteBlock(indexBlock);
      var footer := Footer(metaHandle, indexHandle);
      file := file + EncodeFooter(footer);
      ghost var hash: Hash := if filterBlock == null then (_) => 0 else filterBlock.policy.hash;
      t := Built(all, blocks, indexLayout, metaLayout, footer, filterHandle, if filterBlock == null then None
        else Some(name), filters, added, hash);
      FinishStands(start, filtered, described, file, t);
    }
  }

  lemma NothingBuilt()
    ensures Building([], [], [], [], [], None, None) && FilterStands([], [], {}, 0)
  {
  }

  lemma NothingCame(file: Bytes, all: seq<Pair>, blocks: seq<Done>, index: seq<Pair>, data: seq<Pair>, key: Bytes)
    requires Building(file, all, blocks, index, data, None, None)
    ensures Building(file, all, blocks, index, data, None, Some(key))
  {
    hide Separator, EncodeHandle, Ascending, Sized, Layout.Stored;
    EndsBefore(file, all, blocks);
    forall i | 0 <= i < |index| ensures EntryStands(all, blocks[i], index[i], Some(key)) {
      assert EntryStands(all, blocks[i], index[i], None);
    }
  }

  lemma PendingHas(file: Bytes, all: seq<Pair>, blocks: seq<Done>, index: seq<Pair>, data: seq<Pair>, h: BlockHandle)
    requires Building(file, all, blocks, index, data, Some(h), None)
    ensures all != [] && |all[|all| - 1].key| >= 8
  {
    hide Ascending, Layout.Stored, Holds, IndexStands;
    EndsBefore(file, all, blocks);
  }

  // Only the last block may reach the last entry.
  lemma EndsBefore(file: Bytes, all: seq<Pair>, blocks: seq<Done>)
    requires BlocksStand(file, all, blocks)
    ensures forall i :: 0 <= i < |blocks| ==> 0 < blocks[i].End() <= |all| && blocks[i].layout.Valid()
    ensures forall i :: 0 <= i < |blocks| - 1 ==> blocks[i].End() < |all|
  {
    hide Holds;
    forall i | 0 <= i < |blocks| ensures 0 < blocks[i].End() <= |all| && blocks[i].layout.Valid() {
      assert BlockStands(file, all, blocks[i]);
    }
    forall i | 0 <= i < |blocks| - 1 ensures blocks[i].End() < |all| {
      assert BlockStands(file, all, blocks[i + 1]);
    }
  }

  lemma SeparatorCame(file: Bytes, all: seq<Pair>, blocks: seq<Done>, index: seq<Pair>, data: seq<Pair>, h: BlockHandle,
                      sep: Bytes, key: Bytes)
    requires Building(file, all, blocks, index, data, Some(h), None)
    requires all != [] && Separator(sep, all[|all| - 1].key, Some(key))
    ensures Building(file, all, blocks, index + [Pair(sep, EncodeHandle(h))], data, None, Some(key))
  {
    hide Separator, EncodeHandle, Ascending, Sized, Layout.Stored;
    EndsBefore(file, all, blocks);
    var now := index + [Pair(sep, EncodeHandle(h))];
    forall i | 0 <= i < |now| ensures EntryStands(all, blocks[i], now[i], Some(key)) {
      if i < |index| { assert EntryStands(all, blocks[i], index[i], None); }
    }
  }

  // One more entry leaves the blocks and the separators before it standing.
  lemma EntryCame(file: Bytes, all: seq<Pair>, e: Pair, blocks: seq<Done>, index: seq<Pair>, data: seq<Pair>)
    requires Building(file, all, blocks, index, data, None, Some(e.key))
    requires |e.key| >= 8 && (all != [] ==> InternalBelow(all[|all| - 1].key, e.key))
    ensures Building(file, all + [e], blocks, index, data + [e], None, None)
  {
    hide Separator, EncodeHandle, Layout.Stored, Holds, InternalBelow;
    var now := all + [e];
    forall i | 0 <= i < |blocks| ensures BlockStands(file, now, blocks[i]) {
      assert BlockStands(file, all, blocks[i]);
      assert now[blocks[i].from..blocks[i].End()] == all[blocks[i].from..blocks[i].End()];
    }
    forall i | 0 <= i < |index| ensures EntryStands(now, blocks[i], index[i], None) {
      assert EntryStands(all, blocks[i], index[i], Some(e.key));
    }
    StillAscending(all, e);
  }

  lemma StillAscending(all: seq<Pair>, e: Pair)
    requires Ascending(all, InternalBelow) && (all != [] ==> InternalBelow(all[|all| - 1].key, e.key))
    ensures Ascending(all + [e], InternalBelow)
  {
    hide InternalBelow;
    var now := all + [e];
    forall i, j | 0 <= i < j < |now| ensures InternalBelow(now[i].key, now[j].key) {
      if j == |all| && i < |all| - 1 { InternalTransitive(now[i].key, now[j - 1].key, e.key); }
    }
  }

  lemma EntryKnown(file: Bytes, all: seq<Pair>, e: Pair, blocks: seq<Done>, index: seq<Pair>, data: seq<Pair>,
                   was: set<(nat, Bytes)>, now: set<(nat, Bytes)>)
    requires Building(file, all, blocks, index, data, None, Some(e.key)) && FilterStands(all, blocks, was, |file|)
    requires |e.key| >= 8 && now == was + {(|file| / FILTER_BASE, UserOf(e.key))}
    ensures FilterStands(all + [e], blocks, now, |file|)
  {
    hide IndexStands, Ascending, Layout.Stored, Holds;
    EndsBefore(file, all, blocks);
  }

  // One more block.
  lemma BlockCame(file: Bytes, all: seq<Pair>, blocks: seq<Done>, b: Done, index: seq<Pair>,
      pending: Option<BlockHandle>)
    requires Building(file, all, blocks, index, b.layout.es, pending, None)
    requires b.layout.Valid() && b.layout.es != [] && b.from == Covered(blocks) && b.offset == |file|
    ensures var raw := b.layout.Stored();
            Building(file + raw + Trailer(raw), all, blocks + [b], index, [], Some(b.Handle()), None)
  {
    hide Separator, EncodeHandle, Ascending, Sized, Layout.Stored, Trailer, Holds, EntryStands;
    var raw, now := b.layout.Stored(), blocks + [b];
    HoldsNew(file, raw);
    assert all[b.from..] == all[b.from..b.End()];
    BlocksOn(file, file + raw + Trailer(raw), all, blocks);
    forall i | 0 <= i < |now| ensures BlockStands(file + raw + Trailer(raw), all, now[i]) {
      if i < |blocks| { assert now[i] == blocks[i]; }
    }
  }

  lemma BlocksOn(file: Bytes, now: Bytes, all: seq<Pair>, blocks: seq<Done>)
    requires BlocksStand(file, all, blocks) && file <= now
    ensures BlocksStand(now, all, blocks)
  {
    hide Holds, Layout.Stored;
    forall i | 0 <= i < |blocks| ensures BlockStands(now, all, blocks[i]) {
      assert BlockStands(file, all, blocks[i]);
      HoldsOn(file, now, blocks[i].offset, blocks[i].layout.Stored());
    }
  }

  lemma BlockKnown(file: Bytes, all: seq<Pair>, blocks: seq<Done>, b: Done, index: seq<Pair>, added: set<(nat, Bytes)>,
      offset: nat)
    requires exists pending :: Building(file, all, blocks, index, b.layout.es, pending, None)
    requires FilterStands(all, blocks, added, |file|) && b.from == Covered(blocks) && b.offset == |file|
    ensures FilterStands(all, blocks + [b], added, offset)
  {
    hide BlocksStand, IndexStands, Ascending, Layout.Stored;
  }

  lemma SuccessorCame(file: Bytes, all: seq<Pair>, blocks: seq<Done>, index: seq<Pair>, h: BlockHandle, sep: Bytes)
    requires Building(file, all, blocks, index, [], Some(h), None)
    requires all != [] && Separator(sep, all[|all| - 1].key, None)
    ensures Complete(all, blocks, index + [Pair(sep, EncodeHandle(h))])
  {
    hide Separator, EncodeHandle, Ascending, Sized, Layout.Stored;
    EndsBefore(file, all, blocks);
    var now := index + [Pair(sep, EncodeHandle(h))];
    forall i | 0 <= i < |now| ensures EntryStands(all, blocks[i], now[i], None) {
      if i < |index| { assert EntryStands(all, blocks[i], index[i], None); }
    }
  }

  lemma NothingPending(file: Bytes, all: seq<Pair>, blocks: seq<Done>, index: seq<Pair>)
    requires Building(file, all, blocks, index, [], None, None)
    ensures Complete(all, blocks, index)
  {
    hide IndexStands, Ascending, Sized, BlocksStand;
  }

  lemma FinishStands(start: Bytes, filtered: Bytes, described: Bytes, file: Bytes, t: Built)
    requires exists index, pending :: Building(start, t.all, t.blocks, index, [], pending, None)
    requires Complete(t.all, t.blocks, t.index.es) && t.index.Valid() && t.meta.Valid()
    requires if t.name.None? then filtered == start else
      && filtered == start + FilterBlock(t.filters) + Trailer(FilterBlock(t.filters))
      && t.filterHandle == BlockHandle(|start|, |FilterBlock(t.filters)|)
      && Known(t.filters, t.added, t.hash) && FilterStands(t.all, t.blocks, t.added, |start|)
    requires t.meta.es ==
      (match t.name case None => [] case Some(n) => [Pair(PREFIX + n, EncodeHandle(t.filterHandle))])
    requires described == filtered + t.meta.Stored() + Trailer(t.meta.Stored())
    requires t.footer.metaindex == BlockHandle(|filtered|, |t.meta.Stored()|)
    requires file == described + t.index.Stored() + Trailer(t.index.Stored()) + EncodeFooter(t.footer)
    requires t.footer.index == BlockHandle(|described|, |t.index.Stored()|)
    ensures Stands(file, t)
  {
    hide Complete, Known, FilterStands, FilterBlock, Layout.Stored, Trailer, EncodeHandle, EncodeFooter, Holds,
         IndexStands, Ascending, BlocksStand, Sized;
    BlocksOn(start, file, t.all, t.blocks);
    if t.name.Some? {
      HoldsNew(start, FilterBlock(t.filters));
      HoldsOn(filtered, file, |start|, FilterBlock(t.filters));
    }
    HoldsNew(filtered, t.meta.Stored());
    HoldsOn(described, file, |filtered|, t.meta.Stored());
    HoldsNew(described, t.index.Stored());
    HoldsOn(described + t.index.Stored() + Trailer(t.index.Stored()), file, |described|, t.index.Stored());
  }

  // ---- Reading ----

  // Sizes and offsets fit the words that hold them.
  ghost predicate Small(file: Bytes, t: Built)
    requires Stands(file, t)
  {
    && |file| < U64 && t.index.Fits() && t.meta.Fits() && |FilterBlock(t.filters)| < U32
    && forall i :: 0 <= i < |t.blocks| ==> Fitting(t.blocks[i].layout)
  }

  ghost predicate Fitting(l: Layout) { l.Valid() && l.Fits() }

  lemma HandleSmall(file: Bytes, offset: nat, contents: Bytes, h: BlockHandle)
    requires Holds(file, offset, contents) && |file| < U64 && h == BlockHandle(offset, |contents|)
    ensures h.offset < U64 && h.size < U64
  {
  }

  // The filter of a table opened with the policy it was built with.
  ghost predicate FilterOf(filter: FilterBlockReader, t: Built) {
    && filter.Valid() && filter.data == FilterBlock(t.filters) && |FilterBlock(t.filters)| < U32
    && filter.policy.hash == t.hash
    && filter.arrayOffset == |Concat(t.filters)| && filter.num == |t.filters| && filter.baseLg == 11
  }

  lemma BelowOrder()
    ensures Transitive(Below)
  {
    hide Below;
    forall a: Bytes, b: Bytes, c: Bytes | Below(a, b) && Below(b, c) ensures Below(a, c) { BelowTransitive(a, b, c); }
    forall a: Bytes ensures !Below(a, a) { BelowIrreflexive(a); }
  }

  lemma InternalOrder()
    ensures Transitive(InternalBelow)
  {
    hide InternalBelow;
    forall a: Bytes, b: Bytes, c: Bytes | InternalBelow(a, b) && InternalBelow(b, c) ensures InternalBelow(a, c) {
      InternalTransitive(a, b, c);
    }
    forall a: Bytes ensures !InternalBelow(a, a) { InternalTransitive(a, a, a); }
  }

  method ReadFilter(file: Bytes, value: Bytes, policy: BloomFilterPolicy, paranoid: bool,
      ghost t: Built) returns (filter: FilterBlockReader?)
    requires Stands(file, t) && Small(file, t) && t.name.Some? && value == EncodeHandle(t.filterHandle)
    requires policy.hash == t.hash
    ensures filter != null && FilterOf(filter, t)
  {
    hide EntriesStand, Layout.Stored, EncodeHandle, EncodeFooter, DecodeHandle, FilterBlock, Concat, DecodeFixed,
         Holds, Known, FilterStands, Intact;
    HandleSmall(file, t.filterHandle.offset, FilterBlock(t.filters), t.filterHandle);
    HandleRoundTrip(t.filterHandle, []);
    assert value + [] == value;
    var h := DecodeHandle(value);
    if h.None? {
      return null;
    }
    HeldRead(file, t.filterHandle, FilterBlock(t.filters));
    var contents := ReadBlock(file, h.value.0, paranoid);
    if contents.None? {
      return null;
    }
    FilterBlockEnd(t.filters);
    filter := new FilterBlockReader(policy, contents.value);
  }

  lemma HeldRead(file: Bytes, h: BlockHandle, contents: Bytes)
    requires Holds(file, h.offset, contents) && h.size == |contents|
    ensures h.offset + h.size + TRAILER <= |file| && file[h.offset + h.size] == 0 && Intact(file, h)
    ensures file[h.offset..h.offset + h.size] == contents
  {
    hide Trailer, Intact;
    HeldIsRead(file, h.offset, contents);
  }

  // The metaindex names a filter: it is used if its policy is the caller's.
  method ReadMeta(file: Bytes, footer: Footer, policy: BloomFilterPolicy?, name: Bytes, paranoid: bool, ghost t: Built)
    returns (filter: FilterBlockReader?)
    requires Stands(file, t) && Small(file, t) && footer == t.footer
    requires policy != null && t.name == Some(name) ==> policy.hash == t.hash
    ensures filter != null <==> policy != null && t.name == Some(name)
    ensures filter != null ==> FilterOf(filter, t)
  {
    hide EntriesStand, FiltersStand, Layout.Stored, EncodeHandle, EncodeFooter, Holds, Intact, FilterOf, Below;
    if policy == null {
      return null;
    }
    HeldRead(file, footer.metaindex, t.meta.Stored());
    var contents := ReadBlock(file, footer.metaindex, paranoid);
    if contents.None? {
      return null;
    }
    BelowOrder();
    var iter := new Iter(contents.value, Below, t.meta);
    var key := PREFIX + name;
    iter.Seek(key);
    filter := null;
    NameFound(t, key, name, iter.pos);
    if iter.Valid() && iter.Current().key == key {
      filter := ReadFilter(file, iter.Current().value, policy, paranoid, t);
    }
  }

  // The seek stands at the entry of the name exactly if there is one.
  lemma NameFound(t: Built, key: Bytes, name: Bytes, pos: nat)
    requires t.meta.es ==
      (match t.name case None => [] case Some(n) => [Pair(PREFIX + n, EncodeHandle(t.filterHandle))])
    requires key == PREFIX + name && pos <= |t.meta.es| && (forall i :: 0 <= i < pos ==> Below(t.meta.es[i].key, key))
    ensures pos < |t.meta.es| && t.meta.es[pos].key == key <==> t.name == Some(name)
  {
    hide Below, EncodeHandle;
    if t.name.Some? {
      var n := t.name.value;
      BelowIrreflexive(key);
      assert t.meta.es[0].key == PREFIX + n && (PREFIX + n)[7..] == n && key[7..] == name;
      if pos > 0 { assert Below(t.meta.es[0].key, key); }
    }
  }

  // ---- Lookups ----

  // The first entry at or after a key.
  ghost predicate IsFirst(all: seq<Pair>, k: Bytes, p: nat) {
    && p < |all| && !InternalBelow(all[p].key, k)
    && forall q :: 0 <= q < p ==> InternalBelow(all[q].key, k)
  }

  // The block to look in: all entries before it are below the key, its separator is not.
  ghost predicate Located(file: Bytes, t: Built, k: Bytes, b: Done, sep: Bytes) {
    && |k| >= 8 && Sized(t.all) && Ascending(t.all, InternalBelow) && BlockStands(file, t.all, b)
    && (forall p :: 0 <= p < b.from && p < |t.all| ==> InternalBelow(t.all[p].key, k))
    && Separator(sep, t.all[b.End() - 1].key, NextKey(t.all, b.End(), None)) && !InternalBelow(sep, k)
  }

  lemma FooterFits(file: Bytes, t: Built)
    requires Stands(file, t) && Small(file, t)
    ensures DecodeFooter(file[|file| - FOOTER..]) == Some(t.footer)
  {
    hide EntriesStand, FiltersStand, Layout.Stored, EncodeHandle, EncodeFooter, DecodeFooter;
    HandleSmall(file, t.footer.index.offset, t.index.Stored(), t.footer.index);
    HandleSmall(file, t.footer.metaindex.offset, t.meta.Stored(), t.footer.metaindex);
    FooterRoundTrip(t.footer);
  }

  // Later blocks end later.
  lemma {:induction false} EndsGrow(file: Bytes, all: seq<Pair>, blocks: seq<Done>, i: nat, j: nat)
    requires BlocksStand(file, all, blocks) && i < j < |blocks|
    ensures blocks[i].End() <= blocks[j].from < blocks[j].End() <= |all|
    decreases j
  {
    hide Holds;
    assert BlockStands(file, all, blocks[j]) && BlockStands(file, all, blocks[j - 1]);
    if i < j - 1 { EndsGrow(file, all, blocks, i, j - 1); }
  }

  // A separator is not below its block's last key.
  lemma LastNotAbove(sep: Bytes, last: Bytes, next: Option<Bytes>, k: Bytes)
    requires Separator(sep, last, next)
    ensures last == sep || InternalBelow(last, sep)
    ensures InternalBelow(sep, k) ==> InternalBelow(last, k)
  {
    hide Below;
    InternalTransitive(last, sep, k);
  }

  // A separator is below whatever the next block ends with.
  lemma BelowLater(sep: Bytes, last: Bytes, next: Bytes, later: Bytes)
    requires Separator(sep, last, Some(next)) && InternalBelow(last, later)
    requires (next == later || InternalBelow(next, later))
    ensures InternalBelow(sep, later)
  {
    hide Below, DecodeFixed;
    if sep != last && next != later && Below(UserOf(next), UserOf(later)) {
      BelowTransitive(UserOf(sep), UserOf(next), UserOf(later));
    }
  }

  lemma SeparatorsAscend(file: Bytes, t: Built, i: nat, j: nat)
    requires EntriesStand(file, t) && i < j < |t.index.es|
    ensures InternalBelow(t.index.es[i].key, t.index.es[j].key)
  {
    hide BlocksStand, Separator, InternalBelow, EncodeHandle, Layout.Stored, Sized;
    var all, index, b, c := t.all, t.index.es, t.blocks[i], t.blocks[j];
    EndsGrow(file, all, t.blocks, i, j);
    assert EntryStands(all, b, index[i], None) && EntryStands(all, c, index[j], None);
    var last, next, later := all[b.End() - 1].key, all[b.End()].key, all[c.End() - 1].key;
    BelowLater(index[i].key, last, next, later);
    LastNotAbove(index[j].key, later, NextKey(all, c.End(), None), later);
    InternalTransitive(index[i].key, later, index[j].key);
  }

  lemma IndexAscending(file: Bytes, t: Built)
    requires EntriesStand(file, t)
    ensures Ascending(t.index.es, InternalBelow)
  {
    hide EntriesStand, InternalBelow;
    forall i, j | 0 <= i < j < |t.index.es| ensures InternalBelow(t.index.es[i].key, t.index.es[j].key) {
      SeparatorsAscend(file, t, i, j);
    }
  }

  // Entries of a block whose separator is below the key, and all before them, are below the key.
  lemma EntriesBelow(file: Bytes, t: Built, k: Bytes, i: nat)
    requires EntriesStand(file, t) && i < |t.index.es| && InternalBelow(t.index.es[i].key, k)
    ensures forall p :: 0 <= p < t.blocks[i].End() && p < |t.all| ==> InternalBelow(t.all[p].key, k)
  {
    hide BlocksStand, Separator, InternalBelow, EncodeHandle, Layout.Stored, Sized;
    var all, b := t.all, t.blocks[i];
    assert EntryStands(all, b, t.index.es[i], None);
    var last := all[b.End() - 1].key;
    LastNotAbove(t.index.es[i].key, last, NextKey(all, b.End(), None), k);
    forall p | 0 <= p < b.End() && p < |all| ensures InternalBelow(all[p].key, k) {
      InternalTransitive(all[p].key, last, k);
    }
  }

  lemma SoughtBlock(file: Bytes, t: Built, k: Bytes, i: nat)
    requires EntriesStand(file, t) && |k| >= 8 && i <= |t.index.es|
    requires forall j :: 0 <= j < i ==> InternalBelow(t.index.es[j].key, k)
    requires i < |t.index.es| ==> !InternalBelow(t.index.es[i].key, k)
    ensures |t.index.es| == |t.blocks|
    ensures i == |t.blocks| ==> forall p: nat :: !IsFirst(t.all, k, p)
    ensures i < |t.blocks| ==>
              && t.blocks[i].layout.Valid() && Located(file, t, k, t.blocks[i], t.index.es[i].key)
              && t.index.es[i].value == EncodeHandle(t.blocks[i].Handle())
  {
    hide Separator, InternalBelow, EncodeHandle, Layout.Stored, Sized, Ascending, Holds;
    if i > 0 { EntriesBelow(file, t, k, i - 1); }
    if i < |t.blocks| {
      assert BlockStands(file, t.all, t.blocks[i]) && EntryStands(t.all, t.blocks[i], t.index.es[i], None);
    }
  }

  // Beyond the located block, the first entry at or after the key is another user key's.
  lemma BeyondBlock(file: Bytes, t: Built, k: Bytes, b: Done, sep: Bytes, p: nat)
    requires Located(file, t, k, b, sep) && IsFirst(t.all, k, p) && p >= b.End()
    ensures UserOf(t.all[p].key) != UserOf(k)
  {
    hide Below, Layout.Stored, DecodeFixed, Holds;
    var all, e := t.all, b.End();
    assert InternalBelow(all[e - 1].key, k);
    InternalTotal(sep, k);
    var next := all[e].key;
    assert sep != all[e - 1].key && Below(UserOf(sep), UserOf(next));
    BelowTotal(UserOf(k), UserOf(next));
    if UserOf(k) != UserOf(sep) { BelowTransitive(UserOf(k), UserOf(sep), UserOf(next)); }
    assert p > e ==> InternalBelow(next, k);
  }

  lemma FirstIsOne(all: seq<Pair>, k: Bytes, p: nat, q: nat)
    requires IsFirst(all, k, p) && IsFirst(all, k, q)
    ensures p == q
  {
    hide InternalBelow;
  }

  lemma FoundInBlock(file: Bytes, t: Built, k: Bytes, b: Done, sep: Bytes, q: nat)
    requires Located(file, t, k, b, sep) && q <= |b.layout.es|
    requires forall i :: 0 <= i < q ==> InternalBelow(b.layout.es[i].key, k)
    requires q < |b.layout.es| ==> !InternalBelow(b.layout.es[q].key, k)
    ensures q < |b.layout.es| ==> IsFirst(t.all, k, b.from + q) && b.layout.es[q] == t.all[b.from + q]
    ensures forall p: nat :: IsFirst(t.all, k, p) ==>
      if q < |b.layout.es| then p == b.from + q else UserOf(t.all[p].key) != UserOf(k)
  {
    hide Below, InternalBelow, Layout.Stored, Holds, Separator, Ascending, Layout.Valid;
    var all, from := t.all, b.from;
    assert forall i :: 0 <= i < |b.layout.es| ==> b.layout.es[i] == all[from + i];
    forall p: nat | p < from + q ensures InternalBelow(all[p].key, k) {
      if p >= from { assert b.layout.es[p - from] == all[p]; }
    }
    if q == |b.layout.es| {
      forall p: nat | IsFirst(all, k, p) ensures UserOf(all[p].key) != UserOf(k) { BeyondBlock(file, t, k, b, sep, p); }
    } else {
      forall p: nat | IsFirst(all, k, p) ensures p == from + q { FirstIsOne(all, k, p, from + q); }
    }
  }

  lemma StretchAscending(all: seq<Pair>, from: nat, end: nat)
    requires Ascending(all, InternalBelow) && from <= end <= |all|
    ensures Ascending(all[from..end], InternalBelow)
  {
    hide InternalBelow;
  }

  // A block of the table: its handle fits, and its filter knows its entries.
  lemma BlockKnownTo(file: Bytes, t: Built, filter: FilterBlockReader, i: nat, k: Bytes, sep: Bytes, p: nat)
    requires FiltersStand(file, t) && FilterOf(filter, t) && i < |t.blocks| && Located(file, t, k, t.blocks[i], sep)
    requires IsFirst(t.all, k, p) && UserOf(t.all[p].key) == UserOf(k)
    ensures filter.Answer(t.blocks[i].offset, UserOf(k))
  {
    hide Layout.Stored, FilterBlock, Concat, MayMatch, Holds, InternalBelow, Separator, Ascending,
         FilterBlockReader.Answer;
    var b := t.blocks[i];
    if p >= b.End() { BeyondBlock(file, t, k, b, sep, p); }
    var offset :| FilterStands(t.all, t.blocks, t.added, offset);
    assert (b.offset / FILTER_BASE, UserOf(t.all[p].key)) in t.added;
    ReadsFilters(filter, t.filters, b.offset, UserOf(k));
  }

  lemma RuledOut(file: Bytes, t: Built, filter: FilterBlockReader, i: nat, k: Bytes, sep: Bytes)
    requires FiltersStand(file, t) && FilterOf(filter, t) && i < |t.blocks| && Located(file, t, k, t.blocks[i], sep)
    requires !filter.Answer(t.blocks[i].offset, UserOf(k))
    ensures forall p: nat :: IsFirst(t.all, k, p) ==> UserOf(t.all[p].key) != UserOf(k)
  {
    hide FiltersStand, InternalBelow, FilterBlockReader.Answer, Ascending, Separator, BlockStands, FilterOf;
    forall p: nat | IsFirst(t.all, k, p) ensures UserOf(t.all[p].key) != UserOf(k) {
      if UserOf(t.all[p].key) == UserOf(k) { BlockKnownTo(file, t, filter, i, k, sep, p); }
    }
  }

  class Table {
    const file: Bytes
    const indexBlock: Bytes
    const filter: FilterBlockReader?
    ghost const t: Built

    ghost predicate Valid() {
      && Stands(file, t) && Small(file, t) && indexBlock == t.index.Stored()
      && (filter != null ==> t.name.Some? && FilterOf(filter, t))
    }

    constructor (file: Bytes, indexBlock: Bytes, filter: FilterBlockReader?, ghost t: Built)
      requires Stands(file, t) && Small(file, t) && indexBlock == t.index.Stored()
      requires filter != null ==> t.name.Some? && FilterOf(filter, t)
      ensures Valid() && this.t == t && this.filter == filter
    {
      hide Stands, Small, FilterOf;
      this.file, this.indexBlock, this.filter, this.t := file, indexBlock, filter, t;
    }

    static method Open(file: Bytes, policy: BloomFilterPolicy?, name: Bytes, paranoid: bool,
        ghost t: Built) returns (table: Table?)
      requires Stands(file, t) && Small(file, t)
      requires policy != null && t.name == Some(name) ==> policy.hash == t.hash
      ensures table != null && table.Valid() && table.t == t
      ensures table.filter != null <==> policy != null && t.name == Some(name)
    {
      hide EntriesStand, FiltersStand, Layout.Stored, EncodeHandle, EncodeFooter, DecodeFooter, Holds, Intact, FilterOf;
      if |file| < FOOTER {
        return null;
      }
      FooterFits(file, t);
      var footer := DecodeFooter(file[|file| - FOOTER..]);
      if footer.None? {
        return null;
      }
      HeldRead(file, t.footer.index, t.index.Stored());
      var contents := ReadBlock(file, footer.value.index, paranoid);
      if contents.None? {
        return null;
      }
      var filter := ReadMeta(file, footer.value, policy, name, paranoid, t);
      table := new Table(file, contents.value, filter, t);
    }

    lemma IndexFits()
      requires Valid()
      ensures EntriesStand(file, t) && t.index.Valid() && t.index.Fits() && Ascending(t.index.es, InternalBelow)
      ensures filter != null ==> filter.Valid() && FiltersStand(file, t) && FilterOf(filter, t)
    {
      hide EntriesStand, FiltersStand, Layout.Stored, Ascending, EncodeHandle, EncodeFooter, Holds;
      IndexAscending(file, t);
    }

    lemma BlockFits(i: nat, k: Bytes, sep: Bytes)
      requires Valid() && i < |t.blocks| && Located(file, t, k, t.blocks[i], sep)
      ensures var b := t.blocks[i];
              && Fitting(b.layout) && BlockStands(file, t.all, b)
              && DecodeHandle(EncodeHandle(b.Handle())) == Some((b.Handle(), []))
              && Ascending(b.layout.es, InternalBelow)
    {
      hide EntriesStand, FiltersStand, FilterOf, Layout.Stored, EncodeHandle, DecodeHandle, EncodeFooter, Holds,
           InternalBelow, Separator;
      var b := t.blocks[i];
      HandleSmall(file, b.offset, b.layout.Stored(), b.Handle());
      HandleRoundTrip(b.Handle(), []);
      assert EncodeHandle(b.Handle()) + [] == EncodeHandle(b.Handle());
      StretchAscending(t.all, b.from, b.End());
    }

    // The index entry to follow.
    method SeekIndex(k: Bytes) returns (value: Option<Bytes>, ghost i: nat)
      requires Valid() && |k| >= 8
      ensures value.None? ==> forall p: nat :: !IsFirst(t.all, k, p)
      ensures value.Some? ==> LeadsTo(k, value.value, i)
    {
      hide EntriesStand, FiltersStand, Stands, Small, FilterOf, Located, BlockStands, IsFirst, Layout.Stored,
           EncodeHandle, Holds,
           InternalBelow, Ascending, Layout.Fits, FilterBlockReader.Answer, Layout.Valid, Transitive;
      IndexFits();
      InternalOrder();
      var iiter := new Iter(indexBlock, InternalBelow, t.index);
      iiter.Seek(k);
      iiter.Standing();
      SoughtBlock(file, t, k, iiter.pos);
      value, i := None, iiter.pos;
      if iiter.Valid() {
        value := Some(iiter.Current().value);
      }
    }

    // A handle of the block to look in.
    ghost predicate LeadsTo(k: Bytes, value: Bytes, i: nat) {
      && i < |t.blocks| && i < |t.index.es| && Located(file, t, k, t.blocks[i], t.index.es[i].key)
      && t.blocks[i].layout.Valid() && value == EncodeHandle(t.blocks[i].Handle())
    }

    // The entry handed to the caller, if any.
    method InternalGet(k: Bytes, verifyChecksums: bool) returns (r: Option<Pair>)
      requires Valid() && |k| >= 8
      ensures r.Some? ==> exists p: nat :: IsFirst(t.all, k, p) && r.value == t.all[p]
      ensures forall p: nat :: IsFirst(t.all, k, p) && UserOf(t.all[p].key) == UserOf(k) ==> r == Some(t.all[p])
    {
      hide EntriesStand, FiltersStand, Stands, Small, FilterOf, Located, BlockStands, IsFirst, Layout.Stored,
           EncodeHandle, DecodeHandle, Holds,
           InternalBelow, Ascending, Layout.Fits, FilterBlockReader.Answer, Layout.Valid, Transitive;
      var value;
      ghost var i;
      value, i := SeekIndex(k);
      if value.None? {
        return None;
      }
      IndexFits();
      BlockFits(i, k, t.index.es[i].key);
      var h := DecodeHandle(value.value);
      if filter != null && h.Some? {
        var may := filter.KeyMayMatch(h.value.0.offset, UserOf(k));
        if !may {
          RuledOut(file, t, filter, i, k, t.index.es[i].key);
          return None;
        }
      }
      var blockIter := BlockReader(value.value, verifyChecksums, t.blocks[i]);
      blockIter.Seek(k);
      blockIter.Standing();
      FoundInBlock(file, t, k, t.blocks[i], t.index.es[i].key, blockIter.pos);
      if !blockIter.Valid() {
        return None;
      }
      return Some(blockIter.Current());
    }

    // An iterator over the block a handle leads to.
    method BlockReader(value: Bytes, verifyChecksums: bool, ghost b: Done) returns (iter: Iter)
      requires Fitting(b.layout) && BlockStands(file, t.all, b) && Ascending(b.layout.es, InternalBelow)
      requires value == EncodeHandle(b.Handle())
      requires DecodeHandle(value) == Some((b.Handle(), []))
      ensures fresh(iter) && iter.Inv() && !iter.Valid() && iter.l == b.layout && iter.less == InternalBelow
    {
      hide Layout.Stored, EncodeHandle, DecodeHandle, Intact, InternalBelow, Ascending;
      HeldRead(file, b.Handle(), b.layout.Stored());
      InternalOrder();
      var h := DecodeHandle(value);
      var contents := ReadBlock(file, h.value.0, verifyChecksums);
      // A block as written is never found corrupt.
      iter := new Iter(contents.value, InternalBelow, b.layout);
    }
  }
}
