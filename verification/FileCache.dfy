/** Files through the block cache: `translate_fs` (kernel/fs_file.c) on top of `translate_bytes`
    (kernel/block_device.c), up to what the disk holds after `sync_filesystem`. */
module FileCache {
  import opened Limits
  import opened Paging
  import opened Chunks
  import opened FileBlocks
  import opened BlockCache
  import FileStore

  /** The blocks of a flat array. */
  ghost function BlocksOf(flat: Block): seq<Block> {
    seq(|flat| / PAGESIZE, b requires 0 <= b < |flat| / PAGESIZE => flat[b * PAGESIZE..(b + 1) * PAGESIZE])
  }

  /** A store into one block of a flat array. */
  lemma FlatWrite(flat: Block, b: nat, lo: nat, bytes: Block)
    requires b < |flat| / PAGESIZE && lo + |bytes| <= PAGESIZE
    ensures b * PAGESIZE + lo + |bytes| <= |flat|
    ensures BlocksOf(Splice(flat, b * PAGESIZE + lo, bytes)) ==
      BlocksOf(flat)[b := Splice(BlocksOf(flat)[b], lo, bytes)]
  {
    var flat' := Splice(flat, b * PAGESIZE + lo, bytes);
    var blocks' := BlocksOf(flat)[b := Splice(BlocksOf(flat)[b], lo, bytes)];
    forall x: nat | x < |flat| / PAGESIZE ensures BlocksOf(flat')[x] == blocks'[x] {
      forall k: nat | k < PAGESIZE ensures BlocksOf(flat')[x][k] == blocks'[x][k] {
        Divided(x * PAGESIZE + k, x);
        Divided(b * PAGESIZE + lo, b);
      }
    }
  }

  lemma FlatRead(flat: Block, b: nat, lo: nat, n: nat)
    requires b < |flat| / PAGESIZE && lo + n <= PAGESIZE
    ensures b * PAGESIZE + lo + n <= |flat|
    ensures flat[b * PAGESIZE + lo..b * PAGESIZE + lo + n] == BlocksOf(flat)[b][lo..lo + n]
  {
    assert BlocksOf(flat)[b] == flat[b * PAGESIZE..(b + 1) * PAGESIZE];
  }

  /** The blocks page `id` is reached through. */
  function Uses(ino: Inode, blocks: seq<Block>, id: nat): set<nat> {
    {BlockAt(ino, blocks, id)} + if id < DIRECT_PTRS then {} else {ino.single}
  }

  function AllUses(ino: Inode, blocks: seq<Block>, lo: nat, hi: nat): set<nat>
    decreases hi
  {
    if hi <= lo then {} else AllUses(ino, blocks, lo, hi - 1) + Uses(ino, blocks, hi - 1)
  }

  lemma {:induction false} UsesAmong(ino: Inode, blocks: seq<Block>, lo: nat, hi: nat, id: nat)
    requires lo <= id < hi
    ensures Uses(ino, blocks, id) <= AllUses(ino, blocks, lo, hi)
    decreases hi
  {
    if id < hi - 1 { UsesAmong(ino, blocks, lo, hi - 1, id); }
  }

  lemma {:induction false} UsesSame(ino: Inode, blocks: seq<Block>, blocks': seq<Block>, lo: nat, hi: nat)
    requires forall i: nat :: i < hi ==> BlockAt(ino, blocks', i) == BlockAt(ino, blocks, i)
    ensures AllUses(ino, blocks', lo, hi) == AllUses(ino, blocks, lo, hi)
    decreases hi
  {
    if lo < hi { UsesSame(ino, blocks, blocks', lo, hi - 1); }
  }

  /** One request that touches at most block `b`. */
  lemma TouchesOne(b: nat, lo: nat, n: nat)
    requires lo + n <= PAGESIZE && lo < PAGESIZE
    ensures Blocks((b * PAGESIZE + lo) / PAGESIZE, PageUp(b * PAGESIZE + lo + n)) <= {b}
    ensures n > 0 ==> Blocks((b * PAGESIZE + lo) / PAGESIZE, PageUp(b * PAGESIZE + lo + n)) == {b}
    ensures Whole(b * PAGESIZE + lo, b * PAGESIZE + lo + n, b) <==> lo == 0 && n == PAGESIZE
  {
    hide Blocks;
    Divided(b * PAGESIZE + lo, b);
    EndBound(b * PAGESIZE + lo + n, b + 1);
  }

  /** The cache shows the files: `flat` is its contents, and the blocks of `inodes` in it are owned
      as `owner` says. `known` are the blocks touched so far. */
  ghost predicate Files(c: Cache, inodes: map<nat, Inode>, owner: map<nat, Place>, flat: Block, known: set<nat>)
    reads c, c.bufs
  {
    && c.Valid() && Shows(c, flat) && Knows(c, known)
    && Assigned(inodes, FileStore.PagesOf(inodes), BlocksOf(flat), owner)
  }

  /** Page `id` may be used without eviction, and written whole if `whole`. */
  ghost predicate Allowed(c: Cache, ino: Inode, blocks: seq<Block>, id: nat, known: set<nat>, whole: bool) {
    c.repaired || (|known + Uses(ino, blocks, id)| <= CACHE_BLOCKS && (whole ==> BlockAt(ino, blocks, id) in known))
  }

  lemma Sizes(c: Cache, flat: Block)
    requires Shows(c, flat)
    ensures |BlocksOf(flat)| == |flat| / PAGESIZE == |c.disk| && |flat| == |c.disk| * PAGESIZE
  {
  }

  /** The block of page `id`, as `translate_fs` looks it up through the cache. */
  method Lookup(c: Cache, ghost inodes: map<nat, Inode>, ghost owner: map<nat, Place>, f: nat, ino: Inode, id: nat,
                ghost flat: Block, ghost known: set<nat>) returns (phy: nat, ghost known': set<nat>)
    requires Files(c, inodes, owner, flat, known) && HasFile(inodes, f) && ino == inodes[f] && id < PageUp(ino.size)
    requires Allowed(c, ino, BlocksOf(flat), id, known, false)
    modifies c`head, c`size, c`disk, c`order, c`pos, c`where, c`stamp, c`clock, c.bufs
    ensures Files(c, inodes, owner, flat, known') && known <= known' <= known + Uses(ino, BlocksOf(flat), id)
    ensures phy == BlockAt(ino, BlocksOf(flat), id) < |BlocksOf(flat)| && |flat| == |c.disk| * PAGESIZE
  {
    hide Cache.Valid, Shows, Knows, Assigned, BlocksOf, Blocks, Entry;
    Sizes(c, flat);
    FileStore.FilePage(inodes, FileStore.PagesOf(inodes), BlocksOf(flat), owner, f, id);
    known' := known;
    if id < DIRECT_PTRS {
      phy := ino.direct[id];
    } else {
      var at := 4 * (id - DIRECT_PTRS);
      FlatRead(flat, ino.single, at, 4);
      TouchesOne(ino.single, at, 4);
      if !c.repaired { Subset(known + {ino.single}, known + Uses(ino, BlocksOf(flat), id)); }
      var bytes := PerformRead(c, ino.single * PAGESIZE + at, 4, flat, known);
      EntrySlice(BlocksOf(flat)[ino.single], id - DIRECT_PTRS);
      phy := Entry(bytes, 0);
      known' := known + {ino.single};
      Sizes(c, flat);
    }
  }

  lemma NotWhole(c: Cache, ino: Inode, blocks: seq<Block>, id: nat, known: set<nat>, whole: bool)
    requires Allowed(c, ino, blocks, id, known, whole)
    ensures Allowed(c, ino, blocks, id, known, false)
  {
  }

  /** The request on the block of the page itself. */
  lemma OneMore(c: Cache, ino: Inode, blocks: seq<Block>, id: nat, known: set<nat>, known': set<nat>, whole: bool,
                touched: set<nat>)
    requires Allowed(c, ino, blocks, id, known, whole) && known <= known' <= known + Uses(ino, blocks, id)
    requires touched <= {BlockAt(ino, blocks, id)}
    ensures c.repaired || (|known' + touched| <= CACHE_BLOCKS && (whole ==> BlockAt(ino, blocks, id) in known'))
    ensures known <= known' + touched <= known + Uses(ino, blocks, id)
  {
    hide BlockAt;
    if !c.repaired { Subset(known' + touched, known + Uses(ino, blocks, id)); }
  }

  /** One iteration of `translate_fs` when writing. */
  method WritePage(c: Cache, ghost inodes: map<nat, Inode>, ghost owner: map<nat, Place>, f: nat, ino: Inode, id: nat,
                   lo: nat, bytes: Block, ghost flat: Block, ghost known: set<nat>)
    returns (ghost flat': Block, ghost known': set<nat>)
    requires Files(c, inodes, owner, flat, known) && HasFile(inodes, f) && ino == inodes[f] && id < PageUp(ino.size)
    requires lo + |bytes| <= PAGESIZE && lo < PAGESIZE &&
      Allowed(c, ino, BlocksOf(flat), id, known, lo == 0 && |bytes| == PAGESIZE)
    modifies c`head, c`size, c`disk, c`order, c`pos, c`where, c`stamp, c`clock, c.bufs
    ensures Files(c, inodes, owner, flat', known') && known <= known' <= known + Uses(ino, BlocksOf(flat), id)
    ensures forall g: nat, i: nat {:trigger BlockAt(inodes[g], BlocksOf(flat'), i)} ::
      HasFile(inodes, g) && i < PageUp(inodes[g].size) ==>
      BlockAt(inodes[g], BlocksOf(flat'), i) == BlockAt(inodes[g], BlocksOf(flat), i)
    ensures forall g: nat, k: nat {:trigger FileStore.ByteIn(inodes[g], BlocksOf(flat'), k)} ::
      HasFile(inodes, g) && k / PAGESIZE < PageUp(inodes[g].size) ==>
      var from := id * PAGESIZE + lo;
      FileStore.ByteIn(inodes[g], BlocksOf(flat'), k) ==
        if g == f && from <= k < from + |bytes| then bytes[k - from] else FileStore.ByteIn(inodes[g], BlocksOf(flat), k)
  {
    hide Cache.Valid, Shows, Knows, Assigned, BlocksOf, Blocks, BlockAt, FileStore.ByteIn, Uses, Allowed, Whole;
    NotWhole(c, ino, BlocksOf(flat), id, known, lo == 0 && |bytes| == PAGESIZE);
    var phy;
    phy, known' := Lookup(c, inodes, owner, f, ino, id, flat, known);
    Sizes(c, flat);
    ghost var blocks := BlocksOf(flat);
    FlatWrite(flat, phy, lo, bytes);
    TouchesOne(phy, lo, |bytes|);
    ghost var touched := Touched(WriteOp(phy * PAGESIZE + lo, bytes));
    OneMore(c, ino, blocks, id, known, known', lo == 0 && |bytes| == PAGESIZE, touched);
    PerformWrite(c, phy * PAGESIZE + lo, bytes, flat, known');
    flat' := Splice(flat, phy * PAGESIZE + lo, bytes);
    known' := known' + touched;
    PageStored(inodes, blocks, owner, f, id, lo, bytes);
  }

  /** What a store into page `id` does to the files. */
  lemma PageStored(inodes: map<nat, Inode>, blocks: seq<Block>, owner: map<nat, Place>, f: nat, id: nat, lo: nat,
                   bytes: Block)
    requires Assigned(inodes, FileStore.PagesOf(inodes), blocks, owner) && HasFile(inodes, f) &&
      id < PageUp(inodes[f].size)
    requires lo + |bytes| <= PAGESIZE
    ensures var phy := BlockAt(inodes[f], blocks, id);
      && phy < |blocks| && |blocks[phy]| == PAGESIZE
      && var blocks' := blocks[phy := Splice(blocks[phy], lo, bytes)];
      && Assigned(inodes, FileStore.PagesOf(inodes), blocks', owner)
      && (forall g: nat, i: nat {:trigger BlockAt(inodes[g], blocks', i)} ::
        HasFile(inodes, g) && i < PageUp(inodes[g].size) ==>
            BlockAt(inodes[g], blocks', i) == BlockAt(inodes[g], blocks, i))
      && (forall g: nat, k: nat {:trigger FileStore.ByteIn(inodes[g], blocks', k)} ::
        HasFile(inodes, g) && k / PAGESIZE < PageUp(inodes[g].size) ==>
            var from := id * PAGESIZE + lo;
            FileStore.ByteIn(inodes[g], blocks', k) ==
              if g == f && from <= k < from + |bytes| then bytes[k - from] else FileStore.ByteIn(inodes[g], blocks, k))
  {
    hide Assigned;
    var pages := FileStore.PagesOf(inodes);
    FileStore.FilePage(inodes, pages, blocks, owner, f, id);
    var phy := BlockAt(inodes[f], blocks, id);
    var blocks' := blocks[phy := Splice(blocks[phy], lo, bytes)];
    FileStore.PageWritten(inodes, pages, blocks, blocks', owner, f, id);
    forall g: nat, k: nat | HasFile(inodes, g) && k / PAGESIZE < PageUp(inodes[g].size)
      ensures var from := id * PAGESIZE + lo;
              FileStore.ByteIn(inodes[g], blocks', k) ==
                if g == f && from <= k < from + |bytes| then bytes[k - from] else FileStore.ByteIn(inodes[g], blocks, k)
    {
      Divided(k, id);
      FileStore.FilePage(inodes, pages, blocks, owner, g, k / PAGESIZE);
      FileStore.PageApart(inodes, pages, blocks, owner, f, id, g, k / PAGESIZE);
      assert BlockAt(inodes[g], blocks', k / PAGESIZE) == BlockAt(inodes[g], blocks, k / PAGESIZE);
    }
  }

  ghost function TouchedOf(b: nat, lo: nat, n: nat): (r: set<nat>)
    requires lo + n <= PAGESIZE && lo < PAGESIZE
    ensures r <= {b}
  {
    TouchesOne(b, lo, n);
    Touched(ReadOp(b * PAGESIZE + lo, n))
  }

  /** A read of one block. */
  method ReadBlock(c: Cache, b: nat, lo: nat, n: nat, ghost flat: Block, ghost known: set<nat>, ghost touched: set<nat>)
    returns (bytes: Block)
    requires c.Valid() && Shows(c, flat) && Knows(c, known) && b < |c.disk| && lo + n <= PAGESIZE && lo < PAGESIZE
    requires touched == TouchedOf(b, lo, n) && (c.repaired || |known + touched| <= CACHE_BLOCKS)
    modifies c`head, c`size, c`disk, c`order, c`pos, c`where, c`stamp, c`clock, c.bufs
    ensures c.Valid() && Shows(c, flat) && Knows(c, known + touched)
    ensures b < |BlocksOf(flat)| && |BlocksOf(flat)[b]| == PAGESIZE && bytes == BlocksOf(flat)[b][lo..lo + n]
  {
    hide Cache.Valid, Shows, Knows, Blocks;
    Sizes(c, flat);
    FlatRead(flat, b, lo, n);
    bytes := PerformRead(c, b * PAGESIZE + lo, n, flat, known);
  }

  /** One iteration of `translate_fs` when reading. */
  method ReadPage(c: Cache, ghost inodes: map<nat, Inode>, ghost owner: map<nat, Place>, f: nat, ino: Inode, id: nat,
                  lo: nat, n: nat, ghost flat: Block, ghost known: set<nat>)
    returns (bytes: Block, ghost known': set<nat>)
    requires Files(c, inodes, owner, flat, known) && HasFile(inodes, f) && ino == inodes[f] && id < PageUp(ino.size)
    requires lo + n <= PAGESIZE && lo < PAGESIZE && Allowed(c, ino, BlocksOf(flat), id, known, false)
    modifies c`head, c`size, c`disk, c`order, c`pos, c`where, c`stamp, c`clock, c.bufs
    ensures Files(c, inodes, owner, flat, known') && known <= known' <= known + Uses(ino, BlocksOf(flat), id)
    ensures |bytes| == n &&
      forall k: nat {:trigger bytes[k]} :: k < n ==>
      bytes[k] == FileStore.ByteIn(ino, BlocksOf(flat), id * PAGESIZE + lo + k)
  {
    hide Cache.Valid, Shows, Knows, Assigned, BlocksOf, Blocks, BlockAt, FileStore.ByteIn, Uses, Allowed, TouchedOf;
    var phy;
    phy, known' := Lookup(c, inodes, owner, f, ino, id, flat, known);
    Sizes(c, flat);
    ghost var blocks := BlocksOf(flat);
    FileStore.FilePage(inodes, FileStore.PagesOf(inodes), blocks, owner, f, id);
    ghost var touched := TouchedOf(phy, lo, n);
    OneMore(c, ino, blocks, id, known, known', false, touched);
    bytes := ReadBlock(c, phy, lo, n, flat, known', touched);
    known' := known' + touched;
    PageRead(ino, blocks, id, lo, bytes);
  }

  lemma PageRead(ino: Inode, blocks: seq<Block>, id: nat, lo: nat, bytes: Block)
    requires BlockAt(ino, blocks, id) < |blocks| && |blocks[BlockAt(ino, blocks, id)]| == PAGESIZE &&
      lo + |bytes| <= PAGESIZE
    requires bytes == blocks[BlockAt(ino, blocks, id)][lo..lo + |bytes|]
    ensures forall k: nat {:trigger bytes[k]} :: k < |bytes| ==>
      bytes[k] == FileStore.ByteIn(ino, blocks, id * PAGESIZE + lo + k)
  {
    hide BlockAt;
    forall k: nat | k < |bytes| ensures bytes[k] == FileStore.ByteIn(ino, blocks, id * PAGESIZE + lo + k) {
      Divided(id * PAGESIZE + lo + k, id);
    }
  }

  /** The pages of bytes [offset, stop) may be used without eviction, and written if `write`. */
  ghost predicate MayUse(c: Cache, ino: Inode, blocks: seq<Block>, offset: nat, stop: nat, known: set<nat>,
                         write: bool) {
    var lo, hi := offset / PAGESIZE, PageUp(stop);
    c.repaired || (
      && |known + AllUses(ino, blocks, lo, hi)| <= CACHE_BLOCKS
      && (write ==>
        forall id: nat {:trigger BlockAt(ino, blocks, id)} :: lo <= id < hi && Whole(offset, stop, id) ==>
        BlockAt(ino, blocks, id) in known))
  }

  /** `now` lies between what was known and what the pages use. */
  predicate Between(known: set<nat>, now: set<nat>, ino: Inode, blocks: seq<Block>, lo: nat, hi: nat) {
    known <= now <= known + AllUses(ino, blocks, lo, hi)
  }

  lemma PageAllowed(c: Cache, ino: Inode, blocks: seq<Block>, offset: nat, stop: nat, known: set<nat>, now: set<nat>,
                    id: nat, write: bool)
    requires MayUse(c, ino, blocks, offset, stop, known, write) && offset / PAGESIZE <= id < PageUp(stop)
    requires Between(known, now, ino, blocks, offset / PAGESIZE, PageUp(stop))
    ensures Allowed(c, ino, blocks, id, now, write && Whole(offset, stop, id))
    ensures forall more: set<nat> :: now <= more <= now + Uses(ino, blocks, id) ==>
              Between(known, more, ino, blocks, offset / PAGESIZE, PageUp(stop))
  {
    hide AllUses, Uses, BlockAt;
    var lo, hi := offset / PAGESIZE, PageUp(stop);
    UsesAmong(ino, blocks, lo, hi, id);
    if !c.repaired { Subset(now + Uses(ino, blocks, id), known + AllUses(ino, blocks, lo, hi)); }
  }

  /** `fs_file_write` through the cache: the bytes are stored, and no other byte of any file changes. */
  method WriteFile(c: Cache, ghost inodes: map<nat, Inode>, ghost owner: map<nat, Place>, f: nat, ino: Inode,
                   offset: nat, data: Block, ghost flat0: Block, ghost known0: set<nat>)
    returns (ghost flat: Block, ghost known: set<nat>)
    requires Files(c, inodes, owner, flat0, known0) && HasFile(inodes, f) && ino == inodes[f]
    requires PageUp(offset + |data|) <= PageUp(ino.size) &&
      MayUse(c, ino, BlocksOf(flat0), offset, offset + |data|, known0, true)
    modifies c`head, c`size, c`disk, c`order, c`pos, c`where, c`stamp, c`clock, c.bufs
    ensures Files(c, inodes, owner, flat, known)
    ensures Between(known0, known, ino, BlocksOf(flat0), offset / PAGESIZE, PageUp(offset + |data|))
    ensures forall i: nat :: i < PageUp(ino.size) ==>
      BlockAt(ino, BlocksOf(flat), i) == BlockAt(ino, BlocksOf(flat0), i)
    ensures forall g: nat, k: nat {:trigger FileStore.ByteIn(inodes[g], BlocksOf(flat), k)} ::
      HasFile(inodes, g) && k / PAGESIZE < PageUp(inodes[g].size) ==>
      FileStore.ByteIn(inodes[g], BlocksOf(flat), k) ==
        if g == f && offset <= k < offset + |data| then data[k - offset]
          else FileStore.ByteIn(inodes[g], BlocksOf(flat0), k)
  {
    hide Cache.Valid, Shows, Knows, Assigned, BlocksOf, BlockAt, Uses, AllUses, Allowed, MayUse, FileStore.ByteIn;
    hide Between;
    var stop := offset + |data|;
    var id, end := offset / PAGESIZE, PageUp(stop);
    var pageOffset: nat, pageMax: nat, rest := offset % PAGESIZE, offset % PAGESIZE + |data|, data;
    ghost var done: nat, blocks0 := 0, BlocksOf(flat0);
    flat, known := flat0, known0;
    Divided(offset, id);
    StartBetween(known0, ino, blocks0, id, end);
    while id < end
      invariant At(offset, |data|, id, pageOffset, pageMax, done) && done <= |data| && rest == data[done..]
      invariant Files(c, inodes, owner, flat, known) && Between(known0, known, ino, blocks0, offset / PAGESIZE, end)
      invariant forall i: nat :: i < PageUp(ino.size) ==> BlockAt(ino, BlocksOf(flat), i) == BlockAt(ino, blocks0, i)
      invariant forall g: nat, k: nat {:trigger FileStore.ByteIn(inodes[g], BlocksOf(flat), k)} ::
        HasFile(inodes, g) && k / PAGESIZE < PageUp(inodes[g].size) ==>
        FileStore.ByteIn(inodes[g], BlocksOf(flat), k) ==
          if g == f && offset <= k < offset + done then data[k - offset] else FileStore.ByteIn(inodes[g], blocks0, k)
    {
      AtStep(offset, |data|, id, pageOffset, pageMax, done);
      PageAllowed(c, ino, blocks0, offset, stop, known0, known, id, true);
      AllowedSame(c, ino, blocks0, BlocksOf(flat), id, known, Whole(offset, stop, id));
      var top;
      if pageMax > PAGESIZE { top := PAGESIZE; pageMax := pageMax - PAGESIZE; } else { top := pageMax; }
      flat, known := WritePage(c, inodes, owner, f, ino, id, pageOffset, rest[..top - pageOffset], flat, known);
      rest := rest[top - pageOffset..];
      done := done + top - pageOffset;
      pageOffset := 0;
      id := id + 1;
    }
  }

  lemma StartBetween(known: set<nat>, ino: Inode, blocks: seq<Block>, lo: nat, hi: nat)
    ensures Between(known, known, ino, blocks, lo, hi)
  {
  }

  lemma AllowedSame(c: Cache, ino: Inode, blocks: seq<Block>, blocks': seq<Block>, id: nat, known: set<nat>,
                    whole: bool)
    requires Allowed(c, ino, blocks, id, known, whole) && BlockAt(ino, blocks', id) == BlockAt(ino, blocks, id)
    ensures Allowed(c, ino, blocks', id, known, whole) && Uses(ino, blocks', id) == Uses(ino, blocks, id)
  {
  }

  /** `fs_file_read` through the cache. */
  method ReadFile(c: Cache, ghost inodes: map<nat, Inode>, ghost owner: map<nat, Place>, f: nat, ino: Inode,
                  offset: nat, n: nat, ghost flat: Block, ghost known0: set<nat>)
    returns (data: Block, ghost known: set<nat>)
    requires Files(c, inodes, owner, flat, known0) && HasFile(inodes, f) && ino == inodes[f]
    requires PageUp(offset + n) <= PageUp(ino.size) && MayUse(c, ino, BlocksOf(flat), offset, offset + n, known0, false)
    modifies c`head, c`size, c`disk, c`order, c`pos, c`where, c`stamp, c`clock, c.bufs
    ensures Files(c, inodes, owner, flat, known)
    ensures |data| == n &&
      forall k: nat {:trigger data[k]} :: k < n ==> data[k] == FileStore.ByteIn(ino, BlocksOf(flat), offset + k)
  {
    hide Cache.Valid, Shows, Knows, Assigned, BlocksOf, BlockAt, Uses, AllUses, Allowed, MayUse, FileStore.ByteIn;
    hide Between;
    var stop := offset + n;
    var id, end := offset / PAGESIZE, PageUp(stop);
    var pageOffset: nat, pageMax: nat := offset % PAGESIZE, offset % PAGESIZE + n;
    data, known := [], known0;
    Divided(offset, id);
    StartBetween(known0, ino, BlocksOf(flat), id, end);
    while id < end
      invariant At(offset, n, id, pageOffset, pageMax, |data|) && |data| <= n
      invariant Files(c, inodes, owner, flat, known) &&
        Between(known0, known, ino, BlocksOf(flat), offset / PAGESIZE, end)
      invariant forall k: nat {:trigger data[k]} :: k < |data| ==>
        data[k] == FileStore.ByteIn(ino, BlocksOf(flat), offset + k)
    {
      AtStep(offset, n, id, pageOffset, pageMax, |data|);
      PageAllowed(c, ino, BlocksOf(flat), offset, stop, known0, known, id, false);
      var top;
      if pageMax > PAGESIZE { top := PAGESIZE; pageMax := pageMax - PAGESIZE; } else { top := pageMax; }
      var bytes;
      bytes, known := ReadPage(c, inodes, owner, f, ino, id, pageOffset, top - pageOffset, flat, known);
      data := data + bytes;
      pageOffset := 0;
      id := id + 1;
    }
  }

  /** After a sync the disk holds the flat array. */
  lemma DiskIs(c: Cache, flat: Block)
    requires Shows(c, flat) && c.Valid() &&
      forall b: nat {:trigger c.Contents(b)} :: b < |c.disk| ==> c.disk[b] == c.Contents(b)
    ensures c.disk == BlocksOf(flat)
  {
    hide Listed, Recent, Labelled;
    Sizes(c, flat);
    forall b: nat | b < |c.disk| ensures c.disk[b] == BlocksOf(flat)[b] {
      assert c.disk[b] == c.Contents(b) && |c.disk[b]| == PAGESIZE;
      forall k: nat | k < PAGESIZE ensures c.disk[b][k] == BlocksOf(flat)[b][k] {
        Divided(b * PAGESIZE + k, b);
        assert c.ByteAt(b * PAGESIZE + k) == flat[b * PAGESIZE + k];
      }
    }
  }

  /** An empty cache over a disk shows what is on it. */
  lemma EmptyShows(c: Cache, flat: Block, n: nat)
    requires c.where == map[] && c.disk == BlocksOf(flat) && |flat| == n * PAGESIZE
    ensures Shows(c, flat) && Knows(c, {})
  {
    forall k: nat | k / PAGESIZE < |c.disk| ensures k < |flat| && c.ByteAt(k) == flat[k] {
      Divided(k, k / PAGESIZE);
      assert c.Contents(k / PAGESIZE) == c.disk[k / PAGESIZE];
    }
  }

  /** A cache that starts over with the disk. */
  method Restart(c: Cache, ghost flat: Block) returns (again: Cache)
    requires c.Valid() && Shows(c, flat) && c.disk == BlocksOf(flat)
    ensures again.Valid() && Shows(again, flat) && Knows(again, {}) && again.repaired == c.repaired && fresh(again) &&
      fresh(again.bufs)
  {
    hide Listed, Recent, Labelled, Shows, Knows, BlocksOf;
    Sizes(c, flat);
    again := new Cache(c.disk, c.repaired);
    EmptyShows(again, flat, |c.disk|);
  }

  lemma StillMayUse(c: Cache, again: Cache, ino: Inode, blocks: seq<Block>, blocks': seq<Block>, offset: nat, stop: nat,
                    known: set<nat>)
    requires MayUse(c, ino, blocks, offset, stop, known, true) && again.repaired == c.repaired
    requires forall i: nat :: i < PageUp(stop) ==> BlockAt(ino, blocks', i) == BlockAt(ino, blocks, i)
    ensures MayUse(again, ino, blocks', offset, stop, {}, false)
  {
    hide BlockAt, AllUses;
    var lo, hi := offset / PAGESIZE, PageUp(stop);
    UsesSame(ino, blocks, blocks', lo, hi);
    assert {} + AllUses(ino, blocks', lo, hi) == AllUses(ino, blocks, lo, hi);
    if !c.repaired { Subset(AllUses(ino, blocks, lo, hi), known + AllUses(ino, blocks, lo, hi)); }
  }

  /** All blocks, one behind the other. */
  ghost function Flat(blocks: seq<Block>): Block
    requires forall b: nat :: b < |blocks| ==> |blocks[b]| == PAGESIZE
  {
    seq(|blocks| * PAGESIZE, k requires 0 <= k < |blocks| * PAGESIZE => Byte(blocks, k))
  }

  ghost function Byte(blocks: seq<Block>, k: nat): byte
    requires (forall b: nat :: b < |blocks| ==> |blocks[b]| == PAGESIZE) && k < |blocks| * PAGESIZE
  {
    Divided(k, k / PAGESIZE);
    blocks[k / PAGESIZE][k % PAGESIZE]
  }

  lemma BlocksOfFlat(blocks: seq<Block>)
    requires forall b: nat :: b < |blocks| ==> |blocks[b]| == PAGESIZE
    ensures BlocksOf(Flat(blocks)) == blocks
  {
    forall b: nat | b < |blocks| ensures BlocksOf(Flat(blocks))[b] == blocks[b] {
      forall k: nat | k < PAGESIZE ensures BlocksOf(Flat(blocks))[b][k] == blocks[b][k] {
        Divided(b * PAGESIZE + k, b);
      }
    }
  }

  /** A file system behind an empty cache. */
  method Mount(fs: FileStore.FileSystem, repaired: bool) returns (c: Cache, ghost flat: Block)
    requires fs.Valid()
    ensures Files(c, fs.inodes, fs.owner, flat, {}) && BlocksOf(flat) == fs.blocks && c.repaired == repaired &&
      fresh(c) && fresh(c.bufs)
  {
    hide Listed, Recent, Labelled, Shows, Knows, BlocksOf, Flat, FileStore.Held;
    flat := Flat(fs.blocks);
    BlocksOfFlat(fs.blocks);
    FlatSize(fs.blocks);
    c := new Cache(fs.blocks, repaired);
    EmptyShows(c, flat, |fs.blocks|);
  }

  lemma FlatSize(blocks: seq<Block>)
    requires forall b: nat :: b < |blocks| ==> |blocks[b]| == PAGESIZE
    ensures |Flat(blocks)| == |blocks| * PAGESIZE
  {
  }

  /** What is written to a file is read back, and is on the disk after a sync: a cache that starts
      over with the disk reads it too, and everything else of every file with it. */
  method WriteSyncRead(c: Cache, ghost inodes: map<nat, Inode>, ghost owner: map<nat, Place>, f: nat, ino: Inode,
                       offset: nat, data: Block, ghost flat0: Block, ghost known0: set<nat>)
    returns (again: Cache, back: Block, ghost flat: Block, ghost known: set<nat>)
    requires Files(c, inodes, owner, flat0, known0) && HasFile(inodes, f) && ino == inodes[f]
    requires PageUp(offset + |data|) <= PageUp(ino.size) &&
      MayUse(c, ino, BlocksOf(flat0), offset, offset + |data|, known0, true)
    modifies c`head, c`size, c`disk, c`order, c`pos, c`where, c`stamp, c`clock, c.bufs
    ensures back == data && fresh(again) && Files(again, inodes, owner, flat, known) && c.disk == BlocksOf(flat)
    ensures forall g: nat, k: nat {:trigger FileStore.ByteIn(inodes[g], BlocksOf(flat), k)} ::
      HasFile(inodes, g) && k / PAGESIZE < PageUp(inodes[g].size) ==>
      FileStore.ByteIn(inodes[g], BlocksOf(flat), k) ==
        if g == f && offset <= k < offset + |data| then data[k - offset]
          else FileStore.ByteIn(inodes[g], BlocksOf(flat0), k)
  {
    hide Cache.Valid, Shows, Knows, Assigned, BlocksOf, BlockAt, Uses, AllUses, MayUse, FileStore.ByteIn, Between;
    flat, known := WriteFile(c, inodes, owner, f, ino, offset, data, flat0, known0);
    PerformSync(c, flat, known);
    DiskIs(c, flat);
    again := Restart(c, flat);
    StillMayUse(c, again, ino, BlocksOf(flat0), BlocksOf(flat), offset, offset + |data|, known0);
    back, known := ReadFile(again, inodes, owner, f, ino, offset, |data|, flat, {});
    forall k: nat | k < |data| ensures back[k] == data[k] {
      assert back[k] == FileStore.ByteIn(inodes[f], BlocksOf(flat), offset + k);
      FileStore.PageUpAbove(offset + k, offset + |data|);
    }
  }
}
