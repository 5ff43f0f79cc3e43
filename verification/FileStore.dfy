/** `fs_file_truncate` and `translate_fs` (kernel/fs_file.c) with `allocate_block` and `free_block`
    (kernel/filesystem.c), for files of at most 25 + 1024 blocks. The device is a flat array of
    blocks; bitmap and inode table are kept apart from the data blocks. */
module FileStore {
  import opened Limits
  import opened Paging
  import opened Bitmap
  import opened Chunks
  import opened FileBlocks
  import opened BlockCount

  ghost function PagesOf(inodes: map<nat, Inode>): map<nat, nat> { map f | f in inodes :: PageUp(inodes[f].size) }

  /** Place `p` is beyond the first `n` pages of file `f`. */
  predicate Beyond(p: Place, f: nat, n: nat)
  {
    p.file == f && (if p.Data? then p.page >= n else n <= DIRECT_PTRS)
  }

  /** Ownership without what is beyond the first `n` pages of `f`. */
  ghost function Cut(owner: map<nat, Place>, f: nat, n: nat): map<nat, Place>
  {
    map b | b in owner && !Beyond(owner[b], f, n) :: owner[b]
  }

  /** Owned blocks are marked and lie in the data area; the blocks before it are marked. */
  ghost predicate Held(owner: map<nat, Place>, bitmap: seq<bv8>, reserved: nat, size: nat)
  {
    && |bitmap| == (size + 7) / 8
    && (forall b: nat {:trigger Owned(owner, b)} :: Owned(owner, b) ==> reserved <= b < size && Marked(bitmap, b))
    && (forall b: nat {:trigger Marked(bitmap, b)} :: b < reserved ==> Marked(bitmap, b))
  }

  /** The other half: every marked block of the data area belongs to a file. */
  ghost predicate Exact(owner: map<nat, Place>, bitmap: seq<bv8>, reserved: nat, size: nat)
  {
    forall b: nat {:trigger Marked(bitmap, b)} :: reserved <= b < size && Marked(bitmap, b) ==> Owned(owner, b)
  }

  /** The bits of the last byte that stand for no block are marked. */
  ghost predicate PadMarked(bitmap: seq<bv8>, size: nat)
  {
    forall b: nat {:trigger Marked(bitmap, b)} :: size <= b < 8 * |bitmap| ==> Marked(bitmap, b)
  }

  /** How growing a file ends: with a block for every page, with no block left, or with a block
      past the end of the disk. */
  datatype Ending = Done | NoSpace | PastDisk

  /** The first `n` pages of the file are where they were and hold what they held. */
  ghost predicate FileKept(ino': Inode, blocks': seq<Block>, ino: Inode, blocks: seq<Block>, n: nat)
  {
    |blocks'| == |blocks| && forall i: nat {:trigger BlockAt(ino, blocks, i)} :: i < n ==>
      && BlockAt(ino', blocks', i) == BlockAt(ino, blocks, i) < |blocks|
      && blocks'[BlockAt(ino, blocks, i)] == blocks[BlockAt(ino, blocks, i)]
  }

  ghost predicate AllKept(inodes': map<nat, Inode>, blocks': seq<Block>, inodes: map<nat, Inode>, blocks: seq<Block>,
                          pages: map<nat, nat>)
  {
    forall g: nat {:trigger HasFile(inodes, g)} :: HasFile(inodes, g) ==>
      HasFile(inodes', g) && g in pages && FileKept(inodes'[g], blocks', inodes[g], blocks, pages[g])
  }

  lemma KeptRefl(inodes: map<nat, Inode>, pages: map<nat, nat>, blocks: seq<Block>, owner: map<nat, Place>)
    requires Assigned(inodes, pages, blocks, owner)
    ensures AllKept(inodes, blocks, inodes, blocks, pages)
  {
    forall g: nat | HasFile(inodes, g) ensures FileKept(inodes[g], blocks, inodes[g], blocks, pages[g]) {
      PagesIn(inodes, pages, blocks, owner, g);
    }
  }

  /** Blocks of pages are blocks of the device. */
  lemma PagesIn(inodes: map<nat, Inode>, pages: map<nat, nat>, blocks: seq<Block>, owner: map<nat, Place>, g: nat)
    requires Assigned(inodes, pages, blocks, owner) && HasFile(inodes, g)
    ensures forall i: nat {:trigger BlockAt(inodes[g], blocks, i)} :: i < pages[g] ==>
      BlockAt(inodes[g], blocks, i) < |blocks| && Owns(owner, BlockAt(inodes[g], blocks, i), Data(g, i))
  {
    forall i: nat | i < pages[g]
      ensures BlockAt(inodes[g], blocks, i) < |blocks| && Owns(owner, BlockAt(inodes[g], blocks, i), Data(g, i)) {
      assert Owns(owner, BlockAt(inodes[g], blocks, i), Data(g, i)) && Owned(owner, BlockAt(inodes[g], blocks, i));
    }
  }

  lemma KeptTrans(inodes0: map<nat, Inode>, blocks0: seq<Block>, pages0: map<nat, nat>, inodes1: map<nat, Inode>,
                  blocks1: seq<Block>, pages1: map<nat, nat>, inodes2: map<nat, Inode>, blocks2: seq<Block>)
    requires AllKept(inodes1, blocks1, inodes0, blocks0, pages0) && AllKept(inodes2, blocks2, inodes1, blocks1, pages1)
    requires forall g: nat {:trigger HasFile(inodes0, g)} :: HasFile(inodes0, g) ==>
      g in pages1 && g in pages0 && pages0[g] <= pages1[g]
    ensures AllKept(inodes2, blocks2, inodes0, blocks0, pages0)
  {
    forall g: nat | HasFile(inodes0, g)
      ensures HasFile(inodes2, g) && FileKept(inodes2[g], blocks2, inodes0[g], blocks0, pages0[g])
    {
      assert HasFile(inodes1, g);
      forall i: nat | i < pages0[g]
        ensures BlockAt(inodes2[g], blocks2, i) == BlockAt(inodes0[g], blocks0, i) < |blocks0|
        ensures blocks2[BlockAt(inodes0[g], blocks0, i)] == blocks0[BlockAt(inodes0[g], blocks0, i)]
      {
        assert BlockAt(inodes1[g], blocks1, i) == BlockAt(inodes0[g], blocks0, i);
      }
    }
  }

  lemma GrowDirectKeeps(inodes: map<nat, Inode>, pages: map<nat, nat>, blocks: seq<Block>, owner: map<nat, Place>,
                        f: nat, d: nat)
    requires Assigned(inodes, pages, blocks, owner) && HasFile(inodes, f) && pages[f] < DIRECT_PTRS &&
      |inodes[f].direct| == DIRECT_PTRS
    ensures AllKept(inodes[f := inodes[f].(direct := inodes[f].direct[pages[f] := d])], blocks, inodes, blocks, pages)
  {
    forall g: nat | HasFile(inodes, g)
      ensures FileKept(if g == f then inodes[f].(direct := inodes[f].direct[pages[f] := d])
        else inodes[g], blocks, inodes[g], blocks, pages[g])
    {
      PagesIn(inodes, pages, blocks, owner, g);
    }
  }

  lemma GrowEntryKeeps(inodes: map<nat, Inode>, pages: map<nat, nat>, blocks: seq<Block>, blocks': seq<Block>,
                       owner: map<nat, Place>, f: nat, x: nat)
    requires Assigned(inodes, pages, blocks, owner) && HasFile(inodes, f) && OnlyAt(blocks', blocks, x)
    requires Owned(owner, x) ==> owner[x] == Index(f)
    requires forall i: nat {:trigger BlockAt(inodes[f], blocks, i)} :: i < pages[f] ==>
      BlockAt(inodes[f].(single := x), blocks', i) == BlockAt(inodes[f], blocks, i)
    ensures AllKept(inodes[f := inodes[f].(single := x)], blocks', inodes, blocks, pages)
  {
    forall g: nat | HasFile(inodes, g)
      ensures FileKept(if g == f then inodes[f].(single := x) else inodes[g], blocks', inodes[g], blocks, pages[g])
    {
      PagesIn(inodes, pages, blocks, owner, g);
      forall i: nat | g != f && i < pages[g] ensures BlockAt(inodes[g], blocks', i) == BlockAt(inodes[g], blocks, i) {
        OtherFile(inodes, pages, blocks, blocks', owner, f, g, x, i);
      }
    }
  }

  /** If every page stayed, the store is as sound as before, whatever else was written. */
  lemma StoreKept(inodes: map<nat, Inode>, pages: map<nat, nat>, blocks: seq<Block>, blocks': seq<Block>,
                  owner: map<nat, Place>)
    requires Assigned(inodes, pages, blocks, owner) && AllKept(inodes, blocks', inodes, blocks, pages) &&
      |blocks'| == |blocks|
    requires forall b: nat {:trigger blocks'[b]} :: b < |blocks'| ==> |blocks'[b]| == PAGESIZE
    ensures Assigned(inodes, pages, blocks', owner)
  {
    forall g: nat | HasFile(inodes, g) ensures FileOk(g, inodes[g], pages[g], blocks', owner) {
      PagesIn(inodes, pages, blocks, owner, g);
      forall i: nat | i < pages[g] ensures Owns(owner, BlockAt(inodes[g], blocks', i), Data(g, i)) {
        assert BlockAt(inodes[g], blocks', i) == BlockAt(inodes[g], blocks, i);
      }
    }
    forall b: nat | Owned(owner, b) ensures Sits(inodes, pages, blocks', b, owner[b]) {
      assert Sits(inodes, pages, blocks, b, owner[b]);
      match owner[b] {
        case Data(g, i) => assert BlockAt(inodes[g], blocks', i) == BlockAt(inodes[g], blocks, i);
        case Index(g) =>
      }
    }
  }

  /** `bitmap` marks what `bitmap0` did and what `own` has beyond `owner`; all of that was unmarked. */
  ghost predicate MarkedMore(bitmap: seq<bv8>, bitmap0: seq<bv8>, own: map<nat, Place>, owner: map<nat, Place>)
  {
    && |bitmap| == |bitmap0|
    && forall b: nat {:trigger Marked(bitmap, b)} {:trigger Owned(own, b)} ::
      && (Marked(bitmap, b) <==> Marked(bitmap0, b) || (Owned(own, b) && !Owned(owner, b)))
      && (Owned(own, b) && !Owned(owner, b) ==> !Marked(bitmap0, b))
  }

  /** What an inode and its copy agree on: the first `n` pages. */
  predicate Agree(ino': Inode, ino: Inode, n: nat)
  {
    && ino'.size == ino.size && |ino'.direct| == |ino.direct| == DIRECT_PTRS
    && (forall i: nat {:trigger ino.direct[i]} :: i < n && i < DIRECT_PTRS ==> ino'.direct[i] == ino.direct[i])
    && (n > DIRECT_PTRS ==> ino'.single == ino.single)
  }

  /** Where the growing loop of `fs_file_truncate` is at page `cur` of file `f`: `inode` is the copy
      it works on, `own` the ownership if that copy were written back. */
  ghost predicate Growing(f: nat, inode: Inode, cur: nat, inodes: map<nat, Inode>, blocks: seq<Block>,
                          own: map<nat, Place>,
                          bitmap: seq<bv8>, blocks0: seq<Block>, owner: map<nat, Place>, bitmap0: seq<bv8>,
                          reserved: nat, size: nat)
  {
    && HasFile(inodes, f) && PageUp(inodes[f].size) <= cur <= MAX_PAGES && |blocks| == size
    && Assigned(inodes[f := inode], PagesOf(inodes)[f := cur], blocks, own) && Held(own, bitmap, reserved, size)
    && Cut(own, f, PageUp(inodes[f].size)) == owner && MarkedMore(bitmap, bitmap0, own, owner)
    && AllKept(inodes[f := inode], blocks, inodes, blocks0, PagesOf(inodes)) &&
      Agree(inode, inodes[f], PageUp(inodes[f].size))
  }

  lemma HeldMark(owner: map<nat, Place>, bitmap: seq<bv8>, reserved: nat, size: nat, b: nat, p: Place)
    requires Held(owner, bitmap, reserved, size) && reserved <= b < size
    ensures b / 8 < |bitmap| && Held(owner[b := p], Mark(bitmap, b), reserved, size) &&
      Held(owner, Mark(bitmap, b), reserved, size)
  {
    var owner', bitmap' := owner[b := p], Mark(bitmap, b);
    forall c: nat ensures Marked(bitmap', c) <==> c == b || Marked(bitmap, c) { MarkOne(bitmap, b, c); }
    forall c: nat | Owned(owner', c) ensures reserved <= c < size && Marked(bitmap', c) {
      if c != b { assert Owned(owner, c); }
    }
    forall c: nat | c < reserved ensures Marked(bitmap', c) { assert Marked(bitmap, c); }
  }

  lemma MoreMark(bitmap: seq<bv8>, bitmap0: seq<bv8>, own: map<nat, Place>, owner: map<nat, Place>, b: nat, p: Place)
    requires MarkedMore(bitmap, bitmap0, own, owner) && b / 8 < |bitmap| && !Marked(bitmap, b) && !Owned(owner, b)
    ensures MarkedMore(Mark(bitmap, b), bitmap0, own[b := p], owner)
  {
    hide Mark, Marked;
    var bitmap', own' := Mark(bitmap, b), own[b := p];
    MarkLength(bitmap, b);
    assert !Marked(bitmap0, b) && !Marked(bitmap, b);
    forall c: nat
      ensures Marked(bitmap', c) <==> Marked(bitmap0, c) || (Owned(own', c) && !Owned(owner, c))
      ensures Owned(own', c) && !Owned(owner, c) ==> !Marked(bitmap0, c)
    {
      MarkOne(bitmap, b, c);
      assert Owned(own', c) <==> c == b || Owned(own, c);
      assert Marked(bitmap, c) <==> Marked(bitmap0, c) || (Owned(own, c) && !Owned(owner, c));
    }
  }

  lemma MarkLength(bitmap: seq<bv8>, b: nat)
    requires b / 8 < |bitmap|
    ensures |Mark(bitmap, b)| == |bitmap|
  {
  }

  /** A block of the new pages is cut again. */
  lemma CutNew(own: map<nat, Place>, f: nat, n: nat, b: nat, p: Place)
    requires b !in own && Beyond(p, f, n)
    ensures Cut(own[b := p], f, n) == Cut(own, f, n)
  {
  }

  /** A page more, by a direct pointer. */
  lemma GrownDirect(f: nat, inode: Inode, cur: nat, inodes: map<nat, Inode>, blocks: seq<Block>, own: map<nat, Place>,
                    bitmap: seq<bv8>, blocks0: seq<Block>, owner: map<nat, Place>, bitmap0: seq<bv8>, reserved: nat,
                    size: nat, d: nat)
    requires Growing(f, inode, cur, inodes, blocks, own, bitmap, blocks0, owner, bitmap0, reserved, size)
    requires cur < DIRECT_PTRS && reserved <= d < size && !Marked(bitmap, d)
    ensures |inode.direct| == DIRECT_PTRS && d / 8 < |bitmap|
    ensures Growing(f, inode.(direct := inode.direct[cur := d]), cur + 1, inodes, blocks, own[d := Data(f, cur)],
                    Mark(bitmap, d), blocks0, owner, bitmap0, reserved, size)
  {
    hide Assigned, AllKept, MarkedMore, Cut, Mark;
    var inodes1, pages1 := inodes[f := inode], PagesOf(inodes)[f := cur];
    Unowned(own, bitmap, reserved, size, d);
    UnownedCut(own, f, PageUp(inodes[f].size), d);
    GrowDirect(inodes1, pages1, blocks, own, f, d);
    GrowDirectKeeps(inodes1, pages1, blocks, own, f, d);
    HeldMark(own, bitmap, reserved, size, d, Data(f, cur));
    MoreMark(bitmap, bitmap0, own, owner, d, Data(f, cur));
    CutNew(own, f, PageUp(inodes[f].size), d, Data(f, cur));
    var inode' := inode.(direct := inode.direct[cur := d]);
    assert inodes1[f := inode'] == inodes[f := inode'] && pages1[f := cur + 1] == PagesOf(inodes)[f := cur + 1];
    KeptTrans(inodes, blocks0, PagesOf(inodes), inodes1, blocks, pages1, inodes[f := inode'], blocks);
  }

  lemma Unowned(own: map<nat, Place>, bitmap: seq<bv8>, reserved: nat, size: nat, d: nat)
    requires Held(own, bitmap, reserved, size) && !Marked(bitmap, d)
    ensures !Owned(own, d)
  {
  }

  lemma UnownedCut(own: map<nat, Place>, f: nat, n: nat, d: nat)
    requires !Owned(own, d)
    ensures !Owned(Cut(own, f, n), d)
  {
  }

  /** A page more, by an entry of the index block `x`, which is new at page 25. */
  lemma GrownEntry(f: nat, inode: Inode, cur: nat, inodes: map<nat, Inode>, blocks: seq<Block>, own: map<nat, Place>,
                   bitmap: seq<bv8>, blocks0: seq<Block>, owner: map<nat, Place>, bitmap0: seq<bv8>, reserved: nat,
                   size: nat, x: nat, d: nat)
    requires Growing(f, inode, cur, inodes, blocks, own, bitmap, blocks0, owner, bitmap0, reserved, size)
    requires DIRECT_PTRS <= cur < MAX_PAGES && size <= 0x1_0000_0000
    requires reserved <= d < size && x < size && d != x && !Marked(bitmap, d)
    requires if cur == DIRECT_PTRS then reserved <= x && !Marked(bitmap, x) else x == inode.single
    ensures x / 8 < |bitmap| && d / 8 < |bitmap| && |blocks[x]| == PAGESIZE
    ensures var bitmap1 := if cur == DIRECT_PTRS then Mark(bitmap, x) else bitmap;
            Growing(f, inode.(single := x), cur + 1, inodes, blocks[x := SetEntry(blocks[x], cur - DIRECT_PTRS, d)],
                    own[x := Index(f)][d := Data(f, cur)], Mark(bitmap1, d), blocks0, owner, bitmap0, reserved, size)
  {
    hide Assigned, AllKept, MarkedMore, Cut, Mark, SetEntry, Held;
    var n := PageUp(inodes[f].size);
    var inodes1, pages1 := inodes[f := inode], PagesOf(inodes)[f := cur];
    Unowned(own, bitmap, reserved, size, d);
    UnownedCut(own, f, n, d);
    IndexFacts(inodes1, pages1, blocks, own, f, x, bitmap, reserved, size);
    GrowEntry(inodes1, pages1, blocks, own, f, x, d);
    var blocks' := blocks[x := SetEntry(blocks[x], cur - DIRECT_PTRS, d)];
    GrowEntryKeeps(inodes1, pages1, blocks, blocks', own, f, x);
    var inode' := inode.(single := x);
    assert inodes1[f := inode'] == inodes[f := inode'] && pages1[f := cur + 1] == PagesOf(inodes)[f := cur + 1];
    KeptTrans(inodes, blocks0, PagesOf(inodes), inodes1, blocks, pages1, inodes[f := inode'], blocks');
    if cur == DIRECT_PTRS {
      UnownedCut(own, f, n, x);
      HeldMark(own, bitmap, reserved, size, x, Index(f));
      MoreMark(bitmap, bitmap0, own, owner, x, Index(f));
      CutNew(own, f, n, x, Index(f));
      MarkOne(bitmap, x, d);
    } else {
      assert own[x := Index(f)] == own;
    }
    var own1, bitmap1 := own[x := Index(f)], if cur == DIRECT_PTRS then Mark(bitmap, x) else bitmap;
    assert !Owned(own1, d);
    HeldMark(own1, bitmap1, reserved, size, d, Data(f, cur));
    MoreMark(bitmap1, bitmap0, own1, owner, d, Data(f, cur));
    CutNew(own1, f, n, d, Data(f, cur));
  }

  lemma IndexFacts(inodes: map<nat, Inode>, pages: map<nat, nat>, blocks: seq<Block>, own: map<nat, Place>, f: nat,
                   x: nat, bitmap: seq<bv8>, reserved: nat, size: nat)
    requires Assigned(inodes, pages, blocks, own) && Held(own, bitmap, reserved, size) && HasFile(inodes, f) &&
      pages[f] >= DIRECT_PTRS
    requires if pages[f] == DIRECT_PTRS then !Marked(bitmap, x) else x == inodes[f].single
    ensures pages[f] == DIRECT_PTRS ==> !Owned(own, x)
    ensures pages[f] > DIRECT_PTRS ==> Owned(own, x) && own[x] == Index(f) && x < |blocks|
    ensures x < size ==> x / 8 < |bitmap|
    ensures forall b: nat :: b < size ==> b / 8 < |bitmap|
  {
    if pages[f] > DIRECT_PTRS { assert Owns(own, inodes[f].single, Index(f)); assert Owned(own, x); }
  }

  /** Before the first new page. */
  lemma GrowStart(f: nat, inodes: map<nat, Inode>, blocks: seq<Block>, owner: map<nat, Place>, bitmap: seq<bv8>,
                  reserved: nat, size: nat)
    requires Assigned(inodes, PagesOf(inodes), blocks, owner) && Held(owner, bitmap, reserved, size) &&
      HasFile(inodes, f) && |blocks| == size
    ensures Growing(f, inodes[f], PageUp(inodes[f].size), inodes, blocks, owner, bitmap, blocks, owner, bitmap,
      reserved, size)
  {
    var n, pages := PageUp(inodes[f].size), PagesOf(inodes);
    assert inodes[f := inodes[f]] == inodes && pages[f := n] == pages;
    KeptRefl(inodes, pages, blocks, owner);
    assert FileOk(f, inodes[f], pages[f], blocks, owner);
    forall b: nat | b in owner ensures !Beyond(owner[b], f, n) { assert Owned(owner, b); }
    assert Cut(owner, f, n) == owner;
  }

  /** If growing stops for lack of blocks, the files are as they were. */
  lemma GrowFailed(f: nat, inode: Inode, cur: nat, inodes: map<nat, Inode>, blocks: seq<Block>, own: map<nat, Place>,
                   bitmap: seq<bv8>,
                   bitmap1: seq<bv8>, blocks0: seq<Block>, owner: map<nat, Place>, bitmap0: seq<bv8>, reserved: nat,
                   size: nat)
    requires Growing(f, inode, cur, inodes, blocks, own, bitmap, blocks0, owner, bitmap0, reserved, size)
    requires Assigned(inodes, PagesOf(inodes), blocks0, owner) && Held(owner, bitmap0, reserved, size)
    requires |bitmap1| == |bitmap| &&
      forall b: nat {:trigger Marked(bitmap1, b)} :: Marked(bitmap, b) ==> Marked(bitmap1, b)
    ensures Assigned(inodes, PagesOf(inodes), blocks, owner) && Held(owner, bitmap1, reserved, size) && |blocks| == size
    ensures AllKept(inodes, blocks, inodes, blocks0, PagesOf(inodes))
  {
    var pages := PagesOf(inodes);
    forall g: nat | HasFile(inodes, g) ensures FileKept(inodes[g], blocks, inodes[g], blocks0, pages[g]) {
      assert HasFile(inodes[f := inode], g);
    }
    StoreKept(inodes, pages, blocks0, blocks, owner);
    forall b: nat | Owned(owner, b) ensures Marked(bitmap1, b) { assert Marked(bitmap0, b); assert Marked(bitmap, b); }
    forall b: nat | b < reserved ensures Marked(bitmap1, b) { assert Marked(bitmap0, b); assert Marked(bitmap, b); }
  }

  class FileSystem {
    const size: nat
    /** Blocks before the data area. */
    const reserved: nat
    var bitmap: seq<bv8>
    var inodeBitmap: seq<bv8>
    var inodes: map<nat, Inode>
    var blocks: seq<Block>
    ghost var owner: map<nat, Place>

    ghost predicate Valid()
      reads this
    {
      && size <= 0x1_0000_0000 && |blocks| == size
      && Assigned(inodes, PagesOf(inodes), blocks, owner) && Held(owner, bitmap, reserved, size)
      && (forall f: nat {:trigger HasFile(inodes, f)} :: HasFile(inodes, f) ==> Marked(inodeBitmap, f))
    }

    /** Blocks of the disk not in use. */
    ghost function Free(): nat
      reads this
    {
      FreeCount(bitmap, size)
    }

    /** A file system without files. */
    constructor (blocks: seq<Block>, reserved: nat, bitmap: seq<bv8>, inodeBitmap: seq<bv8>)
      requires |blocks| <= 0x1_0000_0000 &&
        forall b: nat {:trigger blocks[b]} :: b < |blocks| ==> |blocks[b]| == PAGESIZE
      requires |bitmap| == (|blocks| + 7) / 8
      requires forall b: nat {:trigger Marked(bitmap, b)} :: b < reserved ==> Marked(bitmap, b)
      ensures Valid() && inodes == map[] && owner == map[] && this.blocks == blocks && size == |blocks|
      ensures this.bitmap == bitmap && this.reserved == reserved && this.inodeBitmap == inodeBitmap
      ensures Exact(owner, bitmap, reserved, size) <==> forall b: nat :: reserved <= b < |blocks| ==> !Marked(bitmap, b)
    {
      size, this.reserved, this.bitmap, this.blocks, this.inodeBitmap := |blocks|, reserved, bitmap, blocks,
        inodeBitmap;
      inodes, owner := map[], map[];
    }

    /** `allocate_inode` and the inode written by `create_file`: an empty file with the first free
        number. Its pointers, `direct` and `single`, are not initialised. */
    method Create(direct: seq<nat>, single: nat) returns (f: Option<nat>)
      requires Valid() && |direct| == DIRECT_PTRS
      modifies this`inodes, this`inodeBitmap
      ensures Valid()
      ensures f.None? <==> forall i: nat :: i < 8 * |old(inodeBitmap)| ==> Marked(old(inodeBitmap), i)
      ensures f.None? ==> inodes == old(inodes) && inodeBitmap == old(inodeBitmap)
      ensures f.Some? ==>
        && !HasFile(old(inodes), f.value) && !Marked(old(inodeBitmap), f.value) &&
          (forall i: nat :: i < f.value ==> Marked(old(inodeBitmap), i))
        && inodes == old(inodes)[f.value := Inode(0, direct, single)]
    {
      hide Assigned, Held;
      var i, marks := FirstFree(inodeBitmap);
      if i == 8 * |inodeBitmap| { return None; }
      forall j: nat ensures Marked(marks, j) <==> j == i || Marked(inodeBitmap, j) { MarkOne(inodeBitmap, i, j); }
      CreateKeeps(inodes, blocks, owner, i, Inode(0, direct, single));
      assert !HasFile(inodes, i);
      inodes := inodes[i := Inode(0, direct, single)];
      inodeBitmap := marks;
      forall g: nat | HasFile(inodes, g) ensures Marked(inodeBitmap, g) { assert g == i || HasFile(old(inodes), g); }
      f := Some(i);
    }

    /** `allocate_block`: the first unmarked block, or -1 when all are marked. */
    method AllocateBlock() returns (r: int)
      modifies this`bitmap
      ensures r == -1 <==> forall b: nat :: b < 8 * |old(bitmap)| ==> Marked(old(bitmap), b)
      ensures r == -1 ==> bitmap == old(bitmap)
      ensures r != -1 ==>
        && 0 <= r && r / 8 < |old(bitmap)| && !Marked(old(bitmap), r) && bitmap == Mark(old(bitmap), r)
        && (forall b: nat :: b < r ==> Marked(old(bitmap), b))
    {
      var b, bitmap' := FirstFree(bitmap);
      if b == 8 * |bitmap| { return -1; }
      bitmap := bitmap';
      r := b;
    }

    /** `allocate_block` as the growing loop sees it. */
    method NextBlock() returns (e: Ending, b: nat)
      requires |bitmap| == (size + 7) / 8
      modifies this`bitmap
      ensures e.Done? <==> old(Free()) > 0
      ensures e.NoSpace? <==> old(Free()) == 0 && PadMarked(old(bitmap), size)
      ensures e.NoSpace? ==>
        bitmap == old(bitmap) && forall b: nat {:trigger Marked(bitmap, b)} :: b < 8 * |bitmap| ==> Marked(bitmap, b)
      ensures !e.NoSpace? ==>
        b / 8 < |old(bitmap)| && !Marked(old(bitmap), b) && bitmap == Mark(old(bitmap), b) && (b < size <==> e.Done?)
      ensures e.Done? ==> Free() == old(Free()) - 1
    {
      FreeSome(bitmap, size);
      var r := AllocateBlock();
      if r == -1 {
        assert PadMarked(bitmap, size);
        return NoSpace, 0;
      }
      b := r;
      FreeMark(old(bitmap), b, size);
      AllocatedOnDisk(old(bitmap), size, b);
      e := if b < size then Done else PastDisk;
      if b >= size { assert !PadMarked(old(bitmap), size); }
    }

    /** `free_block`: -1 if the block is not marked. */
    method FreeBlock(b: nat) returns (r: int)
      requires b / 8 < |bitmap|
      modifies this`bitmap
      ensures r == (if Marked(old(bitmap), b) then 0 else -1)
      ensures bitmap == if Marked(old(bitmap), b) then Unmark(old(bitmap), b) else old(bitmap)
    {
      var buf := bitmap[b / 8];
      if !Bit(buf, b % 8) { return -1; }
      bitmap := bitmap[b / 8 := WithoutBit(buf, b % 8)];
      r := 0;
    }

    /** `Growing` of file `f` now. */
    ghost predicate GrowingNow(f: nat, inode: Inode, cur: nat, own: map<nat, Place>, blocks0: seq<Block>,
                               bitmap0: seq<bv8>)
      reads this
    {
      && size <= 0x1_0000_0000
      && Growing(f, inode, cur, inodes, blocks, own, bitmap, blocks0, owner, bitmap0, reserved, size)
    }

    lemma GrowingHeld(f: nat, inode: Inode, cur: nat, own: map<nat, Place>, blocks0: seq<Block>, bitmap0: seq<bv8>)
      requires GrowingNow(f, inode, cur, own, blocks0, bitmap0)
      ensures Held(own, bitmap, reserved, size) && |inode.direct| == DIRECT_PTRS && size <= 0x1_0000_0000 &&
        |blocks| == size
      ensures cur > DIRECT_PTRS ==> inode.single < size && Marked(bitmap, inode.single)
    {
      if cur > DIRECT_PTRS {
        assert HasFile(inodes[f := inode], f);
        assert Owns(own, inode.single, Index(f)) && Owned(own, inode.single);
      }
    }

    /** One iteration of the growing loop. It succeeds exactly if the disk has the blocks the page
        needs. */
    method GrowPage(f: nat, inode: Inode, cur: nat, ghost own: map<nat, Place>, ghost blocks0: seq<Block>,
                    ghost bitmap0: seq<bv8>)
      returns (e: Ending, inode': Inode, ghost own': map<nat, Place>)
      requires GrowingNow(f, inode, cur, own, blocks0, bitmap0) && cur < MAX_PAGES
      modifies this`bitmap, this`blocks
      ensures e.Done? <==> old(Free()) >= Allocs(cur)
      ensures e.Done? ==> GrowingNow(f, inode', cur + 1, own', blocks0, bitmap0) && Free() == old(Free()) - Allocs(cur)
      ensures e.NoSpace? <==> old(Free()) < Allocs(cur) && PadMarked(old(bitmap), size)
      ensures e.NoSpace? ==>
        && blocks == old(blocks) && |bitmap| == |old(bitmap)|
        && (forall b: nat {:trigger Marked(bitmap, b)} :: b < 8 * |bitmap| ==> Marked(bitmap, b))
        && (forall b: nat {:trigger Marked(bitmap, b)} :: Marked(old(bitmap), b) ==> Marked(bitmap, b))
    {
      hide Growing, Held, Mark, Marked, SetEntry, FreeCount, PadMarked;
      inode', own' := inode, own;
      GrowingHeld(f, inode, cur, own, blocks0, bitmap0);
      var d;
      if cur < DIRECT_PTRS {
        e, d := NextBlock();
        if !e.Done? { return; }
        ghost var bitmap1 := old(bitmap);
        FreeInData(own, bitmap1, reserved, size, d);
        GrownDirect(f, inode, cur, inodes, blocks, own, bitmap1, blocks0, owner, bitmap0, reserved, size, d);
        inode' := inode.(direct := inode.direct[cur := d]);
        own' := own[d := Data(f, cur)];
      } else {
        var id := cur - DIRECT_PTRS;
        var x := inode.single;
        if id == 0 {
          e, x := NextBlock();
          if !e.Done? { return; }
          FreeInData(own, old(bitmap), reserved, size, x);
          MarksGrow(old(bitmap), x);
          PadKept(old(bitmap), x, size);
        }
        ghost var bitmap1 := bitmap;
        e, d := NextBlock();
        if !e.Done? { return; }
        SecondFree(own, old(bitmap), bitmap1, reserved, size, x, d, id == 0);
        GrownEntry(f, inode, cur, inodes, blocks, own, old(bitmap), blocks0, owner, bitmap0, reserved, size, x, d);
        inode' := inode.(single := x);
        blocks := blocks[x := SetEntry(blocks[x], id, d)];
        own' := own[x := Index(f)][d := Data(f, cur)];
      }
    }

    /** One iteration of the shrinking loop: the last page, and at page 25 the index block, is
        given back. */
    method ShrinkPage(f: nat, inode: Inode, cur: nat, ghost own: map<nat, Place>, ghost bitmap0: seq<bv8>)
      returns (ghost own': map<nat, Place>)
      requires cur > 0 && HasFile(inodes, f) && inode == inodes[f]
      requires Shrinking(f, cur, inodes, blocks, own, bitmap, owner, bitmap0, reserved, size)
      modifies this`bitmap
      ensures Shrinking(f, cur - 1, inodes, blocks, own', bitmap, owner, bitmap0, reserved, size)
      ensures Free() == old(Free()) + Allocs(cur - 1)
    {
      hide Assigned, Held, MarkedLess, Cut, Marked, Unmark, FreeCount;
      ShrinkFacts(f, cur, inodes, blocks, own, bitmap, owner, bitmap0, reserved, size);
      own' := own - Last(inodes, PagesOf(inodes)[f := cur], blocks, f);
      var id := cur - 1;
      BothMarked(bitmap, BlockAt(inode, blocks, id), inode.single);
      var r;
      if id < DIRECT_PTRS {
        FreeUnmark(bitmap, inode.direct[id], size);
        r := FreeBlock(inode.direct[id]);
      } else {
        var temp := Entry(blocks[inode.single], id - DIRECT_PTRS);
        FreeUnmark(bitmap, temp, size);
        r := FreeBlock(temp);
        if id == DIRECT_PTRS {
          FreeUnmark(bitmap, inode.single, size);
          r := FreeBlock(inode.single);
        }
      }
    }

    /** The blocks file `f` needs to grow to `newsize`. */
    ghost function Need(f: nat, newsize: nat): nat
      requires HasFile(inodes, f)
      reads this
    {
      AllocSum(PageUp(inodes[f].size), PageUp(newsize))
    }

    /** `fs_file_truncate`. A shrink must leave a page, as the loop does not end otherwise. It
        succeeds exactly if the disk has the blocks; otherwise it gives out a block past the end
        of the disk, or, if no bit is left for that, returns -1 (`NoSpace`). The files are then as
        they were, and every block that was free is lost: it is marked and belongs to no file. */
    method Truncate(f: nat, newsize: nat) returns (e: Ending)
      requires Valid() && HasFile(inodes, f) && PageUp(newsize) <= MAX_PAGES
      requires PageUp(newsize) >= 1 || PageUp(inodes[f].size) == 0
      modifies this`bitmap, this`blocks, this`inodes, this`owner
      ensures e.Done? <==> old(Free()) >= old(Need(f, newsize))
      ensures e.NoSpace? <==> old(Free()) < old(Need(f, newsize)) && PadMarked(old(bitmap), size)
      ensures !e.PastDisk? ==> Valid()
      ensures e.NoSpace? ==>
        && inodes == old(inodes) && owner == old(owner) && |bitmap| == |old(bitmap)|
        && (forall b: nat :: b < 8 * |bitmap| ==> Marked(bitmap, b))
        && AllKept(inodes, blocks, inodes, old(blocks), PagesOf(inodes))
        && (Exact(owner, bitmap, reserved, size) <==> Exact(owner, old(bitmap), reserved, size) && old(Free()) == 0)
      ensures e.Done? ==>
        && Truncated(f, newsize, old(inodes), old(blocks), old(owner), old(bitmap), inodes, blocks, owner, bitmap)
        && (Exact(owner, bitmap, reserved, size) <==> Exact(old(owner), old(bitmap), reserved, size))
        && Free() + old(Need(f, newsize)) == old(Free()) + AllocSum(PageUp(newsize), PageUp(old(inodes)[f].size))
    {
      hide Assigned, Held, Growing, Shrinking, AllKept, Exact, FreeCount, PadMarked, AllocSum, Truncated;
      var inode := inodes[f];
      var oldsize := inode.size;
      if oldsize == newsize {
        TruncateNothing(f, inodes, blocks, owner, bitmap, reserved, size);
        NoPages(PageUp(newsize), PageUp(oldsize));
        return Done;
      }
      var oldPages, newPages := PageUp(oldsize), PageUp(newsize);
      NoPages(oldPages, newPages);
      NoPages(newPages, oldPages);
      if oldPages < newPages {
        var ino';
        ghost var own;
        e, ino', own := Grow(f, inode, oldPages, newPages);
        if !e.Done? { return; }
        GrowDone(f, newsize, ino', inodes, blocks, own, bitmap, old(blocks), owner, old(bitmap), reserved, size);
        inodes := inodes[f := ino'.(size := newsize)];
        owner := own;
      } else {
        ghost var own := Shrink(f, inode, oldPages, newPages);
        ShrinkDone(f, newsize, inodes, blocks, own, bitmap, owner, old(bitmap), reserved, size);
        inodes := inodes[f := inode.(size := newsize)];
        owner := own;
        e := Done;
      }
      forall g: nat | HasFile(inodes, g) ensures Marked(inodeBitmap, g) { assert HasFile(old(inodes), g); }
      TruncatedExact(f, newsize, old(inodes), old(blocks), old(owner), old(bitmap), inodes, blocks, owner, bitmap,
        reserved, size);
    }

    /** The growing loop. */
    method Grow(f: nat, inode0: Inode, oldPages: nat, newPages: nat)
      returns (e: Ending, inode: Inode, ghost own: map<nat, Place>)
      requires Valid() && HasFile(inodes, f) && inode0 == inodes[f] &&
        oldPages == PageUp(inode0.size) <= newPages <= MAX_PAGES
      modifies this`bitmap, this`blocks
      ensures e.Done? <==> old(Free()) >= AllocSum(oldPages, newPages)
      ensures e.NoSpace? <==> old(Free()) < AllocSum(oldPages, newPages) && PadMarked(old(bitmap), size)
      ensures e.Done? ==>
        GrowingNow(f, inode, newPages, own, old(blocks), old(bitmap)) &&
        Free() == old(Free()) - AllocSum(oldPages, newPages)
      ensures e.NoSpace? ==>
        && Valid() && |bitmap| == |old(bitmap)| &&
          (forall b: nat {:trigger Marked(bitmap, b)} :: b < 8 * |bitmap| ==> Marked(bitmap, b))
        && AllKept(inodes, blocks, inodes, old(blocks), PagesOf(inodes))
        && (Exact(owner, bitmap, reserved, size) <==> Exact(owner, old(bitmap), reserved, size) && old(Free()) == 0)
    {
      hide Assigned, Held, Growing, AllKept, Exact, FreeCount, PadMarked, AllocSum, Marked;
      inode, own, e := inode0, owner, Done;
      ghost var blocks0, bitmap0 := blocks, bitmap;
      GrowStart(f, inodes, blocks, owner, bitmap, reserved, size);
      NoPages(oldPages, oldPages);
      var cur := oldPages;
      while cur < newPages
        invariant oldPages <= cur <= newPages && e == Done
        invariant GrowingNow(f, inode, cur, own, blocks0, bitmap0) && Free() + AllocSum(oldPages, cur) == old(Free())
      {
        ghost var bitmap1 := bitmap;
        var inode';
        ghost var own';
        PadSame(f, inode, cur, inodes, blocks, own, bitmap, blocks0, owner, bitmap0, reserved, size);
        SumStep(oldPages, cur);
        SumGrows(oldPages, cur + 1, newPages);
        e, inode', own' := GrowPage(f, inode, cur, own, blocks0, bitmap0);
        if !e.Done? {
          if e.NoSpace? {
            GrowFailed(f, inode, cur, inodes, blocks, own, bitmap1, bitmap, blocks0, owner, bitmap0, reserved, size);
            Leaked(owner, bitmap0, bitmap, reserved, size);
          }
          return;
        }
        inode, own := inode', own';
        cur := cur + 1;
      }
    }

    /** The shrinking loop. */
    method Shrink(f: nat, inode: Inode, oldPages: nat, newPages: nat) returns (ghost own: map<nat, Place>)
      requires Valid() && HasFile(inodes, f) && inode == inodes[f] && newPages <= oldPages == PageUp(inode.size)
      modifies this`bitmap
      ensures Shrinking(f, newPages, inodes, blocks, own, bitmap, owner, old(bitmap), reserved, size)
      ensures Free() == old(Free()) + AllocSum(newPages, oldPages)
    {
      hide Assigned, Held, Shrinking, FreeCount, AllocSum;
      own := owner;
      ghost var bitmap0 := bitmap;
      ShrinkStart(f, inodes, blocks, owner, bitmap, reserved, size);
      NoPages(oldPages, oldPages);
      var id := oldPages;
      while id > newPages
        invariant newPages <= id <= oldPages
        invariant Shrinking(f, id, inodes, blocks, own, bitmap, owner, bitmap0, reserved, size)
        invariant Free() == old(Free()) + AllocSum(id, oldPages)
      {
        Additive(id - 1, id, oldPages);
        SumStep(id - 1, id - 1);
        NoPages(id - 1, id - 1);
        own := ShrinkPage(f, inode, id, own, bitmap0);
        id := id - 1;
      }
    }

    /** Growing and shrinking back, when the disk has the blocks: owners and bitmap are as they
        were. When it has not, growing already fails. */
    method GrowShrink(f: nat, newsize: nat) returns (e: Ending)
      requires Valid() && HasFile(inodes, f) && 1 <= PageUp(inodes[f].size) <= PageUp(newsize) <= MAX_PAGES
      modifies this`bitmap, this`blocks, this`inodes, this`owner
      ensures e.Done? <==> old(Free()) >= old(Need(f, newsize))
      ensures e.NoSpace? <==> old(Free()) < old(Need(f, newsize)) && PadMarked(old(bitmap), size)
      ensures !e.PastDisk? ==> Valid()
      ensures e.NoSpace? ==> inodes == old(inodes) && owner == old(owner)
      ensures e.Done? ==>
        bitmap == old(bitmap) && owner == old(owner) && HasFile(inodes, f) && inodes[f].size == old(inodes[f].size)
    {
      hide Assigned, Held, AllKept, Cut, MarkedMore, MarkedLess, Exact, FreeCount, PadMarked, AllocSum;
      var oldsize := inodes[f].size;
      ghost var bitmap0, owner0, inodes0, blocks0 := bitmap, owner, inodes, blocks;
      e := Truncate(f, newsize);
      if !e.Done? { return; }
      ghost var bitmap1, owner1, inodes1, blocks1 := bitmap, owner, inodes, blocks;
      NoPages(PageUp(newsize), PageUp(oldsize));
      var e' := Truncate(f, oldsize);
      NothingBeyond(f, inodes, blocks, owner);
      NothingBeyond(f, inodes1, blocks1, owner1);
      ThereAndBack(f, newsize, inodes0, blocks0, owner0, bitmap0, inodes1, blocks1, owner1, bitmap1, inodes, blocks,
        owner, bitmap);
    }

    /** Byte `k` of the pages of file `f`. */
    ghost function FileByte(f: nat, k: nat): byte
      requires HasFile(inodes, f)
      reads this
    {
      ByteIn(inodes[f], blocks, k)
    }

    /** One iteration of `translate_fs` when writing: `bytes` at `lo` of page `id`. */
    method WriteFilePart(f: nat, inode: Inode, id: nat, lo: nat, bytes: Block)
      requires Valid() && HasFile(inodes, f) && inode == inodes[f] && id < PageUp(inode.size) &&
        lo + |bytes| <= PAGESIZE
      modifies this`blocks
      ensures Valid()
      ensures forall g: nat, k: nat {:trigger FileByte(g, k)} ::
        HasFile(inodes, g) && k / PAGESIZE < PageUp(inodes[g].size) ==>
        var from := id * PAGESIZE + lo;
        FileByte(g, k) == if g == f && from <= k < from + |bytes| then bytes[k - from] else old(FileByte(g, k))
    {
      hide Assigned, Held;
      FilePage(inodes, PagesOf(inodes), blocks, owner, f, id);
      var phy := if id < DIRECT_PTRS then inode.direct[id] else Entry(blocks[inode.single], id - DIRECT_PTRS);
      ghost var blocks0 := blocks;
      blocks := blocks[phy := Splice(blocks[phy], lo, bytes)];
      PageWritten(inodes, PagesOf(inodes), blocks0, blocks, owner, f, id);
      forall g: nat, k: nat | HasFile(inodes, g) && k / PAGESIZE < PageUp(inodes[g].size)
        ensures var from := id * PAGESIZE + lo;
                FileByte(g, k) == if g == f && from <= k < from + |bytes| then bytes[k - from] else old(FileByte(g, k))
      {
        Divided(k, id);
        PageApart(inodes, PagesOf(inodes), blocks0, owner, f, id, g, k / PAGESIZE);
      }
    }

    /** One iteration of `translate_fs` when reading. */
    method ReadFilePart(f: nat, inode: Inode, id: nat, lo: nat, n: nat) returns (bytes: Block)
      requires Valid() && HasFile(inodes, f) && inode == inodes[f] && id < PageUp(inode.size) && lo + n <= PAGESIZE
      ensures |bytes| == n &&
        forall k: nat {:trigger bytes[k]} :: k < n ==> bytes[k] == FileByte(f, id * PAGESIZE + lo + k)
    {
      hide Assigned, Held;
      FilePage(inodes, PagesOf(inodes), blocks, owner, f, id);
      var phy := if id < DIRECT_PTRS then inode.direct[id] else Entry(blocks[inode.single], id - DIRECT_PTRS);
      bytes := blocks[phy][lo..lo + n];
      forall k: nat | k < n ensures bytes[k] == FileByte(f, id * PAGESIZE + lo + k) {
        Divided(id * PAGESIZE + lo + k, id);
      }
    }

    /** `fs_file_write`: the bytes are stored, and no other byte of this or any file changes. */
    method WriteFile(f: nat, offset: nat, data: Block)
      requires Valid() && HasFile(inodes, f) && PageUp(offset + |data|) <= PageUp(inodes[f].size)
      modifies this`blocks
      ensures Valid()
      ensures forall g: nat, k: nat {:trigger FileByte(g, k)} ::
        HasFile(inodes, g) && k / PAGESIZE < PageUp(inodes[g].size) ==>
        FileByte(g, k) == if g == f && offset <= k < offset + |data| then data[k - offset] else old(FileByte(g, k))
    {
      hide Assigned, Held, FileByte, At, PageUp;
      var inode := inodes[f];
      var stop := offset + |data|;
      var id, end := offset / PAGESIZE, PageUp(stop);
      var pageOffset: nat, pageMax: nat, rest := offset % PAGESIZE, offset % PAGESIZE + |data|, data;
      ghost var done: nat := 0;
      AtStart(offset, |data|);
      while id < end
        invariant At(offset, |data|, id, pageOffset, pageMax, done) && done <= |data| && rest == data[done..]
        invariant Valid()
        invariant forall g: nat, k: nat {:trigger FileByte(g, k)} ::
          HasFile(inodes, g) && k / PAGESIZE < PageUp(inodes[g].size) ==>
          FileByte(g, k) == if g == f && offset <= k < offset + done then data[k - offset] else old(FileByte(g, k))
      {
        AtStep(offset, |data|, id, pageOffset, pageMax, done);
        var top;
        if pageMax > PAGESIZE { top := PAGESIZE; pageMax := pageMax - PAGESIZE; } else { top := pageMax; }
        WriteFilePart(f, inode, id, pageOffset, rest[..top - pageOffset]);
        rest := rest[top - pageOffset..];
        done := done + top - pageOffset;
        pageOffset := 0;
        id := id + 1;
      }
      AtEnd(offset, |data|, id, pageOffset, pageMax, done);
    }

    /** `fs_file_read`: the bytes of the file. */
    method ReadFile(f: nat, offset: nat, n: nat) returns (data: Block)
      requires Valid() && HasFile(inodes, f) && PageUp(offset + n) <= PageUp(inodes[f].size)
      ensures |data| == n && forall k: nat {:trigger data[k]} :: k < n ==> data[k] == FileByte(f, offset + k)
    {
      hide Assigned, Held, FileByte, At, PageUp;
      var inode := inodes[f];
      var stop := offset + n;
      var id, end := offset / PAGESIZE, PageUp(stop);
      var pageOffset: nat, pageMax: nat := offset % PAGESIZE, offset % PAGESIZE + n;
      data := [];
      AtStart(offset, n);
      while id < end
        invariant At(offset, n, id, pageOffset, pageMax, |data|) && |data| <= n
        invariant forall k: nat {:trigger data[k]} :: k < |data| ==> data[k] == FileByte(f, offset + k)
      {
        AtStep(offset, n, id, pageOffset, pageMax, |data|);
        var top;
        if pageMax > PAGESIZE { top := PAGESIZE; pageMax := pageMax - PAGESIZE; } else { top := pageMax; }
        var bytes := ReadFilePart(f, inode, id, pageOffset, top - pageOffset);
        data := data + bytes;
        pageOffset := 0;
        id := id + 1;
      }
      AtEnd(offset, n, id, pageOffset, pageMax, |data|);
    }

    /** What was written reads back. */
    method WriteReadBack(f: nat, offset: nat, data: Block) returns (back: Block)
      requires Valid() && HasFile(inodes, f) && PageUp(offset + |data|) <= PageUp(inodes[f].size)
      modifies this`blocks
      ensures Valid() && back == data
      ensures forall g: nat, k: nat {:trigger FileByte(g, k)} ::
        HasFile(inodes, g) && k / PAGESIZE < PageUp(inodes[g].size) ==>
        FileByte(g, k) == if g == f && offset <= k < offset + |data| then data[k - offset] else old(FileByte(g, k))
    {
      hide Assigned, Held, FileByte;
      WriteFile(f, offset, data);
      back := ReadFile(f, offset, |data|);
      forall k: nat | k < |data| ensures back[k] == data[k] {
        assert back[k] == FileByte(f, offset + k);
        PageUpAbove(offset + k, offset + |data|);
      }
    }

    /** The bytes of the pages of file `g` are where they were. */
    twostate predicate SameBytes(g: nat)
      reads this
    {
      HasFile(old(inodes), g) && HasFile(inodes, g) &&
      forall k: nat {:trigger FileByte(g, k)} :: k / PAGESIZE < PageUp(old(inodes)[g].size) ==>
        FileByte(g, k) == old(FileByte(g, k))
    }

    /** A new file is filled: it reads back what was written, and no byte of another file changes. It
        works exactly if an inode and the blocks are there. */
    method CreateAndFill(direct: seq<nat>, single: nat, data: Block) returns (e: Ending, f: Option<nat>, back: Block)
      requires Valid() && |direct| == DIRECT_PTRS && PageUp(|data|) <= MAX_PAGES
      modifies this`bitmap, this`blocks, this`inodes, this`owner, this`inodeBitmap
      ensures f.None? <==> forall i: nat :: i < 8 * |old(inodeBitmap)| ==> Marked(old(inodeBitmap), i)
      ensures f.Some? ==> (e.Done? <==> old(Free()) >= AllocSum(0, PageUp(|data|)))
      ensures !e.PastDisk? ==> Valid()
      ensures f.Some? && e.Done? ==>
        && !HasFile(old(inodes), f.value) && HasFile(inodes, f.value) && inodes[f.value].size == |data| && back == data
        && forall g: nat {:trigger HasFile(old(inodes), g)} :: HasFile(old(inodes), g) ==> SameBytes(g)
    {
      hide Assigned, Held, AllKept, Cut, MarkedMore, MarkedLess, Exact, FreeCount, PadMarked, AllocSum, ByteIn;
      e, back := Done, [];
      TwoPages();
      f := Create(direct, single);
      if f.None? { return; }
      ghost var inodes1, blocks1 := inodes, blocks;
      e := Truncate(f.value, |data|);
      if !e.Done? { return; }
      ghost var inodes2, blocks2 := inodes, blocks;
      label Before:
      back := WriteReadBack(f.value, 0, data);
      forall g: nat | HasFile(old(inodes), g) ensures SameBytes(g) {
        assert HasFile(inodes1, g);
        forall k: nat | k / PAGESIZE < PageUp(old(inodes)[g].size) ensures FileByte(g, k) == old(FileByte(g, k)) {
          KeptByte(inodes2, blocks2, inodes1, blocks1, PagesOf(inodes1)[f.value := 0], g, k);
          assert FileByte(g, k) == old@Before(FileByte(g, k));
        }
      }
    }
  }

  /** Byte `k` of a file, in some state of the disk. */
  ghost function ByteIn(ino: Inode, blocks: seq<Block>, k: nat): byte
  {
    var b := BlockAt(ino, blocks, k / PAGESIZE);
    if b < |blocks| && k % PAGESIZE < |blocks[b]| then blocks[b][k % PAGESIZE] else 0
  }

  lemma KeptByte(inodes': map<nat, Inode>, blocks': seq<Block>, inodes: map<nat, Inode>, blocks: seq<Block>,
                 pages: map<nat, nat>, g: nat, k: nat)
    requires AllKept(inodes', blocks', inodes, blocks, pages) && HasFile(inodes, g) && g in pages &&
      k / PAGESIZE < pages[g]
    ensures HasFile(inodes', g) && ByteIn(inodes'[g], blocks', k) == ByteIn(inodes[g], blocks, k)
  {
    assert FileKept(inodes'[g], blocks', inodes[g], blocks, pages[g]);
  }

  // ----- a disk that runs full -----

  function Page(): Block { seq(PAGESIZE, _ => 0) }

  /** Bitmaps of one and two bytes. */
  lemma SmallBitmaps()
    ensures forall b: nat :: Marked([0x7f], b) <==> b < 7
    ensures forall b: nat :: Marked([0xff, 0x01], b) <==> b < 9
    ensures !Marked([0], 0)
  {
    assert forall k: nat :: k < 8 ==> (Bit(0x7f, k) <==> k < 7);
    assert forall k: nat :: k < 8 ==> Bit(0xff, k);
    assert forall k: nat :: k < 8 ==> (Bit(0x01, k) <==> k == 0);
  }

  lemma {:induction false} CountBelow(bitmap: seq<bv8>, full: nat, n: nat)
    requires forall b: nat :: Marked(bitmap, b) <==> b < full
    ensures FreeCount(bitmap, n) == if n <= full then 0 else n - full
  {
    hide Marked;
    if n > 0 { CountBelow(bitmap, full, n - 1); }
  }

  /** A file that grows by two pages on a disk with one free block: the call fails, and the block
      it took is marked for good although no file has it. */
  method OneBlockLeaks() returns (fs: FileSystem, e: Ending)
    ensures e == NoSpace && fs.Valid() && fs.owner == map[] && fs.reserved == 7 && fs.size == 8
    ensures Exact(fs.owner, [0x7f], 7, 8) && Marked(fs.bitmap, 7) && !Exact(fs.owner, fs.bitmap, 7, 8)
    ensures HasFile(fs.inodes, 0) && fs.inodes[0].size == 0
  {
    hide Marked, FreeCount, Assigned, AllKept;
    SmallBitmaps();
    CountBelow([0x7f], 7, 8);
    fs := new FileSystem(seq(8, _ => Page()), 7, [0x7f], [0]);
    var f := fs.Create(seq(DIRECT_PTRS, _ => 0), 0);
    assert f == Some(0);
    TwoPages();
    e := fs.Truncate(0, 2 * PAGESIZE);
  }

  lemma TwoPages()
    ensures PageUp(2 * PAGESIZE) == 2 && PageUp(PAGESIZE) == 1 && PageUp(0) == 0 && AllocSum(0, 2) == 2 &&
      AllocSum(0, 1) == 1
  {
    SumStep(0, 1);
    SumStep(0, 0);
  }

  /** A disk of nine blocks, all in use: the next block given out is number 9, past its end. */
  method BlockPastDisk() returns (fs: FileSystem, e: Ending)
    ensures e == PastDisk && fs.size == 9
  {
    hide Marked, FreeCount, Assigned, AllKept;
    SmallBitmaps();
    CountBelow([0xff, 0x01], 9, 9);
    fs := new FileSystem(seq(9, _ => Page()), 9, [0xff, 0x01], [0]);
    var f := fs.Create(seq(DIRECT_PTRS, _ => 0), 0);
    assert f == Some(0);
    TwoPages();
    assert !Marked(fs.bitmap, 9);
    e := fs.Truncate(0, PAGESIZE);
  }

  lemma PageUpMonotone(a: nat, b: nat)
    requires a <= b
    ensures PageUp(a) <= PageUp(b)
  {
  }

  lemma PageUpAbove(k: nat, stop: nat)
    requires k < stop
    ensures k / PAGESIZE < PageUp(stop)
  {
  }

  /** A page of a file is a block of the device, found through a block of its index. */
  lemma FilePage(inodes: map<nat, Inode>, pages: map<nat, nat>, blocks: seq<Block>, owner: map<nat, Place>, f: nat,
                 id: nat)
    requires Assigned(inodes, pages, blocks, owner) && HasFile(inodes, f) && id < pages[f]
    ensures |inodes[f].direct| == DIRECT_PTRS && id < MAX_PAGES
    ensures id >= DIRECT_PTRS ==> inodes[f].single < |blocks| && |blocks[inodes[f].single]| == PAGESIZE
    ensures BlockAt(inodes[f], blocks, id) < |blocks| && |blocks[BlockAt(inodes[f], blocks, id)]| == PAGESIZE
  {
    assert Owns(owner, BlockAt(inodes[f], blocks, id), Data(f, id)) && Owned(owner, BlockAt(inodes[f], blocks, id));
    if id >= DIRECT_PTRS { assert Owns(owner, inodes[f].single, Index(f)) && Owned(owner, inodes[f].single); }
  }

  /** Writing a data block moves no page. */
  lemma PageWritten(inodes: map<nat, Inode>, pages: map<nat, nat>, blocks: seq<Block>, blocks': seq<Block>,
                    owner: map<nat, Place>, f: nat, id: nat)
    requires Assigned(inodes, pages, blocks, owner) && HasFile(inodes, f) && id < pages[f]
    requires OnlyAt(blocks', blocks, BlockAt(inodes[f], blocks, id))
    requires BlockAt(inodes[f], blocks, id) < |blocks| ==> |blocks'[BlockAt(inodes[f], blocks, id)]| == PAGESIZE
    ensures Assigned(inodes, pages, blocks', owner)
    ensures forall g: nat, i: nat {:trigger BlockAt(inodes[g], blocks', i)} :: HasFile(inodes, g) && i < pages[g] ==>
      BlockAt(inodes[g], blocks', i) == BlockAt(inodes[g], blocks, i)
  {
    var b := BlockAt(inodes[f], blocks, id);
    assert Owns(owner, b, Data(f, id)) && Owned(owner, b);
    forall g: nat, i: nat | HasFile(inodes, g) && i < pages[g]
      ensures BlockAt(inodes[g], blocks', i) == BlockAt(inodes[g], blocks, i)
    {
      if i >= DIRECT_PTRS { assert Owns(owner, inodes[g].single, Index(g)) && Owned(owner, inodes[g].single); }
    }
    forall c: nat | c < |blocks'| ensures |blocks'[c]| == PAGESIZE { if c != b { assert blocks'[c] == blocks[c]; } }
    forall g: nat | HasFile(inodes, g) ensures FileOk(g, inodes[g], pages[g], blocks', owner) {
      assert FileOk(g, inodes[g], pages[g], blocks, owner);
      forall i: nat | i < pages[g] ensures Owns(owner, BlockAt(inodes[g], blocks', i), Data(g, i)) {
        assert Owns(owner, BlockAt(inodes[g], blocks, i), Data(g, i));
      }
    }
    forall c: nat | Owned(owner, c) ensures Sits(inodes, pages, blocks', c, owner[c]) {
      assert Sits(inodes, pages, blocks, c, owner[c]);
    }
  }

  /** Pages of files are different blocks. */
  lemma PageApart(inodes: map<nat, Inode>, pages: map<nat, nat>, blocks: seq<Block>, owner: map<nat, Place>, f: nat,
                  id: nat, g: nat, i: nat)
    requires Assigned(inodes, pages, blocks, owner) && HasFile(inodes, f) && id < pages[f] && HasFile(inodes, g) &&
      i < pages[g]
    ensures BlockAt(inodes[f], blocks, id) == BlockAt(inodes[g], blocks, i) <==> f == g && id == i
  {
    assert Owns(owner, BlockAt(inodes[f], blocks, id), Data(f, id)) &&
      Owns(owner, BlockAt(inodes[g], blocks, i), Data(g, i));
  }

  lemma ThereAndBack(f: nat, newsize: nat, inodes0: map<nat, Inode>, blocks0: seq<Block>, owner0: map<nat, Place>,
                     bitmap0: seq<bv8>,
                     inodes1: map<nat, Inode>, blocks1: seq<Block>, owner1: map<nat, Place>, bitmap1: seq<bv8>,
                     inodes2: map<nat, Inode>, blocks2: seq<Block>, owner2: map<nat, Place>, bitmap2: seq<bv8>)
    requires HasFile(inodes0, f) && HasFile(inodes1, f) && HasFile(inodes2, f) &&
      PageUp(inodes0[f].size) <= PageUp(newsize)
    requires Truncated(f, newsize, inodes0, blocks0, owner0, bitmap0, inodes1, blocks1, owner1, bitmap1)
    requires Truncated(f, inodes0[f].size, inodes1, blocks1, owner1, bitmap1, inodes2, blocks2, owner2, bitmap2)
    requires Cut(owner1, f, PageUp(newsize)) == owner1 && Cut(owner2, f, PageUp(inodes0[f].size)) == owner2
    ensures bitmap2 == bitmap0 && owner2 == owner0
  {
    forall b: nat ensures Marked(bitmap2, b) == Marked(bitmap0, b) {
      assert Marked(bitmap1, b) || !Marked(bitmap1, b);
    }
    SameMarks(bitmap2, bitmap0);
  }

  /** The counter of the shrinking loop, 64 bits, after `n` rounds from `id`. */
  function Counter(id: nat, n: nat): nat
  {
    if n == 0 then id else (Counter(id, n - 1) + 0xffff_ffff_ffff_ffff) % 0x1_0000_0000_0000_0000
  }

  lemma {:induction false} CounterDown(id: nat, n: nat)
    requires n <= id < 0x1_0000_0000_0000_0000
    ensures Counter(id, n) == id - n
  {
    if n > 0 { CounterDown(id, n - 1); }
  }

  /** The shrinking loop, which starts at the last page and goes on while the counter is at least
      the new number of pages, ends exactly if that number is not 0. */
  lemma ShrinkEnds(last: nat, newPages: nat)
    requires newPages <= last < 0x1_0000_0000_0000_0000
    ensures (exists n: nat :: Counter(last, n) < newPages) <==> newPages >= 1
  {
    if newPages >= 1 {
      CounterDown(last, last + 1 - newPages);
      assert Counter(last, last + 1 - newPages) < newPages;
    }
  }

  /** `allocate_block` may give out a bit past the end of the disk; it does exactly if no block of
      the disk is free. */
  lemma AllocatedOnDisk(bitmap: seq<bv8>, size: nat, b: nat)
    requires |bitmap| == (size + 7) / 8 && b < 8 * |bitmap| && !Marked(bitmap, b) &&
      forall c: nat :: c < b ==> Marked(bitmap, c)
    ensures b < size <==> exists c: nat :: c < size && !Marked(bitmap, c)
  {
  }

  /** `bitmap` marks what `bitmap0` did but for what `own` lost of `owner`. */
  ghost predicate MarkedLess(bitmap: seq<bv8>, bitmap0: seq<bv8>, own: map<nat, Place>, owner: map<nat, Place>)
  {
    && |bitmap| == |bitmap0|
    && forall b: nat {:trigger Marked(bitmap, b)} {:trigger Owned(own, b)} ::
      Marked(bitmap, b) <==> Marked(bitmap0, b) && !(Owned(owner, b) && !Owned(own, b))
  }

  /** Where the shrinking loop of `fs_file_truncate` is when `cur` pages of file `f` are left. */
  ghost predicate Shrinking(f: nat, cur: nat, inodes: map<nat, Inode>, blocks: seq<Block>, own: map<nat, Place>,
                            bitmap: seq<bv8>, owner: map<nat, Place>, bitmap0: seq<bv8>, reserved: nat, size: nat)
  {
    && HasFile(inodes, f) && cur <= PageUp(inodes[f].size)
    && Assigned(inodes, PagesOf(inodes)[f := cur], blocks, own) && Held(own, bitmap, reserved, size)
    && own == Cut(owner, f, cur) && MarkedLess(bitmap, bitmap0, own, owner)
  }

  lemma ShrinkStart(f: nat, inodes: map<nat, Inode>, blocks: seq<Block>, owner: map<nat, Place>, bitmap: seq<bv8>,
                    reserved: nat, size: nat)
    requires Assigned(inodes, PagesOf(inodes), blocks, owner) && Held(owner, bitmap, reserved, size) &&
      HasFile(inodes, f)
    ensures Shrinking(f, PageUp(inodes[f].size), inodes, blocks, owner, bitmap, owner, bitmap, reserved, size)
  {
    var n := PageUp(inodes[f].size);
    assert PagesOf(inodes)[f := n] == PagesOf(inodes);
    forall b: nat | b in owner ensures !Beyond(owner[b], f, n) { assert Owned(owner, b); }
    assert Cut(owner, f, n) == owner;
  }

  /** Without the blocks of the last page, ownership is cut by one page. */
  lemma CutLast(f: nat, cur: nat, inodes: map<nat, Inode>, pages: map<nat, nat>, blocks: seq<Block>,
                own: map<nat, Place>, owner: map<nat, Place>)
    requires Assigned(inodes, pages, blocks, own) && HasFile(inodes, f) && pages[f] == cur > 0 &&
      own == Cut(owner, f, cur)
    ensures own - Last(inodes, pages, blocks, f) == Cut(owner, f, cur - 1)
  {
    var gone := Last(inodes, pages, blocks, f);
    assert Owns(own, BlockAt(inodes[f], blocks, cur - 1), Data(f, cur - 1));
    assert cur > DIRECT_PTRS ==> Owns(own, inodes[f].single, Index(f));
    forall b: nat | b in own ensures b in gone <==> Beyond(own[b], f, cur - 1) { assert Owned(own, b); }
  }

  /** The bitmap after the blocks that go with page `p` are unmarked. */
  function Lost(bitmap: seq<bv8>, ino: Inode, blocks: seq<Block>, p: nat): seq<bv8>
  {
    var d := BlockAt(ino, blocks, p);
    var bitmap1 := if d / 8 < |bitmap| then Unmark(bitmap, d) else bitmap;
    if p == DIRECT_PTRS && ino.single / 8 < |bitmap1| then Unmark(bitmap1, ino.single) else bitmap1
  }

  /** What an iteration of the shrinking loop relies on, and what it leads to. */
  lemma ShrinkFacts(f: nat, cur: nat, inodes: map<nat, Inode>, blocks: seq<Block>, own: map<nat, Place>,
                    bitmap: seq<bv8>, owner: map<nat, Place>, bitmap0: seq<bv8>, reserved: nat, size: nat)
    requires Shrinking(f, cur, inodes, blocks, own, bitmap, owner, bitmap0, reserved, size) && cur > 0
    ensures HasFile(inodes, f)
    ensures var ino, p := inodes[f], cur - 1;
            && |ino.direct| == DIRECT_PTRS && cur <= MAX_PAGES && Marked(bitmap, BlockAt(ino, blocks, p))
            && (p >= DIRECT_PTRS ==> ino.single < |blocks| && |blocks[ino.single]| == PAGESIZE)
            && (p == DIRECT_PTRS ==>
              Marked(bitmap, ino.single) && ino.single < size && ino.single != BlockAt(ino, blocks, p))
            && BlockAt(ino, blocks, p) < size
    ensures Shrinking(f, cur - 1, inodes, blocks, own - Last(inodes, PagesOf(inodes)[f := cur], blocks, f),
                      Lost(bitmap, inodes[f], blocks, cur - 1), owner, bitmap0, reserved, size)
  {
    var ino, p, pages := inodes[f], cur - 1, PagesOf(inodes)[f := cur];
    var d, gone := BlockAt(ino, blocks, p), Last(inodes, pages, blocks, f);
    assert Owns(own, d, Data(f, p)) && Owned(own, d);
    assert p >= DIRECT_PTRS ==> Owns(own, ino.single, Index(f)) && Owned(own, ino.single);
    ShrinkOne(inodes, pages, blocks, own, f);
    assert pages[f := p] == PagesOf(inodes)[f := p];
    CutLast(f, cur, inodes, pages, blocks, own, owner);
    var bitmap1 := Unmark(bitmap, d);
    forall c: nat ensures Marked(bitmap1, c) <==> c != d && Marked(bitmap, c) { MarkOne(bitmap, d, c); }
    if p == DIRECT_PTRS {
      forall c: nat ensures Marked(Unmark(bitmap1, ino.single), c) <==> c != ino.single && Marked(bitmap1, c) {
        MarkOne(bitmap1, ino.single, c);
      }
    }
    var own', bitmap' := own - gone, Lost(bitmap, ino, blocks, p);
    forall c: nat ensures (Marked(bitmap', c) <==> Marked(bitmap, c) && c !in gone) && (Owned(own', c) <==>
      Owned(own, c) && c !in gone) { }
    forall c: nat | c < reserved ensures Marked(bitmap', c) {
      assert Marked(bitmap, c);
      assert c in gone ==> Owned(own, c);
    }
    forall c: nat | c in gone ensures Owned(owner, c) { }
  }

  /** What a successful truncate does: the size is set, ownership is that of the first pages, the
      bitmap follows ownership, and every page that stays is where it was, with its bytes. */
  ghost predicate Truncated(f: nat, newsize: nat, inodes: map<nat, Inode>, blocks: seq<Block>, owner: map<nat, Place>,
                            bitmap: seq<bv8>,
                            inodes': map<nat, Inode>, blocks': seq<Block>, owner': map<nat, Place>, bitmap': seq<bv8>)
    requires HasFile(inodes, f)
  {
    var n, n' := PageUp(inodes[f].size), PageUp(newsize);
    && HasFile(inodes', f) && inodes' == inodes[f := inodes'[f]] && inodes'[f].size == newsize
    && (if n <= n' then Cut(owner', f, n) == owner && MarkedMore(bitmap', bitmap, owner', owner)
        else owner' == Cut(owner, f, n') && MarkedLess(bitmap', bitmap, owner', owner))
    && AllKept(inodes', blocks', inodes, blocks, PagesOf(inodes)[f := if n <= n' then n else n'])
  }

  /** The size of a file says nothing about where its pages are. */
  lemma Resize(inodes: map<nat, Inode>, pages: map<nat, nat>, blocks: seq<Block>, owner: map<nat, Place>, f: nat,
               size: nat)
    requires Assigned(inodes, pages, blocks, owner) && HasFile(inodes, f)
    ensures Assigned(inodes[f := inodes[f].(size := size)], pages, blocks, owner)
  {
    var inodes' := inodes[f := inodes[f].(size := size)];
    forall i: nat ensures BlockAt(inodes'[f], blocks, i) == BlockAt(inodes[f], blocks, i) { }
    forall g: nat | HasFile(inodes', g) ensures FileOk(g, inodes'[g], pages[g], blocks, owner) {
      assert HasFile(inodes, g) && FileOk(g, inodes[g], pages[g], blocks, owner);
    }
    forall b: nat | Owned(owner, b) ensures Sits(inodes', pages, blocks, b, owner[b]) {
      assert Sits(inodes, pages, blocks, b, owner[b]);
    }
  }

  lemma ResizeKept(inodes1: map<nat, Inode>, blocks1: seq<Block>, inodes: map<nat, Inode>, blocks: seq<Block>,
                   pages: map<nat, nat>, f: nat, size: nat)
    requires AllKept(inodes1, blocks1, inodes, blocks, pages) && HasFile(inodes, f)
    ensures AllKept(inodes1[f := inodes1[f].(size := size)], blocks1, inodes, blocks, pages)
  {
    var inodes' := inodes1[f := inodes1[f].(size := size)];
    forall i: nat ensures BlockAt(inodes'[f], blocks1, i) == BlockAt(inodes1[f], blocks1, i) { }
    forall g: nat | HasFile(inodes, g)
      ensures HasFile(inodes', g) && FileKept(inodes'[g], blocks1, inodes[g], blocks, pages[g]) {
      assert FileKept(inodes1[g], blocks1, inodes[g], blocks, pages[g]);
    }
  }

  lemma TruncateNothing(f: nat, inodes: map<nat, Inode>, blocks: seq<Block>, owner: map<nat, Place>, bitmap: seq<bv8>,
                        reserved: nat, size: nat)
    requires Assigned(inodes, PagesOf(inodes), blocks, owner) && Held(owner, bitmap, reserved, size) &&
      HasFile(inodes, f) && |blocks| == size
    ensures Truncated(f, inodes[f].size, inodes, blocks, owner, bitmap, inodes, blocks, owner, bitmap)
  {
    hide Assigned, Held;
    GrowStart(f, inodes, blocks, owner, bitmap, reserved, size);
    assert inodes[f := inodes[f]] == inodes && PagesOf(inodes)[f := PageUp(inodes[f].size)] == PagesOf(inodes);
  }

  lemma GrowDone(f: nat, newsize: nat, inode: Inode, inodes: map<nat, Inode>, blocks: seq<Block>, own: map<nat, Place>,
                 bitmap: seq<bv8>,
                 blocks0: seq<Block>, owner: map<nat, Place>, bitmap0: seq<bv8>, reserved: nat, size: nat)
    requires Growing(f, inode, PageUp(newsize), inodes, blocks, own, bitmap, blocks0, owner, bitmap0, reserved, size)
    ensures var inodes' := inodes[f := inode.(size := newsize)];
            && Assigned(inodes', PagesOf(inodes'), blocks, own) && Held(own, bitmap, reserved, size) && |blocks| == size
            && Truncated(f, newsize, inodes, blocks0, owner, bitmap0, inodes', blocks, own, bitmap)
  {
    hide Assigned, Held, AllKept, MarkedMore, Cut;
    var inodes1, inodes', n := inodes[f := inode], inodes[f := inode.(size := newsize)], PageUp(inodes[f].size);
    Resize(inodes1, PagesOf(inodes)[f := PageUp(newsize)], blocks, own, f, newsize);
    assert inodes1[f := inodes1[f].(size := newsize)] == inodes' &&
      PagesOf(inodes') == PagesOf(inodes)[f := PageUp(newsize)];
    ResizeKept(inodes1, blocks, inodes, blocks0, PagesOf(inodes), f, newsize);
    assert PagesOf(inodes)[f := n] == PagesOf(inodes);
  }

  lemma ShrinkDone(f: nat, newsize: nat, inodes: map<nat, Inode>, blocks: seq<Block>, own: map<nat, Place>,
                   bitmap: seq<bv8>, owner: map<nat, Place>, bitmap0: seq<bv8>, reserved: nat, size: nat)
    requires Shrinking(f, PageUp(newsize), inodes, blocks, own, bitmap, owner, bitmap0, reserved, size)
    requires Assigned(inodes, PagesOf(inodes), blocks, owner)
    ensures var inodes' := inodes[f := inodes[f].(size := newsize)];
            && Assigned(inodes', PagesOf(inodes'), blocks, own) && Held(own, bitmap, reserved, size)
            && Truncated(f, newsize, inodes, blocks, owner, bitmap0, inodes', blocks, own, bitmap)
  {
    hide Assigned, Held, AllKept;
    var n, n' := PageUp(inodes[f].size), PageUp(newsize);
    var pages', inodes' := PagesOf(inodes)[f := n'], inodes[f := inodes[f].(size := newsize)];
    Resize(inodes, pages', blocks, own, f, newsize);
    assert PagesOf(inodes') == pages';
    KeptRefl(inodes, pages', blocks, own);
    ResizeKept(inodes, blocks, inodes, blocks, pages', f, newsize);
    if n == n' {
      NothingBeyond(f, inodes, blocks, owner);
      assert MarkedMore(bitmap, bitmap0, own, owner);
    }
  }

  lemma NothingBeyond(f: nat, inodes: map<nat, Inode>, blocks: seq<Block>, owner: map<nat, Place>)
    requires Assigned(inodes, PagesOf(inodes), blocks, owner) && HasFile(inodes, f)
    ensures Cut(owner, f, PageUp(inodes[f].size)) == owner
  {
    forall b: nat | b in owner ensures !Beyond(owner[b], f, PageUp(inodes[f].size)) { assert Owned(owner, b); }
  }

  lemma BothMarked(bitmap: seq<bv8>, d: nat, x: nat)
    ensures Marked(bitmap, d) ==> d / 8 < |bitmap| && |Unmark(bitmap, d)| == |bitmap|
    ensures Marked(bitmap, d) && Marked(bitmap, x) && x != d ==> x / 8 < |bitmap| && Marked(Unmark(bitmap, d), x)
  {
    if Marked(bitmap, d) { MarkOne(bitmap, d, x); }
  }

  /** A free block is in the data area. */
  lemma FreeInData(own: map<nat, Place>, bitmap: seq<bv8>, reserved: nat, size: nat, b: nat)
    requires Held(own, bitmap, reserved, size) && b / 8 < |bitmap| && !Marked(bitmap, b)
    ensures reserved <= b
  {
  }

  lemma PadKept(bitmap: seq<bv8>, x: nat, size: nat)
    requires x / 8 < |bitmap| && x < size
    ensures PadMarked(Mark(bitmap, x), size) <==> PadMarked(bitmap, size)
  {
    hide Marked;
    forall b: nat ensures Marked(Mark(bitmap, x), b) <==> b == x || Marked(bitmap, b) { MarkOne(bitmap, x, b); }
    if PadMarked(Mark(bitmap, x), size) {
      forall b: nat | size <= b < 8 * |bitmap| ensures Marked(bitmap, b) { assert Marked(Mark(bitmap, x), b); }
    }
  }

  /** Growing marks no bit past the end of the disk. */
  lemma PadSame(f: nat, inode: Inode, cur: nat, inodes: map<nat, Inode>, blocks: seq<Block>, own: map<nat, Place>,
                bitmap: seq<bv8>,
                blocks0: seq<Block>, owner: map<nat, Place>, bitmap0: seq<bv8>, reserved: nat, size: nat)
    requires Growing(f, inode, cur, inodes, blocks, own, bitmap, blocks0, owner, bitmap0, reserved, size)
    ensures |bitmap| == |bitmap0| && (PadMarked(bitmap, size) <==> PadMarked(bitmap0, size))
  {
    hide Marked, Assigned, AllKept, Cut;
    forall b: nat | size <= b ensures Marked(bitmap, b) <==> Marked(bitmap0, b) {
      assert Marked(bitmap, b) <==> Marked(bitmap0, b) || (Owned(own, b) && !Owned(owner, b));
    }
    if PadMarked(bitmap, size) {
      forall b: nat | size <= b < 8 * |bitmap0| ensures Marked(bitmap0, b) { assert Marked(bitmap, b); }
    }
  }

  /** When everything is marked, the blocks that were free before belong to nobody. */
  lemma Leaked(owner: map<nat, Place>, bitmap0: seq<bv8>, bitmap: seq<bv8>, reserved: nat, size: nat)
    requires Held(owner, bitmap0, reserved, size) && |bitmap| == |bitmap0|
    requires forall b: nat {:trigger Marked(bitmap, b)} :: b < 8 * |bitmap| ==> Marked(bitmap, b)
    ensures Exact(owner, bitmap, reserved, size) <==>
      Exact(owner, bitmap0, reserved, size) && FreeCount(bitmap0, size) == 0
  {
    FreeSome(bitmap0, size);
    if Exact(owner, bitmap, reserved, size) {
      forall b: nat | reserved <= b < size ensures Owned(owner, b) { assert Marked(bitmap, b); }
      forall b: nat | b < size ensures Marked(bitmap0, b) { assert b < reserved || Owned(owner, b); }
    }
    if Exact(owner, bitmap0, reserved, size) && FreeCount(bitmap0, size) == 0 {
      forall b: nat | reserved <= b < size ensures Owned(owner, b) { assert Marked(bitmap0, b); }
    }
  }

  lemma NoPages(lo: nat, hi: nat)
    ensures hi <= lo ==> AllocSum(lo, hi) == 0
  {
  }

  lemma SumStep(lo: nat, n: nat)
    requires lo <= n
    ensures AllocSum(lo, n + 1) == AllocSum(lo, n) + Allocs(n)
  {
  }

  /** A truncate that succeeds leaks nothing and finds nothing. */
  lemma TruncatedExact(f: nat, newsize: nat, inodes: map<nat, Inode>, blocks: seq<Block>, owner: map<nat, Place>,
                       bitmap: seq<bv8>,
                       inodes': map<nat, Inode>, blocks': seq<Block>, owner': map<nat, Place>, bitmap': seq<bv8>,
                       reserved: nat, size: nat)
    requires HasFile(inodes, f) &&
      Truncated(f, newsize, inodes, blocks, owner, bitmap, inodes', blocks', owner', bitmap')
    ensures Exact(owner', bitmap', reserved, size) <==> Exact(owner, bitmap, reserved, size)
  {
    hide Marked, AllKept;
    assert forall b: nat :: Owned(Cut(owner, f, PageUp(newsize)), b) ==> Owned(owner, b);
    if Exact(owner', bitmap', reserved, size) {
      forall b: nat | reserved <= b < size && Marked(bitmap, b) ensures Owned(owner, b) {
        assert Marked(bitmap', b) || !Marked(bitmap', b);
      }
    }
    if Exact(owner, bitmap, reserved, size) {
      forall b: nat | reserved <= b < size && Marked(bitmap', b) ensures Owned(owner', b) {
        assert Marked(bitmap, b) || !Marked(bitmap, b);
      }
    }
  }

  /** An empty file more. */
  lemma CreateKeeps(inodes: map<nat, Inode>, blocks: seq<Block>, owner: map<nat, Place>, f: nat, ino: Inode)
    requires Assigned(inodes, PagesOf(inodes), blocks, owner) && !HasFile(inodes, f) && ino.size == 0 &&
      |ino.direct| == DIRECT_PTRS
    ensures Assigned(inodes[f := ino], PagesOf(inodes[f := ino]), blocks, owner)
  {
    var inodes' := inodes[f := ino];
    forall g: nat | HasFile(inodes', g) ensures FileOk(g, inodes'[g], PagesOf(inodes')[g], blocks, owner) {
      if g != f { assert HasFile(inodes, g); }
    }
    forall b: nat | Owned(owner, b) ensures Sits(inodes', PagesOf(inodes'), blocks, b, owner[b]) {
      assert Sits(inodes, PagesOf(inodes), blocks, b, owner[b]);
    }
  }

  lemma MarksGrow(bitmap: seq<bv8>, x: nat)
    requires x / 8 < |bitmap|
    ensures |Mark(bitmap, x)| == |bitmap|
    ensures forall b: nat {:trigger Marked(Mark(bitmap, x), b)} :: Marked(bitmap, b) ==> Marked(Mark(bitmap, x), b)
  {
    forall b: nat | Marked(bitmap, b) ensures Marked(Mark(bitmap, x), b) { MarkOne(bitmap, x, b); }
  }

  /** The second block of a page is none of those in use, nor the first. */
  lemma SecondFree(own: map<nat, Place>, bitmap: seq<bv8>, bitmap1: seq<bv8>, reserved: nat, size: nat, x: nat, d: nat,
                   both: bool)
    requires Held(own, bitmap, reserved, size) && d / 8 < |bitmap1| && d < size && !Marked(bitmap1, d)
    requires if both then x / 8 < |bitmap| && bitmap1 == Mark(bitmap, x) else bitmap1 == bitmap && Marked(bitmap, x)
    ensures reserved <= d < size && d != x && !Marked(bitmap, d)
  {
    if both { MarkOne(bitmap, x, d); }
  }
}
