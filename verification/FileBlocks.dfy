/** Which blocks belong to which file (kernel/fs_file.c, kernel/filesystem.h): 25 direct pointers
    in the inode and one index block of 1024 more. */
module FileBlocks {
  import opened Limits
  import opened Paging
  import opened Bitmap
  import opened Chunks

  /** Pages a file may have without double indirection. */
  const MAX_PAGES := 1049

  /** Entry `i` of an index block: 32 bits, little-endian. */
  function Entry(block: Block, i: nat): nat
    requires 4 * i + 4 <= |block|
  {
    var a: nat, b: nat, c: nat, d: nat := block[4 * i], block[4 * i + 1], block[4 * i + 2], block[4 * i + 3];
    a + 0x100 * b + 0x1_0000 * c + 0x100_0000 * d
  }

  function SetEntry(block: Block, i: nat, v: nat): (r: Block)
    requires 4 * i + 4 <= |block|
    ensures |r| == |block|
  {
    block[4 * i := v % 0x100][4 * i + 1 := v / 0x100 % 0x100][4 * i + 2 := v / 0x1_0000 % 0x100][4 * i + 3 :=
      v / 0x100_0000 % 0x100]
  }

  lemma SetEntryAt(block: Block, i: nat, v: nat, j: nat)
    requires 4 * i + 4 <= |block| && 4 * j + 4 <= |block|
    ensures SetEntry(block, i, v)[4 * j..4 * j + 4] ==
            if j == i then [v % 0x100, v / 0x100 % 0x100, v / 0x1_0000 % 0x100, v / 0x100_0000 % 0x100]
              else block[4 * j..4 * j + 4]
  {
  }

  lemma EntrySlice(block: Block, i: nat)
    requires 4 * i + 4 <= |block|
    ensures Entry(block, i) == Entry(block[4 * i..4 * i + 4], 0)
  {
  }

  /** An entry reads back as written, and no other entry changes. */
  lemma EntryBack(block: Block, i: nat, v: nat, j: nat)
    requires 4 * i + 4 <= |block| && 4 * j + 4 <= |block| && v < 0x1_0000_0000
    ensures Entry(SetEntry(block, i, v), j) == if j == i then v else Entry(block, j)
  {
    hide SetEntry;
    SetEntryAt(block, i, v, j);
    EntrySlice(SetEntry(block, i, v), j);
    EntrySlice(block, j);
    Digits(v);
  }

  datatype Inode = Inode(size: nat, direct: seq<nat>, single: nat)

  /** The one place a block has: a page of a file, or a file's index block. */
  datatype Place = Data(file: nat, page: nat) | Index(file: nat)

  /** The block of page `i`, found the way `translate_fs` finds it. */
  function BlockAt(ino: Inode, blocks: seq<Block>, i: nat): nat
  {
    if i < DIRECT_PTRS then if i < |ino.direct| then ino.direct[i] else 0
    else if i < MAX_PAGES && ino.single < |blocks| && |blocks[ino.single]| == PAGESIZE
      then Entry(blocks[ino.single], i - DIRECT_PTRS)
    else 0
  }

  predicate HasFile(inodes: map<nat, Inode>, f: nat) { f in inodes }

  predicate Owns(owner: map<nat, Place>, b: nat, p: Place) { b in owner && owner[b] == p }

  predicate Owned(owner: map<nat, Place>, b: nat) { b in owner }

  /** The first `n` pages of the file are its own. */
  ghost predicate FileOk(f: nat, ino: Inode, n: nat, blocks: seq<Block>, owner: map<nat, Place>)
  {
    && |ino.direct| == DIRECT_PTRS && n <= MAX_PAGES
    && (n > DIRECT_PTRS ==> Owns(owner, ino.single, Index(f)))
    && (forall i: nat {:trigger BlockAt(ino, blocks, i)} :: i < n ==> Owns(owner, BlockAt(ino, blocks, i), Data(f, i)))
  }

  /** Owned blocks and places of files are in one-to-one correspondence. */
  ghost predicate Assigned(inodes: map<nat, Inode>, pages: map<nat, nat>, blocks: seq<Block>, owner: map<nat, Place>)
  {
    && pages.Keys == inodes.Keys
    && (forall b: nat {:trigger blocks[b]} :: b < |blocks| ==> |blocks[b]| == PAGESIZE)
    && (forall f: nat {:trigger HasFile(inodes, f)} :: HasFile(inodes, f) ==>
      FileOk(f, inodes[f], pages[f], blocks, owner))
    && (forall b: nat {:trigger Owned(owner, b)} :: Owned(owner, b) ==>
      b < |blocks| && Sits(inodes, pages, blocks, b, owner[b]))
  }

  /** Block `b` is the one at this place. */
  predicate Sits(inodes: map<nat, Inode>, pages: map<nat, nat>, blocks: seq<Block>, b: nat, p: Place)
  {
    match p
    case Data(f, i) => HasFile(inodes, f) && f in pages && i < pages[f] && BlockAt(inodes[f], blocks, i) == b
    case Index(f) => HasFile(inodes, f) && f in pages && pages[f] > DIRECT_PTRS && inodes[f].single == b
  }

  /** `blocks'` differs from `blocks` at most at `x`. */
  ghost predicate OnlyAt(blocks': seq<Block>, blocks: seq<Block>, x: nat)
  {
    |blocks'| == |blocks| && forall b: nat {:trigger blocks'[b]} :: b < |blocks| && b != x ==> blocks'[b] == blocks[b]
  }

  /** A change of an index block of `f`, or of a block nobody owns, does not move pages of others. */
  lemma OtherFile(inodes: map<nat, Inode>, pages: map<nat, nat>, blocks: seq<Block>, blocks': seq<Block>,
                  owner: map<nat, Place>, f: nat, g: nat, x: nat, i: nat)
    requires Assigned(inodes, pages, blocks, owner) && HasFile(inodes, g) && g != f && i < pages[g]
    requires OnlyAt(blocks', blocks, x) && (Owned(owner, x) ==> owner[x] == Index(f))
    ensures BlockAt(inodes[g], blocks', i) == BlockAt(inodes[g], blocks, i) < |blocks|
    ensures blocks'[BlockAt(inodes[g], blocks, i)] == blocks[BlockAt(inodes[g], blocks, i)]
  {
    assert Owns(owner, BlockAt(inodes[g], blocks, i), Data(g, i));
    assert Owned(owner, BlockAt(inodes[g], blocks, i));
    if i >= DIRECT_PTRS { assert Owns(owner, inodes[g].single, Index(g)) && Owned(owner, inodes[g].single); }
  }

  /** Page `p` of file `f` gets block `d`, as a direct pointer. */
  lemma GrowDirect(inodes: map<nat, Inode>, pages: map<nat, nat>, blocks: seq<Block>, owner: map<nat, Place>, f: nat,
                   d: nat)
    requires Assigned(inodes, pages, blocks, owner) && HasFile(inodes, f) && pages[f] < DIRECT_PTRS &&
      !Owned(owner, d) && d < |blocks|
    ensures |inodes[f].direct| == DIRECT_PTRS
    ensures var p := pages[f];
            Assigned(inodes[f := inodes[f].(direct := inodes[f].direct[p := d])], pages[f := p + 1], blocks,
              owner[d := Data(f, p)])
  {
    var p, ino := pages[f], inodes[f];
    assert FileOk(f, ino, p, blocks, owner);
    var ino' := ino.(direct := ino.direct[p := d]);
    var inodes', pages', owner' := inodes[f := ino'], pages[f := p + 1], owner[d := Data(f, p)];
    forall g: nat | HasFile(inodes', g) ensures FileOk(g, inodes'[g], pages'[g], blocks, owner') {
      assert HasFile(inodes, g);
      forall i: nat | i < pages'[g] ensures Owns(owner', BlockAt(inodes'[g], blocks, i), Data(g, i)) {
        if g != f || i != p { assert Owns(owner, BlockAt(inodes[g], blocks, i), Data(g, i)); }
      }
    }
    forall b: nat | Owned(owner', b)
      ensures b < |blocks| && Sits(inodes', pages', blocks, b, owner'[b])
    {
      if b != d { assert Owned(owner, b); }
    }
  }

  lemma EntryAdded(ino: Inode, blocks: seq<Block>, x: nat, p: nat, d: nat, i: nat)
    requires DIRECT_PTRS <= p < MAX_PAGES && x < |blocks| && |blocks[x]| == PAGESIZE && d < 0x1_0000_0000 && i <= p
    requires |ino.direct| == DIRECT_PTRS && (p > DIRECT_PTRS ==> x == ino.single)
    ensures BlockAt(ino.(single := x), blocks[x := SetEntry(blocks[x], p - DIRECT_PTRS, d)], i) ==
            if i == p then d else BlockAt(ino, blocks, i)
  {
    if i >= DIRECT_PTRS { EntryBack(blocks[x], p - DIRECT_PTRS, d, i - DIRECT_PTRS); }
  }

  /** Page `p` of file `f` gets block `d`, as an entry of the index block `x`; the first such page
      brings the index block with it. */
  lemma GrowEntry(inodes: map<nat, Inode>, pages: map<nat, nat>, blocks: seq<Block>, owner: map<nat, Place>, f: nat,
                  x: nat, d: nat)
    requires Assigned(inodes, pages, blocks, owner) && HasFile(inodes, f) && DIRECT_PTRS <= pages[f] < MAX_PAGES
    requires !Owned(owner, d) && d < |blocks| && d < 0x1_0000_0000 && x < |blocks| && d != x
    requires if pages[f] == DIRECT_PTRS then !Owned(owner, x) else x == inodes[f].single
    ensures |blocks[x]| == PAGESIZE
    ensures var p := pages[f];
            var blocks' := blocks[x := SetEntry(blocks[x], p - DIRECT_PTRS, d)];
            && Assigned(inodes[f := inodes[f].(single := x)], pages[f := p + 1], blocks',
              owner[x := Index(f)][d := Data(f, p)])
            && OnlyAt(blocks', blocks, x)
            && (forall i: nat {:trigger BlockAt(inodes[f], blocks, i)} :: i < p ==>
                  BlockAt(inodes[f].(single := x), blocks', i) == BlockAt(inodes[f], blocks, i))
  {
    hide Entry, SetEntry;
    var p, ino := pages[f], inodes[f];
    assert FileOk(f, ino, p, blocks, owner);
    var ino' := ino.(single := x);
    var blocks' := blocks[x := SetEntry(blocks[x], p - DIRECT_PTRS, d)];
    var inodes', pages', owner' := inodes[f := ino'], pages[f := p + 1], owner[x := Index(f)][d := Data(f, p)];
    assert Owned(owner, x) ==> owner[x] == Index(f);
    forall i: nat | i < p + 1 ensures BlockAt(ino', blocks', i) == if i == p then d else BlockAt(ino, blocks, i) {
      EntryAdded(ino, blocks, x, p, d, i);
    }
    forall g: nat | HasFile(inodes', g) ensures FileOk(g, inodes'[g], pages'[g], blocks', owner') {
      assert HasFile(inodes, g) && FileOk(g, inodes[g], pages[g], blocks, owner);
      forall i: nat | i < pages'[g] ensures Owns(owner', BlockAt(inodes'[g], blocks', i), Data(g, i)) {
        if g != f { OtherFile(inodes, pages, blocks, blocks', owner, f, g, x, i); }
        if g != f || i != p { assert Owns(owner, BlockAt(inodes[g], blocks, i), Data(g, i)); }
      }
    }
    forall b: nat | Owned(owner', b)
      ensures b < |blocks'| && Sits(inodes', pages', blocks', b, owner'[b])
    {
      if b != d && b != x {
        assert Owned(owner, b);
        match owner[b] {
          case Data(g, i) => if g != f { OtherFile(inodes, pages, blocks, blocks', owner, f, g, x, i); }
          case Index(g) =>
        }
      }
    }
  }

  /** The blocks that go when file `f` loses its last page: the page's, and with page 25 the
      index block. */
  ghost function Last(inodes: map<nat, Inode>, pages: map<nat, nat>, blocks: seq<Block>, f: nat): set<nat>
    requires HasFile(inodes, f) && f in pages && pages[f] > 0
  {
    var p := pages[f] - 1;
    {BlockAt(inodes[f], blocks, p)} + (if p == DIRECT_PTRS then {inodes[f].single} else {})
  }

  lemma ShrinkOne(inodes: map<nat, Inode>, pages: map<nat, nat>, blocks: seq<Block>, owner: map<nat, Place>, f: nat)
    requires Assigned(inodes, pages, blocks, owner) && HasFile(inodes, f) && pages[f] > 0
    ensures Assigned(inodes, pages[f := pages[f] - 1], blocks, owner - Last(inodes, pages, blocks, f))
    ensures forall b: nat :: b in Last(inodes, pages, blocks, f) ==> Owned(owner, b)
    ensures pages[f] == DIRECT_PTRS + 1 ==> inodes[f].single != BlockAt(inodes[f], blocks, DIRECT_PTRS)
  {
    var p, gone := pages[f] - 1, Last(inodes, pages, blocks, f);
    var pages', owner' := pages[f := p], owner - gone;
    assert Owns(owner, BlockAt(inodes[f], blocks, p), Data(f, p));
    assert p >= DIRECT_PTRS ==> Owns(owner, inodes[f].single, Index(f));
    forall g: nat | HasFile(inodes, g) ensures FileOk(g, inodes[g], pages'[g], blocks, owner') {
      assert FileOk(g, inodes[g], pages[g], blocks, owner);
      forall i: nat | i < pages'[g] ensures Owns(owner', BlockAt(inodes[g], blocks, i), Data(g, i)) {
        assert Owns(owner, BlockAt(inodes[g], blocks, i), Data(g, i));
      }
    }
    forall b: nat | Owned(owner', b)
      ensures b < |blocks| && Sits(inodes, pages', blocks, b, owner'[b])
    {
      assert Owned(owner, b);
    }
  }
}
