/** The write-back block cache (kernel/block_device.c) and `sync_filesystem`
    (kernel/filesystem.c): 64 buffers on a list in order of use, over a disk of 4096-byte blocks.
    `repaired` tells whether two changes are made to the code: an evicted buffer is relabelled
    for the block it is given to, and a whole-block write makes its buffer valid. */
module BlockCache {
  import opened Paging
  import opened Chunks

  const CACHE_BLOCKS := 64
  /** Stands for a NULL link. */
  const NIL := 64

  /** BlockBuffer, with the contents of its page. */
  datatype Buf = Buf(valid: bool, dirty: bool, block: nat, next: nat, data: Block)

  predicate Member(where: map<nat, nat>, b: nat) { b in where }

  /** `where` finds the buffer of a block: no two buffers have the same block. */
  ghost predicate Labelled(bufs: seq<Buf>, n: nat, where: map<nat, nat>)
  {
    && n <= |bufs|
    && (forall i: nat {:trigger bufs[i]} :: i < n ==> Member(where, bufs[i].block) && where[bufs[i].block] == i)
    && (forall b: nat {:trigger Member(where, b)} :: Member(where, b) ==> where[b] < n && bufs[where[b]].block == b)
  }

  function LinkAfter(order: seq<nat>, p: nat): nat { if p + 1 < |order| then order[p + 1] else NIL }

  /** `order` is the list from `head`: every buffer once. `pos` is its inverse. */
  ghost predicate Listed(bufs: seq<Buf>, n: nat, head: nat, order: seq<nat>, pos: seq<nat>)
  {
    && |order| == n && |pos| == n && n <= |bufs|
    && head == (if n == 0 then NIL else order[0])
    && (forall p: nat {:trigger order[p]} :: p < n ==> order[p] < n && pos[order[p]] == p)
    && (forall i: nat {:trigger pos[i]} :: i < n ==> pos[i] < n && order[pos[i]] == i)
    && (forall p: nat {:trigger LinkAfter(order, p)} :: p < n ==>
      order[p] < n && bufs[order[p]].next == LinkAfter(order, p))
  }

  /** The list is in order of use, most recent first. */
  ghost predicate Recent(order: seq<nat>, stamp: seq<nat>, clock: nat)
  {
    && (forall p: nat {:trigger order[p]} :: p < |order| ==> order[p] < |stamp| && stamp[order[p]] < clock)
    && (forall p: nat, q: nat {:trigger order[p], order[q]} :: p < q < |order| ==> stamp[order[p]] > stamp[order[q]])
  }

  /** A buffer that is valid and not dirty holds what the disk holds. */
  ghost predicate Clean(bufs: seq<Buf>, n: nat, disk: seq<Block>)
  {
    && n <= |bufs|
    && (forall i: nat {:trigger bufs[i]} :: i < n ==>
          && |bufs[i].data| == PAGESIZE && bufs[i].block < |disk|
          && (bufs[i].valid && !bufs[i].dirty ==> bufs[i].data == disk[bufs[i].block]))
    && (forall b: nat {:trigger disk[b]} :: b < |disk| ==> |disk[b]| == PAGESIZE)
  }

  /** The contents of block `b`, wherever they are. */
  ghost function View(bufs: seq<Buf>, where: map<nat, nat>, disk: seq<Block>, b: nat): Block
    requires b < |disk|
  {
    if Member(where, b) && where[b] < |bufs| && bufs[where[b]].valid then bufs[where[b]].data else disk[b]
  }

  /** The list with the buffer at position `p` moved to the front. */
  function ToFront(order: seq<nat>, p: nat): seq<nat>
    requires p < |order|
  {
    [order[p]] + order[..p] + order[p + 1..]
  }

  lemma ToFrontAt(order: seq<nat>, p: nat, q: nat)
    requires p < |order| && q < |order|
    ensures ToFront(order, p)[q] == if q == 0 then order[p] else if q <= p then order[q - 1] else order[q]
    ensures |ToFront(order, p)| == |order|
  {
  }

  function FrontPos(pos: seq<nat>, p: nat): seq<nat>
  {
    seq(|pos|, i requires 0 <= i < |pos| => if pos[i] == p then 0 else if pos[i] < p then pos[i] + 1 else pos[i])
  }

  /** Buffers after the links are changed to move position `p` to the front. */
  function Relink(bufs: seq<Buf>, order: seq<nat>, p: nat): seq<Buf>
    requires 0 < p < |order| && order[p] < |bufs| && order[p - 1] < |bufs|
  {
    var bufs1 := bufs[order[p - 1] := bufs[order[p - 1]].(next := bufs[order[p]].next)];
    bufs1[order[p] := bufs1[order[p]].(next := order[0])]
  }

  lemma MoveToFront(bufs: seq<Buf>, n: nat, head: nat, order: seq<nat>, pos: seq<nat>, p: nat)
    requires Listed(bufs, n, head, order, pos) && 0 < p < n
    ensures order[p] < n && order[p - 1] < n && order[p] != order[p - 1]
    ensures Listed(Relink(bufs, order, p), n, order[p], ToFront(order, p), FrontPos(pos, p))
    ensures Relabelled(Relink(bufs, order, p), bufs)
  {
    var order', pos', bufs' := ToFront(order, p), FrontPos(pos, p), Relink(bufs, order, p);
    forall q: nat | q < n ensures order'[q] < n && pos'[order'[q]] == q { ToFrontAt(order, p, q); }
    forall i: nat | i < n ensures pos'[i] < n && order'[pos'[i]] == i { ToFrontAt(order, p, pos'[i]); }
    forall q: nat {:trigger LinkAfter(order', q)} | q < n ensures bufs'[order'[q]].next == LinkAfter(order', q) {
      ToFrontAt(order, p, q);
      if q + 1 < n { ToFrontAt(order, p, q + 1); }
      assert bufs[order[p]].next == LinkAfter(order, p);
      var r := if q == 0 then p else if q <= p then q - 1 else q;
      assert bufs[order[r]].next == LinkAfter(order, r);
    }
  }

  /** The same buffers but for their links. */
  ghost predicate Relabelled(bufs': seq<Buf>, bufs: seq<Buf>)
  {
    |bufs'| == |bufs| && forall i: nat {:trigger bufs'[i]} :: i < |bufs| ==> bufs'[i] == bufs[i].(next := bufs'[i].next)
  }

  lemma RecentFront(order: seq<nat>, pos: seq<nat>, stamp: seq<nat>, clock: nat, p: nat)
    requires Recent(order, stamp, clock) && p < |order|
    requires forall q: nat {:trigger order[q]} :: q < |order| && q != p ==> order[q] != order[p]
    ensures Recent(ToFront(order, p), stamp[order[p] := clock], clock + 1)
  {
    var order', stamp' := ToFront(order, p), stamp[order[p] := clock];
    forall q: nat | q < |order'| ensures order'[q] < |stamp'| && stamp'[order'[q]] < clock + 1 {
      ToFrontAt(order, p, q);
    }
    forall q: nat, r: nat | q < r < |order'| ensures stamp'[order'[q]] > stamp'[order'[r]] {
      ToFrontAt(order, p, q);
      ToFrontAt(order, p, r);
    }
  }

  /** Everything that holds of the buffers between two calls. */
  ghost predicate CacheOk(bufs: seq<Buf>, n: nat, head: nat, order: seq<nat>, pos: seq<nat>, where: map<nat, nat>,
                          stamp: seq<nat>, clock: nat, disk: seq<Block>)
  {
    && |bufs| == CACHE_BLOCKS && |stamp| == CACHE_BLOCKS && n <= CACHE_BLOCKS
    && Labelled(bufs, n, where) && Listed(bufs, n, head, order, pos) && Recent(order, stamp, clock) &&
      Clean(bufs, n, disk)
  }

  /** Two states show the same contents for every block. */
  ghost predicate SameView(bufs': seq<Buf>, where': map<nat, nat>, disk': seq<Block>, bufs: seq<Buf>,
                           where: map<nat, nat>, disk: seq<Block>)
  {
    |disk'| == |disk| && forall b: nat {:trigger View(bufs', where', disk', b)} :: b < |disk| ==>
      View(bufs', where', disk', b) == View(bufs, where, disk, b)
  }

  /** Links say nothing about contents. */
  lemma RelabelKeeps(bufs: seq<Buf>, bufs': seq<Buf>, n: nat, where: map<nat, nat>, disk: seq<Block>)
    requires Labelled(bufs, n, where) && Clean(bufs, n, disk) && Relabelled(bufs', bufs)
    ensures Labelled(bufs', n, where) && Clean(bufs', n, disk) && SameView(bufs', where, disk, bufs, where, disk)
  {
  }

  /** A hit: the buffer at position `p` moves to the front. */
  lemma HitOk(bufs: seq<Buf>, n: nat, head: nat, order: seq<nat>, pos: seq<nat>, where: map<nat, nat>, stamp: seq<nat>,
              clock: nat, disk: seq<Block>, p: nat)
    requires CacheOk(bufs, n, head, order, pos, where, stamp, clock, disk) && p < n
    ensures |order| == n && head == order[0] && order[p] < n <= |bufs| && (p > 0 ==> order[p - 1] < n)
    ensures var bufs' := if p == 0 then bufs else Relink(bufs, order, p);
            && CacheOk(bufs', n, order[p], ToFront(order, p), FrontPos(pos, p), where, stamp[order[p] := clock],
              clock + 1, disk)
            && Relabelled(bufs', bufs) && SameView(bufs', where, disk, bufs, where, disk)
  {
    forall q: nat | q < n && q != p ensures order[q] != order[p] { assert pos[order[q]] == q && pos[order[p]] == p; }
    RecentFront(order, pos, stamp, clock, p);
    if p == 0 {
      assert ToFront(order, p) == order && FrontPos(pos, p) == pos;
    } else {
      MoveToFront(bufs, n, head, order, pos, p);
      RelabelKeeps(bufs, Relink(bufs, order, p), n, where, disk);
    }
  }

  function GrowPos(pos: seq<nat>): seq<nat>
  {
    seq(|pos|, i requires 0 <= i < |pos| => pos[i] + 1) + [0]
  }

  /** A buffer more, in front. */
  lemma GrowList(bufs: seq<Buf>, n: nat, head: nat, order: seq<nat>, pos: seq<nat>, buf: Buf)
    requires Listed(bufs, n, head, order, pos) && n < |bufs| && buf.next == head
    ensures Listed(bufs[n := buf], n + 1, n, [n] + order, GrowPos(pos))
  {
    var order', pos', bufs' := [n] + order, GrowPos(pos), bufs[n := buf];
    forall p: nat | p < n + 1 ensures order'[p] < n + 1 && pos'[order'[p]] == p {
      if p > 0 { assert order'[p] == order[p - 1]; }
    }
    forall i: nat | i < n + 1 ensures pos'[i] < n + 1 && order'[pos'[i]] == i {
      if i < n { assert order'[pos[i] + 1] == order[pos[i]]; }
    }
    forall p: nat {:trigger LinkAfter(order', p)} | p < n + 1
      ensures order'[p] < n + 1 && bufs'[order'[p]].next == LinkAfter(order', p) {
      if p > 0 { assert order'[p] == order[p - 1] && bufs[order[p - 1]].next == LinkAfter(order, p - 1); }
    }
  }

  /** A miss while there is room: a new, invalid buffer. */
  lemma NewOk(bufs: seq<Buf>, n: nat, head: nat, order: seq<nat>, pos: seq<nat>, where: map<nat, nat>, stamp: seq<nat>,
              clock: nat, disk: seq<Block>, buf: Buf)
    requires CacheOk(bufs, n, head, order, pos, where, stamp, clock, disk) && n < CACHE_BLOCKS
    requires !buf.valid && !buf.dirty && buf.block < |disk| && buf.next == head && |buf.data| == PAGESIZE &&
      !Member(where, buf.block)
    ensures var bufs', where' := bufs[n := buf], where[buf.block := n];
            && CacheOk(bufs', n + 1, n, [n] + order, GrowPos(pos),
                       where', stamp[n := clock], clock + 1, disk)
            && SameView(bufs', where', disk, bufs, where, disk)
  {
    GrowList(bufs, n, head, order, pos, buf);
    var bufs', where', order' := bufs[n := buf], where[buf.block := n], [n] + order;
    forall i: nat | i < n + 1 ensures Member(where', bufs'[i].block) && where'[bufs'[i].block] == i {
      if i < n { assert Member(where, bufs[i].block); }
    }
    forall b: nat | Member(where', b) ensures where'[b] < n + 1 && bufs'[where'[b]].block == b {
      if b != buf.block { assert Member(where, b); }
    }
    forall p: nat | p < n + 1 ensures p > 0 ==> order'[p] == order[p - 1] { }
    forall b: nat | b < |disk| ensures View(bufs', where', disk, b) == View(bufs, where, disk, b) {
      assert Member(where', b) <==> b == buf.block || Member(where, b);
    }
  }

  /** Writing a valid buffer to its block of the disk changes no contents. */
  lemma WriteBackOk(bufs: seq<Buf>, n: nat, head: nat, order: seq<nat>, pos: seq<nat>, where: map<nat, nat>,
                    stamp: seq<nat>, clock: nat, disk: seq<Block>, v: nat)
    requires CacheOk(bufs, n, head, order, pos, where, stamp, clock, disk) && v < n && bufs[v].valid
    ensures bufs[v].block < |disk|
    ensures var disk' := disk[bufs[v].block := bufs[v].data];
            && CacheOk(bufs, n, head, order, pos, where, stamp, clock, disk')
            && SameView(bufs, where, disk', bufs, where, disk)
  {
    var disk' := disk[bufs[v].block := bufs[v].data];
    forall i: nat | i < n && i != v ensures bufs[i].block != bufs[v].block {
      assert where[bufs[i].block] == i && where[bufs[v].block] == v;
    }
    assert Member(where, bufs[v].block);
    forall b: nat | b < |disk| ensures View(bufs, where, disk', b) == View(bufs, where, disk, b) { }
  }

  /** Giving a buffer whose contents are on the disk to another block changes no contents. */
  lemma RelabelOk(bufs: seq<Buf>, n: nat, head: nat, order: seq<nat>, pos: seq<nat>, where: map<nat, nat>,
                  stamp: seq<nat>, clock: nat, disk: seq<Block>, v: nat, block: nat)
    requires CacheOk(bufs, n, head, order, pos, where, stamp, clock, disk) && v < n && block < |disk| &&
      !Member(where, block)
    requires bufs[v].valid ==> bufs[v].block < |disk| && bufs[v].data == disk[bufs[v].block]
    ensures var bufs' := bufs[v := bufs[v].(valid := false, dirty := false, block := block)];
            var where' := (where - {bufs[v].block})[block := v];
            && CacheOk(bufs', n, head, order, pos, where', stamp, clock, disk)
            && SameView(bufs', where', disk, bufs, where, disk)
  {
    var vb: nat := bufs[v].block;
    var bufs', where' := bufs[v := bufs[v].(valid := false, dirty := false, block := block)],
      (where - {vb})[block := v];
    assert Member(where, vb) && where[vb] == v;
    forall i: nat | i < n ensures Member(where', bufs'[i].block) && where'[bufs'[i].block] == i {
      assert Member(where, bufs[i].block) && where[bufs[i].block] == i;
    }
    forall b: nat | Member(where', b) ensures where'[b] < n && bufs'[where'[b]].block == b {
      if b != block { assert Member(where, b); }
    }
    forall p: nat {:trigger LinkAfter(order, p)} | p < n ensures bufs'[order[p]].next == LinkAfter(order, p) {
      assert bufs[order[p]].next == LinkAfter(order, p);
    }
    forall b: nat | b < |disk| ensures View(bufs', where', disk, b) == View(bufs, where, disk, b) {
      assert Member(where', b) <==> b == block || (b != vb && Member(where, b));
    }
  }

  lemma SameViewTrans(bufs0: seq<Buf>, where0: map<nat, nat>, disk0: seq<Block>, bufs1: seq<Buf>, where1: map<nat, nat>,
                      disk1: seq<Block>, bufs2: seq<Buf>, where2: map<nat, nat>, disk2: seq<Block>)
    requires SameView(bufs1, where1, disk1, bufs0, where0, disk0) &&
      SameView(bufs2, where2, disk2, bufs1, where1, disk1)
    ensures SameView(bufs2, where2, disk2, bufs0, where0, disk0)
  {
    forall b: nat | b < |disk0| ensures View(bufs2, where2, disk2, b) == View(bufs0, where0, disk0, b) {
      assert View(bufs1, where1, disk1, b) == View(bufs0, where0, disk0, b);
    }
  }

  function Blocks(lo: nat, hi: nat): (r: set<nat>)
    ensures forall b: nat :: b in r <==> lo <= b < hi
    decreases hi
  {
    if hi <= lo then {} else Blocks(lo, hi - 1) + {hi - 1}
  }

  class Cache {
    const repaired: bool
    const bufs: array<Buf>
    var head: nat
    var size: nat
    var disk: seq<Block>
    ghost var order: seq<nat>
    ghost var pos: seq<nat>
    ghost var where: map<nat, nat>
    /** When each buffer was last asked for. */
    ghost var stamp: seq<nat>
    ghost var clock: nat

    ghost predicate Valid()
      reads this, bufs
    {
      bufs.Length == CACHE_BLOCKS && CacheOk(bufs[..], size, head, order, pos, where, stamp, clock, disk)
    }

    constructor (disk: seq<Block>, repaired: bool)
      requires forall b: nat {:trigger disk[b]} :: b < |disk| ==> |disk[b]| == PAGESIZE
      ensures Valid() && size == 0 && where == map[] && this.disk == disk && this.repaired == repaired && fresh(bufs)
    {
      this.disk, this.repaired := disk, repaired;
      bufs := new Buf[CACHE_BLOCKS](_ => Buf(false, false, 0, NIL, []));
      head, size, clock := NIL, 0, 0;
      order, pos, where, stamp := [], [], map[], seq(CACHE_BLOCKS, _ => 0);
    }

    /** The contents of block `b`. */
    ghost function Contents(b: nat): Block
      requires b < |disk|
      reads this, bufs
    {
      View(bufs[..], where, disk, b)
    }

    /** The search of `get_block_buffer`: position of the buffer of `block`, or of the last one. */
    method Find(block: nat) returns (ptr: nat, prev: nat, ghost p: nat)
      requires Valid()
      ensures size > 0 ==>
        && p < size && ptr == order[p] && prev == (if p > 0 then order[p - 1] else NIL)
        && (if Member(where, block) then ptr == where[block] else p == size - 1)
      ensures size == 0 ==> ptr == NIL
    {
      ptr, prev, p := head, NIL, 0;
      while ptr != NIL
        invariant size > 0 ==> p < size && ptr == order[p] && prev == (if p > 0 then order[p - 1] else NIL)
        invariant (size == 0 ==> ptr == NIL) && p <= size
        invariant forall q: nat {:trigger order[q]} :: q < p ==> bufs[order[q]].block != block
        decreases size - p
      {
        assert order[p] < size && bufs[..][order[p]].next == LinkAfter(order, p);
        if bufs[ptr].block == block { return; }
        if bufs[ptr].next == NIL { break; }
        prev := ptr;
        ptr := bufs[ptr].next;
        p := p + 1;
      }
      assert Member(where, block) ==> order[pos[where[block]]] == where[block];
    }

    /** The last position of a full list is what eviction takes; it was asked for least recently. */
    lemma LastIsOldest(i: nat)
      requires Valid() && i < size
      ensures order[size - 1] < size && stamp[order[size - 1]] <= stamp[i]
    {
      assert order[pos[i]] == i;
      assert order[size - 1] < size;
    }

    /** Moving position `p` to the front, as a hit and an eviction do. */
    method Promote(ptr: nat, prev: nat, ghost p: nat)
      requires Valid() && p < size && ptr == order[p] && prev == (if p > 0 then order[p - 1] else NIL)
      modifies this`head, this`order, this`pos, this`stamp, this`clock, bufs
      ensures Valid() && Relabelled(bufs[..], old(bufs[..])) && head == ptr
      ensures SameView(bufs[..], where, disk, old(bufs[..]), where, disk)
      ensures order == old(ToFront(order, p)) && stamp == old(stamp[order[p] := clock]) && clock == old(clock) + 1
    {
      hide Labelled, Listed, Recent, Clean, SameView, Relabelled;
      HitOk(bufs[..], size, head, order, pos, where, stamp, clock, disk, p);
      if prev != NIL {
        bufs[prev] := bufs[prev].(next := bufs[ptr].next);
        bufs[ptr] := bufs[ptr].(next := head);
        assert bufs[..] == Relink(old(bufs[..]), order, p);
      }
      order, pos, stamp, clock := ToFront(order, p), FrontPos(pos, p), stamp[ptr := clock], clock + 1;
      head := ptr;
    }

    /** Whether `get_block_buffer` ends without evicting. */
    ghost predicate Room(block: nat)
      reads this
    {
      Member(where, block) || size < CACHE_BLOCKS
    }

    /** The block whose buffer a request for `block` gets: another one exactly if the code as it is
        has to evict. */
    ghost function Label(block: nat): nat
      reads this, bufs
    {
      if Room(block) || repaired || |order| != CACHE_BLOCKS || order[CACHE_BLOCKS - 1] >= bufs.Length then block
      else bufs[order[CACHE_BLOCKS - 1]].block
    }

    /** The buffers other than `i` keep everything but their links. */
    twostate predicate OthersKept(i: nat)
      reads this, bufs
    {
      forall j: nat {:trigger bufs[j]} :: j < old(size) <= bufs.Length && j != i ==>
        bufs[j] == old(bufs[j]).(next := bufs[j].next)
    }

    /** The miss with a free buffer. `junk` is what its page happens to hold. */
    method NewBuffer(block: nat, junk: Block)
      requires Valid() && block < |disk| && !Member(where, block) && size < CACHE_BLOCKS && |junk| == PAGESIZE
      modifies this`head, this`size, this`order, this`pos, this`where, this`stamp, this`clock, bufs
      ensures Valid() && size == old(size) + 1 && head == old(size) && where == old(where)[block := head]
      ensures !bufs[head].valid && bufs[head].block == block && OthersKept(head)
      ensures stamp == old(stamp)[head := old(clock)] && clock == old(clock) + 1
      ensures SameView(bufs[..], where, disk, old(bufs[..]), old(where), disk)
    {
      hide Labelled, Listed, Recent, Clean, SameView;
      var buf := Buf(false, false, block, head, junk);
      NewOk(bufs[..], size, head, order, pos, where, stamp, clock, disk, buf);
      bufs[size] := buf;
      order, pos := [size] + order, GrowPos(pos);
      where, stamp, clock := where[block := size], stamp[size := clock], clock + 1;
      head := size;
      size := size + 1;
    }

    /** The eviction of the last buffer of a full list: it is written back if need be and comes
        to the front, but only the repaired code gives it to `block`. */
    method Evict(block: nat, ptr: nat, prev: nat)
      requires Valid() && block < |disk| && !Member(where, block) && size == CACHE_BLOCKS
      requires |order| == size && ptr == order[size - 1] && prev == order[size - 2]
      modifies this`head, this`disk, this`order, this`pos, this`where, this`stamp, this`clock, bufs
      ensures Valid() && head == ptr && OthersKept(ptr)
      ensures ptr < size &&
        (if repaired then bufs[ptr].block == block && !bufs[ptr].valid
        else Relabelled(bufs[..], old(bufs[..])) && where == old(where))
      ensures |disk| == old(|disk|) && disk[block] == old(disk)[block]
      ensures stamp == old(stamp)[ptr := old(clock)] && clock == old(clock) + 1
      ensures SameView(bufs[..], where, disk, old(bufs[..]), old(where), old(disk))
    {
      hide Labelled, Listed, Recent, Clean, SameView;
      LastFacts();
      GetFacts(ptr, bufs[ptr].block);
      if bufs[ptr].valid && bufs[ptr].dirty {
        WriteBackOk(bufs[..], size, head, order, pos, where, stamp, clock, disk, ptr);
        disk := disk[bufs[ptr].block := bufs[ptr].data];
      } else {
        ViewSelf();
      }
      OnDisk(ptr);
      ghost var disk1 := disk;
      Promote(ptr, prev, size - 1);
      SameViewTrans(old(bufs[..]), where, old(disk), old(bufs[..]), where, disk1, bufs[..], where, disk1);
      if repaired {
        ghost var bufs1, where1 := bufs[..], where;
        RelabelOk(bufs[..], size, head, order, pos, where, stamp, clock, disk, ptr, block);
        where := (where - {bufs[ptr].block})[block := ptr];
        bufs[ptr] := bufs[ptr].(valid := false, dirty := false, block := block);
        SameViewTrans(old(bufs[..]), where1, old(disk), bufs1, where1, disk, bufs[..], where, disk);
      }
    }

    lemma LastFacts()
      requires Valid() && size == CACHE_BLOCKS
      ensures |order| == size && order[size - 1] < size && order[size - 2] < size
    {
      assert order[size - 1] < size && order[size - 2] < size;
    }

    lemma ViewSelf()
      ensures SameView(bufs[..], where, disk, bufs[..], where, disk)
    {
    }

    lemma OnDisk(i: nat)
      requires Valid() && i < size
      requires !(bufs[i].valid && bufs[i].dirty) || (bufs[i].block < |disk| && disk[bufs[i].block] == bufs[i].data)
      ensures bufs[i].block < |disk| && (bufs[i].valid ==> bufs[i].data == disk[bufs[i].block])
    {
      assert bufs[..][i] == bufs[i];
    }

    /** `get_block_buffer`. The buffer is one for `block` exactly if the block is cached, a buffer
        is free or the code is repaired; the buffer taken from a full list is the one that was
        asked for least recently. */
    method Get(block: nat) returns (i: nat)
      requires Valid() && block < |disk|
      modifies this`head, this`size, this`disk, this`order, this`pos, this`where, this`stamp, this`clock, bufs
      ensures Valid() && i == head < size && OthersKept(i)
      ensures SameView(bufs[..], where, disk, old(bufs[..]), old(where), old(disk))
      ensures bufs[i].block == block <==> old(Room(block)) || repaired
      ensures old(Member(where, block)) ==>
        i == old(where)[block] && where == old(where) && size == old(size) &&
          bufs[i].valid == old(bufs[where[block]].valid)
      ensures !old(Member(where, block)) && old(Room(block)) ==>
        where == old(where)[block := i] && size == old(size) + 1 && !bufs[i].valid
      ensures !old(Room(block)) ==>
        && i < old(size) && (repaired ==> !bufs[i].valid)
        && (forall j: nat {:trigger old(stamp)[j]} :: j < old(size) ==> old(stamp)[i] <= old(stamp)[j])
      ensures !old(Room(block)) && !repaired ==>
        && size == old(size) == |old(order)| == CACHE_BLOCKS && i == old(order)[size - 1] && where == old(where)
        && bufs[i] == old(bufs[order[CACHE_BLOCKS - 1]]).(next := bufs[i].next) && |disk| == old(|disk|) &&
          disk[block] == old(disk)[block]
      ensures stamp == old(stamp)[i := old(clock)] && clock == old(clock) + 1
    {
      hide Recent, Clean, SameView;
      var ptr, prev;
      ghost var p;
      ptr, prev, p := Find(block);
      if ptr != NIL && bufs[ptr].block == block {
        Promote(ptr, prev, p);
        return ptr;
      }
      if size < CACHE_BLOCKS {
        var junk: Block :| |junk| == PAGESIZE by { assert |Zeros()| == PAGESIZE; }
        NewBuffer(block, junk);
        return head;
      }
      forall j: nat | j < size ensures stamp[ptr] <= stamp[j] { LastIsOldest(j); }
      Evict(block, ptr, prev);
      i := ptr;
    }

    /** Storing new contents and flags in buffer `i`. */
    method Store(i: nat, valid: bool, dirty: bool, data: Block)
      requires Valid() && i < size && |data| == PAGESIZE
      modifies bufs
      ensures (valid && !dirty ==> bufs[i].block < |disk| && data == disk[bufs[i].block]) ==> Valid()
      ensures bufs[i] == old(bufs[i]).(valid := valid, dirty := dirty, data := data)
      ensures forall j: nat {:trigger bufs[j]} :: j < bufs.Length && j != i ==> bufs[j] == old(bufs[j])
      ensures bufs[i].block < |disk| && Contents(bufs[i].block) == if valid then data else disk[bufs[i].block]
      ensures forall b: nat {:trigger Contents(b)} :: b < |disk| && b != bufs[i].block ==>
        Contents(b) == old(Contents(b))
      ensures forall b: nat {:trigger Holds(b)} :: b != bufs[i].block ==> Holds(b) == old(Holds(b))
    {
      hide Listed, Recent, Clean;
      var buf := bufs[i].(valid := valid, dirty := dirty, data := data);
      GetFacts(i, bufs[i].block);
      if valid && !dirty ==> data == disk[bufs[i].block] {
        StoreOk(bufs[..], size, head, order, pos, where, stamp, clock, disk, i, buf);
      }
      bufs[i] := buf;
    }

    /** A whole block goes to a buffer that is not valid, and the buffer stays so. */
    ghost predicate Lost(block: nat, lo: nat, n: nat)
      reads this, bufs
    {
      !repaired && lo == 0 && n == PAGESIZE && !Holds(block)
    }

    /** The block is cached and its buffer valid. */
    ghost predicate Holds(block: nat)
      reads this, bufs
    {
      Member(where, block) && where[block] < bufs.Length && bufs[where[block]].valid
    }

    /** A step on `block` that evicts nothing: `block` is cached, other blocks are as they were. */
    twostate predicate Progressed(block: nat)
      reads this, bufs
    {
      && where.Keys == old(where.Keys) + {block}
      && size == old(size) + (if old(Member(where, block)) then 0 else 1)
      && forall b: nat {:trigger Holds(b)} :: b != block ==> Holds(b) == old(Holds(b))
    }

    /** A buffer for a request on `block`, with no contents changed. */
    method GetFor(block: nat) returns (i: nat)
      requires Valid() && block < |disk|
      modifies this`head, this`size, this`disk, this`order, this`pos, this`where, this`stamp, this`clock, bufs
      ensures Valid() && i < size <= bufs.Length && |disk| == old(|disk|)
      ensures var t := old(Label(block));
        && t == bufs[i].block < |disk| && Member(where, t) && where[t] == i && |bufs[i].data| == PAGESIZE &&
          bufs[i].valid == old(Holds(t))
        && Contents(t) == if bufs[i].valid then bufs[i].data else disk[t]
      ensures |disk[block]| == PAGESIZE && (!bufs[i].valid ==> disk[block] == old(Contents(block)))
      ensures forall b: nat {:trigger Contents(b)} :: b < |disk| ==> Contents(b) == old(Contents(b))
      ensures old(Room(block)) ==> Progressed(block)
    {
      hide Listed, Recent, Clean;
      LabelFacts(block);
      i := Get(block);
      GetFacts(i, bufs[i].block);
      if old(Room(block)) {
        forall b: nat | b != block ensures Holds(b) == old(Holds(b)) {
          assert Member(where, b) <==> old(Member(where, b));
          if Member(where, b) {
            var j := where[b];
            assert j != i && j == old(where[b]) < old(size);
            assert bufs[j] == old(bufs[j]).(next := bufs[j].next);
          }
        }
      }
    }

    lemma LabelFacts(block: nat)
      requires Valid() && block < |disk|
      ensures var t := Label(block);
        && t < |disk| && |disk[block]| == PAGESIZE &&
          (t != block ==> Member(where, t) && !Member(where, block) && where[t] == order[CACHE_BLOCKS - 1])
        && (Holds(t) <==> Member(where, t) && bufs[where[t]].valid)
    {
      var t := Label(block);
      if t != block { assert bufs[..][order[CACHE_BLOCKS - 1]] == bufs[order[CACHE_BLOCKS - 1]]; }
    }

    lemma FullLabel(block: nat)
      requires Valid() && !Room(block) && !repaired
      ensures Label(block) != block && Member(where, Label(block))
    {
      assert |order| == CACHE_BLOCKS && order[CACHE_BLOCKS - 1] < size;
      GetFacts(order[CACHE_BLOCKS - 1], bufs[order[CACHE_BLOCKS - 1]].block);
    }

    /** What a request on `block` finds: the contents of the buffer it gets, or, if that is not valid,
        those of `block`. */
    ghost function Found(block: nat): Block
      requires block < |disk|
      reads this, bufs
    {
      var t := Label(block);
      if t < |disk| && Holds(t) then Contents(t) else Contents(block)
    }

    /** One iteration of `translate_bytes` when writing: `bytes` at `lo` of `block`. The bytes go to
        the block whose buffer the request gets, and are lost if they are a whole block for an
        invalid buffer. */
    method WritePart(block: nat, lo: nat, bytes: Block)
      requires Valid() && block < |disk| && lo + |bytes| <= PAGESIZE
      modifies this`head, this`size, this`disk, this`order, this`pos, this`where, this`stamp, this`clock, bufs
      ensures Valid() && |disk| == old(|disk|) && |old(Found(block))| == PAGESIZE && old(Label(block)) < |disk|
      ensures var t := old(Label(block));
        Contents(t) == if old(Lost(t, lo, |bytes|)) then old(Contents(t)) else Splice(old(Found(block)), lo, bytes)
      ensures forall b: nat {:trigger Contents(b)} :: b < |disk| && b != old(Label(block)) ==>
        Contents(b) == old(Contents(b))
      ensures old(Room(block)) ==> Progressed(block)
      ensures Holds(old(Label(block))) <==> !old(Lost(Label(block), lo, |bytes|))
    {
      hide CacheOk, View;
      LabelFacts(block);
      var i := GetFor(block);
      var buf := bufs[i];
      if !buf.valid && (lo != 0 || lo + |bytes| != PAGESIZE) {
        buf := buf.(valid := true, data := disk[block]);
      }
      var valid := buf.valid || repaired;
      WholeSplice(buf.data, disk[block], lo, bytes);
      Store(i, valid, true, Splice(buf.data, lo, bytes));
    }

    /** One iteration of `translate_bytes` when reading. When the buffer is another block's, the
        answer is that block's if the buffer is valid; otherwise the answer is right, but the
        other block has these contents from then on. */
    method ReadPart(block: nat, lo: nat, n: nat) returns (bytes: Block)
      requires Valid() && block < |disk| && lo + n <= PAGESIZE
      modifies this`head, this`size, this`disk, this`order, this`pos, this`where, this`stamp, this`clock, bufs
      ensures |disk| == old(|disk|) && |old(Found(block))| == PAGESIZE && bytes == old(Found(block))[lo..lo + n]
      ensures old(Label(block)) < |disk| && Contents(old(Label(block))) == old(Found(block)) && Holds(old(Label(block)))
      ensures forall b: nat {:trigger Contents(b)} :: b < |disk| && b != old(Label(block)) ==>
        Contents(b) == old(Contents(b))
      ensures old(Label(block) == block || Holds(Label(block))) ==> Valid()
      ensures old(Room(block)) ==> Progressed(block)
    {
      hide CacheOk, View;
      LabelFacts(block);
      var i := GetFor(block);
      if !bufs[i].valid {
        Store(i, true, bufs[i].dirty, disk[block]);
      }
      bytes := bufs[i].data[lo..lo + n];
    }

    lemma GetFacts(i: nat, block: nat)
      requires Valid() && i < size && bufs[i].block == block
      ensures Member(where, block) && where[block] == i && |bufs[i].data| == PAGESIZE && block < |disk| &&
        |disk[block]| == PAGESIZE
      ensures Contents(block) == if bufs[i].valid then bufs[i].data else disk[block]
    {
      assert bufs[..][i] == bufs[i];
    }

    /** Byte `k` of the device. */
    ghost function ByteAt(k: nat): byte
      requires k / PAGESIZE < |disk|
      reads this, bufs
    {
      var c := Contents(k / PAGESIZE);
      if k % PAGESIZE < |c| then c[k % PAGESIZE] else 0
    }

    /** One iteration of the write loop, in bytes of the device. */
    method WriteChunk(block: nat, lo: nat, bytes: Block, ghost offset: nat, ghost stop: nat, ghost end: nat)
      requires Valid() && block < |disk| && lo + |bytes| <= PAGESIZE && block < end
      requires Fits(block, end) && Keeps(offset, stop, block, end) &&
        (lo == 0 && |bytes| == PAGESIZE ==> Whole(offset, stop, block))
      modifies this`head, this`size, this`disk, this`order, this`pos, this`where, this`stamp, this`clock, bufs
      ensures Valid() && |disk| == old(|disk|) && Fits(block + 1, end) && Keeps(offset, stop, block + 1, end)
      ensures !repaired ==> Spread(old(where.Keys), old(Held()), block, block + 1)
      ensures forall k: nat {:trigger ByteAt(k)} :: k / PAGESIZE < |disk| ==>
        var from := block * PAGESIZE + lo;
        ByteAt(k) == if from <= k < from + |bytes| then bytes[k - from] else old(ByteAt(k))
    {
      hide CacheOk, View;
      RoomFor(block, end);
      if !repaired { StepFits(where.Keys, size, block, end); }
      WritePart(block, lo, bytes);
      forall k: nat | k / PAGESIZE < |disk|
        ensures var from := block * PAGESIZE + lo; ByteAt(k) == if from <= k < from + |bytes| then bytes[k - from]
          else old(ByteAt(k))
      {
        Divided(k, block);
      }
    }

    method ReadChunk(block: nat, lo: nat, n: nat, ghost end: nat) returns (bytes: Block)
      requires Valid() && block < |disk| && lo + n <= PAGESIZE && block < end && Fits(block, end)
      modifies this`head, this`size, this`disk, this`order, this`pos, this`where, this`stamp, this`clock, bufs
      ensures Valid() && |disk| == old(|disk|) && Fits(block + 1, end)
      ensures !repaired ==> Spread(old(where.Keys), old(Held()), block, block + 1)
      ensures forall k: nat {:trigger ByteAt(k)} :: k / PAGESIZE < |disk| ==> ByteAt(k) == old(ByteAt(k))
      ensures |bytes| == n && forall k: nat {:trigger bytes[k]} :: k < n ==>
        (block * PAGESIZE + lo + k) / PAGESIZE == block && bytes[k] == ByteAt(block * PAGESIZE + lo + k)
    {
      hide CacheOk, View;
      RoomFor(block, end);
      if !repaired { StepFits(where.Keys, size, block, end); }
      bytes := ReadPart(block, lo, n);
      forall k: nat | k < n
        ensures (block * PAGESIZE + lo + k) / PAGESIZE == block && bytes[k] == ByteAt(block * PAGESIZE + lo + k) {
        Divided(block * PAGESIZE + lo + k, block);
      }
    }

    /** Blocks of [lo, hi) that are not cached. */
    ghost function Missing(keys: set<nat>, lo: nat, hi: nat): nat
      decreases hi - lo
    {
      if hi <= lo then 0 else (if lo in keys then 0 else 1) + Missing(keys, lo + 1, hi)
    }

    lemma {:induction false} MissingBelow(keys: set<nat>, b: nat, lo: nat, hi: nat)
      requires b < lo
      ensures Missing(keys + {b}, lo, hi) == Missing(keys, lo, hi)
      decreases hi - lo
    {
      if lo < hi { MissingBelow(keys, b, lo + 1, hi); }
    }

    /** The blocks of [lo, hi) fit in the cache without eviction. */
    ghost predicate Fits(lo: nat, hi: nat)
      reads this
    {
      repaired || size + Missing(where.Keys, lo, hi) <= CACHE_BLOCKS
    }

    /** Blocks of [lo, hi) that are written whole have valid buffers. */
    ghost predicate Keeps(offset: nat, stop: nat, lo: nat, hi: nat)
      reads this, bufs
    {
      repaired || forall b: nat {:trigger Holds(b)} :: lo <= b < hi && Whole(offset, stop, b) ==> Holds(b)
    }

    /** The blocks with a valid buffer. */
    ghost function Held(): set<nat>
      reads this, bufs
    {
      set b: nat | b in where.Keys && Holds(b)
    }

    /** The blocks of [lo, hi) have come into the cache, and everything valid stayed so. */
    ghost predicate Spread(keys: set<nat>, held: set<nat>, lo: nat, hi: nat)
      reads this, bufs
    {
      && where.Keys == keys + Blocks(lo, hi)
      && forall b: nat {:trigger Holds(b)} :: b in held || lo <= b < hi ==> Holds(b)
    }

    lemma SpreadMore(keys: set<nat>, held: set<nat>, lo: nat, b: nat, before: set<nat>, valid: set<nat>)
      requires lo <= b && before == keys + Blocks(lo, b) && (forall x: nat :: x in held || lo <= x < b ==> x in valid)
      requires Spread(before, valid, b, b + 1)
      ensures Spread(keys, held, lo, b + 1)
    {
      hide Blocks;
      assert Blocks(lo, b + 1) == Blocks(lo, b) + Blocks(b, b + 1);
    }

    /** What `Spread` says of the cache as it is. */
    lemma SpreadNow(keys: set<nat>, held: set<nat>, lo: nat, b: nat)
      requires Spread(keys, held, lo, b)
      ensures where.Keys == keys + Blocks(lo, b) && forall x: nat :: x in held || lo <= x < b ==> x in Held()
    {
      forall x: nat | x in held || lo <= x < b ensures x in Held() { assert Holds(x); }
    }

    lemma SpreadNone(lo: nat)
      ensures Spread(where.Keys, Held(), lo, lo)
    {
    }

    /** After block `b` is cached, the later blocks still fit. */
    lemma StepFits(keys: set<nat>, n: nat, b: nat, hi: nat)
      requires b < hi && n + Missing(keys, b, hi) <= CACHE_BLOCKS
      ensures n + (if b in keys then 0 else 1) + Missing(keys + {b}, b + 1, hi) <= CACHE_BLOCKS
    {
      MissingBelow(keys, b, b + 1, hi);
    }

    /** `write_bytes`: like a store to a flat array of bytes, on the repaired code, or when nothing
        is evicted and blocks written whole have valid buffers. */
    method WriteBytes(offset: nat, data: Block)
      requires Valid() && offset + |data| <= |disk| * PAGESIZE
      requires Fits(offset / PAGESIZE, PageUp(offset + |data|))
      requires Keeps(offset, offset + |data|, offset / PAGESIZE, PageUp(offset + |data|))
      modifies this`head, this`size, this`disk, this`order, this`pos, this`where, this`stamp, this`clock, bufs
      ensures Valid() && |disk| == old(|disk|)
      ensures forall k: nat {:trigger ByteAt(k)} :: k / PAGESIZE < |disk| ==>
        ByteAt(k) == if offset <= k < offset + |data| then data[k - offset] else old(ByteAt(k))
      ensures !repaired ==> Spread(old(where.Keys), old(Held()), offset / PAGESIZE, PageUp(offset + |data|))
    {
      hide CacheOk, View, Missing, Spread, Held, Blocks, Fits, Keeps, Whole, At, PageUp;
      ghost var keys, held := where.Keys, Held();
      SpreadNone(offset / PAGESIZE);
      var stop := offset + |data|;
      var block, end := offset / PAGESIZE, PageUp(stop);
      var pageOffset: nat, pageMax: nat, rest := offset % PAGESIZE, offset % PAGESIZE + |data|, data;
      ghost var done: nat := 0;
      EndBound(stop, |disk|);
      AtStart(offset, |data|);
      while block < end
        invariant At(offset, |data|, block, pageOffset, pageMax, done) && done <= |data| && rest == data[done..]
        invariant Valid() && |disk| == old(|disk|) && Fits(block, end) && Keeps(offset, stop, block, end)
        invariant !repaired ==> Spread(keys, held, offset / PAGESIZE, block)
        invariant forall k: nat {:trigger ByteAt(k)} :: k / PAGESIZE < |disk| ==>
          ByteAt(k) == if offset <= k < offset + done then data[k - offset] else old(ByteAt(k))
      {
        AtStep(offset, |data|, block, pageOffset, pageMax, done);
        var top;
        if pageMax > PAGESIZE { top := PAGESIZE; pageMax := pageMax - PAGESIZE; } else { top := pageMax; }
        ghost var before, valid := where.Keys, Held();
        if !repaired { SpreadNow(keys, held, offset / PAGESIZE, block); }
        WriteChunk(block, pageOffset, rest[..top - pageOffset], offset, stop, end);
        if !repaired { SpreadMore(keys, held, offset / PAGESIZE, block, before, valid); }
        rest := rest[top - pageOffset..];
        done := done + top - pageOffset;
        pageOffset := 0;
        block := block + 1;
      }
      AtEnd(offset, |data|, block, pageOffset, pageMax, done);
    }

    /** `read_bytes`: the bytes of the flat array. */
    method ReadBytes(offset: nat, n: nat) returns (data: Block)
      requires Valid() && offset + n <= |disk| * PAGESIZE && Fits(offset / PAGESIZE, PageUp(offset + n))
      modifies this`head, this`size, this`disk, this`order, this`pos, this`where, this`stamp, this`clock, bufs
      ensures Valid() && |disk| == old(|disk|)
      ensures forall k: nat {:trigger ByteAt(k)} :: k / PAGESIZE < |disk| ==> ByteAt(k) == old(ByteAt(k))
      ensures |data| == n && forall k: nat {:trigger data[k]} :: k < n ==>
        (offset + k) / PAGESIZE < |disk| && data[k] == ByteAt(offset + k)
      ensures !repaired ==> Spread(old(where.Keys), old(Held()), offset / PAGESIZE, PageUp(offset + n))
    {
      hide CacheOk, View, Missing, Spread, Held, Blocks, Fits, Keeps, Whole, At, PageUp;
      ghost var keys, held := where.Keys, Held();
      SpreadNone(offset / PAGESIZE);
      var stop := offset + n;
      var block, end := offset / PAGESIZE, PageUp(stop);
      var pageOffset: nat, pageMax: nat := offset % PAGESIZE, offset % PAGESIZE + n;
      data := [];
      EndBound(stop, |disk|);
      AtStart(offset, n);
      while block < end
        invariant At(offset, n, block, pageOffset, pageMax, |data|) && |data| <= n
        invariant Valid() && |disk| == old(|disk|) && Fits(block, end)
        invariant !repaired ==> Spread(keys, held, offset / PAGESIZE, block)
        invariant forall k: nat {:trigger ByteAt(k)} :: k / PAGESIZE < |disk| ==> ByteAt(k) == old(ByteAt(k))
        invariant forall k: nat {:trigger data[k]} :: k < |data| ==>
          (offset + k) / PAGESIZE < |disk| && data[k] == ByteAt(offset + k)
      {
        AtStep(offset, n, block, pageOffset, pageMax, |data|);
        var top;
        if pageMax > PAGESIZE { top := PAGESIZE; pageMax := pageMax - PAGESIZE; } else { top := pageMax; }
        ghost var before, valid := where.Keys, Held();
        if !repaired { SpreadNow(keys, held, offset / PAGESIZE, block); }
        var bytes := ReadChunk(block, pageOffset, top - pageOffset, end);
        if !repaired { SpreadMore(keys, held, offset / PAGESIZE, block, before, valid); }
        data := data + bytes;
        pageOffset := 0;
        block := block + 1;
      }
      AtEnd(offset, n, block, pageOffset, pageMax, |data|);
    }

    lemma RoomFor(block: nat, end: nat)
      requires Fits(block, end) && block < end
      ensures Room(block) || repaired
    {
      assert Member(where, block) <==> block in where.Keys;
    }

    /** What buffer `i` holds is on the disk. */
    ghost predicate OnDiskNow(i: nat)
      reads this, bufs
    {
      i < bufs.Length && bufs[i].block < |disk| && (bufs[i].valid ==> disk[bufs[i].block] == bufs[i].data)
    }

    lemma LinkAt(p: nat)
      requires Valid() && p <= size
      ensures |order| == size <= bufs.Length && (p == 0 && size > 0 ==> head == order[0]) && (size == 0 ==> head == NIL)
      ensures p < size ==> order[p] < size && bufs[order[p]].next == LinkAfter(order, p)
      ensures p < size && !(bufs[order[p]].valid && bufs[order[p]].dirty) ==> OnDiskNow(order[p])
    {
      if p < size {
        assert bufs[..][order[p]].next == LinkAfter(order, p);
        assert bufs[order[p]] == bufs[..][order[p]];
      }
    }

    /** Buffers have different blocks. */
    lemma BlocksApart(v: nat, i: nat)
      requires Valid() && v < size && i < size && v != i
      ensures v < bufs.Length && i < bufs.Length && bufs[v].block != bufs[i].block
    {
      assert bufs[..][v] == bufs[v] && bufs[..][i] == bufs[i];
    }

    lemma AllOnDisk(b: nat)
      requires Valid() && b < |disk| && forall p: nat {:trigger order[p]} :: p < size ==> OnDiskNow(order[p])
      ensures disk[b] == Contents(b)
    {
      if Member(where, b) { assert order[pos[where[b]]] == where[b]; }
    }

    /** The buffer at `v` is written to its block of the disk. */
    method WriteBack(v: nat)
      requires Valid() && v < size && bufs[v].valid
      modifies this`disk
      ensures Valid() && SameView(bufs[..], where, disk, bufs[..], where, old(disk))
      ensures forall i: nat {:trigger OnDiskNow(i)} :: i < size && (i == v || old(OnDiskNow(i))) ==> OnDiskNow(i)
    {
      hide Listed, Recent, Clean, Labelled, SameView;
      WriteBackOk(bufs[..], size, head, order, pos, where, stamp, clock, disk, v);
      forall i: nat | i < size && i != v ensures bufs[i].block != bufs[v].block { BlocksApart(v, i); }
      disk := disk[bufs[v].block := bufs[v].data];
    }

    /** `sync_filesystem`: the disk itself comes to hold the contents of every block. */
    method Sync()
      requires Valid()
      modifies this`disk
      ensures Valid() && |disk| == old(|disk|)
      ensures forall b: nat {:trigger Contents(b)} :: b < |disk| ==>
        Contents(b) == old(Contents(b)) && disk[b] == Contents(b)
    {
      hide Listed, Recent, Clean, Labelled, View, OnDiskNow;
      var ptr := head;
      ghost var p: nat := 0;
      LinkAt(0);
      ViewSelf();
      while ptr != NIL
        invariant p <= size == |order| && ptr == (if p < size then order[p] else NIL) && (p < size ==> order[p] < size)
        invariant Valid() && SameView(bufs[..], where, disk, bufs[..], where, old(disk))
        invariant forall q: nat {:trigger order[q]} :: q < p ==> order[q] < size && OnDiskNow(order[q])
        decreases size - p
      {
        LinkAt(p);
        if bufs[ptr].valid && bufs[ptr].dirty {
          ghost var disk1 := disk;
          WriteBack(ptr);
          SameViewTrans(bufs[..], where, old(disk), bufs[..], where, disk1, bufs[..], where, disk);
        }
        ptr := bufs[ptr].next;
        p := p + 1;
        if p < size { LinkAt(p); }
      }
      forall b: nat | b < |disk| ensures Contents(b) == old(Contents(b)) && disk[b] == Contents(b) {
        AllOnDisk(b);
      }
    }
  }

  /** A whole block does not depend on what it replaces. */
  lemma WholeSplice(a: Block, b: Block, lo: nat, bytes: Block)
    requires |a| == |b| && lo + |bytes| <= |a|
    ensures lo == 0 && |bytes| == |a| ==> Splice(a, lo, bytes) == Splice(b, lo, bytes)
  {
  }

  lemma StoreOk(bufs: seq<Buf>, n: nat, head: nat, order: seq<nat>, pos: seq<nat>, where: map<nat, nat>,
                stamp: seq<nat>,
                clock: nat, disk: seq<Block>, i: nat, buf: Buf)
    requires CacheOk(bufs, n, head, order, pos, where, stamp, clock, disk) && i < n
    requires buf.block == bufs[i].block && buf.next == bufs[i].next && |buf.data| == PAGESIZE
    requires buf.valid && !buf.dirty ==> buf.block < |disk| && buf.data == disk[buf.block]
    ensures CacheOk(bufs[i := buf], n, head, order, pos, where, stamp, clock, disk)
    ensures buf.block < |disk| &&
      View(bufs[i := buf], where, disk, buf.block) == if buf.valid then buf.data else disk[buf.block]
    ensures forall b: nat {:trigger View(bufs[i := buf], where, disk, b)} :: b < |disk| && b != buf.block ==>
      View(bufs[i := buf], where, disk, b) == View(bufs, where, disk, b)
  {
    var bufs' := bufs[i := buf];
    assert Member(where, bufs[i].block) && where[bufs[i].block] == i;
    forall p: nat {:trigger LinkAfter(order, p)} | p < n ensures bufs'[order[p]].next == LinkAfter(order, p) {
      assert bufs[order[p]].next == LinkAfter(order, p);
    }
    forall b: nat | b < |disk| && b != buf.block ensures View(bufs', where, disk, b) == View(bufs, where, disk, b) {
      if Member(where, b) { assert bufs[where[b]].block == b; }
    }
  }

  function Zeros(): Block { seq(PAGESIZE, _ => 0) }

  /** A request to the device. */
  datatype Op = ReadOp(offset: nat, n: nat) | WriteOp(offset: nat, data: Block) | SyncOp

  predicate InRange(op: Op, size: nat)
  {
    match op
    case ReadOp(offset, n) => offset + n <= size
    case WriteOp(offset, data) => offset + |data| <= size
    case SyncOp => true
  }

  /** The flat array after a request. */
  function Effect(flat: Block, op: Op): (r: Block)
    requires InRange(op, |flat|)
    ensures |r| == |flat|
  {
    if op.WriteOp? then Splice(flat, op.offset, op.data) else flat
  }

  /** What a request returns on the flat array. */
  function Answer(flat: Block, op: Op): Block
    requires InRange(op, |flat|)
  {
    if op.ReadOp? then flat[op.offset..op.offset + op.n] else []
  }

  function FlatRun(flat: Block, ops: seq<Op>): (r: Block)
    requires forall op :: op in ops ==> InRange(op, |flat|)
    ensures |r| == |flat|
  {
    if ops == [] then flat else Effect(FlatRun(flat, ops[..|ops| - 1]), ops[|ops| - 1])
  }

  function FlatAnswers(flat: Block, ops: seq<Op>): seq<Block>
    requires forall op :: op in ops ==> InRange(op, |flat|)
  {
    if ops == [] then []
    else
      var n := |ops| - 1;
      FlatAnswers(flat, ops[..n]) + [Answer(FlatRun(flat, ops[..n]), ops[n])]
  }

  /** `flat` is what the cache shows, byte for byte. */
  ghost predicate Shows(c: Cache, flat: Block)
    reads c, c.bufs
  {
    |flat| == |c.disk| * PAGESIZE &&
      forall k: nat {:trigger c.ByteAt(k)} :: k / PAGESIZE < |c.disk| ==> k < |flat| && c.ByteAt(k) == flat[k]
  }

  /** The blocks a request touches. */
  function Touched(op: Op): set<nat> {
    match op
    case ReadOp(offset, n) => Blocks(offset / PAGESIZE, PageUp(offset + n))
    case WriteOp(offset, data) => Blocks(offset / PAGESIZE, PageUp(offset + |data|))
    case SyncOp => {}
  }

  function AllTouched(ops: seq<Op>): set<nat> {
    if ops == [] then {} else AllTouched(ops[..|ops| - 1]) + Touched(ops[|ops| - 1])
  }

  /** A block that a request writes whole is one of `known`. */
  ghost predicate Prepared(op: Op, known: set<nat>) {
    op.WriteOp? ==>
      forall b: nat {:trigger b in known} :: b in Touched(op) && Whole(op.offset, op.offset + |op.data|, b) ==>
      b in known
  }

  /** Every block written whole was touched before, and at most 64 blocks are touched. */
  ghost predicate Careful(ops: seq<Op>) {
    && |AllTouched(ops)| <= CACHE_BLOCKS
    && forall i: nat {:trigger ops[i]} :: i < |ops| ==> Prepared(ops[i], AllTouched(ops[..i]))
  }

  lemma {:induction false} TouchedGrows(ops: seq<Op>, i: nat)
    requires i <= |ops|
    ensures AllTouched(ops[..i]) <= AllTouched(ops)
  {
    if i < |ops| {
      TouchedGrows(ops[..|ops| - 1], i);
      assert ops[..|ops| - 1][..i] == ops[..i];
    } else {
      assert ops[..i] == ops;
    }
  }

  /** A cache of `n` buffers has `n` blocks. */
  lemma {:induction false} BlockCount(bufs: seq<Buf>, n: nat, where: map<nat, nat>)
    requires Labelled(bufs, n, where)
    ensures |where.Keys| == n
    decreases n
  {
    if n == 0 {
      assert forall b: nat :: b in where.Keys ==> Member(where, b);
      assert where.Keys == {};
    } else {
      var b := bufs[n - 1].block;
      var rest := where - {b};
      forall i: nat | i < n - 1 ensures Member(rest, bufs[i].block) && rest[bufs[i].block] == i {
        assert where[bufs[i].block] == i;
      }
      forall c: nat | Member(rest, c) ensures rest[c] < n - 1 && bufs[rest[c]].block == c { assert Member(where, c); }
      BlockCount(bufs, n - 1, rest);
      assert Member(where, b);
      assert where.Keys == rest.Keys + {b};
    }
  }

  lemma {:induction false} MissingCount(c: Cache, keys: set<nat>, lo: nat, hi: nat)
    requires lo <= hi
    ensures |keys| + c.Missing(keys, lo, hi) == |keys + Blocks(lo, hi)|
    decreases hi - lo
  {
    hide Blocks;
    if lo == hi {
      assert keys + Blocks(lo, hi) == keys;
    } else {
      MissingCount(c, keys + {lo}, lo + 1, hi);
      c.MissingBelow(keys, lo, lo + 1, hi);
      BlocksFrom(lo, hi, keys);
      if lo in keys { assert keys + {lo} == keys; }
    }
  }

  lemma BlocksFrom(lo: nat, hi: nat, keys: set<nat>)
    requires lo < hi
    ensures keys + {lo} + Blocks(lo + 1, hi) == keys + Blocks(lo, hi)
  {
    hide Blocks;
  }

  /** The cache as it is after requests that touched `known`: these blocks are in it, valid. */
  ghost predicate Knows(c: Cache, known: set<nat>)
    reads c, c.bufs
  {
    c.repaired || (c.where.Keys == known && forall b: nat {:trigger c.Holds(b)} :: b in known ==> c.Holds(b))
  }

  lemma KnownFits(c: Cache, known: set<nat>, lo: nat, hi: nat)
    requires c.Valid() && Knows(c, known) && lo <= hi && (c.repaired || |known + Blocks(lo, hi)| <= CACHE_BLOCKS)
    ensures c.Fits(lo, hi)
  {
    hide Listed, Recent, Clean;
    if !c.repaired {
      BlockCount(c.bufs[..], c.size, c.where);
      MissingCount(c, known, lo, hi);
    }
  }

  lemma KnownKeeps(c: Cache, known: set<nat>, offset: nat, data: Block)
    requires Knows(c, known) && (c.repaired || Prepared(WriteOp(offset, data), known))
    ensures c.Keeps(offset, offset + |data|, offset / PAGESIZE, PageUp(offset + |data|))
  {
    hide Blocks;
    if !c.repaired {
      var lo, hi := offset / PAGESIZE, PageUp(offset + |data|);
      forall b: nat {:trigger c.Holds(b)} | lo <= b < hi && Whole(offset, offset + |data|, b) ensures c.Holds(b) {
        assert b in Touched(WriteOp(offset, data)) && b in known;
      }
    }
  }

  /** The cache knows the blocks that have spread over it. */
  lemma KnowsMore(c: Cache, known: set<nat>, keys: set<nat>, held: set<nat>, lo: nat, hi: nat)
    requires c.repaired || (keys == known && known <= held && c.Spread(keys, held, lo, hi))
    ensures Knows(c, known + Blocks(lo, hi))
  {
    hide Blocks;
  }

  lemma KnownHeld(c: Cache, known: set<nat>)
    requires Knows(c, known)
    ensures c.repaired || (c.where.Keys == known && known <= c.Held())
  {
    if !c.repaired { forall b: nat | b in known ensures b in c.Held() { assert c.Holds(b); } }
  }

  /** One request is that request to the flat array: to the repaired cache always, otherwise if
      its blocks fit and those it writes whole are known. */
  method Perform(c: Cache, op: Op, ghost flat: Block, ghost known: set<nat>) returns (answer: Block)
    requires c.Valid() && Shows(c, flat) && InRange(op, |flat|) && Knows(c, known)
    requires c.repaired || (|known + Touched(op)| <= CACHE_BLOCKS && Prepared(op, known))
    modifies c`head, c`size, c`disk, c`order, c`pos, c`where, c`stamp, c`clock, c.bufs
    ensures c.Valid() && Shows(c, Effect(flat, op)) && answer == Answer(flat, op) && Knows(c, known + Touched(op))
  {
    hide CacheOk, Shows, Knows, Prepared, Blocks;
    answer := [];
    match op {
      case ReadOp(offset, n) => answer := PerformRead(c, offset, n, flat, known);
      case WriteOp(offset, data) => PerformWrite(c, offset, data, flat, known);
      case SyncOp =>
        PerformSync(c, flat, known);
        assert known + Touched(op) == known;
    }
  }

  method PerformRead(c: Cache, offset: nat, n: nat, ghost flat: Block, ghost known: set<nat>) returns (answer: Block)
    requires c.Valid() && Shows(c, flat) && InRange(ReadOp(offset, n), |flat|) && Knows(c, known)
    requires c.repaired || |known + Touched(ReadOp(offset, n))| <= CACHE_BLOCKS
    modifies c`head, c`size, c`disk, c`order, c`pos, c`where, c`stamp, c`clock, c.bufs
    ensures c.Valid() && Shows(c, flat) && answer == Answer(flat, ReadOp(offset, n)) &&
      Knows(c, known + Touched(ReadOp(offset, n)))
  {
    hide CacheOk, View, Knows, Blocks, Cache.Fits, Cache.Keeps, Cache.Spread, Cache.Held;
    ghost var keys, held := c.where.Keys, c.Held();
    KnownHeld(c, known);
    RangeUp(offset, n);
    KnownFits(c, known, offset / PAGESIZE, PageUp(offset + n));
    answer := c.ReadBytes(offset, n);
    forall k | 0 <= k < n ensures answer[k] == flat[offset + k] { assert answer[k] == c.ByteAt(offset + k); }
    KnowsMore(c, known, keys, held, offset / PAGESIZE, PageUp(offset + n));
  }

  method PerformWrite(c: Cache, offset: nat, data: Block, ghost flat: Block, ghost known: set<nat>)
    requires c.Valid() && Shows(c, flat) && InRange(WriteOp(offset, data), |flat|) && Knows(c, known)
    requires c.repaired ||
      (|known + Touched(WriteOp(offset, data))| <= CACHE_BLOCKS && Prepared(WriteOp(offset, data), known))
    modifies c`head, c`size, c`disk, c`order, c`pos, c`where, c`stamp, c`clock, c.bufs
    ensures c.Valid() && Shows(c, Effect(flat, WriteOp(offset, data))) &&
      Knows(c, known + Touched(WriteOp(offset, data)))
  {
    hide CacheOk, View, Knows, Prepared, Blocks, Cache.Fits, Cache.Keeps, Cache.Spread, Cache.Held;
    ghost var keys, held := c.where.Keys, c.Held();
    KnownHeld(c, known);
    RangeUp(offset, |data|);
    KnownFits(c, known, offset / PAGESIZE, PageUp(offset + |data|));
    KnownKeeps(c, known, offset, data);
    c.WriteBytes(offset, data);
    KnowsMore(c, known, keys, held, offset / PAGESIZE, PageUp(offset + |data|));
  }

  method PerformSync(c: Cache, ghost flat: Block, ghost known: set<nat>)
    requires c.Valid() && Shows(c, flat) && Knows(c, known)
    modifies c`disk
    ensures c.Valid() && Shows(c, flat) && Knows(c, known)
    ensures forall b: nat {:trigger c.Contents(b)} :: b < |c.disk| ==> c.disk[b] == c.Contents(b)
  {
    hide CacheOk, View;
    c.Sync();
    forall k: nat | k / PAGESIZE < |c.disk| ensures c.ByteAt(k) == flat[k] {
      assert c.Contents(k / PAGESIZE) == old(c.Contents(k / PAGESIZE));
      assert c.ByteAt(k) == old(c.ByteAt(k));
    }
    forall b: nat | b in known && !c.repaired ensures c.Holds(b) { assert old(c.Holds(b)); }
  }

  lemma RangeUp(offset: nat, n: nat)
    ensures offset / PAGESIZE <= PageUp(offset + n)
  {
  }

  /** Every interleaving of reads, writes and syncs gives the answers and the contents of a flat
      array of bytes: on the repaired cache, and on the code as it is from an empty cache if at
      most 64 blocks are touched and none is written whole before it was touched. */
  method Run(c: Cache, ops: seq<Op>, ghost flat: Block) returns (answers: seq<Block>)
    requires c.Valid() && Shows(c, flat) && forall op :: op in ops ==> InRange(op, |flat|)
    requires c.repaired || (c.where == map[] && Careful(ops))
    modifies c`head, c`size, c`disk, c`order, c`pos, c`where, c`stamp, c`clock, c.bufs
    ensures c.Valid() && Shows(c, FlatRun(flat, ops)) && answers == FlatAnswers(flat, ops)
  {
    hide CacheOk, Shows, Prepared, Touched, View;
    answers := [];
    for i := 0 to |ops|
      invariant c.Valid() && Shows(c, FlatRun(flat, ops[..i])) && answers == FlatAnswers(flat, ops[..i])
      invariant Knows(c, AllTouched(ops[..i]))
    {
      assert ops[..i + 1][..i] == ops[..i];
      TouchedGrows(ops, i + 1);
      if !c.repaired { Subset(AllTouched(ops[..i + 1]), AllTouched(ops)); }
      var answer := Perform(c, ops[i], FlatRun(flat, ops[..i]), AllTouched(ops[..i]));
      answers := answers + [answer];
    }
    assert ops[..|ops|] == ops;
  }

  lemma {:induction false} Subset(a: set<nat>, b: set<nat>)
    requires a <= b
    ensures |a| <= |b|
  {
    if a != {} {
      var x :| x in a;
      Subset(a - {x}, b - {x});
    }
  }

  /** As the code is, a block written whole to an empty cache takes a buffer and reads back as the
      disk's. */
  method LostWrite(bytes: Block) returns (taken: nat, back: Block)
    requires |bytes| == PAGESIZE
    ensures taken == 1 && back == Zeros()
  {
    var c := new Cache([Zeros()], false);
    c.WritePart(0, 0, bytes);
    taken := c.size;
    back := c.ReadPart(0, 0, PAGESIZE);
    assert back == Zeros()[0..PAGESIZE];
  }

  function Ones(): Block { seq(PAGESIZE, _ => 1) }

  /** As the code is, block 64 read after blocks 0 to 63 reads as one of those: the byte is 0
      although the disk has 1. */
  method WrongByte() returns (c: Cache, bytes: Block)
    ensures bytes == [0] && |c.disk| == CACHE_BLOCKS + 1 && c.Contents(CACHE_BLOCKS) == Ones()
  {
    hide CacheOk, View;
    c := new Cache(seq(CACHE_BLOCKS, _ => Zeros()) + [Ones()], false);
    StartContents(c);
    for b: nat := 0 to CACHE_BLOCKS
      invariant c.Valid() && c.size == b && |c.disk| == CACHE_BLOCKS + 1 && !c.repaired && fresh(c) && fresh(c.bufs)
      invariant forall k: nat :: Member(c.where, k) <==> k < b
      invariant forall k: nat {:trigger c.Holds(k)} :: k < b ==> c.Holds(k)
      invariant forall k: nat {:trigger c.Contents(k)} :: k <= CACHE_BLOCKS ==>
        c.Contents(k) == if k < CACHE_BLOCKS then Zeros() else Ones()
    {
      ghost var keys := c.where.Keys;
      forall k: nat ensures k in keys <==> k < b { assert Member(c.where, k) <==> k < b; }
      bytes := c.ReadPart(b, 0, 1);
      assert c.where.Keys == keys + {b};
    }
    assert !Member(c.where, CACHE_BLOCKS);
    c.LabelFacts(CACHE_BLOCKS);
    c.FullLabel(CACHE_BLOCKS);
    bytes := c.ReadPart(CACHE_BLOCKS, 0, 1);
  }

  lemma StartContents(c: Cache)
    requires c.where == map[] && c.disk == seq(CACHE_BLOCKS, _ => Zeros()) + [Ones()]
    ensures forall k: nat {:trigger c.Contents(k)} :: k <= CACHE_BLOCKS ==>
      c.Contents(k) == if k < CACHE_BLOCKS then Zeros() else Ones()
  {
  }
}
