/** The descriptor table of a split virtqueue (kernel/drivers/virtio.c) as the device reads it:
    sections 2.6.5 and 2.6.5.3 of VirtIO 1.1. */
module DescriptorChains {
  import opened Paging

  /** VIRTIO_NUM_DESC. */
  const QUEUE := 16
  /** Bytes of a descriptor. */
  const DESC_SIZE := 16

  /** VirtQueueDesc; the bits of its flags are written out. */
  datatype Desc = Desc(addr: nat, len: nat, next: bool, write: bool, indirect: bool, link: nat)

  /** A buffer of a request, as the device sees it. */
  datatype Elem = Elem(addr: nat, len: nat, writable: bool)

  /** A buffer as the driver is given it: a number (a byte address, or a frame number in an
      indirect list) and a length. */
  datatype Buffer = Buffer(num: nat, len: nat)

  /** All inputs, read-only, then all outputs, writable, in order. */
  function Elems(inputs: seq<Buffer>, outputs: seq<Buffer>, scale: nat): seq<Elem>
  {
    seq(|inputs| + |outputs|, p requires 0 <= p < |inputs| + |outputs| =>
      if p < |inputs| then Elem(inputs[p].num * scale, inputs[p].len, false)
      else Elem(outputs[p - |inputs|].num * scale, outputs[p - |inputs|].len, true))
  }

  /** The inputs come first and may be read, the outputs follow and may be written. */
  lemma ElemsOf(inputs: seq<Buffer>, outputs: seq<Buffer>, scale: nat, b: Buffer)
    ensures Elems(inputs, outputs, scale) == Elems(inputs, [], scale) + Elems([], outputs, scale)
    ensures Elems([], [], scale) == []
    ensures Elems(inputs + [b], [], scale) == Elems(inputs, [], scale) + [Elem(b.num * scale, b.len, false)]
    ensures Elems([], outputs + [b], scale) == Elems([], outputs, scale) + [Elem(b.num * scale, b.len, true)]
  {
  }

  /** A block read: a header of 16 bytes, a sector and a status byte. */
  lemma BlockRead()
    ensures Elems([Buffer(5, 16)], [Buffer(6, 512), Buffer(7, 1)], 4096) ==
      [Elem(0x5000, 16, false), Elem(0x6000, 512, true), Elem(0x7000, 1, true)]
  {
  }

  /** The device follows the chain from entry `i`; None if it leaves the table or does not end
      within `fuel` entries. */
  function Follow(table: seq<Desc>, i: nat, fuel: nat): (r: Option<seq<Elem>>)
    ensures r.Some? ==> 1 <= |r.value| <= fuel
    decreases fuel
  {
    if fuel == 0 || i >= |table| then None
    else
      var d := table[i];
      var e := Elem(d.addr, d.len, d.write);
      if !d.next then Some([e])
      else match Follow(table, d.link, fuel - 1)
        case None => None
        case Some(rest) => Some([e] + rest)
  }

  /** What the device reads for the request that starts at `head`: the chain itself, or the
      chain in the indirect list that `head` points to. */
  function DeviceWalk(desc: seq<Desc>, lists: map<nat, seq<Desc>>, head: nat): Option<seq<Elem>>
  {
    if head >= |desc| then None
    else if !desc[head].indirect then Follow(desc, head, QUEUE)
    else
      var pfn, n := desc[head].addr / PAGESIZE, desc[head].len / DESC_SIZE;
      if pfn in lists && n <= |lists[pfn]| then Follow(lists[pfn][..n], 0, n) else None
  }

  /** Descriptor `d` at position `p` of `n` holds `e` and leads to the next position. */
  predicate Carries(d: Desc, e: Elem, last: bool)
  {
    d.addr == e.addr && d.len == e.len && d.write == e.writable && d.next == !last && !d.indirect
  }

  predicate Next(chain: seq<nat>, p: nat, link: nat) { p + 1 < |chain| ==> link == chain[p + 1] }

  /** The entries `chain` of the table hold `elems`, in order, linked to one another. */
  ghost predicate Built(table: seq<Desc>, chain: seq<nat>, elems: seq<Elem>)
  {
    && |chain| == |elems| && elems != []
    && (forall p: nat {:trigger chain[p]} :: p < |chain| ==>
          chain[p] < |table| && Carries(table[chain[p]], elems[p], p + 1 == |chain|) &&
          Next(chain, p, table[chain[p]].link))
  }

  /** The device reads a built chain from any position on. */
  lemma {:induction false} FollowBuilt(table: seq<Desc>, chain: seq<nat>, elems: seq<Elem>, p: nat, fuel: nat)
    requires Built(table, chain, elems) && p < |chain| <= p + fuel
    ensures Follow(table, chain[p], fuel) == Some(elems[p..])
    decreases |chain| - p
  {
    var d := table[chain[p]];
    assert Carries(d, elems[p], p + 1 == |chain|) && Next(chain, p, d.link);
    assert elems[p..] == [elems[p]] + elems[p + 1..];
    if p + 1 < |chain| {
      FollowBuilt(table, chain, elems, p + 1, fuel - 1);
    } else {
      assert elems[p..] == [elems[p]];
    }
  }

  /** A chain that goes on at each of its first `n` entries has more than `n`. */
  lemma {:induction false} FollowLonger(table: seq<Desc>, chain: seq<nat>, p: nat, fuel: nat)
    requires p < |chain|
    requires forall q: nat {:trigger chain[q]} :: q < |chain| ==>
      chain[q] < |table| && table[chain[q]].next && Next(chain, q, table[chain[q]].link)
    ensures var r := Follow(table, chain[p], fuel); r.Some? ==> |r.value| > |chain| - p
    decreases |chain| - p
  {
    if fuel > 0 {
      assert table[chain[p]].next && Next(chain, p, table[chain[p]].link);
      if p + 1 < |chain| { FollowLonger(table, chain, p + 1, fuel - 1); }
    }
  }

  /** Tables that agree on the chain give the same chain. */
  lemma BuiltSame(table: seq<Desc>, table': seq<Desc>, chain: seq<nat>, elems: seq<Elem>)
    requires Built(table, chain, elems) && |table'| == |table|
    requires forall p: nat {:trigger chain[p]} :: p < |chain| ==> table'[chain[p]] == table[chain[p]]
    ensures Built(table', chain, elems)
  {
  }
}
