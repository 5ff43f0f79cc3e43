/** The split virtqueue driver (kernel/drivers/virtio.c): `add_queue`, `recycle_descriptors` and
    the polling of `queue_add_notify_pop`, with the device as a second party that reads published
    requests in order and completes them in any order. */
module Virtqueue {
  import Counters
  import opened Paging
  import opened PageRuns
  import opened Allocator
  import opened DescriptorChains
  import opened QueueState
  import opened QueueSteps

  /** The device's copies of the first `n` descriptors of the chain no longer name a buffer. */
  ghost predicate Wiped(table: seq<Desc>, chain: seq<nat>, n: int) {
    forall p: nat {:trigger chain[p]} :: p < n && p < |chain| ==>
      chain[p] < |table| && table[chain[p]].addr == 0 && table[chain[p]].len == 0
  }

  /** Descriptor at position `p` of a chain for these buffers, with the flags `add_queue` sets. */
  function Planned(inputs: seq<Buffer>, outputs: seq<Buffer>, scale: nat, p: nat, link: nat): Desc
    requires p < |inputs| + |outputs|
  {
    var e := Elems(inputs, outputs, scale)[p];
    Desc(e.addr, e.len, p < |inputs| || p + 1 < |inputs| + |outputs|, e.writable, false, link)
  }

  /** `table'` is `table` with the first `n` free descriptors filled; links stay. */
  ghost predicate Filled(table': seq<Desc>, table: seq<Desc>, shadow: seq<Desc>, place: seq<Place>, n: nat,
                         inputs: seq<Buffer>, outputs: seq<Buffer>)
    requires n <= |inputs| + |outputs|
  {
    && |table'| == |table| == |shadow| == |place|
    && (forall d: nat {:trigger table'[d]} :: d < |table| ==>
          table'[d] == if place[d].Free? && place[d].pos < n
          then Planned(inputs, outputs, 1, place[d].pos, shadow[d].link)
                       else table[d])
  }

  lemma FillStep(table': seq<Desc>, table: seq<Desc>, shadow: seq<Desc>, place: seq<Place>, free: seq<nat>,
                 flight: map<nat, Request>, n: nat, inputs: seq<Buffer>, outputs: seq<Buffer>)
    requires Placed(place, free, flight) && n < |inputs| + |outputs| && n < |free|
    requires Filled(table', table, shadow, place, n, inputs, outputs)
    ensures free[n] < |shadow|
    ensures Filled(table'[free[n] := Planned(inputs, outputs, 1, n, shadow[free[n]].link)], table, shadow, place, n + 1,
      inputs, outputs)
  {
    assert place[free[n]] == Free(n);
    forall d: nat | d < |table| && place[d] == Free(n) ensures d == free[n] { }
  }

  lemma FilledOnly(table': seq<Desc>, table: seq<Desc>, shadow: seq<Desc>, place: seq<Place>, n: nat,
                   inputs: seq<Buffer>, outputs: seq<Buffer>)
    requires n <= |inputs| + |outputs| && Filled(table', table, shadow, place, n, inputs, outputs)
    ensures OnlyTaken(table', table, place, n)
  {
  }

  /** With an output, the filled descriptors are a chain of the buffers. */
  lemma FilledBuilt(table': seq<Desc>, table: seq<Desc>, shadow: seq<Desc>, place: seq<Place>, free: seq<nat>,
                    flight: map<nat, Request>, freeHead: nat, inputs: seq<Buffer>, outputs: seq<Buffer>)
    requires Placed(place, free, flight) && Shadowed(shadow, freeHead, free, flight)
    requires var n := |inputs| + |outputs|; n <= |free| && Filled(table', table, shadow, place, n, inputs, outputs)
    requires outputs != []
    ensures Built(table', free[..|inputs| + |outputs|], Elems(inputs, outputs, 1))
  {
    var n := |inputs| + |outputs|;
    var chain, elems := free[..n], Elems(inputs, outputs, 1);
    forall p: nat | p < n
      ensures chain[p] < |table'| && Carries(table'[chain[p]], elems[p], p + 1 == n) &&
        Next(chain, p, table'[chain[p]].link)
    {
      assert chain[p] == free[p] && place[free[p]] == Free(p) && Next(free, p, shadow[free[p]].link);
    }
  }

  /** Without one, the chain does not end where it should. */
  lemma FilledOpen(table': seq<Desc>, table: seq<Desc>, shadow: seq<Desc>, place: seq<Place>, free: seq<nat>,
                   flight: map<nat, Request>, freeHead: nat, inputs: seq<Buffer>, fuel: nat)
    requires Placed(place, free, flight) && Shadowed(shadow, freeHead, free, flight)
    requires 1 <= |inputs| <= |free| && Filled(table', table, shadow, place, |inputs|, inputs, [])
    ensures Follow(table', free[0], fuel) != Some(Elems(inputs, [], 1))
  {
    var n := |inputs|;
    var chain := free[..n];
    forall q: nat | q < n
      ensures chain[q] < |table'| && table'[chain[q]].next && Next(chain, q, table'[chain[q]].link) {
      assert chain[q] == free[q] && place[free[q]] == Free(q) && Next(free, q, shadow[free[q]].link);
    }
    FollowLonger(table', chain, 0, fuel);
  }

  /** The indirect list for these buffers. */
  function ListOf(inputs: seq<Buffer>, outputs: seq<Buffer>): seq<Desc>
  {
    seq(|inputs| + |outputs|, p requires 0 <= p < |inputs| + |outputs| => Planned(inputs, outputs, PAGESIZE, p, p + 1))
  }

  lemma Lengths(inputs: seq<Buffer>, outputs: seq<Buffer>)
    ensures |ListOf(inputs, outputs)| == |Elems(inputs, outputs, PAGESIZE)| == |inputs| + |outputs|
  {
  }

  lemma ListBuilt(inputs: seq<Buffer>, outputs: seq<Buffer>)
    requires outputs != []
    ensures Built(ListOf(inputs, outputs), Upto(|inputs| + |outputs|), Elems(inputs, outputs, PAGESIZE))
  {
  }

  lemma ListOpen(inputs: seq<Buffer>)
    requires inputs != []
    ensures Follow(ListOf(inputs, []), 0, |inputs|) == None
  {
    var list, chain := ListOf(inputs, []), Upto(|inputs|);
    forall q: nat | q < |chain|
      ensures chain[q] < |list| && list[chain[q]].next && Next(chain, q, list[chain[q]].link) { }
    FollowLonger(list, chain, 0, |inputs|);
  }

  /** The loops of `add_queue` that fill an indirect list. */
  method FillList(inputs: seq<Buffer>, outputs: seq<Buffer>) returns (list: seq<Desc>)
    ensures list == ListOf(inputs, outputs)
  {
    list := [];
    for i := 0 to |inputs|
      invariant list == ListOf(inputs, outputs)[..i]
    {
      list := list + [Desc(inputs[i].num * PAGESIZE, inputs[i].len, true, false, false, i + 1)];
    }
    for i := 0 to |outputs|
      invariant list == ListOf(inputs, outputs)[..|inputs| + i]
    {
      var next := i != |outputs| - 1;
      list := list + [Desc(outputs[i].num * PAGESIZE, outputs[i].len, next, true, false, |inputs| + i + 1)];
    }
  }

  /** Live single pages have different frames. */
  lemma PagesApart(alloc: PageAllocator, v: nat, w: nat)
    requires alloc.Valid() && v in alloc.dma.live && w in alloc.dma.live && v != w
    requires alloc.dma.live[v].size == 1 && alloc.dma.live[w].size == 1
    ensures alloc.dma.live[v].pfn != alloc.dma.live[w].pfn && v != 0
  {
    var d := alloc.dma;
    LiveFrames(d.base, d.brk, d.tag, d.live, d.Free(), v);
    LiveFrames(d.base, d.brk, d.tag, d.live, d.Free(), w);
    assert UsedBy(alloc.use, d.Frames()[v], UserOf(v, true)) && UsedBy(alloc.use, d.Frames()[w], UserOf(w, true));
  }

  /** A new request beside those the device sees. */
  lemma VisibleTake(desc: seq<Desc>, desc': seq<Desc>, pages: map<nat, seq<Desc>>, pages': map<nat, seq<Desc>>,
                    place: seq<Place>, free: seq<nat>, flight: map<nat, Request>, n: nat, h: nat, r: Request)
    requires Placed(place, free, flight) && Visible(desc, pages, flight)
    requires OnlyTaken(desc', desc, place, n) && ListsKept(pages', pages, flight)
    requires Stored(desc', h, r) && Listed(pages', r)
    ensures Visible(desc', pages', flight[h := r])
  {
    VisibleKept(desc, desc', pages, pages', place, free, flight, n);
    var flight' := flight[h := r];
    forall k: nat | InFlight(flight', k) && !flight'[k].stage.Done?
      ensures Stored(desc', k, flight'[k]) && Listed(pages', flight'[k])
    {
      if k != h { assert InFlight(flight, k); }
    }
  }

  lemma ListsAdd(vpns: seq<nat>, pfns: seq<nat>, flight: map<nat, Request>, h: nat, r: Request)
    requires Lists(vpns, pfns, flight) && h < QUEUE && !InFlight(flight, h)
    requires r.list.List? ==> r.list.vpn != 0
    ensures vpns[h] == 0
    ensures r.list.NoList? ==> Lists(vpns, pfns, flight[h := r])
    ensures r.list.List? ==> Lists(vpns[h := r.list.vpn], pfns[h := r.list.pfn], flight[h := r])
  {
    assert forall k: nat :: k != h ==> (InFlight(flight[h := r], k) <==> InFlight(flight, k));
  }

  lemma BackedAdd(flight: map<nat, Request>, live: map<nat, Run>, live': map<nat, Run>, h: nat, r: Request)
    requires Backed(flight, live) && !InFlight(flight, h)
    requires if r.list.NoList? then live' == live
             else r.list.vpn !in live && live' == live[r.list.vpn := Run(r.list.pfn, 1)]
                  && forall k: nat {:trigger InFlight(flight, k)} ::
                       InFlight(flight, k) && flight[k].list.List? ==> flight[k].list.pfn != r.list.pfn
    ensures Backed(flight[h := r], live')
  {
    var flight' := flight[h := r];
    forall k: nat | InFlight(flight', k) && flight'[k].list.List?
      ensures flight'[k].list.vpn in live' && live'[flight'[k].list.vpn] == Run(flight'[k].list.pfn, 1)
      ensures k != h ==> InFlight(flight, k)
    {
      if k != h { assert InFlight(flight, k); }
    }
  }

  /** Everything about descriptors that a step of the driver keeps. */
  ghost predicate TableOk(place: seq<Place>, free: seq<nat>, flight: map<nat, Request>, shadow: seq<Desc>,
                          freeHead: nat, desc: seq<Desc>, pages: map<nat, seq<Desc>>, vpns: seq<nat>, pfns: seq<nat>,
                          live: map<nat, Run>)
  {
    && Placed(place, free, flight) && Shadowed(shadow, freeHead, free, flight) && Visible(desc, pages, flight)
    && Lists(vpns, pfns, flight) && Backed(flight, live)
  }

  /** The state after `n` free descriptors became the request `r`. */
  lemma AddDone(place: seq<Place>, free: seq<nat>, flight: map<nat, Request>, shadow: seq<Desc>, shadow': seq<Desc>,
                freeHead: nat, freeHead': nat, desc: seq<Desc>, desc': seq<Desc>, pages: map<nat, seq<Desc>>,
                pages': map<nat, seq<Desc>>, vpns: seq<nat>, pfns: seq<nat>, live: map<nat, Run>, live': map<nat, Run>,
                n: nat, r: Request)
    requires TableOk(place, free, flight, shadow, freeHead, desc, pages, vpns, pfns, live) && 1 <= n <= |free|
    requires OnlyTaken(shadow', shadow, place, n) && OnlyTaken(desc', desc, place, n) &&
      ListsKept(pages', pages, flight)
    requires r.chain == free[..n] && Stored(shadow', free[0], r) && Stored(desc', free[0], r) && Listed(pages', r)
    requires forall d: nat {:trigger shadow'[d]} :: d < QUEUE ==> shadow'[d].link == shadow[d].link
    requires freeHead' < QUEUE && (n < |free| ==> freeHead' == free[n])
    requires if r.list.NoList? then live' == live
             else r.list.vpn != 0 && r.list.vpn !in live && live' == live[r.list.vpn := Run(r.list.pfn, 1)]
                  && forall k: nat {:trigger InFlight(flight, k)} ::
                       InFlight(flight, k) && flight[k].list.List? ==> flight[k].list.pfn != r.list.pfn
    ensures !InFlight(flight, free[0])
    ensures r.list.NoList? ==>
      TableOk(TakePlace(place, free[0], n), free[n..], flight[free[0] := r], shadow', freeHead', desc', pages', vpns,
        pfns, live')
    ensures r.list.List? ==>
      TableOk(TakePlace(place, free[0], n), free[n..], flight[free[0] := r], shadow', freeHead', desc', pages',
              vpns[free[0] := r.list.vpn], pfns[free[0] := r.list.pfn], live')
  {
    hide Placed, Shadowed, Visible, Stored, Listed, Lists, Backed, OnlyTaken, ListsKept;
    HeadBound(place, free, flight);
    PlacedTake(place, free, flight, n, r);
    ShadowTake(shadow, shadow', place, free, flight, freeHead, freeHead', n, r);
    VisibleTake(desc, desc', pages, pages', place, free, flight, n, free[0], r);
    ListsAdd(vpns, pfns, flight, free[0], r);
    BackedAdd(flight, live, live', free[0], r);
  }

  lemma HeadBound(place: seq<Place>, free: seq<nat>, flight: map<nat, Request>)
    requires Placed(place, free, flight) && free != []
    ensures free[0] < QUEUE
  {
  }

  ghost function Start(): seq<Place> { seq(QUEUE, (d: nat) => Free(d)) }

  lemma InitialTable(shadow: seq<Desc>, desc: seq<Desc>, vpns: seq<nat>, pfns: seq<nat>, live: map<nat, Run>)
    requires |shadow| == QUEUE && |desc| == QUEUE && |pfns| == QUEUE && |vpns| == QUEUE
    requires forall d: nat {:trigger shadow[d]} :: d < QUEUE ==> shadow[d].link == if d < QUEUE - 1 then d + 1 else 0
    requires forall d: nat {:trigger vpns[d]} :: d < QUEUE ==> vpns[d] == 0
    ensures TableOk(Start(), Upto(QUEUE), map[], shadow, 0, desc, map[], vpns, pfns, live)
  {
    assert forall p: nat :: p < QUEUE ==> Next(Upto(QUEUE), p, shadow[p].link);
  }

  lemma InitialRings(avail: seq<nat>, used: seq<nat>)
    requires |avail| == QUEUE && |used| == QUEUE
    ensures Ringed(avail, used, History([], 0, [], 0), map[])
  {
  }

  /** What a round of the polling loop comes to: nothing to take, another token than the one waited
      for, or the request is recycled. */
  datatype Polled = Waiting | Error | Popped

  class Queue {
    const alloc: PageAllocator
    /** Whether the device takes indirect lists. */
    const indirect: bool
    const desc: array<Desc>
    const shadow: array<Desc>
    /** Rings: heads published by the driver, heads completed by the device. */
    const avail: array<nat>
    const used: array<nat>
    /** `indirect_lists` (kernel page, 0 for NULL) and `indirect_pfns`. */
    const vpns: array<nat>
    const pfns: array<nat>
    var freeHead: nat
    var numUsed: nat
    /** `avail_idx` and `last_used_idx`, 32 bits; `avail->idx` and `used->idx`, 16 bits. */
    var availIdx: nat
    var lastUsed: nat
    var availPub: nat
    var usedPub: nat
    /** How far the device has read the available ring, 16 bits. */
    var deviceIdx: nat
    /** Indirect lists in memory, by frame. */
    var pages: map<nat, seq<Desc>>
    ghost var place: seq<Place>
    ghost var free: seq<nat>
    ghost var flight: map<nat, Request>
    ghost var hist: History

    ghost predicate Shape()
    {
      && desc.Length == QUEUE && shadow.Length == QUEUE && desc != shadow
      && avail.Length == QUEUE && used.Length == QUEUE && vpns.Length == QUEUE && pfns.Length == QUEUE
      && avail != used && avail != vpns && avail != pfns && used != vpns && used != pfns && vpns != pfns
    }

    ghost predicate Table()
      requires Shape()
      reads this, desc, shadow, vpns, pfns, alloc, alloc.dma
    {
      TableOk(place, free, flight, shadow[..], freeHead, desc[..], pages, vpns[..], pfns[..], alloc.dma.live)
    }

    ghost predicate Rings()
      requires Shape()
      reads this, avail, used
    {
      && Ringed(avail[..], used[..], hist, flight)
      && availIdx == |hist.published| % 0x1_0000_0000 && availPub == |hist.published| % 0x1_0000
      && lastUsed == hist.popped % 0x1_0000_0000 && usedPub == |hist.completed| % 0x1_0000
      && deviceIdx == hist.fetched % 0x1_0000
    }

    ghost predicate Valid()
      reads this, desc, shadow, avail, used, vpns, pfns, alloc, alloc.space, alloc.dma, alloc.kva
    {
      Shape() && alloc.Valid() && Table() && Rings() && numUsed == QUEUE - |free|
    }

    /** `init_queue`: all descriptors free, linked in order. */
    constructor (alloc: PageAllocator, indirect: bool)
      requires alloc.Valid()
      ensures Valid() && this.alloc == alloc && this.indirect == indirect
      ensures flight == map[] && free == Upto(QUEUE) && hist == History([], 0, [], 0)
      ensures forall k: nat {:trigger used[k]} :: k < QUEUE ==> used[k] == 0
      ensures fresh(desc) && fresh(shadow) && fresh(avail) && fresh(used) && fresh(vpns) && fresh(pfns)
    {
      hide PageAllocator.Valid, TableOk, Ringed, Start, Upto;
      this.alloc, this.indirect := alloc, indirect;
      desc := new Desc[QUEUE](_ => Desc(0, 0, false, false, false, 0));
      shadow := new Desc[QUEUE](_ => Desc(0, 0, false, false, false, 0));
      avail := new nat[QUEUE](_ => 0);
      used := new nat[QUEUE](_ => 0);
      vpns := new nat[QUEUE](_ => 0);
      pfns := new nat[QUEUE](_ => 0);
      freeHead, numUsed, availIdx, lastUsed, availPub, usedPub, deviceIdx := 0, 0, 0, 0, 0, 0, 0;
      pages := map[];
      place, free, flight := Start(), Upto(QUEUE), map[];
      hist := History([], 0, [], 0);
      new;
      Initialise();
    }

    /** The end of `init_queue`. */
    method Initialise()
      requires Shape() && alloc.Valid() && place == Start() && free == Upto(QUEUE) && flight == map[] && pages == map[]
      requires hist == History([], 0, [], 0) && freeHead == 0 && numUsed == 0
      requires availIdx == 0 && lastUsed == 0 && availPub == 0 && usedPub == 0 && deviceIdx == 0
      requires forall d: nat {:trigger shadow[d]} :: d < QUEUE ==> shadow[d].link == 0
      requires forall d: nat {:trigger vpns[d]} :: d < QUEUE ==> vpns[d] == 0
      modifies desc, shadow
      ensures Valid()
    {
      hide PageAllocator.Valid, TableOk, Ringed, Start, Upto;
      LinkAll();
      InitialTable(shadow[..], desc[..], vpns[..], pfns[..], alloc.dma.live);
      InitialRings(avail[..], used[..]);
      UptoSize();
    }

    lemma UptoSize()
      ensures |Upto(QUEUE)| == QUEUE
    {
    }

    /** The loop of `init_queue`. */
    method LinkAll()
      requires Shape() && forall d: nat {:trigger shadow[d]} :: d < QUEUE ==> shadow[d].link == 0
      modifies desc, shadow
      ensures forall d: nat {:trigger shadow[..][d]} :: d < QUEUE ==>
        shadow[..][d].link == if d < QUEUE - 1 then d + 1 else 0
      ensures forall d: nat {:trigger desc[..][d]} :: d < QUEUE ==>
        desc[..][d] == if d < QUEUE - 1 then old(desc[d]).(link := d + 1) else old(desc[d])
    {
      for i := 0 to QUEUE - 1
        invariant forall d: nat {:trigger shadow[d]} :: d < QUEUE ==> shadow[d].link == if d < i then d + 1 else 0
        invariant forall d: nat {:trigger desc[d]} :: d < QUEUE ==>
          desc[d] == if d < i then old(desc[d]).(link := d + 1) else old(desc[d])
      {
        shadow[i] := shadow[i].(link := i + 1);
        desc[i] := desc[i].(link := i + 1);
      }
    }

    /** One iteration of the direct loops of `add_queue`: the next free descriptor is filled in
        the shadow and copied to the device's table. */
    method Take(addr: nat, len: nat, next: bool, write: bool)
      requires Shape() && freeHead < QUEUE
      modifies this`freeHead, this`numUsed, desc, shadow
      ensures var d := old(freeHead);
              var e := Desc(addr, len, next, write, false, old(shadow[d].link));
              && shadow[..] == old(shadow[..])[d := e] && desc[..] == old(desc[..])[d := e]
              && freeHead == e.link && numUsed == old(numUsed) + 1
    {
      var last := freeHead;
      shadow[last] := Desc(addr, len, next, write, false, shadow[last].link);
      freeHead := shadow[last].link;
      desc[last] := shadow[last];
      numUsed := numUsed + 1;
    }

    /** Where the direct loops are after `i` buffers: links are in range, the first descriptor is
        a direct one; and as long as there are free descriptors enough, the first `i` of them are
        filled and the device sees what it saw. */
    ghost predicate Filling(i: nat, shadow0: seq<Desc>, desc0: seq<Desc>, head: nat, used0: nat,
                            inputs: seq<Buffer>, outputs: seq<Buffer>)
      requires Shape()
      reads this, desc, shadow
    {
      && i <= |inputs| + |outputs| && freeHead < QUEUE && head < QUEUE
      && (forall d: nat {:trigger shadow[d]} :: d < QUEUE ==> shadow[d].link < QUEUE)
      && (i > 0 ==> !desc[head].indirect)
      && (|inputs| + |outputs| <= |free| ==>
            && Filled(shadow[..], shadow0, shadow0, place, i, inputs, outputs)
            && Filled(desc[..], desc0, shadow0, place, i, inputs, outputs)
            && (i < |free| ==> freeHead == free[i]) && numUsed == used0 + i
            && Visible(desc[..], pages, flight))
    }

    /** One more buffer is filled in. */
    method FillOne(ghost i: nat, ghost shadow0: seq<Desc>, ghost desc0: seq<Desc>, ghost head: nat, ghost used0: nat,
                   ghost inputs: seq<Buffer>, ghost outputs: seq<Buffer>, buf: Buffer, next: bool, write: bool)
      requires Shape() && Placed(place, free, flight) && Shadowed(shadow0, head, free, flight) &&
        Visible(desc0, pages, flight)
      requires i < |inputs| + |outputs| && Filling(i, shadow0, desc0, head, used0, inputs, outputs) &&
        (i == 0 ==> freeHead == head)
      requires Desc(buf.num, buf.len, next, write, false, 0) == Planned(inputs, outputs, 1, i, 0)
      modifies this`freeHead, this`numUsed, desc, shadow
      ensures Filling(i + 1, shadow0, desc0, head, used0, inputs, outputs)
    {
      hide Placed, Shadowed, Visible;
      if |inputs| + |outputs| <= |free| {
        FillStep(shadow[..], shadow0, shadow0, place, free, flight, i, inputs, outputs);
        FillStep(desc[..], desc0, shadow0, place, free, flight, i, inputs, outputs);
        LinkNext(shadow[..], shadow0, place, free, flight, head, i, inputs, outputs);
      }
      Take(buf.num, buf.len, next, write);
      assert shadow[..][old(freeHead)].link < QUEUE;
      if |inputs| + |outputs| <= |free| {
        FilledOnly(desc[..], desc0, shadow0, place, i + 1, inputs, outputs);
        VisibleKept(desc0, desc[..], pages, pages, place, free, flight, i + 1);
      }
    }

    /** The direct loops of `add_queue`. */
    method FillChain(inputs: seq<Buffer>, outputs: seq<Buffer>)
      requires Shape() && Placed(place, free, flight) && Shadowed(shadow[..], freeHead, free, flight) &&
        Visible(desc[..], pages, flight)
      modifies this`freeHead, this`numUsed, desc, shadow
      ensures Filling(|inputs| + |outputs|, old(shadow[..]), old(desc[..]), old(freeHead), old(numUsed), inputs,
        outputs)
    {
      hide Placed, Visible, Filled, Shadowed, Filling, Planned;
      ghost var shadow0, desc0, head, used0 := shadow[..], desc[..], freeHead, numUsed;
      FillNone(inputs, outputs);
      for i := 0 to |inputs|
        invariant Filling(i, shadow0, desc0, head, used0, inputs, outputs) && (i == 0 ==> freeHead == head)
      {
        PlannedAt(inputs, outputs, i);
        FillOne(i, shadow0, desc0, head, used0, inputs, outputs, inputs[i], true, false);
      }
      for i := 0 to |outputs|
        invariant Filling(|inputs| + i, shadow0, desc0, head, used0, inputs, outputs) &&
          (|inputs| + i == 0 ==> freeHead == head)
      {
        PlannedAt(inputs, outputs, |inputs| + i);
        FillOne(|inputs| + i, shadow0, desc0, head, used0, inputs, outputs, outputs[i], i != |outputs| - 1, true);
      }
    }

    lemma FillNone(inputs: seq<Buffer>, outputs: seq<Buffer>)
      requires Shape() && Placed(place, free, flight) && Shadowed(shadow[..], freeHead, free, flight) &&
        Visible(desc[..], pages, flight)
      ensures Filling(0, shadow[..], desc[..], freeHead, numUsed, inputs, outputs)
    {
      hide Visible;
      assert forall d: nat :: d < QUEUE ==> shadow[d] == shadow[..][d];
    }

    /** The indirect branch of `add_queue`: a list in a page of its own, and the next free
        descriptor pointing to it. False is a panic of `dmalloc`; the panic on a list that is
        set already is not reached. */
    method AddList(inputs: seq<Buffer>, outputs: seq<Buffer>, needed: nat) returns (ok: bool, ghost list: List)
      requires Shape() && alloc.Valid() && Table() && free != []
      modifies this`freeHead, this`numUsed, this`pages, desc, shadow, vpns, pfns
      modifies alloc`use, alloc.space`mem, alloc.space`pfnStart, alloc.space`role
      modifies alloc.dma`brk, alloc.dma`nodes, alloc.dma`head, alloc.dma`order, alloc.dma`live, alloc.dma`tag
      ensures !ok ==> alloc.space.Exhausted()
      ensures ok ==>
        && alloc.Valid() && list.List? && list.vpn != 0 && list.vpn !in old(alloc.dma.live)
        && alloc.dma.live == old(alloc.dma.live)[list.vpn := Run(list.pfn, 1)]
        && (forall k: nat {:trigger InFlight(flight, k)} :: InFlight(flight, k) && flight[k].list.List? ==>
          flight[k].list.pfn != list.pfn)
        && var head := old(freeHead);
        && head < QUEUE
        && var d := Desc(list.pfn * PAGESIZE, DESC_SIZE * needed, false, false, true, old(shadow[head].link));
        && shadow[..] == old(shadow[..])[head := d] && desc[..] == old(desc[..])[head := d]
        && vpns[..] == old(vpns[..])[head := list.vpn] && pfns[..] == old(pfns[..])[head := list.pfn]
        && pages == old(pages)[list.pfn := ListOf(inputs, outputs)]
        && freeHead == d.link && numUsed == old(numUsed) + 1
    {
      hide PageAllocator.Valid, Region.Valid, TableOk, ListOf;
      FirstFree(place, free, flight, shadow[..], freeHead, desc[..], pages, vpns[..], pfns[..], alloc.dma.live);
      var vpn, pfn;
      ok, vpn, pfn := NewList(inputs, outputs);
      list := List(vpn, pfn);
      if ok { PointTo(vpn, pfn, needed); }
    }

    /** `dmalloc` of a page and the list in it; the page is none of the lists in flight. */
    method NewList(inputs: seq<Buffer>, outputs: seq<Buffer>) returns (ok: bool, vpn: nat, pfn: nat)
      requires Shape() && alloc.Valid() && Table()
      modifies this`pages, alloc`use, alloc.space`mem, alloc.space`pfnStart, alloc.space`role
      modifies alloc.dma`brk, alloc.dma`nodes, alloc.dma`head, alloc.dma`order, alloc.dma`live, alloc.dma`tag
      ensures !ok ==> alloc.space.Exhausted()
      ensures ok ==>
        && alloc.Valid() && vpn != 0 && vpn !in old(alloc.dma.live)
        && alloc.dma.live == old(alloc.dma.live)[vpn := Run(pfn, 1)]
        && (forall k: nat {:trigger InFlight(flight, k)} :: InFlight(flight, k) && flight[k].list.List? ==>
          flight[k].list.pfn != pfn)
        && pages == old(pages)[pfn := ListOf(inputs, outputs)]
    {
      hide PageAllocator.Valid, Region.Valid, Region.Frames, RunFrames, FramesKept, Placed, Visible, Shadowed, Lists;
      hide ListOf, Shape;
      var page := alloc.Dmalloc(1);
      if page.None? { return false, 0, 0; }
      ok, vpn, pfn := true, page.value.0, page.value.1;
      forall k: nat | InFlight(flight, k) && flight[k].list.List? ensures flight[k].list.pfn != pfn {
        PagesApart(alloc, flight[k].list.vpn, vpn);
      }
      var entries := FillList(inputs, outputs);
      pages := pages[pfn := entries];
    }

    /** The next free descriptor points to the list. */
    method PointTo(vpn: nat, pfn: nat, needed: nat)
      requires Shape() && freeHead < QUEUE && vpns[freeHead] == 0
      modifies this`freeHead, this`numUsed, desc, shadow, vpns, pfns
      ensures var head := old(freeHead);
              var d := Desc(pfn * PAGESIZE, DESC_SIZE * needed, false, false, true, old(shadow[head].link));
              && shadow[..] == old(shadow[..])[head := d] && desc[..] == old(desc[..])[head := d]
              && vpns[..] == old(vpns[..])[head := vpn] && pfns[..] == old(pfns[..])[head := pfn]
              && freeHead == d.link && numUsed == old(numUsed) + 1
    {
      var head := freeHead;
      if vpns[head] != 0 { assert false; }
      vpns[head] := vpn;
      pfns[head] := pfn;
      freeHead := shadow[head].link;
      shadow[head] := Desc(pfn * PAGESIZE, DESC_SIZE * needed, false, false, true, shadow[head].link);
      desc[head] := shadow[head];
      numUsed := numUsed + 1;
    }

    /** The end of `add_queue`: the head goes to the available ring, then the index. Neither
        store touches a slot the device has not read. */
    method Publish(head: nat)
      requires Shape() && Rings() && !InFlight(flight, head) && |hist.published| - hist.fetched < QUEUE
      modifies this`availIdx, this`availPub, avail
      ensures avail[..] == old(avail[..])[|hist.published| % QUEUE := head]
      ensures Ringed(avail[..], used[..], hist, flight)
      ensures availIdx == (|hist.published| + 1) % 0x1_0000_0000 && availPub == (|hist.published| + 1) % 0x1_0000
    {
      hide Ringed;
      IndexWraps(|hist.published|);
      IndexWraps(|hist.published| + 1);
      var slot := availIdx % QUEUE;
      RingPublish(avail[..], used[..], hist, flight, head, Request([], [], NoList, Pending(|hist.published|)));
      avail[slot] := head;
      availIdx := (availIdx + 1) % 0x1_0000_0000;
      availPub := availIdx % 0x1_0000;
    }

    /** What `add_queue` turns down: no descriptor left, or more buffers than descriptors, counted
        in eight bits. */
    predicate Rejects(n: nat)
      reads this
    {
      numUsed >= QUEUE || n % 256 > QUEUE || (!indirect && numUsed + n % 256 > QUEUE)
    }

    /** Buffers of `n` go into an indirect list. */
    predicate UsesList(n: nat) { indirect && n % 256 > 1 }

    /** The direct branch: what the device reads from `head` is the request exactly if there is an
        output and the count fits in eight bits. */
    lemma DirectWalk(shadow0: seq<Desc>, desc0: seq<Desc>, head: nat, used0: nat, inputs: seq<Buffer>,
                     outputs: seq<Buffer>)
      requires Shape() && Placed(place, free, flight) && Shadowed(shadow0, head, free, flight) && |free| <= QUEUE &&
        free != []
      requires Filling(|inputs| + |outputs|, shadow0, desc0, head, used0, inputs, outputs)
      requires |inputs| + |outputs| < 256 ==> |inputs| + |outputs| <= |free|
      ensures DeviceWalk(desc[..], pages, head) == Some(Elems(inputs, outputs, 1)) <==>
        outputs != [] && |inputs| + |outputs| < 256
    {
      hide Visible;
      var n := |inputs| + |outputs|;
      if n < 256 && outputs != [] {
        FilledBuilt(desc[..], desc0, shadow0, place, free, flight, head, inputs, outputs);
        FollowBuilt(desc[..], free[..n], Elems(inputs, outputs, 1), 0, QUEUE);
        assert free[..n][0] == head && Elems(inputs, outputs, 1)[0..] == Elems(inputs, outputs, 1);
      } else if 0 < n < 256 {
        FilledOpen(desc[..], desc0, shadow0, place, free, flight, head, inputs, QUEUE);
      }
    }

    /** The indirect branch, likewise. */
    lemma ListWalk(list: List, head: nat, inputs: seq<Buffer>, outputs: seq<Buffer>)
      requires Shape() && head < QUEUE && list.List? && UsesList(|inputs| + |outputs|)
      requires desc[head].indirect && desc[head].addr == list.pfn * PAGESIZE
      requires desc[head].len == DESC_SIZE * ((|inputs| + |outputs|) % 256) && |inputs| + |outputs| < 512
      requires list.pfn in pages && pages[list.pfn] == ListOf(inputs, outputs)
      ensures DeviceWalk(desc[..], pages, head) == Some(Elems(inputs, outputs, PAGESIZE)) <==>
              outputs != [] && |inputs| + |outputs| < 256
    {
      hide ListOf, Elems, Follow;
      var n, entries, elems := |inputs| + |outputs|, ListOf(inputs, outputs), Elems(inputs, outputs, PAGESIZE);
      assert desc[..][head].addr / PAGESIZE == list.pfn && desc[..][head].len / DESC_SIZE == n % 256;
      Lengths(inputs, outputs);
      if n >= 256 {
        assert DeviceWalk(desc[..], pages, head) == Follow(entries[..n % 256], 0, n % 256);
      } else {
        assert entries[..n] == entries && DeviceWalk(desc[..], pages, head) == Follow(entries, 0, n);
        if outputs != [] {
          ListBuilt(inputs, outputs);
          FollowBuilt(entries, Upto(n), elems, 0, n);
          assert Upto(n)[0] == 0 && elems[0..] == elems;
        } else {
          assert outputs == [];
          ListOpen(inputs);
        }
      }
    }

    /** The request these buffers become. */
    ghost function RequestFor(inputs: seq<Buffer>, outputs: seq<Buffer>, list: List): Request
      reads this
    {
      var n := |inputs| + |outputs|;
      if UsesList(n)
        then Request(if free == [] then []
        else free[..1], Elems(inputs, outputs, PAGESIZE), list, Pending(|hist.published|))
      else Request(if n <= |free| then free[..n] else [], Elems(inputs, outputs, 1), NoList, Pending(|hist.published|))
    }

    /** The filled descriptors are the request, and nothing else changed. */
    lemma DirectDone(shadow0: seq<Desc>, desc0: seq<Desc>, head: nat, used0: nat, inputs: seq<Buffer>,
                     outputs: seq<Buffer>)
      requires Shape() && outputs != [] && |inputs| + |outputs| <= |free| && !UsesList(|inputs| + |outputs|)
      requires TableOk(place, free, flight, shadow0, head, desc0, pages, vpns[..], pfns[..], alloc.dma.live)
      requires Filling(|inputs| + |outputs|, shadow0, desc0, head, used0, inputs, outputs)
      ensures var n, r := |inputs| + |outputs|, RequestFor(inputs, outputs, NoList);
              && head == free[0] && !InFlight(flight, head)
              && TableOk(TakePlace(place, head, n), free[n..], flight[head := r], shadow[..], freeHead, desc[..], pages,
                         vpns[..], pfns[..], alloc.dma.live)
    {
      var n, r := |inputs| + |outputs|, RequestFor(inputs, outputs, NoList);
      FilledOnly(shadow[..], shadow0, shadow0, place, n, inputs, outputs);
      FilledOnly(desc[..], desc0, shadow0, place, n, inputs, outputs);
      FilledBuilt(shadow[..], shadow0, shadow0, place, free, flight, head, inputs, outputs);
      FilledBuilt(desc[..], desc0, shadow0, place, free, flight, head, inputs, outputs);
      AddDone(place, free, flight, shadow0, shadow[..], head, freeHead, desc0, desc[..], pages, pages, vpns[..],
        pfns[..],
              alloc.dma.live, alloc.dma.live, n, r);
    }

    /** The list and the descriptor that points to it are the request, and nothing else changed. */
    lemma ListDone(shadow0: seq<Desc>, desc0: seq<Desc>, pages0: map<nat, seq<Desc>>, vpns0: seq<nat>, pfns0: seq<nat>,
                   live0: map<nat, Run>, head: nat, list: List, inputs: seq<Buffer>, outputs: seq<Buffer>)
      requires Shape() && outputs != [] && free != [] && UsesList(|inputs| + |outputs|) && |inputs| + |outputs| < 256
      requires TableOk(place, free, flight, shadow0, head, desc0, pages0, vpns0, pfns0, live0)
      requires list.List? && list.vpn != 0 && list.vpn !in live0 &&
        alloc.dma.live == live0[list.vpn := Run(list.pfn, 1)]
      requires forall k: nat {:trigger InFlight(flight, k)} :: InFlight(flight, k) && flight[k].list.List? ==>
        flight[k].list.pfn != list.pfn
      requires head < QUEUE
      requires var d :=
        Desc(list.pfn * PAGESIZE, DESC_SIZE * (|inputs| + |outputs|), false, false, true, shadow0[head].link);
               shadow[..] == shadow0[head := d] && desc[..] == desc0[head := d] && freeHead == d.link
      requires vpns[..] == vpns0[head := list.vpn] && pfns[..] == pfns0[head := list.pfn]
      requires pages == pages0[list.pfn := ListOf(inputs, outputs)]
      ensures var r := RequestFor(inputs, outputs, list);
              && head == free[0] && !InFlight(flight, head)
              && TableOk(TakePlace(place, head, 1), free[1..], flight[head := r], shadow[..], freeHead, desc[..], pages,
                         vpns[..], pfns[..], alloc.dma.live)
    {
      var r := RequestFor(inputs, outputs, list);
      assert place[head] == Free(0) && forall d: nat :: d < QUEUE && place[d] == Free(0) ==> d == head;
      assert Next(free, 0, shadow0[head].link);
      assert OnlyTaken(shadow[..], shadow0, place, 1) && OnlyTaken(desc[..], desc0, place, 1);
      ListBuilt(inputs, outputs);
      assert r.chain == [head] && ListsKept(pages, pages0, flight);
      AddDone(place, free, flight, shadow0, shadow[..], head, freeHead, desc0, desc[..], pages0, pages, vpns0, pfns0,
              live0, alloc.dma.live, 1, r);
    }

    /** Once its descriptors are taken, `req` is a request in flight like the others. */
    ghost predicate Ready(req: Request)
      requires Shape()
      reads this, desc, shadow, vpns, pfns, alloc, alloc.dma
    {
      && req.chain != [] && req.chain <= free && !InFlight(flight, free[0])
      && TableOk(TakePlace(place, free[0], |req.chain|), free[|req.chain|..], flight[free[0] := req], shadow[..],
        freeHead,
                 desc[..], pages, vpns[..], pfns[..], alloc.dma.live)
      && numUsed == QUEUE - (|free| - |req.chain|)
    }

    /** Whether a request is one the device can read. */
    predicate Proper(inputs: seq<Buffer>, outputs: seq<Buffer>) { outputs != [] && |inputs| + |outputs| < 256 }

    method AddDirect(inputs: seq<Buffer>, outputs: seq<Buffer>)
      requires Shape() && Table() && free != [] && numUsed == QUEUE - |free| && !UsesList(|inputs| + |outputs|)
      requires |inputs| + |outputs| < 256 ==> |inputs| + |outputs| <= |free|
      modifies this`freeHead, this`numUsed, desc, shadow
      ensures DeviceWalk(desc[..], pages, free[0]) == Some(RequestFor(inputs, outputs, NoList).elems) <==>
        Proper(inputs, outputs)
      ensures Proper(inputs, outputs) ==> Ready(RequestFor(inputs, outputs, NoList))
    {
      hide Elems, Filling, Placed, Shadowed, Visible, Lists, Backed;
      ghost var shadow0, desc0, used0 := shadow[..], desc[..], numUsed;
      HeadFree(place, free, flight, shadow[..], freeHead, vpns[..], pfns[..]);
      FillChain(inputs, outputs);
      DirectWalk(shadow0, desc0, free[0], used0, inputs, outputs);
      if Proper(inputs, outputs) {
        DirectDone(shadow0, desc0, free[0], used0, inputs, outputs);
        FilledCount(shadow0, desc0, free[0], used0, inputs, outputs);
      }
    }

    lemma FilledCount(shadow0: seq<Desc>, desc0: seq<Desc>, head: nat, used0: nat, inputs: seq<Buffer>,
                      outputs: seq<Buffer>)
      requires Shape() && Filling(|inputs| + |outputs|, shadow0, desc0, head, used0, inputs, outputs) &&
        |inputs| + |outputs| <= |free|
      ensures numUsed == used0 + |inputs| + |outputs|
    {
    }

    method AddIndirect(inputs: seq<Buffer>, outputs: seq<Buffer>) returns (ok: bool, ghost list: List)
      requires Shape() && alloc.Valid() && Table() && free != [] && numUsed == QUEUE - |free| &&
        UsesList(|inputs| + |outputs|)
      requires |inputs| + |outputs| < 512
      modifies this`freeHead, this`numUsed, this`pages, desc, shadow, vpns, pfns
      modifies alloc`use, alloc.space`mem, alloc.space`pfnStart, alloc.space`role
      modifies alloc.dma`brk, alloc.dma`nodes, alloc.dma`head, alloc.dma`order, alloc.dma`live, alloc.dma`tag
      ensures !ok ==> alloc.space.Exhausted()
      ensures ok ==>
        && alloc.Valid()
        && (DeviceWalk(desc[..], pages, free[0]) == Some(RequestFor(inputs, outputs, list).elems) <==>
          Proper(inputs, outputs))
        && (Proper(inputs, outputs) ==> Ready(RequestFor(inputs, outputs, list)))
    {
      hide PageAllocator.Valid, Region.Valid, Elems, ListOf, Placed, Shadowed, Visible, Lists, Backed;
      ghost var shadow0, desc0, pages0, vpns0, pfns0, live0 := shadow[..], desc[..], pages, vpns[..], pfns[..],
        alloc.dma.live;
      HeadFree(place, free, flight, shadow[..], freeHead, vpns[..], pfns[..]);
      ok, list := AddList(inputs, outputs, (|inputs| + |outputs|) % 256);
      if !ok { return; }
      assert desc[free[0]] == desc[..][free[0]];
      ListWalk(list, free[0], inputs, outputs);
      if Proper(inputs, outputs) {
        ListDone(shadow0, desc0, pages0, vpns0, pfns0, live0, free[0], list, inputs, outputs);
      }
    }

    /** `add_queue`. None is a panic of `dmalloc`, Some(-1) a rejected request, otherwise the head
        that was published. The device then reads the request from the head exactly if there is
        an output and the number of buffers fits in eight bits; and if so, the queue is valid. */
    method Add(inputs: seq<Buffer>, outputs: seq<Buffer>) returns (r: Option<int>, ghost list: List)
      requires Valid() && |inputs| < 256 && |outputs| < 256
      modifies this`freeHead, this`numUsed, this`pages, this`availIdx, this`availPub
      modifies this`place, this`free, this`flight, this`hist, desc, shadow, avail, vpns, pfns
      modifies alloc`use, alloc.space`mem, alloc.space`pfnStart, alloc.space`role
      modifies alloc.dma`brk, alloc.dma`nodes, alloc.dma`head, alloc.dma`order, alloc.dma`live, alloc.dma`tag
      ensures r == Some(-1) <==> old(Rejects(|inputs| + |outputs|))
      ensures r.None? ==> UsesList(|inputs| + |outputs|) && alloc.space.Exhausted()
      ensures r == Some(-1) ==> Valid() && flight == old(flight) && free == old(free) && hist == old(hist)
      ensures r.Some? && r.value != -1 ==>
        && r.value == old(freeHead)
        && (DeviceWalk(desc[..], pages, r.value) == Some(old(RequestFor(inputs, outputs, list)).elems) <==>
          Proper(inputs, outputs))
      ensures r.Some? && r.value != -1 && Proper(inputs, outputs) ==>
        var req := old(RequestFor(inputs, outputs, list));
        && Valid() && req.chain != [] && r.value == req.chain[0] && r.value !in old(flight)
        && old(free) == req.chain + free && flight == old(flight)[r.value := req]
        && hist == old(hist.(published := hist.published + [freeHead]))
    {
      hide PageAllocator.Valid, Region.Valid, Ringed, Elems, TableOk, DeviceWalk;
      list := NoList;
      var n := |inputs| + |outputs|;
      var needed := n % 256;
      if numUsed >= QUEUE || needed > QUEUE || (!indirect && numUsed + needed > QUEUE) { return Some(-1), NoList; }
      var head := freeHead;
      FirstFree(place, free, flight, shadow[..], freeHead, desc[..], pages, vpns[..], pfns[..], alloc.dma.live);
      RoomInRing();
      if indirect && needed > 1 {
        var ok;
        ok, list := AddIndirect(inputs, outputs);
        if !ok { return None, list; }
      } else {
        AddDirect(inputs, outputs);
      }
      Enter(head, RequestFor(inputs, outputs, list), Proper(inputs, outputs));
      r := Some(head);
    }

    /** The head is published; a proper request is in flight from then on. */
    method Enter(head: nat, ghost req: Request, ghost proper: bool)
      requires Shape() && Rings() && free != [] && head == free[0] && !InFlight(flight, head)
      requires |hist.published| - hist.fetched < QUEUE && req.stage == Pending(|hist.published|) &&
        (proper ==> Ready(req))
      modifies this`availIdx, this`availPub, this`place, this`free, this`flight, this`hist, avail
      ensures proper ==>
        && Table() && Rings() && numUsed == QUEUE - |free| && req.chain != [] && head == req.chain[0]
        && old(free) == req.chain + free && flight == old(flight)[head := req]
        && hist == old(hist).(published := old(hist).published + [head])
    {
      hide Ringed, TableOk;
      RingPublish(avail[..], used[..], hist, flight, head, req);
      Publish(head);
      if proper {
        place, free := TakePlace(place, head, |req.chain|), free[|req.chain|..];
        flight, hist := flight[head := req], hist.(published := hist.published + [head]);
      }
    }

    lemma RoomInUsed(head: nat)
      requires Valid() && InFlight(flight, head)
      ensures hist.popped <= |hist.completed| <= hist.popped + QUEUE
      ensures !flight[head].stage.Done? ==> |hist.completed| - hist.popped < QUEUE
      ensures hist.popped == |hist.completed| ==> !flight[head].stage.Done?
    {
      hide PageAllocator.Valid, Placed, Shadowed, Visible, Lists, Backed;
      DoneFit(place, free, flight, avail[..], used[..], hist, head);
    }

    lemma RoomInRing()
      requires Valid()
      ensures |hist.published| - hist.fetched + |free| <= QUEUE
    {
      hide PageAllocator.Valid, Ringed, Placed, Shadowed, Visible, Lists, Backed;
      PendingFit(place, free, flight, avail[..], used[..], hist);
    }

    /** The loop of `recycle_descriptors`: the chain of `head` is cleared and linked in front of
        the free list, while the device sees every unfinished request as before. */
    method RecycleChain(head: nat)
      requires Shape() && Table() && InFlight(flight, head) && flight[head].stage.Done? && flight[head].list.NoList?
      requires |flight[head].chain| <= numUsed
      modifies this`freeHead, this`numUsed, desc, shadow
      ensures freeHead == head && numUsed == old(numUsed) - |flight[head].chain|
      ensures Visible(desc[..], pages, flight) && OnlyChain(desc[..], old(desc[..]), place, head)
      ensures Returned(shadow[..], old(shadow[..]), place, head, flight[head].chain, old(freeHead))
      ensures Wiped(desc[..], flight[head].chain, |flight[head].chain| - 1)
    {
      hide TableOk, Visible, Clearing, OnlyChain, Returned, Shape, Wiped;
      ghost var shadow0, desc0 := shadow[..], desc[..];
      RecycleStart(head);
      var tail := freeHead;
      freeHead := head;
      var next, more := head, true;
      ghost var j: nat := 0;
      while more
        invariant freeHead == head && OnlyChain(desc[..], desc0, place, head) && Visible(desc[..], pages, flight)
        invariant more ==> j < |flight[head].chain| && Clearing(shadow0, head, j, next) && numUsed == old(numUsed) - j
        invariant Wiped(desc[..], flight[head].chain, if more then j else j - 1)
        invariant !more ==>
          && Returned(shadow[..], shadow0, place, head, flight[head].chain, tail)
          && j == |flight[head].chain| && numUsed == old(numUsed) - j
        decreases more, |flight[head].chain| - j
      {
        more, next := ClearOne(shadow0, desc0, head, j, next, tail);
        j := j + 1;
      }
    }

    /** Where the loop of `recycle_descriptors` is when it comes to position `j` of the chain. */
    ghost predicate Clearing(shadow0: seq<Desc>, head: nat, j: nat, next: nat)
      requires Shape() && InFlight(flight, head)
      reads this`flight, this`place, this`free, shadow
    {
      var chain := flight[head].chain;
      && j < |chain| && next == chain[j]
      && Placed(place, free, flight) && ChainPlaced(place, head, chain)
      && Stored(shadow0, head, flight[head]) && Built(shadow0, chain, flight[head].elems)
      && Cleared(shadow[..], shadow0, place, head, j)
    }

    /** One iteration: the descriptor is cleared; unless it is the last one, the device's copy too. */
    method ClearOne(ghost shadow0: seq<Desc>, ghost desc0: seq<Desc>, ghost head: nat, ghost j: nat, next: nat,
                    tail: nat)
      returns (more: bool, after: nat)
      requires Shape() && InFlight(flight, head) && flight[head].stage.Done? && flight[head].list.NoList? && numUsed > 0
      requires Clearing(shadow0, head, j, next) && OnlyChain(desc[..], desc0, place, head) &&
        Visible(desc0, pages, flight)
      requires Visible(desc[..], pages, flight) && Wiped(desc[..], flight[head].chain, j)
      modifies this`numUsed, desc, shadow
      ensures Wiped(desc[..], flight[head].chain, if more then j + 1 else j)
      ensures numUsed == old(numUsed) - 1 && (more <==> j + 1 < |flight[head].chain|)
      ensures OnlyChain(desc[..], desc0, place, head) && Visible(desc[..], pages, flight)
      ensures more ==> Clearing(shadow0, head, j + 1, after)
      ensures !more ==> Returned(shadow[..], shadow0, place, head, flight[head].chain, tail)
    {
      hide Visible, Placed, Cleared, OnlyChain, ChainPlaced, Stored, Built, Returned;
      ghost var chain, desc1 := flight[head].chain, desc[..];
      ClearStep(shadow[..], shadow0, place, free, flight, head, j);
      shadow[next] := shadow[next].(addr := 0, len := 0);
      numUsed := numUsed - 1;
      ghost var shadow1 := shadow[..];
      more, after := shadow[next].next, shadow[next].link;
      if more {
        desc[next] := shadow[next];
        OneOfChain(desc1, desc0, place, head, next, shadow[next]);
        VisibleBeside(desc0, desc[..], pages, place, free, flight, head);
      } else {
        shadow[next] := shadow[next].(link := tail);
        ReturnLast(shadow[..], shadow1, shadow0, place, head, chain, tail, flight[head].elems);
      }
    }

    lemma RecycleStart(head: nat)
      requires Shape() && Table() && InFlight(flight, head) && flight[head].list.NoList?
      ensures Clearing(shadow[..], head, 0, head) && Visible(desc[..], pages, flight)
      ensures OnlyChain(desc[..], desc[..], place, head) && flight[head].chain != []
      ensures Wiped(desc[..], flight[head].chain, 0)
    {
      hide Lists, Backed;
      assert ChainPlaced(place, head, flight[head].chain);
    }

    /** The indirect branch of `recycle_descriptors`: the descriptor goes back, the list's page is
        freed. */
    method RecycleList(head: nat)
      requires Shape() && alloc.Valid() && Table() && InFlight(flight, head) && flight[head].list.List? && 1 <= numUsed
      modifies this`freeHead, this`numUsed, this`pages, shadow, vpns
      modifies alloc.dma`nodes, alloc.dma`head, alloc.dma`order, alloc.dma`live
      ensures alloc.Valid() && alloc.dma.live == old(alloc.dma.live) - {flight[head].list.vpn}
      ensures head < QUEUE && freeHead == head && numUsed == old(numUsed) - 1 &&
        pages == old(pages) - {flight[head].list.pfn}
      ensures shadow[..] == old(shadow[..])[head := old(shadow[head]).(addr := 0, len := 0, link := old(freeHead))]
      ensures vpns[..] == old(vpns[..])[head := 0]
    {
      hide PageAllocator.Valid, Placed, Visible;
      ListOfHead(place, free, flight, shadow[..], freeHead, vpns[..], pfns[..], alloc.dma.live, head);
      var tail := freeHead;
      freeHead := head;
      var vpn, pfn := vpns[head], pfns[head];
      shadow[head] := shadow[head].(addr := 0, len := 0);
      numUsed := numUsed - 1;
      shadow[head] := shadow[head].(link := tail);
      alloc.Dmafree(pfn, vpn, 1);
      pages := pages - {pfn};
      vpns[head] := 0;
    }

    /** The request at `head` gave back all it had. */
    ghost predicate GivenBack(head: nat)
      requires Shape() && InFlight(flight, head)
      reads this, desc, shadow, vpns, pfns, alloc, alloc.dma
    {
      var chain := flight[head].chain;
      && TableOk(GivePlace(place, head, |chain|), chain + free, flight - {head}, shadow[..], freeHead, desc[..], pages,
                 vpns[..], pfns[..], alloc.dma.live)
      && numUsed == QUEUE - |chain + free|
    }

    method ReturnChain(head: nat)
      requires Shape() && Table() && numUsed == QUEUE - |free|
      requires InFlight(flight, head) && flight[head].stage.Done? && flight[head].list.NoList?
      modifies this`freeHead, this`numUsed, desc, shadow
      ensures GivenBack(head)
    {
      hide TableOk, Visible, OnlyChain, Returned;
      ghost var shadow0, desc0, head0 := shadow[..], desc[..], freeHead;
      HeadFacts(place, free, flight, shadow0, freeHead, desc0, pages, vpns[..], pfns[..], alloc.dma.live, head);
      RecycleChain(head);
      TableGive(place, free, flight, shadow0, shadow[..], head0, desc0, desc[..], pages, pages, vpns[..], vpns[..],
        pfns[..],
                alloc.dma.live, alloc.dma.live, head);
    }

    method ReturnList(head: nat)
      requires Shape() && alloc.Valid() && Table() && numUsed == QUEUE - |free|
      requires InFlight(flight, head) && flight[head].stage.Done? && flight[head].list.List?
      modifies this`freeHead, this`numUsed, this`pages, shadow, vpns
      modifies alloc.dma`nodes, alloc.dma`head, alloc.dma`order, alloc.dma`live
      ensures alloc.Valid() && alloc.dma.live == old(alloc.dma.live) - {flight[head].list.vpn} && GivenBack(head)
    {
      hide PageAllocator.Valid, Region.Valid, TableOk;
      ghost var shadow0, pages0, vpns0, live0, head0 := shadow[..], pages, vpns[..], alloc.dma.live, freeHead;
      HeadFacts(place, free, flight, shadow0, freeHead, desc[..], pages0, vpns0, pfns[..], live0, head);
      RecycleList(head);
      TableGive(place, free, flight, shadow0, shadow[..], head0, desc[..], desc[..], pages0, pages, vpns0, vpns[..],
        pfns[..],
                live0, alloc.dma.live, head);
    }

    /** `recycle_descriptors` of a completed request: exactly its chain, and its list, go back. */
    method Recycle(head: nat)
      requires Shape() && alloc.Valid() && Table() && numUsed == QUEUE - |free|
      requires InFlight(flight, head) && flight[head].stage.Done?
      modifies this`freeHead, this`numUsed, this`pages, this`place, this`free, this`flight, desc, shadow, vpns
      modifies alloc.dma`nodes, alloc.dma`head, alloc.dma`order, alloc.dma`live
      ensures alloc.Valid() && Table() && numUsed == QUEUE - |free|
      ensures free == old(flight[head].chain + free) && flight == old(flight) - {head}
      ensures alloc.dma.live == (match old(flight[head].list)
                                 case NoList => old(alloc.dma.live)
                                 case List(vpn, _) => old(alloc.dma.live) - {vpn})
    {
      hide PageAllocator.Valid, TableOk, Region.Valid;
      HeadFacts(place, free, flight, shadow[..], freeHead, desc[..], pages, vpns[..], pfns[..], alloc.dma.live, head);
      ghost var chain := flight[head].chain;
      if shadow[head].indirect {
        ReturnList(head);
      } else {
        ReturnChain(head);
      }
      place, free, flight := GivePlace(place, head, |chain|), chain + free, flight - {head};
    }

    /** The device reads the next published head: from there it sees exactly the request's
        buffers, inputs read-only and then outputs writable. */
    method Fetch() returns (head: nat)
      requires Valid() && hist.fetched < |hist.published|
      modifies this`deviceIdx, this`flight, this`hist
      ensures Valid() && head == old(hist.published[hist.fetched]) && InFlight(old(flight), head) &&
        InFlight(flight, head)
      ensures DeviceWalk(desc[..], pages, head) == Some(flight[head].elems)
      ensures flight == old(Move(flight, hist.published[hist.fetched], Taken)) &&
        hist == old(hist.(fetched := hist.fetched + 1))
    {
      hide PageAllocator.Valid, Ringed, TableOk, DeviceWalk;
      SixteenWraps(hist.fetched);
      RingFetch(avail[..], used[..], hist, flight);
      OldestInRing(avail[..], used[..], hist, flight);
      head := avail[deviceIdx % QUEUE];
      TableMove(place, free, flight, shadow[..], freeHead, desc[..], pages, vpns[..], pfns[..], alloc.dma.live, head,
        Taken);
      deviceIdx := (deviceIdx + 1) % 0x1_0000;
      flight, hist := Move(flight, head, Taken), hist.(fetched := hist.fetched + 1);
    }

    /** The device completes a request it has read, in any order. */
    method Complete(head: nat)
      requires Valid() && InFlight(flight, head) && flight[head].stage.Taken?
      modifies this`usedPub, this`flight, this`hist, used
      ensures Valid() && flight == old(Move(flight, head, Done(|hist.completed|)))
      ensures used[..] == old(used[..][|hist.completed| % QUEUE := head])
      ensures hist == old(hist.(completed := hist.completed + [head]))
    {
      hide PageAllocator.Valid, Ringed, TableOk;
      ghost var n := |hist.completed|;
      SixteenWraps(n);
      RoomInUsed(head);
      RingComplete(avail[..], used[..], hist, flight, head);
      TableMove(place, free, flight, shadow[..], freeHead, desc[..], pages, vpns[..], pfns[..], alloc.dma.live, head,
        Done(n));
      used[usedPub % QUEUE] := head;
      usedPub := (usedPub + 1) % 0x1_0000;
      flight, hist := Move(flight, head, Done(n)), hist.(completed := hist.completed + [head]);
    }

    /** The end of `queue_add_notify_pop`, one round of its loop: `token` is the head of a request
        of the caller. If there is a completion, the oldest one is recycled if it is the one
        waited for, otherwise nothing changes. If there is none, the loop goes on exactly while
        the 32-bit counter of completions is below 2^16; from then on whatever is left in the ring
        is taken for a completion, and if that is `token`, the request is recycled before the
        device has completed it. */
    method Poll(token: nat) returns (p: Polled)
      requires Valid() && InFlight(flight, token)
      modifies this`freeHead, this`numUsed, this`pages, this`lastUsed, this`place, this`free, this`flight, this`hist,
        desc, shadow, vpns
      modifies alloc.dma`nodes, alloc.dma`head, alloc.dma`order, alloc.dma`live
      ensures !p.Popped? ==>
        Valid() && flight == old(flight) && free == old(free) && hist == old(hist) &&
          alloc.dma.live == old(alloc.dma.live)
      ensures p.Waiting? <==> old(hist.popped == |hist.completed| && hist.popped % 0x1_0000_0000 < 0x1_0000)
      ensures p.Error? ==> token != old(used[hist.popped % QUEUE])
      ensures p.Popped? ==> token == old(used[hist.popped % QUEUE])
      ensures old(hist.popped < |hist.completed|) ==>
        Valid() && old(used[hist.popped % QUEUE]) == old(hist.completed[hist.popped])
      ensures p.Popped? ==>
        && alloc.Valid() && Table()
        && flight == old(flight) - {token} && free == old(flight)[token].chain + old(free)
        && (old(hist.popped < |hist.completed|) <==> old(flight)[token].stage.Done?)
        && hist == old(if hist.popped < |hist.completed| then hist.(popped := hist.popped + 1) else hist)
        && alloc.dma.live == (match old(flight)[token].list
                              case NoList => old(alloc.dma.live)
                              case List(vpn, _) => old(alloc.dma.live) - {vpn})
    {
      hide PageAllocator.Valid, Ringed, TableOk;
      RoomInUsed(token);
      IndexWraps(hist.popped);
      PollExact(hist.popped, |hist.completed|);
      if lastUsed == usedPub { return Waiting; }
      ghost var done := hist.popped < |hist.completed|;
      if done { RingPop(avail[..], used[..], hist, flight); }
      var index := used[lastUsed % QUEUE];
      if index != token { return Error; }
      if !done {
        TableMove(place, free, flight, shadow[..], freeHead, desc[..], pages, vpns[..], pfns[..], alloc.dma.live, token,
          Stage.Done(0));
        flight := Move(flight, token, Stage.Done(0));
      }
      Recycle(index);
      lastUsed := (lastUsed + 1) % 0x1_0000_0000;
      if done { hist := hist.(popped := hist.popped + 1); }
      p := Popped;
    }
  }

  /** A request moves to another stage, and the device sees it until then. */
  lemma TableMove(place: seq<Place>, free: seq<nat>, flight: map<nat, Request>, shadow: seq<Desc>, freeHead: nat,
                  desc: seq<Desc>, pages: map<nat, seq<Desc>>, vpns: seq<nat>, pfns: seq<nat>, live: map<nat, Run>,
                  h: nat, stage: Stage)
    requires TableOk(place, free, flight, shadow, freeHead, desc, pages, vpns, pfns, live)
    requires InFlight(flight, h) && !flight[h].stage.Done?
    ensures TableOk(place, free, Move(flight, h, stage), shadow, freeHead, desc, pages, vpns, pfns, live)
    ensures DeviceWalk(desc, pages, h) == Some(flight[h].elems)
  {
    hide Placed, Shadowed, Visible, Lists, Backed, DeviceWalk;
    MoveKeeps(place, free, flight, shadow, freeHead, desc, pages, h, stage);
    MoveLists(vpns, pfns, flight, live, h, stage);
    DeviceSees(desc, pages, place, free, flight, h);
  }

  lemma SixteenWraps(n: nat)
    ensures n % 0x1_0000 % QUEUE == n % QUEUE && (n % 0x1_0000 + 1) % 0x1_0000 == (n + 1) % 0x1_0000
  {
    Counters.Fewer(n, 0x1_0000, QUEUE, 0x1000);
    Counters.Next(n, 0x1_0000);
  }

  lemma OldestInRing(avail: seq<nat>, used: seq<nat>, hist: History, flight: map<nat, Request>)
    requires Ringed(avail, used, hist, flight) && hist.fetched < |hist.published|
    ensures |avail| == QUEUE && avail[hist.fetched % QUEUE] == hist.published[hist.fetched]
    ensures InFlight(flight, hist.published[hist.fetched]) && flight[hist.published[hist.fetched]].stage.Pending?
  {
  }

  lemma MoveLists(vpns: seq<nat>, pfns: seq<nat>, flight: map<nat, Request>, live: map<nat, Run>, h: nat, stage: Stage)
    requires Lists(vpns, pfns, flight) && Backed(flight, live) && InFlight(flight, h)
    ensures Lists(vpns, pfns, Move(flight, h, stage)) && Backed(Move(flight, h, stage), live)
  {
    forall k: nat ensures InFlight(Move(flight, h, stage), k) <==> InFlight(flight, k) { }
  }

  lemma ListOfHead(place: seq<Place>, free: seq<nat>, flight: map<nat, Request>, shadow: seq<Desc>, freeHead: nat,
                   vpns: seq<nat>, pfns: seq<nat>, live: map<nat, Run>, head: nat)
    requires Placed(place, free, flight) && Shadowed(shadow, freeHead, free, flight) && Lists(vpns, pfns, flight) &&
      Backed(flight, live)
    requires InFlight(flight, head) && flight[head].list.List?
    ensures head < QUEUE && flight[head].list == List(vpns[head], pfns[head])
    ensures vpns[head] in live && live[vpns[head]] == Run(pfns[head], 1)
  {
    assert ChainPlaced(place, head, flight[head].chain);
  }

  lemma HeadKind(place: seq<Place>, free: seq<nat>, flight: map<nat, Request>, shadow: seq<Desc>, freeHead: nat,
                 head: nat)
    requires Placed(place, free, flight) && Shadowed(shadow, freeHead, free, flight) && InFlight(flight, head)
    ensures head < QUEUE && (shadow[head].indirect <==> flight[head].list.List?)
  {
    var r := flight[head];
    assert ChainPlaced(place, head, r.chain) && Stored(shadow, head, r);
    if r.list.NoList? { assert Carries(shadow[r.chain[0]], r.elems[0], 1 == |r.chain|); }
  }

  lemma HeadFacts(place: seq<Place>, free: seq<nat>, flight: map<nat, Request>, shadow: seq<Desc>, freeHead: nat,
                  desc: seq<Desc>, pages: map<nat, seq<Desc>>, vpns: seq<nat>, pfns: seq<nat>, live: map<nat, Run>,
                  head: nat)
    requires TableOk(place, free, flight, shadow, freeHead, desc, pages, vpns, pfns, live) && InFlight(flight, head)
    ensures head < QUEUE && |shadow| == QUEUE && (shadow[head].indirect <==> flight[head].list.List?)
    ensures |free| + |flight[head].chain| <= QUEUE && flight[head].chain != []
    ensures |place| == |desc| == QUEUE && (flight[head].list.List? ==> |flight[head].chain| == 1)
  {
    hide Lists, Backed;
    HeadKind(place, free, flight, shadow, freeHead, head);
    FreeAndChain(place, free, flight, head);
    assert Stored(shadow, head, flight[head]);
  }

  /** The free list and a chain in flight fit in the queue together. */
  lemma FreeAndChain(place: seq<Place>, free: seq<nat>, flight: map<nat, Request>, head: nat)
    requires Placed(place, free, flight) && InFlight(flight, head)
    ensures |free| + |flight[head].chain| <= QUEUE && flight[head].chain != []
  {
    var chain := flight[head].chain;
    var s: seq<nat> := chain + free;
    assert ChainPlaced(place, head, chain);
    forall i | 0 <= i < |s|
      ensures s[i] < QUEUE && place[s[i]] == (if i < |chain| then InChain(head, i) else Free(i - |chain|)) {
      if i < |chain| { assert s[i] == chain[i]; } else { assert s[i] == free[i - |chain|]; }
    }
    Pigeonhole(s);
  }

  /** The state after the chain of `head` went back to the free list. */
  lemma TableGive(place: seq<Place>, free: seq<nat>, flight: map<nat, Request>, shadow: seq<Desc>, shadow': seq<Desc>,
                  freeHead: nat,
                  desc: seq<Desc>, desc': seq<Desc>, pages: map<nat, seq<Desc>>, pages': map<nat, seq<Desc>>,
                  vpns: seq<nat>, vpns': seq<nat>, pfns: seq<nat>, live: map<nat, Run>, live': map<nat, Run>, head: nat)
    requires TableOk(place, free, flight, shadow, freeHead, desc, pages, vpns, pfns, live)
    requires InFlight(flight, head) && flight[head].stage.Done? && OnlyChain(desc', desc, place, head)
    requires head < QUEUE
    requires match flight[head].list
             case NoList =>
               && Returned(shadow', shadow, place, head, flight[head].chain, freeHead)
               && pages' == pages && vpns' == vpns && live' == live
             case List(vpn, pfn) =>
               && shadow' == shadow[head := shadow[head].(addr := 0, len := 0, link := freeHead)]
               && pages' == pages - {pfn} && vpns' == vpns[head := 0] && live' == live - {vpn}
    ensures TableOk(GivePlace(place, head, |flight[head].chain|), flight[head].chain + free, flight - {head}, shadow',
      head,
                    desc', pages', vpns', pfns, live')
  {
    hide Placed, Shadowed, Visible, Lists, Backed, OnlyChain, Stored;
    if flight[head].list.List? { ListReturned(place, free, flight, shadow, shadow', freeHead, head); }
    LinksBound(place, free, flight, shadow, shadow', freeHead, head);
    PlacedGive(place, free, flight, head);
    ShadowGive(shadow, shadow', place, free, flight, freeHead, head);
    VisibleBeside(desc, desc', pages, place, free, flight, head);
    VisibleWithout(desc', pages, pages', flight, live, head);
    ListsDrop(vpns, vpns', pfns, flight, head);
    BackedDrop(flight, live, live', head);
  }

  lemma ListReturned(place: seq<Place>, free: seq<nat>, flight: map<nat, Request>, shadow: seq<Desc>,
                     shadow': seq<Desc>, freeHead: nat, head: nat)
    requires Placed(place, free, flight) && Shadowed(shadow, freeHead, free, flight) && InFlight(flight, head) &&
      flight[head].list.List?
    requires head < QUEUE && shadow' == shadow[head := shadow[head].(addr := 0, len := 0, link := freeHead)]
    ensures Returned(shadow', shadow, place, head, flight[head].chain, freeHead)
  {
    assert ChainPlaced(place, head, flight[head].chain) && Stored(shadow, head, flight[head]);
  }

  lemma LinksBound(place: seq<Place>, free: seq<nat>, flight: map<nat, Request>, shadow: seq<Desc>, shadow': seq<Desc>,
                   freeHead: nat, head: nat)
    requires Placed(place, free, flight) && Shadowed(shadow, freeHead, free, flight) && InFlight(flight, head)
    requires Returned(shadow', shadow, place, head, flight[head].chain, freeHead)
    ensures |shadow'| == QUEUE && OnlyChain(shadow', shadow, place, head)
    ensures forall d: nat {:trigger shadow'[d]} :: d < QUEUE ==> shadow'[d].link < QUEUE
  {
    forall d: nat | d < QUEUE ensures shadow'[d].link < QUEUE { assert shadow[d].link < QUEUE; }
  }

  lemma VisibleWithout(desc: seq<Desc>, pages: map<nat, seq<Desc>>, pages': map<nat, seq<Desc>>,
                       flight: map<nat, Request>, live: map<nat, Run>, head: nat)
    requires Visible(desc, pages, flight) && Backed(flight, live) && InFlight(flight, head)
    requires match flight[head].list case NoList => pages' == pages case List(_, pfn) => pages' == pages - {pfn}
    ensures Visible(desc, pages', flight - {head})
  {
    var flight' := flight - {head};
    forall h: nat | InFlight(flight', h) && !flight'[h].stage.Done?
      ensures Stored(desc, h, flight'[h]) && Listed(pages', flight'[h]) {
      assert InFlight(flight, h) && h != head;
    }
  }

  lemma ListsDrop(vpns: seq<nat>, vpns': seq<nat>, pfns: seq<nat>, flight: map<nat, Request>, head: nat)
    requires Lists(vpns, pfns, flight) && InFlight(flight, head) && head < QUEUE
    requires match flight[head].list case NoList => vpns' == vpns case List(_, _) => vpns' == vpns[head := 0]
    ensures Lists(vpns', pfns, flight - {head})
  {
    assert forall h: nat :: InFlight(flight - {head}, h) <==> InFlight(flight, h) && h != head;
  }

  lemma BackedDrop(flight: map<nat, Request>, live: map<nat, Run>, live': map<nat, Run>, head: nat)
    requires Backed(flight, live) && InFlight(flight, head)
    requires match flight[head].list case NoList => live' == live case List(vpn, _) => live' == live - {vpn}
    ensures Backed(flight - {head}, live')
  {
    forall h: nat | InFlight(flight - {head}, h) ensures InFlight(flight, h) && h != head { }
  }

  /** The first `j` descriptors of the chain of `head` are cleared. */
  ghost predicate Cleared(shadow': seq<Desc>, shadow: seq<Desc>, place: seq<Place>, head: nat, j: nat)
  {
    && |shadow'| == |shadow| == |place|
    && (forall d: nat {:trigger shadow'[d]} :: d < |shadow| ==>
          shadow'[d] == if place[d].InChain? && place[d].head == head && place[d].pos < j
          then shadow[d].(addr := 0, len := 0) else shadow[d])
  }

  lemma OneOfChain(table': seq<Desc>, table: seq<Desc>, place: seq<Place>, head: nat, d: nat, x: Desc)
    requires OnlyChain(table', table, place, head) && d < |place| && place[d].InChain? && place[d].head == head
    ensures OnlyChain(table'[d := x], table, place, head)
  {
  }

  lemma ClearStep(shadow': seq<Desc>, shadow: seq<Desc>, place: seq<Place>, free: seq<nat>, flight: map<nat, Request>,
                  head: nat, j: nat)
    requires Placed(place, free, flight) && InFlight(flight, head) && flight[head].list.NoList?
    requires Stored(shadow, head, flight[head]) && Cleared(shadow', shadow, place, head, j) && j < |flight[head].chain|
    ensures var chain := flight[head].chain;
            && chain[j] < |shadow| == |shadow'| == |place| && place[chain[j]] == InChain(head, j)
            && shadow'[chain[j]] == shadow[chain[j]] && (shadow[chain[j]].next <==> j + 1 < |chain|)
            && Next(chain, j, shadow[chain[j]].link)
            && Cleared(shadow'[chain[j] := shadow'[chain[j]].(addr := 0, len := 0)], shadow, place, head, j + 1)
  {
    var chain := flight[head].chain;
    assert ChainPlaced(place, head, chain);
    assert Carries(shadow[chain[j]], flight[head].elems[j], j + 1 == |chain|) && Next(chain, j, shadow[chain[j]].link);
    forall d: nat | d < |place| && place[d] == InChain(head, j) ensures d == chain[j] { }
  }

  /** Linking the last descriptor to `tail` puts the chain in front of the list at `tail`. */
  lemma ReturnLast(shadow': seq<Desc>, shadow1: seq<Desc>, shadow: seq<Desc>, place: seq<Place>, head: nat,
                   chain: seq<nat>, tail: nat, elems: seq<Elem>)
    requires ChainPlaced(place, head, chain) && Built(shadow, chain, elems) &&
      Cleared(shadow1, shadow, place, head, |chain|)
    requires var last := chain[|chain| - 1]; shadow' == shadow1[last := shadow1[last].(link := tail)]
    ensures Returned(shadow', shadow, place, head, chain, tail)
  {
    var last := chain[|chain| - 1];
    assert place[last] == InChain(head, |chain| - 1);
    forall p: nat | p < |chain| ensures shadow'[chain[p]].link == (if p + 1 < |chain| then chain[p + 1] else tail) {
      assert place[chain[p]] == InChain(head, p) && Next(chain, p, shadow[chain[p]].link);
    }
  }

  /** The chain of `head` is linked in order and leads to `tail`; nothing else changed. */
  ghost predicate Returned(shadow': seq<Desc>, shadow: seq<Desc>, place: seq<Place>, head: nat, chain: seq<nat>,
                           tail: nat)
  {
    && OnlyChain(shadow', shadow, place, head)
    && (forall d: nat {:trigger shadow'[d]} :: d < |shadow'| ==>
      shadow'[d].link == shadow[d].link || shadow'[d].link == tail)
    && (forall p: nat {:trigger chain[p]} :: p < |chain| ==>
          chain[p] < |shadow'| && shadow'[chain[p]].link == (if p + 1 < |chain| then chain[p + 1] else tail))
  }

  lemma FirstFree(place: seq<Place>, free: seq<nat>, flight: map<nat, Request>, shadow: seq<Desc>, freeHead: nat,
                  desc: seq<Desc>, pages: map<nat, seq<Desc>>, vpns: seq<nat>, pfns: seq<nat>, live: map<nat, Run>)
    requires TableOk(place, free, flight, shadow, freeHead, desc, pages, vpns, pfns, live) && free != []
    ensures freeHead == free[0] < QUEUE && !InFlight(flight, freeHead) && |vpns| == QUEUE && vpns[freeHead] == 0
  {
    HeadFree(place, free, flight, shadow, freeHead, vpns, pfns);
  }

  /** The first free descriptor has no list. */
  lemma HeadFree(place: seq<Place>, free: seq<nat>, flight: map<nat, Request>, shadow: seq<Desc>, freeHead: nat,
                 vpns: seq<nat>, pfns: seq<nat>)
    requires Placed(place, free, flight) && Shadowed(shadow, freeHead, free, flight) && Lists(vpns, pfns, flight) &&
      free != []
    ensures freeHead == free[0] < QUEUE && vpns[freeHead] == 0 && !InFlight(flight, freeHead)
  {
    assert place[free[0]] == Free(0);
  }

  /** The 32-bit and 16-bit copies of a count agree with it on ring slots. */
  lemma IndexWraps(n: nat)
    ensures n % 0x1_0000_0000 % QUEUE == n % QUEUE
    ensures (n % 0x1_0000_0000 + 1) % 0x1_0000_0000 == (n + 1) % 0x1_0000_0000
    ensures n % 0x1_0000_0000 % 0x1_0000 == n % 0x1_0000
    ensures (n % 0x1_0000 + 1) % 0x1_0000 == (n + 1) % 0x1_0000
  {
    Counters.Fewer(n, 0x1_0000_0000, QUEUE, 0x1000_0000);
    Counters.Fewer(n, 0x1_0000_0000, 0x1_0000, 0x1_0000);
    Counters.Next(n, 0x1_0000_0000);
    Counters.Next(n, 0x1_0000);
  }

  lemma PlannedAt(inputs: seq<Buffer>, outputs: seq<Buffer>, p: nat)
    requires p < |inputs| + |outputs|
    ensures Planned(inputs, outputs, 1, p, 0) ==
            if p < |inputs| then Desc(inputs[p].num, inputs[p].len, true, false, false, 0)
            else Desc(outputs[p - |inputs|].num, outputs[p - |inputs|].len, p - |inputs| != |outputs| - 1, true, false,
              0)
  {
  }

  /** The next free descriptor is where the filled ones lead. */
  lemma LinkNext(shadow': seq<Desc>, shadow: seq<Desc>, place: seq<Place>, free: seq<nat>, flight: map<nat, Request>,
                 head: nat, i: nat, inputs: seq<Buffer>, outputs: seq<Buffer>)
    requires Placed(place, free, flight) && Shadowed(shadow, head, free, flight)
    requires i < |inputs| + |outputs| <= |free| && Filled(shadow', shadow, shadow, place, i, inputs, outputs)
    ensures free[i] < |shadow| && shadow'[free[i]].link == shadow[free[i]].link
    ensures i + 1 < |free| ==> shadow[free[i]].link == free[i + 1]
  {
    assert place[free[i]] == Free(i) && Next(free, i, shadow[free[i]].link);
  }

  /** The first `n` descriptors from `i` along the links of the shadow table. */
  function AlongLinks(shadow: seq<Desc>, i: nat, n: nat): seq<nat>
    decreases n
  {
    if n == 0 then [] else [i] + (if i < |shadow| then AlongLinks(shadow, shadow[i].link, n - 1) else [])
  }

  lemma {:induction false} FreeAlongLinks(shadow: seq<Desc>, free: seq<nat>, p: nat)
    requires forall q: nat {:trigger free[q]} :: q < |free| ==>
      free[q] < |shadow| && Next(free, q, shadow[free[q]].link)
    requires p < |free|
    ensures AlongLinks(shadow, free[p], |free| - p) == free[p..]
    decreases |free| - p
  {
    var n := |free| - p;
    assert free[p] < |shadow| && Next(free, p, shadow[free[p]].link);
    assert AlongLinks(shadow, free[p], n) == [free[p]] + AlongLinks(shadow, shadow[free[p]].link, n - 1);
    if p + 1 < |free| {
      FreeAlongLinks(shadow, free, p + 1);
    } else {
      assert AlongLinks(shadow, shadow[free[p]].link, 0) == [];
    }
    assert free[p..] == [free[p]] + free[p + 1..];
  }

  /** The first 16 - `numUsed` descriptors from `freeHead` and the chains in flight cut the table
      into pieces: each descriptor is in exactly one of them, once. */
  lemma QueuePartition(q: Queue)
    requires q.Valid()
    ensures AlongLinks(q.shadow[..], q.freeHead, QUEUE - q.numUsed) == q.free
    ensures forall d: nat :: d < QUEUE ==>
      (d in q.free) != (exists h: nat :: InFlight(q.flight, h) && d in q.flight[h].chain)
    ensures forall h: nat, k: nat, d: nat ::
      InFlight(q.flight, h) && InFlight(q.flight, k) && d in q.flight[h].chain && d in q.flight[k].chain ==> h == k
  {
    hide PageAllocator.Valid, Ringed, Visible, Lists, Backed;
    if q.free != [] {
      FreeAlongLinks(q.shadow[..], q.free, 0);
      assert q.free[0..] == q.free;
    }
    forall d: nat | d < QUEUE
      ensures (d in q.free) != (exists h: nat :: InFlight(q.flight, h) && d in q.flight[h].chain) {
      OneHome(q.place, q.free, q.flight, d);
    }
    forall h: nat, k: nat, d: nat | InFlight(q.flight, h) && InFlight(q.flight,
      k) && d in q.flight[h].chain && d in q.flight[k].chain
      ensures h == k
    {
      InChainPlace(q.place, q.free, q.flight, h, d);
      InChainPlace(q.place, q.free, q.flight, k, d);
    }
  }

  lemma InChainPlace(place: seq<Place>, free: seq<nat>, flight: map<nat, Request>, h: nat, d: nat)
    requires Placed(place, free, flight) && InFlight(flight, h) && d in flight[h].chain
    ensures d < QUEUE && place[d].InChain? && place[d].head == h
  {
    assert ChainPlaced(place, h, flight[h].chain);
    var p: nat :| p < |flight[h].chain| && flight[h].chain[p] == d;
  }

  lemma OneHome(place: seq<Place>, free: seq<nat>, flight: map<nat, Request>, d: nat)
    requires Placed(place, free, flight) && d < QUEUE
    ensures (d in free) != (exists h: nat :: InFlight(flight, h) && d in flight[h].chain)
  {
    if d in free {
      var p: nat :| p < |free| && free[p] == d;
      assert place[d] == Free(p);
      forall h: nat | InFlight(flight, h) ensures d !in flight[h].chain {
        if d in flight[h].chain { InChainPlace(place, free, flight, h, d); }
      }
    } else if place[d].InChain? {
      assert InFlight(flight, place[d].head) && flight[place[d].head].chain[place[d].pos] == d;
    }
  }

  /** The test of the polling loop, 32 bits against 16 bits. */
  predicate PollSees(popped: nat, completed: nat) { popped % 0x1_0000_0000 != completed % 0x1_0000 }

  /** The test tells whether there is a completion to take exactly while the 32-bit counter is
      below 2^16, or there is one anyway. */
  lemma PollExact(popped: nat, completed: nat)
    requires popped <= completed <= popped + QUEUE
    ensures (PollSees(popped, completed) <==> popped < completed) <==>
      (popped % 0x1_0000_0000 < 0x1_0000 || popped < completed)
  {
    var p, c := popped % 0x1_0000, completed % 0x1_0000;
    if popped % 0x1_0000_0000 < 0x1_0000 {
      assert popped % 0x1_0000_0000 == p;
      if popped < completed { assert p != c; }
    }
  }

  /** After 2^16 requests the idle queue looks as if there were a completion. */
  lemma PollMisled()
    ensures PollSees(0x1_0000, 0x1_0000)
  {
  }

  /** `should_notify` with event indices: the 32-bit counter against the masked event index. */
  predicate ShouldNotify(availIdx: nat, availEvent: nat) { availIdx >= (availEvent + 1) % QUEUE }

  /** The device can keep the driver from notifying it only for the first 15 requests: from then
      on every request is notified, whatever the event index. */
  lemma NotifyAlways(availIdx: nat)
    ensures (forall availEvent: nat :: availEvent < 0x1_0000 ==> ShouldNotify(availIdx, availEvent)) <==> availIdx >= 15
  {
    if availIdx < 15 { assert !ShouldNotify(availIdx, 14); }
  }

  /** A notification the device asked for is never left out: it wants one when the request at
      index `availEvent` becomes available (section 2.6.10 of VirtIO 1.1). */
  lemma NotifyNotLost(published: nat, availEvent: nat)
    requires availEvent < 0x1_0000 && (availEvent + 1) % 0x1_0000 == published % 0x1_0000
    ensures ShouldNotify(published % 0x1_0000_0000, availEvent)
  {
    IndexWraps(published);
    SixteenWraps(published);
    SixteenWraps(availEvent + 1);
    assert (availEvent + 1) % QUEUE == published % 0x1_0000_0000 % QUEUE;
  }
}
