/** The state of a split virtqueue between two driver calls: who has each descriptor, and what
    the driver's shadow table, the device's table and the rings say about it. */
module QueueState {
  import opened Paging
  import opened PageRuns
  import opened DescriptorChains

  /** The one place a descriptor has: position in the free list or in the chain of a head. */
  datatype Place = Free(pos: nat) | InChain(head: nat, pos: nat)

  /** Published but not read by the device yet, being worked on, or in the used ring; with the
      index in the available or used ring. */
  datatype Stage = Pending(k: nat) | Taken | Done(k: nat)

  /** The page of an indirect list. */
  datatype List = NoList | List(vpn: nat, pfn: nat)

  datatype Request = Request(chain: seq<nat>, elems: seq<Elem>, list: List, stage: Stage)

  predicate InFlight(flight: map<nat, Request>, h: nat) { h in flight }

  /** The free list and the chains in flight cut the 16 descriptors into pieces. */
  ghost predicate Placed(place: seq<Place>, free: seq<nat>, flight: map<nat, Request>)
  {
    && |place| == QUEUE
    && (forall p: nat {:trigger free[p]} :: p < |free| ==> free[p] < QUEUE && place[free[p]] == Free(p))
    && (forall h: nat {:trigger InFlight(flight, h)} :: InFlight(flight, h) ==> ChainPlaced(place, h, flight[h].chain))
    && (forall d: nat {:trigger place[d]} :: d < QUEUE ==>
          match place[d]
          case Free(p) => p < |free| && free[p] == d
          case InChain(h, p) => InFlight(flight, h) && p < |flight[h].chain| && flight[h].chain[p] == d)
  }

  ghost predicate ChainPlaced(place: seq<Place>, h: nat, chain: seq<nat>)
  {
    && chain != [] && chain[0] == h
    && (forall p: nat {:trigger chain[p]} :: p < |chain| ==> chain[p] < |place| && place[chain[p]] == InChain(h, p))
  }

  /** A descriptor that points to an indirect list. */
  predicate Points(d: Desc, r: Request)
  {
    r.list.List? && d.indirect && !d.next && !d.write && d.addr == r.list.pfn * PAGESIZE &&
      d.len == DESC_SIZE * |r.elems|
  }

  /** The table holds the request that starts at `h`. */
  ghost predicate Stored(table: seq<Desc>, h: nat, r: Request)
  {
    if r.list.NoList? then Built(table, r.chain, r.elems)
    else r.chain == [h] && h < |table| && Points(table[h], r)
  }

  /** The driver's table: `free` is linked from `freeHead`, and requests in flight are stored. */
  ghost predicate Shadowed(shadow: seq<Desc>, freeHead: nat, free: seq<nat>, flight: map<nat, Request>)
  {
    && |shadow| == QUEUE && freeHead < QUEUE && (free != [] ==> freeHead == free[0])
    && (forall d: nat {:trigger shadow[d]} :: d < QUEUE ==> shadow[d].link < QUEUE)
    && (forall p: nat {:trigger free[p]} :: p < |free| ==> free[p] < QUEUE && Next(free, p, shadow[free[p]].link))
    && (forall h: nat {:trigger InFlight(flight, h)} :: InFlight(flight, h) ==> Stored(shadow, h, flight[h]))
  }

  function Upto(n: nat): (s: seq<nat>)
    ensures |s| == n && forall p :: 0 <= p < n ==> s[p] == p
  {
    seq(n, p => p)
  }

  /** The indirect list of a request, where the device finds it. */
  ghost predicate Listed(pages: map<nat, seq<Desc>>, r: Request)
  {
    r.list.List? ==>
      r.list.pfn in pages && |pages[r.list.pfn]| == |r.elems| && Built(pages[r.list.pfn], Upto(|r.elems|), r.elems)
  }

  /** The device's table: every request it may still read is stored there. */
  ghost predicate Visible(desc: seq<Desc>, pages: map<nat, seq<Desc>>, flight: map<nat, Request>)
  {
    && |desc| == QUEUE
    && (forall h: nat {:trigger InFlight(flight, h)} :: InFlight(flight, h) && !flight[h].stage.Done? ==>
          Stored(desc, h, flight[h]) && Listed(pages, flight[h]))
  }

  /** `indirect_lists` and `indirect_pfns`: set for the heads of indirect requests in flight. */
  ghost predicate Lists(vpns: seq<nat>, pfns: seq<nat>, flight: map<nat, Request>)
  {
    && |vpns| == QUEUE && |pfns| == QUEUE
    && (forall h: nat {:trigger vpns[h]} :: h < QUEUE ==>
          if InFlight(flight, h) && flight[h].list.List? then vpns[h] != 0 && flight[h].list == List(vpns[h], pfns[h])
          else vpns[h] == 0)
  }

  /** Lists are live pages of their own. */
  ghost predicate Backed(flight: map<nat, Request>, live: map<nat, Run>)
  {
    && (forall h: nat {:trigger InFlight(flight, h)} :: InFlight(flight, h) && flight[h].list.List? ==>
          flight[h].list.vpn in live && live[flight[h].list.vpn] == Run(flight[h].list.pfn, 1))
    && (forall h: nat, k: nat ::
          InFlight(flight, h) && InFlight(flight, k) && h != k && flight[h].list.List? && flight[k].list.List? ==>
            flight[h].list.vpn != flight[k].list.vpn && flight[h].list.pfn != flight[k].list.pfn)
  }

  /** Everything ever published and completed, with how far the other side has read. */
  datatype History = History(published: seq<nat>, fetched: nat, completed: seq<nat>, popped: nat)

  /** The rings hold what the other side has not read yet. */
  ghost predicate Ringed(avail: seq<nat>, used: seq<nat>, hist: History, flight: map<nat, Request>)
  {
    && |avail| == QUEUE && |used| == QUEUE
    && hist.fetched <= |hist.published| && hist.popped <= |hist.completed|
    && (forall k: nat {:trigger hist.published[k]} :: hist.fetched <= k < |hist.published| ==>
          var h := hist.published[k]; InFlight(flight, h) && flight[h].stage == Pending(k) && avail[k % QUEUE] == h)
    && (forall k: nat {:trigger hist.completed[k]} :: hist.popped <= k < |hist.completed| ==>
          var h := hist.completed[k]; InFlight(flight, h) && flight[h].stage == Done(k) && used[k % QUEUE] == h)
    && (forall h: nat {:trigger InFlight(flight, h)} :: InFlight(flight, h) ==>
          match flight[h].stage
          case Pending(k) => hist.fetched <= k < |hist.published| && hist.published[k] == h
          case Taken => true
          case Done(k) => hist.popped <= k < |hist.completed| && hist.completed[k] == h)
  }

  /** What the device reads for a request it may still read is exactly its buffers. */
  lemma DeviceSees(desc: seq<Desc>, pages: map<nat, seq<Desc>>, place: seq<Place>, free: seq<nat>,
                   flight: map<nat, Request>, h: nat)
    requires Visible(desc, pages, flight) && Placed(place, free, flight) && InFlight(flight, h) &&
      !flight[h].stage.Done?
    ensures DeviceWalk(desc, pages, h) == Some(flight[h].elems)
  {
    var r := flight[h];
    assert ChainPlaced(place, h, r.chain);
    if r.list.NoList? {
      ChainFits(place, h, r.chain);
      assert Carries(desc[r.chain[0]], r.elems[0], 1 == |r.chain|);
      FollowBuilt(desc, r.chain, r.elems, 0, QUEUE);
      assert r.elems[0..] == r.elems;
    } else {
      var list, n := pages[r.list.pfn], |r.elems|;
      assert desc[h].addr / PAGESIZE == r.list.pfn && desc[h].len / DESC_SIZE == n;
      FollowBuilt(list, Upto(n), r.elems, 0, n);
      assert list[..n] == list && r.elems[0..] == r.elems && Upto(n)[0] == 0;
    }
  }

  ghost predicate Distinct(s: seq<nat>) { forall i, j :: 0 <= i < j < |s| ==> s[i] != s[j] }

  lemma {:induction false} BelowCard(x: set<nat>, n: nat)
    requires forall v :: v in x ==> v < n
    ensures |x| <= n
  {
    if n == 0 {
      assert x == {};
    } else {
      BelowCard(x - {n - 1}, n - 1);
    }
  }

  ghost function Members(s: seq<nat>): set<nat> { set v: nat | v in s }

  lemma {:induction false} DistinctCard(s: seq<nat>)
    requires Distinct(s)
    ensures |Members(s)| == |s|
  {
    if s == [] {
      assert Members(s) == {};
    } else {
      var n := |s| - 1;
      DistinctCard(s[..n]);
      assert s == s[..n] + [s[n]];
      assert Members(s) == Members(s[..n]) + {s[n]};
    }
  }

  /** There are not more different descriptors than the queue has. */
  lemma Pigeonhole(s: seq<nat>)
    requires Distinct(s) && forall i :: 0 <= i < |s| ==> s[i] < QUEUE
    ensures |s| <= QUEUE
  {
    DistinctCard(s);
    BelowCard(Members(s), QUEUE);
  }

  lemma ChainFits(place: seq<Place>, h: nat, chain: seq<nat>)
    requires |place| == QUEUE && ChainPlaced(place, h, chain)
    ensures |chain| <= QUEUE
  {
    forall i, j | 0 <= i < j < |chain| ensures chain[i] != chain[j] {
      assert place[chain[i]] == InChain(h, i) && place[chain[j]] == InChain(h, j);
    }
    Pigeonhole(chain);
  }

  /** The free list together with what waits in the available ring fits in the queue. */
  lemma PendingFit(place: seq<Place>, free: seq<nat>, flight: map<nat, Request>, avail: seq<nat>, used: seq<nat>,
                   hist: History)
    requires Placed(place, free, flight) && Ringed(avail, used, hist, flight)
    ensures |hist.published| - hist.fetched + |free| <= QUEUE
  {
    var s: seq<nat> := hist.published[hist.fetched..] + free;
    var n := |hist.published| - hist.fetched;
    forall i | 0 <= i < |s| ensures s[i] < QUEUE && place[s[i]] == (if i < n then InChain(s[i], 0) else Free(i - n)) {
      if i < n {
        assert s[i] == hist.published[hist.fetched + i];
        assert InFlight(flight, s[i]) && ChainPlaced(place, s[i], flight[s[i]].chain);
      }
    }
    forall i, j | 0 <= i < j < |s| ensures s[i] != s[j] {
      if j < n {
        assert s[i] == hist.published[hist.fetched + i] && s[j] == hist.published[hist.fetched + j];
      }
    }
    Pigeonhole(s);
  }

  /** What waits in the used ring, together with a request not completed, fits in the queue. */
  lemma DoneFit(place: seq<Place>, free: seq<nat>, flight: map<nat, Request>, avail: seq<nat>, used: seq<nat>,
                hist: History, h: nat)
    requires Placed(place, free, flight) && Ringed(avail, used, hist, flight) && InFlight(flight, h)
    ensures |hist.completed| - hist.popped <= QUEUE
    ensures !flight[h].stage.Done? ==> |hist.completed| - hist.popped < QUEUE
  {
    var n := |hist.completed| - hist.popped;
    var s: seq<nat> := hist.completed[hist.popped..] + (if flight[h].stage.Done? then [] else [h]);
    forall i | 0 <= i < |s| ensures s[i] < QUEUE {
      if i < n { assert s[i] == hist.completed[hist.popped + i]; }
      assert InFlight(flight, s[i]) && ChainPlaced(place, s[i], flight[s[i]].chain);
    }
    forall i, j | 0 <= i < j < |s| ensures s[i] != s[j] {
      assert s[i] == hist.completed[hist.popped + i];
      if j < n { assert s[j] == hist.completed[hist.popped + j]; }
    }
    Pigeonhole(s);
  }
}
