/** What the steps of driver and device do to the state of a virtqueue. */
module QueueSteps {
  import opened Paging
  import opened DescriptorChains
  import opened QueueState

  /** Places after the first `n` free descriptors become the chain of `head`. */
  ghost function TakePlace(place: seq<Place>, head: nat, n: nat): seq<Place>
  {
    seq(|place|, d requires 0 <= d < |place| =>
      match place[d]
      case Free(p) => if p < n then InChain(head, p) else Free(p - n)
      case InChain(_, _) => place[d])
  }

  lemma PlacedTake(place: seq<Place>, free: seq<nat>, flight: map<nat, Request>, n: nat, r: Request)
    requires Placed(place, free, flight) && 1 <= n <= |free| && r.chain == free[..n]
    ensures !InFlight(flight, free[0])
    ensures Placed(TakePlace(place, free[0], n), free[n..], flight[free[0] := r])
  {
    var head, place', free', flight' := free[0], TakePlace(place, free[0], n), free[n..], flight[free[0] := r];
    assert place[head] == Free(0);
    forall p: nat | p < |free'| ensures free'[p] < QUEUE && place'[free'[p]] == Free(p) {
      assert free'[p] == free[p + n] && place[free[p + n]] == Free(p + n);
    }
    forall p: nat | p < n ensures free[..n][p] < QUEUE && place'[free[..n][p]] == InChain(head, p) {
      assert free[..n][p] == free[p] && place[free[p]] == Free(p);
    }
    forall h: nat | InFlight(flight', h) ensures ChainPlaced(place', h, flight'[h].chain) {
      if h != head {
        assert InFlight(flight, h) && ChainPlaced(place, h, flight[h].chain);
      }
    }
    forall d: nat | d < QUEUE
      ensures match place'[d]
              case Free(p) => p < |free'| && free'[p] == d
              case InChain(h, p) => InFlight(flight', h) && p < |flight'[h].chain| && flight'[h].chain[p] == d
    {
      TakenPlace(place, free, flight, n, r, d);
    }
  }

  /** Every descriptor is where its new place says. */
  lemma TakenPlace(place: seq<Place>, free: seq<nat>, flight: map<nat, Request>, n: nat, r: Request, d: nat)
    requires Placed(place, free, flight) && 1 <= n <= |free| && r.chain == free[..n] && d < QUEUE
    ensures var place', free', flight' := TakePlace(place, free[0], n), free[n..], flight[free[0] := r];
            d < |place'| && match place'[d]
            case Free(p) => p < |free'| && free'[p] == d
            case InChain(h, p) => InFlight(flight', h) && p < |flight'[h].chain| && flight'[h].chain[p] == d
  {
    match place[d] {
      case Free(p) => if p < n { assert free[..n][p] == free[p] == d; }
        else { assert free[n..][p - n] == free[p] == d; }
      case InChain(h, p) =>
        assert InFlight(flight, h) && ChainPlaced(place, h, flight[h].chain);
    }
  }

  /** `table'` differs from `table` only at the first `n` free descriptors. */
  ghost predicate OnlyTaken(table': seq<Desc>, table: seq<Desc>, place: seq<Place>, n: nat)
  {
    && |table'| == |table| == |place|
    && (forall d: nat {:trigger table'[d]} :: d < |table| && (place[d].Free? ==> place[d].pos >= n) ==>
      table'[d] == table[d])
  }

  /** A request that is stored where nothing was changed is still stored. */
  lemma StoredKept(table: seq<Desc>, table': seq<Desc>, place: seq<Place>, free: seq<nat>, flight: map<nat, Request>,
                   n: nat, h: nat)
    requires Placed(place, free, flight) && OnlyTaken(table', table, place, n) && InFlight(flight, h)
    requires Stored(table, h, flight[h])
    ensures Stored(table', h, flight[h])
  {
    var r := flight[h];
    assert ChainPlaced(place, h, r.chain);
    forall p: nat | p < |r.chain| ensures table'[r.chain[p]] == table[r.chain[p]] {
      assert place[r.chain[p]] == InChain(h, p);
    }
    if r.list.NoList? { BuiltSame(table, table', r.chain, r.elems); } else { assert r.chain[0] == h; }
  }

  /** The driver's table after `add_queue` took the first `n` free descriptors for `r`. */
  lemma ShadowTake(shadow: seq<Desc>, shadow': seq<Desc>, place: seq<Place>, free: seq<nat>, flight: map<nat, Request>,
                   freeHead: nat, freeHead': nat, n: nat, r: Request)
    requires Placed(place, free, flight) && Shadowed(shadow, freeHead, free, flight) && 1 <= n <= |free|
    requires OnlyTaken(shadow', shadow, place, n) && Stored(shadow', free[0], r)
    requires forall d: nat {:trigger shadow'[d]} :: d < QUEUE ==> shadow'[d].link == shadow[d].link
    requires freeHead' < QUEUE && (n < |free| ==> freeHead' == free[n])
    ensures Shadowed(shadow', freeHead', free[n..], flight[free[0] := r])
  {
    var flight', free' := flight[free[0] := r], free[n..];
    forall p: nat | p < |free'| ensures free'[p] < QUEUE && Next(free', p, shadow'[free'[p]].link) {
      assert free'[p] == free[p + n] && Next(free, p + n, shadow[free[p + n]].link);
    }
    forall h: nat | InFlight(flight', h) ensures Stored(shadow', h, flight'[h]) {
      if h != free[0] {
        assert InFlight(flight, h);
        StoredKept(shadow, shadow', place, free, flight, n, h);
      }
    }
  }

  /** No list of a request in flight is touched. */
  ghost predicate ListsKept(pages': map<nat, seq<Desc>>, pages: map<nat, seq<Desc>>, flight: map<nat, Request>)
  {
    forall h: nat {:trigger InFlight(flight, h)} :: InFlight(flight, h) && Listed(pages, flight[h]) ==>
      Listed(pages', flight[h])
  }

  /** While the driver fills free descriptors, the device sees every request as before. */
  lemma VisibleKept(desc: seq<Desc>, desc': seq<Desc>, pages: map<nat, seq<Desc>>, pages': map<nat, seq<Desc>>,
                    place: seq<Place>, free: seq<nat>, flight: map<nat, Request>, n: nat)
    requires Placed(place, free, flight) && Visible(desc, pages, flight)
    requires OnlyTaken(desc', desc, place, n) && ListsKept(pages', pages, flight)
    ensures Visible(desc', pages', flight)
  {
    forall h: nat | InFlight(flight, h) && !flight[h].stage.Done?
      ensures Stored(desc', h, flight[h]) && Listed(pages', flight[h])
    {
      StoredKept(desc, desc', place, free, flight, n, h);
    }
  }

  /** Places after the chain of `head`, of length `n`, went back in front of the free list. */
  ghost function GivePlace(place: seq<Place>, head: nat, n: nat): seq<Place>
  {
    seq(|place|, d requires 0 <= d < |place| =>
      match place[d]
      case Free(p) => Free(p + n)
      case InChain(h, p) => if h == head then Free(p) else place[d])
  }

  lemma PlacedGive(place: seq<Place>, free: seq<nat>, flight: map<nat, Request>, head: nat)
    requires Placed(place, free, flight) && InFlight(flight, head)
    ensures var chain := flight[head].chain;
            Placed(GivePlace(place, head, |chain|), chain + free, flight - {head})
  {
    var chain := flight[head].chain;
    var n, place', free', flight' := |chain|, GivePlace(place, head, |chain|), chain + free, flight - {head};
    assert ChainPlaced(place, head, chain);
    forall p: nat | p < |free'| ensures free'[p] < QUEUE && place'[free'[p]] == Free(p) {
      if p < n { assert free'[p] == chain[p] && place[chain[p]] == InChain(head, p); }
      else { assert free'[p] == free[p - n] && place[free[p - n]] == Free(p - n); }
    }
    forall h: nat | InFlight(flight', h) ensures ChainPlaced(place', h, flight'[h].chain) {
      assert InFlight(flight, h) && ChainPlaced(place, h, flight[h].chain);
    }
    forall d: nat | d < QUEUE
      ensures match place'[d]
              case Free(p) => p < |free'| && free'[p] == d
              case InChain(h, p) => InFlight(flight', h) && p < |flight'[h].chain| && flight'[h].chain[p] == d
    {
      match place[d] {
        case Free(p) => assert free'[p + n] == free[p];
        case InChain(h, p) => if h == head { assert free'[p] == chain[p]; } else { assert InFlight(flight', h); }
      }
    }
  }

  /** `table'` differs from `table` only at descriptors of the chain of `head`. */
  ghost predicate OnlyChain(table': seq<Desc>, table: seq<Desc>, place: seq<Place>, head: nat)
  {
    && |table'| == |table| == |place|
    && (forall d: nat {:trigger table'[d]} :: d < |table| && (place[d].InChain? ==> place[d].head != head) ==>
      table'[d] == table[d])
  }

  lemma StoredBeside(table: seq<Desc>, table': seq<Desc>, place: seq<Place>, free: seq<nat>, flight: map<nat, Request>,
                     head: nat, h: nat)
    requires Placed(place, free, flight) && OnlyChain(table', table, place, head) && InFlight(flight, h) && h != head
    requires Stored(table, h, flight[h])
    ensures Stored(table', h, flight[h])
  {
    var r := flight[h];
    assert ChainPlaced(place, h, r.chain);
    forall p: nat | p < |r.chain| ensures table'[r.chain[p]] == table[r.chain[p]] {
      assert place[r.chain[p]] == InChain(h, p);
    }
    if r.list.NoList? { BuiltSame(table, table', r.chain, r.elems); } else { assert r.chain[0] == h; }
  }

  /** The driver's table after `recycle_descriptors` put the chain of `head` in front. */
  lemma ShadowGive(shadow: seq<Desc>, shadow': seq<Desc>, place: seq<Place>, free: seq<nat>, flight: map<nat, Request>,
                   freeHead: nat, head: nat)
    requires Placed(place, free, flight) && Shadowed(shadow, freeHead, free, flight) && InFlight(flight, head)
    requires OnlyChain(shadow', shadow, place, head)
    requires forall d: nat {:trigger shadow'[d]} :: d < QUEUE ==> shadow'[d].link < QUEUE
    requires var chain := flight[head].chain;
             forall p: nat {:trigger chain[p]} :: p < |chain| ==>
               chain[p] < QUEUE && shadow'[chain[p]].link == (if p + 1 < |chain| then chain[p + 1] else freeHead)
    ensures Shadowed(shadow', head, flight[head].chain + free, flight - {head})
  {
    var chain := flight[head].chain;
    var n, free', flight' := |chain|, chain + free, flight - {head};
    assert ChainPlaced(place, head, chain);
    forall p: nat | p < |free'| ensures free'[p] < QUEUE && Next(free', p, shadow'[free'[p]].link) {
      if p < n {
        assert free'[p] == chain[p];
      } else {
        assert free'[p] == free[p - n] && place[free[p - n]] == Free(p - n);
        assert Next(free, p - n, shadow[free[p - n]].link);
      }
    }
    forall h: nat | InFlight(flight', h) ensures Stored(shadow', h, flight'[h]) {
      assert InFlight(flight, h);
      StoredBeside(shadow, shadow', place, free, flight, head, h);
    }
  }

  /** While the driver clears a finished chain, the device sees every other request as before. */
  lemma VisibleBeside(desc: seq<Desc>, desc': seq<Desc>, pages: map<nat, seq<Desc>>, place: seq<Place>, free: seq<nat>,
                      flight: map<nat, Request>, head: nat)
    requires Placed(place, free, flight) && Visible(desc, pages, flight) && InFlight(flight, head) &&
      flight[head].stage.Done?
    requires OnlyChain(desc', desc, place, head)
    ensures Visible(desc', pages, flight) && Visible(desc', pages, flight - {head})
  {
    forall h: nat | InFlight(flight, h) && !flight[h].stage.Done?
      ensures Stored(desc', h, flight[h]) && Listed(pages, flight[h])
    {
      StoredBeside(desc, desc', place, free, flight, head, h);
    }
    assert forall h: nat :: InFlight(flight - {head}, h) ==> InFlight(flight, h);
  }

  /** The flight after request `h` moved to another stage. */
  ghost function Move(flight: map<nat, Request>, h: nat, stage: Stage): map<nat, Request>
    requires h in flight
  {
    flight[h := flight[h].(stage := stage)]
  }

  /** A new stage changes no descriptor. */
  lemma MoveKeeps(place: seq<Place>, free: seq<nat>, flight: map<nat, Request>, shadow: seq<Desc>, freeHead: nat,
                  desc: seq<Desc>, pages: map<nat, seq<Desc>>, h: nat, stage: Stage)
    requires Placed(place, free, flight) && Shadowed(shadow, freeHead, free, flight) && Visible(desc, pages, flight)
    requires InFlight(flight, h) && (flight[h].stage.Done? ==> stage.Done?)
    ensures Placed(place, free, Move(flight, h, stage)) && Shadowed(shadow, freeHead, free, Move(flight, h, stage))
    ensures Visible(desc, pages, Move(flight, h, stage))
  {
    var flight' := Move(flight, h, stage);
    forall k: nat | InFlight(flight', k)
      ensures ChainPlaced(place, k, flight'[k].chain) && Stored(shadow, k, flight'[k])
      ensures !flight'[k].stage.Done? ==> Stored(desc, k, flight'[k]) && Listed(pages, flight'[k])
    {
      assert InFlight(flight, k);
    }
  }

  /** Publishing a request: its slot of the available ring is one the device has read. */
  lemma RingPublish(avail: seq<nat>, used: seq<nat>, hist: History, flight: map<nat, Request>, h: nat, r: Request)
    requires Ringed(avail, used, hist, flight) && !InFlight(flight, h) && r.stage == Pending(|hist.published|)
    requires |hist.published| - hist.fetched < QUEUE
    ensures Ringed(avail[|hist.published| % QUEUE := h], used, hist.(published := hist.published + [h]), flight[h := r])
    ensures Ringed(avail[|hist.published| % QUEUE := h], used, hist, flight)
  {
    var n, flight', avail' := |hist.published|, flight[h := r], avail[|hist.published| % QUEUE := h];
    forall k: nat | hist.fetched <= k < n ensures avail'[k % QUEUE] == hist.published[k] { SlotsApart(k, n); }
    forall k: nat | InFlight(flight', k) && k != h ensures InFlight(flight, k) { }
    assert forall k: nat :: InFlight(flight, k) ==> k != h;
  }

  /** Fewer than 16 apart, two indices have different slots. */
  lemma SlotsApart(k: nat, n: nat)
    requires k < n < k + QUEUE
    ensures k % QUEUE != n % QUEUE
  {
  }

  /** The device reads the oldest request it has not read. */
  lemma RingFetch(avail: seq<nat>, used: seq<nat>, hist: History, flight: map<nat, Request>)
    requires Ringed(avail, used, hist, flight) && hist.fetched < |hist.published|
    ensures var h := hist.published[hist.fetched];
            InFlight(flight, h) && Ringed(avail, used, hist.(fetched := hist.fetched + 1), Move(flight, h, Taken))
  {
    var h := hist.published[hist.fetched];
    assert InFlight(flight, h) && flight[h].stage == Pending(hist.fetched);
    assert forall k: nat :: InFlight(Move(flight, h, Taken), k) ==> InFlight(flight, k);
  }

  /** The device completes any request it is working on. */
  lemma RingComplete(avail: seq<nat>, used: seq<nat>, hist: History, flight: map<nat, Request>, h: nat)
    requires Ringed(avail, used, hist, flight) && InFlight(flight, h) && flight[h].stage.Taken?
    requires |hist.completed| - hist.popped < QUEUE
    ensures Ringed(avail, used[|hist.completed| % QUEUE := h], hist.(completed := hist.completed + [h]),
                   Move(flight, h, Done(|hist.completed|)))
  {
    var n := |hist.completed|;
    forall k: nat | hist.popped <= k < n ensures used[n % QUEUE := h][k % QUEUE] == hist.completed[k] {
      SlotsApart(k, n);
    }
    assert forall k: nat :: InFlight(Move(flight, h, Done(n)), k) ==> InFlight(flight, k);
  }

  /** The driver takes the oldest completion. */
  lemma RingPop(avail: seq<nat>, used: seq<nat>, hist: History, flight: map<nat, Request>)
    requires Ringed(avail, used, hist, flight) && hist.popped < |hist.completed|
    ensures var h := hist.completed[hist.popped];
            && InFlight(flight, h) && flight[h].stage == Done(hist.popped) && used[hist.popped % QUEUE] == h
            && Ringed(avail, used, hist.(popped := hist.popped + 1), flight - {h})
  {
    var h := hist.completed[hist.popped];
    assert InFlight(flight, h) && flight[h].stage == Done(hist.popped);
    assert forall k: nat :: InFlight(flight - {h}, k) ==> InFlight(flight, k) && k != h;
  }
}
