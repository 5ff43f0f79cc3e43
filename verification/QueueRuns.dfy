/** Runs of a virtqueue: driver and device take their steps in any order. */
module QueueRuns {
  import opened Paging
  import opened PageRuns
  import opened Allocator
  import opened DescriptorChains
  import opened QueueState
  import opened QueueSteps
  import opened Virtqueue

  datatype Op =
    | Submit(inputs: seq<Buffer>, outputs: seq<Buffer>)
    | Fetch
    | Complete(head: nat)
    | Await(token: nat)

  /** How a step ends; an improper request is one the device does not read as meant, and a step that
      is early recycles a request the device has not completed. */
  datatype Outcome = Fine | Panic | Improper | Early

  datatype State = State(free: seq<nat>, flight: map<nat, Request>, hist: History)

  ghost function Seen(q: Queue): State
    reads q
  {
    State(q.free, q.flight, q.hist)
  }

  /** The counts of `add_queue` are of eight bits. */
  predicate Fits(op: Op) { op.Submit? ==> |op.inputs| < 256 && |op.outputs| < 256 }

  predicate Full(s: State, indirect: bool, n: nat)
  {
    s.free == [] || n % 256 > QUEUE || (!indirect && n % 256 > |s.free|)
  }

  ghost predicate Submitted(req: Request, inputs: seq<Buffer>, outputs: seq<Buffer>, s: State, s': State)
  {
    && req.chain != [] && s.free == req.chain + s'.free && !InFlight(s.flight, req.chain[0])
    && req.stage == Pending(|s.hist.published|) &&
      (req.elems == Elems(inputs, outputs, 1) || req.elems == Elems(inputs, outputs, PAGESIZE))
    && s'.flight == s.flight[req.chain[0] := req] && s'.hist == s.hist.(published := s.hist.published + [req.chain[0]])
  }

  /** The device has read the request at `h` and not completed it. */
  predicate AtWork(s: State, h: nat) { InFlight(s.flight, h) && s.flight[h].stage.Taken? }

  /** `t` is the oldest completion not taken. */
  predicate Oldest(s: State, t: nat)
  {
    s.hist.popped < |s.hist.completed| && s.hist.completed[s.hist.popped] == t && InFlight(s.flight, t)
  }

  ghost predicate Effect(op: Op, indirect: bool, s: State, s': State)
  {
    match op
    case Submit(inputs, outputs) =>
      if Full(s, indirect, |inputs| + |outputs|) then s' == s
      else exists req: Request :: Submitted(req, inputs, outputs, s, s')
    case Fetch =>
      if s.hist.fetched < |s.hist.published| then
        var h := s.hist.published[s.hist.fetched];
        InFlight(s.flight, h) &&
          s' == s.(flight := Move(s.flight, h, Taken), hist := s.hist.(fetched := s.hist.fetched + 1))
      else s' == s
    case Complete(h) =>
      s' == if AtWork(s, h)
        then s.(flight := Move(s.flight, h, Stage.Done(|s.hist.completed|)), hist :=
        s.hist.(completed := s.hist.completed + [h])) else s
    case Await(t) =>
      s' == if Oldest(s, t) then State(s.flight[t].chain + s.free, s.flight - {t}, s.hist.(popped := s.hist.popped + 1))
        else s
  }

  /** The states of a run. */
  ghost predicate Trail(ops: seq<Op>, indirect: bool, trail: seq<State>)
  {
    && 0 < |trail| <= |ops| + 1
    && forall k: nat :: k + 1 < |trail| ==> Effect(ops[k], indirect, trail[k], trail[k + 1])
  }

  /** Every request ever published was taken back once or is in flight. */
  ghost predicate Balanced(s: State) { |s.hist.published| == s.hist.popped + |s.flight| }

  lemma EffectBalanced(op: Op, indirect: bool, s: State, s': State)
    requires Effect(op, indirect, s, s') && Balanced(s)
    ensures Balanced(s') && s.hist.published <= s'.hist.published && s.hist.completed <= s'.hist.completed &&
      s.hist.popped <= s'.hist.popped
  {
    hide Submitted, Move, Elems;
    match op
    case Submit(inputs, outputs) =>
      if !Full(s, indirect, |inputs| + |outputs|) {
        var req: Request :| Submitted(req, inputs, outputs, s, s');
        SubmitBalanced(req, inputs, outputs, s, s');
      }
    case Fetch =>
      if s.hist.fetched < |s.hist.published| { Moved(s.flight, s.hist.published[s.hist.fetched], Taken); }
    case Complete(h) => if AtWork(s, h) { Moved(s.flight, h, Stage.Done(|s.hist.completed|)); }
    case Await(t) => if Oldest(s, t) { Removed(s.flight, t); }
  }

  lemma SubmitBalanced(req: Request, inputs: seq<Buffer>, outputs: seq<Buffer>, s: State, s': State)
    requires Submitted(req, inputs, outputs, s, s') && Balanced(s)
    ensures Balanced(s') && s.hist.published <= s'.hist.published && s'.hist.completed == s.hist.completed &&
      s.hist.popped == s'.hist.popped
  {
    hide Elems;
    Added(s.flight, req.chain[0], req);
  }

  lemma Added(flight: map<nat, Request>, h: nat, r: Request)
    requires !InFlight(flight, h)
    ensures |flight[h := r]| == |flight| + 1
  {
    assert flight[h := r].Keys == flight.Keys + {h};
  }

  lemma Moved(flight: map<nat, Request>, h: nat, stage: Stage)
    requires InFlight(flight, h)
    ensures |Move(flight, h, stage)| == |flight|
  {
    assert Move(flight, h, stage).Keys == flight.Keys;
  }

  lemma Removed(flight: map<nat, Request>, h: nat)
    requires InFlight(flight, h)
    ensures |flight - {h}| == |flight| - 1
  {
    assert (flight - {h}).Keys == flight.Keys - {h};
  }

  /** In every run no request is lost and none is taken back twice. */
  lemma {:induction false} TrailBalanced(ops: seq<Op>, indirect: bool, trail: seq<State>, k: nat)
    requires Trail(ops, indirect, trail) && k < |trail| && Balanced(trail[0])
    ensures Balanced(trail[k]) && trail[0].hist.published <= trail[k].hist.published &&
      trail[0].hist.popped <= trail[k].hist.popped
  {
    hide Effect;
    if k > 0 {
      TrailBalanced(ops, indirect, trail, k - 1);
      assert Effect(ops[k - 1], indirect, trail[k - 1], trail[k - 1 + 1]);
      EffectBalanced(ops[k - 1], indirect, trail[k - 1], trail[k]);
    }
  }

  lemma TrailMore(ops: seq<Op>, indirect: bool, trail: seq<State>, s: State)
    requires Trail(ops, indirect, trail) && |trail| <= |ops| &&
      Effect(ops[|trail| - 1], indirect, trail[|trail| - 1], s)
    ensures Trail(ops, indirect, trail + [s])
  {
    hide Effect;
  }

  /** The polling test is misled: there is no completion and the counter has passed 2^16. */
  predicate Misled(s: State) { s.hist.popped == |s.hist.completed| && s.hist.popped % 0x1_0000_0000 >= 0x1_0000 }

  /** What an observer of both sides keeps: the requests the driver waits for, those the device has
      read and not completed, and how many completions have not been taken. */
  datatype Watch = Watch(tokens: set<nat>, working: set<nat>, waiting: nat)

  ghost predicate Knows(s: State, w: Watch)
  {
    && (forall h: nat :: h in w.tokens <==> InFlight(s.flight, h))
    && (forall h: nat :: h in w.working <==> AtWork(s, h))
    && s.hist.popped + w.waiting == |s.hist.completed|
  }

  lemma FullRejects(q: Queue, n: nat)
    requires q.Valid()
    ensures q.Rejects(n) <==> Full(Seen(q), q.indirect, n)
  {
  }

  /** The device sees that there is a request to read. */
  lemma FetchExact(q: Queue)
    requires q.Valid()
    ensures q.deviceIdx != q.availPub <==> q.hist.fetched < |q.hist.published|
  {
    hide PageAllocator.Valid, TableOk;
    q.RoomInRing();
    CountsApart(q.hist.fetched, |q.hist.published|);
  }

  lemma CountsApart(a: nat, b: nat)
    requires a <= b <= a + QUEUE
    ensures a % 0x1_0000 == b % 0x1_0000 <==> a == b
  {
  }

  /** The driver submits a request. */
  method StepSubmit(q: Queue, inputs: seq<Buffer>, outputs: seq<Buffer>, w: Watch) returns (e: Outcome, w': Watch)
    requires q.Valid() && |inputs| < 256 && |outputs| < 256 && Knows(Seen(q), w)
    modifies q, q.desc, q.shadow, q.avail, q.vpns, q.pfns, q.alloc`use, q.alloc.space`mem, q.alloc.space`pfnStart,
      q.alloc.space`role
    modifies q.alloc.dma`brk, q.alloc.dma`nodes, q.alloc.dma`head, q.alloc.dma`order, q.alloc.dma`live, q.alloc.dma`tag
    ensures e.Fine? ==>
      q.Valid() && Effect(Submit(inputs, outputs), q.indirect, old(Seen(q)), Seen(q)) && Knows(Seen(q), w')
    ensures e.Panic? ==> q.indirect && q.alloc.space.Exhausted()
    ensures e.Improper? <==> !e.Panic? && !old(q.Rejects(|inputs| + |outputs|)) && !q.Proper(inputs, outputs)
    ensures !e.Early?
  {
    hide PageAllocator.Valid, Ringed, TableOk, DeviceWalk, Elems, Region.Valid;
    e, w' := Fine, w;
    ghost var list, s := NoList, Seen(q);
    FullRejects(q, |inputs| + |outputs|);
    var r;
    r, list := q.Add(inputs, outputs);
    if r.None? { return Panic, w; }
    if r.value == -1 { return; }
    if !q.Proper(inputs, outputs) { return Improper, w; }
    assert Submitted(old(q.RequestFor(inputs, outputs, list)), inputs, outputs, s, Seen(q));
    w' := w.(tokens := w.tokens + {r.value});
    assert forall h: nat :: AtWork(Seen(q), h) <==> AtWork(s, h);
  }

  /** The device reads a request, if there is one. */
  method StepFetch(q: Queue, w: Watch) returns (w': Watch)
    requires q.Valid() && Knows(Seen(q), w)
    modifies q
    ensures q.Valid() && Effect(Fetch, q.indirect, old(Seen(q)), Seen(q)) && Knows(Seen(q), w')
  {
    hide PageAllocator.Valid, Ringed, TableOk, DeviceWalk, Region.Valid;
    FetchExact(q);
    w' := w;
    ghost var s := Seen(q);
    if q.deviceIdx != q.availPub {
      var h := q.Fetch();
      w' := w.(working := w.working + {h});
      assert forall k: nat :: AtWork(Seen(q), k) <==> k == h || AtWork(s, k);
    }
  }

  /** The device completes the request at `h`, if it is working on it. */
  method StepComplete(q: Queue, h: nat, w: Watch) returns (w': Watch)
    requires q.Valid() && Knows(Seen(q), w)
    modifies q, q.used
    ensures q.Valid() && Effect(Complete(h), q.indirect, old(Seen(q)), Seen(q)) && Knows(Seen(q), w')
  {
    hide PageAllocator.Valid, Ringed, TableOk, DeviceWalk, Region.Valid;
    w' := w;
    ghost var s := Seen(q);
    if h in w.working {
      q.Complete(h);
      w' := w.(working := w.working - {h}, waiting := w.waiting + 1);
      assert forall k: nat :: AtWork(Seen(q), k) <==> k != h && AtWork(s, k);
    }
  }

  /** The driver polls once for the request at `t`, if it waits for it. */
  method StepAwait(q: Queue, t: nat, w: Watch) returns (e: Outcome, w': Watch)
    requires q.Valid() && Knows(Seen(q), w)
    modifies q, q.desc, q.shadow, q.vpns, q.alloc.dma`nodes, q.alloc.dma`head, q.alloc.dma`order, q.alloc.dma`live
    ensures e.Fine? ==> q.Valid() && Effect(Await(t), q.indirect, old(Seen(q)), Seen(q)) && Knows(Seen(q), w')
    ensures e.Early? <==>
      Misled(old(Seen(q))) && InFlight(old(q.flight), t) &&
      t == old(if q.used.Length == QUEUE then q.used[q.hist.popped % QUEUE] else 0)
    ensures e.Fine? || e.Early?
  {
    hide PageAllocator.Valid, Ringed, TableOk, DeviceWalk, Region.Valid;
    e, w' := Fine, w;
    ghost var s := Seen(q);
    if t in w.tokens {
      var p := q.Poll(t);
      if p.Popped? {
        if w.waiting == 0 { return Early, w; }
        w' := w.(tokens := w.tokens - {t}, waiting := w.waiting - 1);
        assert forall k: nat :: AtWork(Seen(q), k) <==> AtWork(s, k);
      }
    }
  }

  /** One step of the driver or of the device. */
  method Step(q: Queue, op: Op, w: Watch) returns (e: Outcome, w': Watch)
    requires q.Valid() && Fits(op) && Knows(Seen(q), w)
    modifies q, q.desc, q.shadow, q.avail, q.used, q.vpns, q.pfns, q.alloc`use, q.alloc.space`mem,
      q.alloc.space`pfnStart, q.alloc.space`role
    modifies q.alloc.dma`brk, q.alloc.dma`nodes, q.alloc.dma`head, q.alloc.dma`order, q.alloc.dma`live, q.alloc.dma`tag
    ensures e.Fine? ==> q.Valid() && Effect(op, q.indirect, old(Seen(q)), Seen(q)) && Knows(Seen(q), w')
    ensures e.Panic? ==> op.Submit? && q.indirect && q.alloc.space.Exhausted()
    ensures e.Improper? ==> op.Submit? && !q.Proper(op.inputs, op.outputs)
    ensures e.Early? ==> op.Await? && Misled(old(Seen(q)))
  {
    hide Queue.Valid, Effect, Knows;
    e, w' := Fine, w;
    match op {
      case Submit(inputs, outputs) => e, w' := StepSubmit(q, inputs, outputs, w);
      case Fetch => w' := StepFetch(q, w);
      case Complete(h) => w' := StepComplete(q, h, w);
      case Await(t) => e, w' := StepAwait(q, t, w);
    }
  }

  /** Any run: it ends at the first step that is not fine, or at the end of `ops`. Until 2^16 requests
      have been taken back, no step is early. No request is lost and none is taken back twice. */
  method Run(q: Queue, ops: seq<Op>, w0: Watch) returns (e: Outcome, w: Watch, ghost trail: seq<State>)
    requires q.Valid() && Knows(Seen(q), w0) && Balanced(Seen(q)) && forall i :: 0 <= i < |ops| ==> Fits(ops[i])
    modifies q, q.desc, q.shadow, q.avail, q.used, q.vpns, q.pfns, q.alloc`use, q.alloc.space`mem,
      q.alloc.space`pfnStart, q.alloc.space`role
    modifies q.alloc.dma`brk, q.alloc.dma`nodes, q.alloc.dma`head, q.alloc.dma`order, q.alloc.dma`live, q.alloc.dma`tag
    ensures Trail(ops, q.indirect, trail) && trail[0] == old(Seen(q)) && Balanced(trail[|trail| - 1])
    ensures e.Fine? ==> q.Valid() && trail[|trail| - 1] == Seen(q) && |trail| == |ops| + 1 && Knows(Seen(q), w)
    ensures !e.Fine? ==> |trail| <= |ops|
    ensures e.Panic? ==> ops[|trail| - 1].Submit? && q.indirect && q.alloc.space.Exhausted()
    ensures e.Improper? ==> ops[|trail| - 1].Submit? && !q.Proper(ops[|trail| - 1].inputs, ops[|trail| - 1].outputs)
    ensures e.Early? ==> ops[|trail| - 1].Await? && trail[|trail| - 1].hist.popped >= 0x1_0000
  {
    hide Queue.Valid, Effect, Knows, Trail;
    e, w, trail := Fine, w0, [Seen(q)];
    StartTrail(ops, q.indirect, Seen(q));
    for i: nat := 0 to |ops|
      invariant e == Fine && q.Valid() && Knows(Seen(q), w) && Trail(ops, q.indirect, trail) && |trail| == i + 1
      invariant trail[0] == old(Seen(q)) && trail[i] == Seen(q)
    {
      TrailBalanced(ops, q.indirect, trail, i);
      e, w := Step(q, ops[i], w);
      if !e.Fine? { return; }
      TrailMore(ops, q.indirect, trail, Seen(q));
      trail := trail + [Seen(q)];
    }
    TrailBalanced(ops, q.indirect, trail, |trail| - 1);
  }

  lemma StartTrail(ops: seq<Op>, indirect: bool, s: State)
    ensures Trail(ops, indirect, [s])
  {
  }

  // ----- the state at 2^16 -----

  /** All descriptors are free, in order, and the used ring holds only zeros. */
  ghost predicate Idle(q: Queue, n: nat)
    reads q, q.desc, q.shadow, q.avail, q.used, q.vpns, q.pfns, q.alloc, q.alloc.space, q.alloc.dma, q.alloc.kva
  {
    && q.Valid() && q.flight == map[] && q.free == Upto(QUEUE) && !q.indirect
    && |q.hist.published| == q.hist.fetched == |q.hist.completed| == q.hist.popped == n
    && forall k: nat {:trigger q.used[k]} :: k < QUEUE ==> q.used[k] == 0
  }

  /** A request of one output is submitted: it gets descriptor 0. */
  method SubmitOne(q: Queue, ghost n: nat) returns (token: nat)
    requires Idle(q, n)
    modifies q, q.desc, q.shadow, q.avail, q.vpns, q.pfns, q.alloc`use, q.alloc.space`mem, q.alloc.space`pfnStart,
      q.alloc.space`role
    modifies q.alloc.dma`brk, q.alloc.dma`nodes, q.alloc.dma`head, q.alloc.dma`order, q.alloc.dma`live, q.alloc.dma`tag
    ensures q.Valid() && token == 0 && q.flight.Keys == {0} && q.flight[0].stage == Pending(n) &&
      q.flight[0].chain == [0]
    ensures q.free == Upto(QUEUE)[1..] && q.hist == old(q.hist).(published := old(q.hist.published) + [0])
  {
    hide PageAllocator.Valid, Ringed, TableOk, DeviceWalk, Elems, Region.Valid;
    ghost var list;
    var r;
    r, list := q.Add([], [Buffer(0, 512)]);
    token := r.value;
  }

  /** One request after the other, each completed before the next. */
  method Cycle(q: Queue, ghost n: nat)
    requires Idle(q, n) && n < 0x1_0000
    modifies q, q.desc, q.shadow, q.avail, q.used, q.vpns, q.pfns, q.alloc`use, q.alloc.space`mem,
      q.alloc.space`pfnStart, q.alloc.space`role
    modifies q.alloc.dma`brk, q.alloc.dma`nodes, q.alloc.dma`head, q.alloc.dma`order, q.alloc.dma`live, q.alloc.dma`tag
    ensures Idle(q, n + 1)
  {
    hide PageAllocator.Valid, Ringed, TableOk, DeviceWalk, Region.Valid;
    var token := SubmitOne(q, n);
    var h := q.Fetch();
    q.Complete(h);
    var p := q.Poll(token);
  }

  /** After 2^16 requests, the next one is recycled at once: its descriptor is free again although
      the device has not even read the request. */
  method EarlyRecycle(q: Queue) returns (p: Polled)
    requires Idle(q, 0)
    modifies q, q.desc, q.shadow, q.avail, q.used, q.vpns, q.pfns, q.alloc`use, q.alloc.space`mem,
      q.alloc.space`pfnStart, q.alloc.space`role
    modifies q.alloc.dma`brk, q.alloc.dma`nodes, q.alloc.dma`head, q.alloc.dma`order, q.alloc.dma`live, q.alloc.dma`tag
    ensures p == Popped && q.free == Upto(QUEUE) && q.flight == map[]
    ensures q.hist.fetched == 0x1_0000 < |q.hist.published| && q.hist.published[0x1_0000] == 0
  {
    hide Idle, Queue.Valid;
    for n: nat := 0 to 0x1_0000
      invariant Idle(q, n)
    {
      Cycle(q, n);
    }
    p := LastPoll(q);
  }

  method LastPoll(q: Queue) returns (p: Polled)
    requires Idle(q, 0x1_0000)
    modifies q, q.desc, q.shadow, q.avail, q.used, q.vpns, q.pfns, q.alloc`use, q.alloc.space`mem,
      q.alloc.space`pfnStart, q.alloc.space`role
    modifies q.alloc.dma`brk, q.alloc.dma`nodes, q.alloc.dma`head, q.alloc.dma`order, q.alloc.dma`live, q.alloc.dma`tag
    ensures p == Popped && q.free == Upto(QUEUE) && q.flight == map[]
    ensures q.hist.fetched == 0x1_0000 < |q.hist.published| && q.hist.published[0x1_0000] == 0
  {
    hide PageAllocator.Valid, Ringed, TableOk, DeviceWalk, Region.Valid;
    var token := SubmitOne(q, 0x1_0000);
    p := q.Poll(token);
  }

  method NewIdle(alloc: PageAllocator) returns (q: Queue)
    requires alloc.Valid()
    ensures Idle(q, 0)
  {
    hide PageAllocator.Valid, Ringed, TableOk, Region.Valid;
    q := new Queue(alloc, false);
  }

  /** A request without outputs: the device does not see the one input it has. */
  method NoOutput(q: Queue) returns (head: nat)
    requires Idle(q, 0)
    modifies q, q.desc, q.shadow, q.avail, q.vpns, q.pfns, q.alloc`use, q.alloc.space`mem, q.alloc.space`pfnStart,
      q.alloc.space`role
    modifies q.alloc.dma`brk, q.alloc.dma`nodes, q.alloc.dma`head, q.alloc.dma`order, q.alloc.dma`live, q.alloc.dma`tag
    ensures head == old(q.freeHead) && DeviceWalk(q.desc[..], q.pages, head) != Some([Elem(4096, 512, false)])
  {
    hide PageAllocator.Valid, Ringed, TableOk, DeviceWalk, Region.Valid;
    ghost var list;
    var r;
    r, list := q.Add([Buffer(4096, 512)], []);
    head := r.value;
    assert Elems([Buffer(4096, 512)], [], 1) == [Elem(4096, 512, false)];
  }

  // ----- one call with nothing else in flight -----

  /** What the device does between two rounds of the polling loop. */
  datatype DeviceStep = Rest | Read | Finish

  datatype Reply = Rejected | NoMemory | Returned | StillWaiting

  /** The device reads the request and, later, completes it. */
  predicate Finishes(device: seq<DeviceStep>)
  {
    exists i: nat, j: nat :: i < j < |device| && device[i] == Read && device[j] == Finish
  }

  /** The request at `head` is the only one in flight; it was published as number `n`. */
  ghost predicate Alone(q: Queue, head: nat, n: nat, taken: bool, finished: bool)
    reads q, q.desc, q.shadow, q.avail, q.used, q.vpns, q.pfns, q.alloc, q.alloc.space, q.alloc.dma, q.alloc.kva
  {
    && q.Valid() && q.flight.Keys == {head} && q.hist.popped == n &&
      |q.hist.completed| == (if finished then n + 1 else n)
    && (finished ==> q.hist.completed[n] == head && taken)
    && (taken <==> !q.flight[head].stage.Pending?) && (finished <==> q.flight[head].stage.Done?)
    && (taken <==> q.hist.fetched == |q.hist.published|) && q.hist.fetched <= |q.hist.published| <= q.hist.fetched + 1
  }

  /** A step of the device while the driver polls. */
  method DeviceMoves(q: Queue, step: DeviceStep, head: nat, ghost n: nat, taken: bool, finished: bool)
    returns (taken': bool, finished': bool)
    requires Alone(q, head, n, taken, finished) && !finished
    modifies q`deviceIdx, q`usedPub, q`flight, q`hist, q.used
    ensures Alone(q, head, n, taken', finished') && q.hist.published == old(q.hist.published)
    ensures taken' == (taken || step == Read) && finished' == (taken && step == Finish)
    ensures q.flight[head].chain == old(q.flight[head].chain) && q.flight[head].list == old(q.flight[head].list)
    ensures q.free == old(q.free) && (!finished' ==> q.hist.completed == old(q.hist.completed))
  {
    hide PageAllocator.Valid, TableOk, DeviceWalk, Region.Valid, Ringed;
    taken', finished' := taken, finished;
    FetchExact(q);
    OnlyOne(q, head, n, taken, finished);
    if step == Read && q.deviceIdx != q.availPub {
      var h := q.Fetch();
      taken' := true;
    } else if step == Finish && taken {
      q.Complete(head);
      finished' := true;
    }
  }

  lemma OnlyOne(q: Queue, head: nat, n: nat, taken: bool, finished: bool)
    requires Alone(q, head, n, taken, finished)
    ensures !taken && q.hist.fetched < |q.hist.published| ==> q.hist.published[q.hist.fetched] == head
  {
    hide PageAllocator.Valid, TableOk;
  }

  /** With nothing in flight, the counters of both sides agree. */
  lemma NothingPending(q: Queue)
    requires q.Valid() && q.flight == map[]
    ensures q.hist.popped == |q.hist.completed| && q.hist.fetched == |q.hist.published|
  {
    hide PageAllocator.Valid, TableOk;
    assert q.hist.popped < |q.hist.completed| ==> InFlight(q.flight, q.hist.completed[q.hist.popped]);
    assert q.hist.fetched < |q.hist.published| ==> InFlight(q.flight, q.hist.published[q.hist.fetched]);
  }

  /** One round of the polling loop. */
  method Round(q: Queue, head: nat, ghost n: nat, ghost taken: bool, ghost finished: bool) returns (p: Polled)
    requires Alone(q, head, n, taken, finished) && n % 0x1_0000_0000 < 0x1_0000
    modifies q, q.desc, q.shadow, q.vpns, q.alloc.dma`nodes, q.alloc.dma`head, q.alloc.dma`order, q.alloc.dma`live
    ensures p == if finished then Popped else Waiting
    ensures !finished ==>
      Alone(q, head, n, taken, finished) && q.flight == old(q.flight) && q.free == old(q.free) && q.hist == old(q.hist)
    ensures finished ==>
      q.Valid() && q.flight == map[] && q.free == old(q.flight[head].chain + q.free) && q.hist.popped == n + 1
  {
    hide PageAllocator.Valid, TableOk, DeviceWalk, Region.Valid, Ringed;
    p := q.Poll(head);
  }

  /** The request is submitted. */
  method Begin(q: Queue, inputs: seq<Buffer>, outputs: seq<Buffer>) returns (r: Reply, head: nat)
    requires q.Valid() && q.flight == map[] && q.Proper(inputs, outputs)
    modifies q, q.desc, q.shadow, q.avail, q.vpns, q.pfns, q.alloc`use, q.alloc.space`mem, q.alloc.space`pfnStart,
      q.alloc.space`role
    modifies q.alloc.dma`brk, q.alloc.dma`nodes, q.alloc.dma`head, q.alloc.dma`order, q.alloc.dma`live, q.alloc.dma`tag
    ensures !r.Returned? && (r.Rejected? <==> old(q.Rejects(|inputs| + |outputs|)))
    ensures r.NoMemory? ==> q.UsesList(|inputs| + |outputs|) && q.alloc.space.Exhausted()
    ensures r.StillWaiting? ==>
      && Alone(q, head, old(q.hist.popped), false, false) && q.hist.completed == old(q.hist.completed)
      && old(q.free) == q.flight[head].chain + q.free
  {
    hide PageAllocator.Valid, TableOk, DeviceWalk, Region.Valid, Ringed, Elems;
    NothingPending(q);
    ghost var list := NoList;
    var token;
    token, list := q.Add(inputs, outputs);
    if token.None? { return NoMemory, 0; }
    if token.value == -1 { return Rejected, 0; }
    r, head := StillWaiting, token.value;
  }

  /** `queue_add_notify_pop` with nothing else in flight, `device` being what the device does while
      the loop polls: the call returns exactly if the device reads and completes the request, and
      then everything it took is given back. */
  method AddNotifyPop(q: Queue, inputs: seq<Buffer>, outputs: seq<Buffer>, device: seq<DeviceStep>) returns (r: Reply)
    requires q.Valid() && q.flight == map[] && q.Proper(inputs, outputs) && q.hist.popped % 0x1_0000_0000 < 0x1_0000
    modifies q, q.desc, q.shadow, q.avail, q.used, q.vpns, q.pfns, q.alloc`use, q.alloc.space`mem,
      q.alloc.space`pfnStart, q.alloc.space`role
    modifies q.alloc.dma`brk, q.alloc.dma`nodes, q.alloc.dma`head, q.alloc.dma`order, q.alloc.dma`live, q.alloc.dma`tag
    ensures r.Rejected? <==> old(q.Rejects(|inputs| + |outputs|))
    ensures r.NoMemory? ==> q.UsesList(|inputs| + |outputs|) && q.alloc.space.Exhausted()
    ensures r.Returned? ==>
      Finishes(device) && q.Valid() && q.flight == map[] && q.free == old(q.free) &&
      q.hist.popped == old(q.hist.popped) + 1
    ensures r.StillWaiting? ==> !Finishes(device) && q.Valid() && |q.hist.completed| == old(|q.hist.completed|)
  {
    hide Queue.Valid, Finishes;
    ghost var n := q.hist.popped;
    var head;
    r, head := Begin(q, inputs, outputs);
    if !r.StillWaiting? { return; }
    var taken, finished := false, false;
    NoneYet(device);
    for i: nat := 0 to |device|
      invariant Alone(q, head, n, taken, finished) && !finished
      invariant InFlight(q.flight, head) && old(q.free) == q.flight[head].chain + q.free &&
        |q.hist.completed| == old(|q.hist.completed|)
      invariant taken <==> exists a: nat :: a < i && device[a] == Read
      invariant !Finishes(device[..i])
    {
      NotYet(device, i, taken);
      taken, finished := DeviceMoves(q, device[i], head, n, taken, finished);
      var p := Round(q, head, n, taken, finished);
      if p == Popped { return Returned; }
    }
    assert device[..|device|] == device;
    r := StillWaiting;
  }

  lemma NoneYet(device: seq<DeviceStep>)
    ensures !Finishes(device[..0])
  {
  }

  lemma NotYet(device: seq<DeviceStep>, i: nat, taken: bool)
    requires i < |device| && !Finishes(device[..i]) && (taken <==> exists a: nat :: a < i && device[a] == Read)
    ensures Finishes(device[..i + 1]) <==> taken && device[i] == Finish
    ensures taken && device[i] == Finish ==> Finishes(device)
  {
    var now, before := device[..i + 1], device[..i];
    assert forall k: nat :: k < i ==> before[k] == device[k] == now[k];
    if Finishes(now) {
      var a: nat, b: nat :| a < b < |now| && now[a] == Read && now[b] == Finish;
      assert b == i;
    }
    if taken && device[i] == Finish {
      var a: nat :| a < i && device[a] == Read;
      assert now[a] == Read && now[i] == Finish;
    }
  }
}
