/**
 * Bytes of a user address space: what the process reads through its page table, and what the
 * kernel writes and reads for it through its own mapping of the same frames (`translate_buffer`
 * and `translate_2_pages` of kernel/sysfile.c).
 */
module UserBytes {
  import opened Paging
  import opened Chunks
  import opened PageRuns
  import opened Allocator
  import opened UserTable
  import opened AddressSpaces

  /** The bytes of a frame; those of a frame never written are taken to be zero. */
  function PageBytes(m: UserMem, f: nat): (r: Block)
    ensures |r| == PAGESIZE
  {
    if f in m.bytes && |m.bytes[f]| == PAGESIZE then m.bytes[f] else seq(PAGESIZE, _ => 0)
  }

  /** The byte the process reads at address `a`. */
  ghost function Peek(m: UserMem, s: Space, a: nat): byte {
    match Walk(m.tables, s.pfn, a / PAGESIZE)
    case None => 0
    case Some(leaf) => PageBytes(m, leaf.pfn)[a % PAGESIZE]
  }

  /** The kernel has user page `vpn`: the frame behind its own page is the one the process uses. */
  ghost predicate Seen(m: UserMem, frame: map<nat, nat>, s: Space, vpn: nat) {
    && vpn < PAGES && Walkupt(m, s, vpn) in frame
    && var w := Walk(m.tables, s.pfn, vpn); w.Some? && w.value.pfn == frame[Walkupt(m, s, vpn)]
  }

  /** The kernel has all pages of the `n` bytes from `a` on. */
  ghost predicate Spans(m: UserMem, frame: map<nat, nat>, s: Space, a: nat, n: nat) {
    forall vpn: nat :: a / PAGESIZE <= vpn < PageUp(a + n) ==> Seen(m, frame, s, vpn)
  }

  /** No two pages of the space share a frame. */
  ghost predicate OneToOne(m: UserMem, s: Space) {
    forall v: nat, w: nat :: v < PAGES && w < PAGES && SameFrame(m, s, v, w) ==> v == w
  }

  ghost predicate SameFrame(m: UserMem, s: Space, v: nat, w: nat) {
    var a, b := Walk(m.tables, s.pfn, v), Walk(m.tables, s.pfn, w);
    a.Some? && b.Some? && a.value.pfn == b.value.pfn
  }

  function Poked(m: UserMem, f: nat, off: nat, data: Block): UserMem
    requires off + |data| <= PAGESIZE
  {
    m.(bytes := m.bytes[f := Splice(PageBytes(m, f), off, data)])
  }

  /** Frame `f` is behind a page of the space. */
  ghost predicate FrameIn(m: UserMem, s: Space, f: nat) {
    exists vpn: nat :: vpn < PAGES && Behind(m, s, vpn, f)
  }

  ghost predicate Behind(m: UserMem, s: Space, vpn: nat, f: nat) {
    var w := Walk(m.tables, s.pfn, vpn);
    w.Some? && w.value.pfn == f
  }

  /** Only bytes of the space differ. */
  ghost predicate OwnBytes(m': UserMem, m: UserMem, s: Space) {
    m' == m.(bytes := m'.bytes) && forall f: nat :: FrameBytes(m', f) == FrameBytes(m, f) || FrameIn(m, s, f)
  }

  function FrameBytes(m: UserMem, f: nat): Block {
    if f in m.bytes then m.bytes[f] else []
  }

  lemma OwnBytesMore(m2: UserMem, m1: UserMem, m0: UserMem, s: Space)
    requires OwnBytes(m1, m0, s) && OwnBytes(m2, m1, s)
    ensures OwnBytes(m2, m0, s)
  {
    hide FrameBytes, Walk;
    forall f: nat ensures FrameIn(m1, s, f) == FrameIn(m0, s, f) {
      assert forall vpn: nat :: Behind(m1, s, vpn, f) == Behind(m0, s, vpn, f);
    }
  }

  /** `data` was written at user address `a`, and nothing else changed. */
  ghost predicate Wrote(m': UserMem, m: UserMem, s: Space, a: nat, data: Block) {
    && OwnBytes(m', m, s)
    && forall b: nat :: b < PAGES * PAGESIZE ==> Peek(m', s, b) == if a <= b < a + |data| then data[b - a] else Peek(m,
      s, b)
  }

  lemma PokeWrote(m: UserMem, frame: map<nat, nat>, s: Space, vpn: nat, off: nat, data: Block)
    requires OneToOne(m, s) && Seen(m, frame, s, vpn) && off + |data| <= PAGESIZE
    ensures Wrote(Poked(m, frame[Walkupt(m, s, vpn)], off, data), m, s, vpn * PAGESIZE + off, data)
  {
    hide Walk, Walkupt;
    var f := frame[Walkupt(m, s, vpn)];
    var m', a := Poked(m, f, off, data), vpn * PAGESIZE + off;
    assert Behind(m, s, vpn, f);
    forall b: nat | b < PAGES * PAGESIZE
      ensures Peek(m', s, b) == if a <= b < a + |data| then data[b - a] else Peek(m, s, b)
    {
      Divided(b, vpn);
      assert SameFrame(m, s, vpn, b / PAGESIZE) ==> vpn == b / PAGESIZE;
    }
  }

  lemma WroteMore(m0: UserMem, m1: UserMem, m2: UserMem, s: Space, a: nat, data: Block, more: Block)
    requires Wrote(m1, m0, s, a, data) && Wrote(m2, m1, s, a + |data|, more)
    ensures Wrote(m2, m0, s, a, data + more)
  {
    hide Peek, OwnBytes;
    OwnBytesMore(m2, m1, m0, s);
  }

  /** The kernel stores `data` into its page `v`. */
  method StoreBytes(u: UserMemory, v: nat, off: nat, data: Block)
    requires u.Valid() && v in u.Frames() && off + |data| <= PAGESIZE
    modifies u`m
    ensures u.Valid() && u.Frames() == old(u.Frames()) && u.m == Poked(old(u.m), u.Frames()[v], off, data)
  {
    hide PageAllocator.Valid, Region.Valid, Backed, AllTrees, Walk;
    u.PhysIsFrame(v);
    ghost var m := u.m;
    var f := u.Phys(v);
    u.m := u.m.(bytes := u.m.bytes[f := Splice(PageBytes(u.m, f), off, data)]);
    BytesTrees(m, u.m.bytes, u.Frames(), u.own, u.kown, u.spaces);
  }

  /** `translate_buffer` from the kernel to the user. */
  method CopyOut(u: UserMemory, s: Space, data: Block, a: nat)
    requires u.Valid() && OneToOne(u.m, s) && Spans(u.m, u.Frames(), s, a, |data|)
    modifies u`m
    ensures u.Valid() && u.Frames() == old(u.Frames()) && Wrote(u.m, old(u.m), s, a, data)
  {
    hide PageAllocator.Valid, Region.Valid, Region.Frames, Backed, AllTrees, Contents, Wrote, OneToOne, Walk, Walkupt;
    ghost var frame := u.Frames();
    var pageOffset: nat, pageMax: nat, done: nat := a % PAGESIZE, a % PAGESIZE + |data|, 0;
    var vpn: nat := a / PAGESIZE;
    WroteNothing(u.m, s, a);
    while vpn != PageUp(a + |data|)
      invariant At(a, |data|, vpn, pageOffset, pageMax, done) && done <= |data|
      invariant u.Valid() && u.Frames() == frame && Wrote(u.m, old(u.m), s, a, data[..done])
      decreases PageUp(a + |data|) - vpn
    {
      AtStep(a, |data|, vpn, pageOffset, pageMax, done);
      var top := if pageMax > PAGESIZE then PAGESIZE else pageMax;
      pageMax := if pageMax > PAGESIZE then pageMax - PAGESIZE else pageMax;
      var part := data[done..done + top - pageOffset];
      WroteTables(old(u.m), u.m, s, a, data[..done], frame, vpn);
      ghost var m := u.m;
      StoreBytes(u, Walkupt(u.m, s, vpn), pageOffset, part);
      PokeWrote(m, frame, s, vpn, pageOffset, part);
      WroteMore(old(u.m), m, u.m, s, a, data[..done], part);
      assert data[..done] + part == data[..done + |part|];
      done := done + top - pageOffset;
      pageOffset := 0;
      vpn := vpn + 1;
    }
    assert data[..done] == data;
  }

  lemma WroteNothing(m: UserMem, s: Space, a: nat)
    ensures Wrote(m, m, s, a, [])
  {
  }

  /** Writing bytes does not change the tables. */
  lemma WroteTables(m: UserMem, m': UserMem, s: Space, a: nat, data: Block, frame: map<nat, nat>, vpn: nat)
    requires Wrote(m', m, s, a, data)
    ensures OneToOne(m, s) ==> OneToOne(m', s)
    ensures Seen(m, frame, s, vpn) ==> Seen(m', frame, s, vpn)
  {
    hide Walk, Peek;
    assert forall v: nat, w: nat :: SameFrame(m', s, v, w) == SameFrame(m, s, v, w);
  }

  // ----- reading up to a zero unit -----

  predicate ZeroRange(b: Block, lo: nat, hi: nat)
    requires lo <= hi <= |b|
  {
    forall t: nat :: lo <= t < hi ==> b[t] == 0
  }

  /** `b` ends with its first aligned unit of `unit` zero bytes. */
  predicate UpToZero(b: Block, unit: nat)
    requires unit > 0
  {
    && |b| >= unit && |b| % unit == 0 && ZeroRange(b, |b| - unit, |b|)
    && forall t: nat :: t % unit == 0 && t + unit < |b| ==> !ZeroRange(b, t, t + unit)
  }

  /** The process reads `b` at `a`, from pages the kernel has. */
  ghost predicate Reads(m: UserMem, frame: map<nat, nat>, s: Space, a: nat, b: Block) {
    Spans(m, frame, s, a, |b|) && forall t: nat :: t < |b| ==> Peek(m, s, a + t) == b[t]
  }

  /** The counter of consecutive zeros after `count` bytes: the zeros of an unfinished unit that
      is zero so far. */
  ghost function Zeros(b: Block, unit: nat, count: nat): nat
    requires unit > 0 && count <= |b|
  {
    if ZeroRange(b, count - count % unit, count) then count % unit else 0
  }

  /** One byte of the scan: it ends exactly with `b`. */
  lemma ScanStep(b: Block, unit: nat, count: nat)
    requires (unit == 1 || unit == 8) && UpToZero(b, unit) && count < |b|
    ensures var zeros := Zeros(b, unit, count);
            var next := if b[count] == 0 && (count % unit == 0 || zeros != 0) then zeros + 1 else 0;
            && (next == unit <==> count + 1 == |b|)
            && (count + 1 < |b| ==> next == Zeros(b, unit, count + 1))
  {
    var start := count - count % unit;
    UnitNext(count, unit);
    UnitEnd(start, unit, |b|);
    if start + unit < |b| { assert !ZeroRange(b, start, start + unit); }
  }

  lemma UnitNext(count: nat, unit: nat)
    requires unit == 1 || unit == 8
    ensures var r := count % unit;
      (count + 1) % unit == (if r + 1 == unit then 0 else r + 1) && (count - r) % unit == 0 && count - r >= 0 &&
        r < unit
  {
  }

  lemma UnitEnd(start: nat, unit: nat, n: nat)
    requires (unit == 1 || unit == 8) && start % unit == 0 && n % unit == 0
    ensures start < n ==> start + unit <= n
  {
  }

  lemma SeenByte(m: UserMem, frame: map<nat, nat>, s: Space, a: nat, b: Block, t: nat, vpn: nat, off: nat)
    requires Reads(m, frame, s, a, b) && t < |b| && a + t == vpn * PAGESIZE + off && off < PAGESIZE
    ensures Seen(m, frame, s, vpn) && PageBytes(m, FrameNat(frame, Walkupt(m, s, vpn)))[off] == b[t]
  {
    hide Walk, Walkupt, PageBytes;
    Divided(a + t, vpn);
    assert Seen(m, frame, s, vpn) && Peek(m, s, a + t) == b[t];
  }

  /** Bytes of the kernel buffer that every caller of `translate_2_pages` allocates. */
  const BUFFER := 2 * PAGESIZE

  /** `translate_2_pages`: the bytes up to the first aligned zero unit. The code has no test for the
      end of the buffer; `fits` is false when it would store past it, and `buf` is then full. */
  method Fetch(u: UserMemory, s: Space, a: nat, unit: nat, ghost b: Block) returns (fits: bool, buf: Block)
    requires u.Valid() && (unit == 1 || unit == 8) && UpToZero(b, unit) && Reads(u.m, u.Frames(), s, a, b)
    ensures fits <==> |b| <= BUFFER
    ensures buf == if fits then b else b[..BUFFER]
  {
    hide PageAllocator.Valid, Region.Valid, Region.Frames, Backed, AllTrees, Contents, Walk, Walkupt, Reads, UpToZero;
    hide PageBytes, Zeros;
    SomeBytes(b, unit);
    var off: nat, vpn: nat := a % PAGESIZE, a / PAGESIZE;
    var page := Walkupt(u.m, s, vpn);
    var within, zeros: nat, count: nat := false, 0, 0;
    fits, buf := true, [];
    while !within
      invariant fits && count <= BUFFER
      invariant if within then buf == b && |b| <= BUFFER else
                  && count < |b| && buf == b[..count] && zeros == Zeros(b, unit, count)
                  && a + count == vpn * PAGESIZE + off && off < PAGESIZE && page == Walkupt(u.m, s, vpn)
      decreases if within then 0 else 1, |b| - count
    {
      while off != PAGESIZE
        invariant !within && fits && count <= BUFFER && count < |b| && buf == b[..count] &&
          zeros == Zeros(b, unit, count)
        invariant a + count == vpn * PAGESIZE + off && off <= PAGESIZE && page == Walkupt(u.m, s, vpn)
        decreases PAGESIZE - off
      {
        if count == BUFFER { return false, buf; }
        SeenByte(u.m, u.Frames(), s, a, b, count, vpn, off);
        u.PhysIsFrame(page);
        var x := PageBytes(u.m, u.Phys(page))[off];
        ScanStep(b, unit, count);
        buf := buf + [x];
        zeros := if x == 0 && (count % unit == 0 || zeros != 0) then zeros + 1 else 0;
        if zeros == unit {
          within := true;
          assert buf == b;
          break;
        }
        count, off := count + 1, off + 1;
      }
      vpn := vpn + 1;
      page := Walkupt(u.m, s, vpn);
      off := 0;
    }
  }

  lemma SomeBytes(b: Block, unit: nat)
    requires (unit == 1 || unit == 8) && UpToZero(b, unit)
    ensures |b| > 0 && Zeros(b, unit, 0) == 0
  {
  }
}
