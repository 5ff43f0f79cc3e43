/**
 * The arguments of `sys_execve` (kernel/exec.c): read from the old address space, pushed onto the
 * stack of the new one.
 */
module ExecStack {
  import opened Paging
  import opened Chunks
  import opened PageRuns
  import opened Allocator
  import opened UserTable
  import opened AddressSpaces
  import opened UserBytes

  /** Pointer size. */
  const WORD := 8
  const TOP := PAGES * PAGESIZE

  // ----- little-endian words -----

  function Le(v: nat, n: nat): (b: Block)
    ensures |b| == n
    decreases n
  {
    if n == 0 then [] else [v % 0x100] + Le(v / 0x100, n - 1)
  }

  function Num(b: Block): nat {
    if b == [] then 0 else b[0] + 0x100 * Num(b[1..])
  }

  function Power(n: nat): nat { if n == 0 then 1 else 0x100 * Power(n - 1) }

  lemma {:induction false} NumLe(v: nat, n: nat)
    requires v < Power(n)
    ensures Num(Le(v, n)) == v
    decreases n
  {
    if n > 0 {
      NumLe(v / 0x100, n - 1);
      assert Le(v, n)[1..] == Le(v / 0x100, n - 1);
    }
  }

  lemma {:induction false} NumZero(b: Block)
    ensures Num(b) == 0 <==> forall k: nat :: k < |b| ==> b[k] == 0
  {
    if b != [] {
      NumZero(b[1..]);
      if Num(b) == 0 { forall k: nat | k < |b| ensures b[k] == 0 { if k > 0 { assert b[1..][k - 1] == 0; } } }
      if forall k: nat :: k < |b| ==> b[k] == 0 { forall k: nat | k < |b[1..]| ensures b[1..][k] == 0 {} }
    }
  }

  lemma AddressFits()
    ensures TOP < Power(WORD)
  {
    assert Power(4) == 0x1_0000_0000 by { assert Power(2) == 0x1_0000; }
    assert Power(8) == 0x100 * (0x100 * (0x100 * (0x100 * Power(4)))) by {
      assert Power(6) == 0x100 * (0x100 * Power(4));
    }
  }

  /** The first byte in memory is the lowest one of the word. */
  lemma LowByteFirst(b: Block)
    requires |b| == 8
    ensures var d := (i: nat) requires i < 8 => b[i] as nat;
            Num(b) == d(0) + 0x100 * d(1) + 0x1_0000 * d(2) + 0x100_0000 * d(3) + 0x1_0000_0000 * d(4)
              + 0x100_0000_0000 * d(5) + 0x1_0000_0000_0000 * d(6) + 0x100_0000_0000_0000 * d(7)
  {
    assert forall i: nat :: i < 8 ==> b[i..] == [b[i]] + b[i + 1..];
    assert Num(b[6..]) == b[6] + 0x100 * Num(b[7..]) && Num(b[7..]) == b[7] + 0x100 * Num(b[8..]);
    assert Num(b[4..]) == b[4] + 0x100 * Num(b[5..]) && Num(b[5..]) == b[5] + 0x100 * Num(b[6..]);
    assert Num(b[2..]) == b[2] + 0x100 * Num(b[3..]) && Num(b[3..]) == b[3] + 0x100 * Num(b[4..]);
    assert b[0..] == b && Num(b) == b[0] + 0x100 * Num(b[1..]) && Num(b[1..]) == b[1] + 0x100 * Num(b[2..]);
  }

  // ----- what the process reads -----

  ghost function Peeks(m: UserMem, s: Space, a: nat, n: nat): (b: Block)
    ensures |b| == n && forall t: nat :: t < n ==> b[t] == Peek(m, s, a + t)
  {
    if n == 0 then [] else Peeks(m, s, a, n - 1) + [Peek(m, s, a + n - 1)]
  }

  ghost function Word(m: UserMem, s: Space, a: nat): nat {
    Num(Peeks(m, s, a, WORD))
  }

  /** A NUL-terminated string is at `p`. */
  ghost predicate Text(m: UserMem, frame: map<nat, nat>, s: Space, p: nat, str: Block) {
    Reads(m, frame, s, p, str + [0]) && forall t: nat :: t < |str| ==> str[t] != 0
  }

  /** An array of pointers to the strings of `list`, ended by a null pointer, is at `a`. */
  ghost predicate Strings(m: UserMem, frame: map<nat, nat>, s: Space, a: nat, list: seq<Block>) {
    && Spans(m, frame, s, a, WORD * (|list| + 1)) && Word(m, s, a + WORD * |list|) == 0
    && forall i: nat :: i < |list| ==>
         Word(m, s, a + WORD * i) != 0 && Text(m, frame, s, Word(m, s, a + WORD * i), list[i])
  }

  /** The array ends with its first null pointer. */
  lemma ArrayUpToZero(m: UserMem, frame: map<nat, nat>, s: Space, a: nat, list: seq<Block>)
    requires Strings(m, frame, s, a, list)
    ensures var b := Peeks(m, s, a, WORD * (|list| + 1)); UpToZero(b, WORD) && Reads(m, frame, s, a, b)
  {
    hide Peek, Text, Spans;
    var b := Peeks(m, s, a, WORD * (|list| + 1));
    NumZero(Peeks(m, s, a + WORD * |list|, WORD));
    forall t: nat | |b| - WORD <= t < |b| ensures b[t] == 0 {
      assert Peeks(m, s, a + WORD * |list|, WORD)[t - WORD * |list|] == b[t];
    }
    assert ZeroRange(b, |b| - WORD, |b|);
    forall t: nat | t % WORD == 0 && t + WORD < |b| ensures !ZeroRange(b, t, t + WORD) {
      var i := t / WORD;
      assert Word(m, s, a + WORD * i) != 0 by { assert i < |list| && list[i] == list[i]; }
      NumZero(Peeks(m, s, a + WORD * i, WORD));
      var k: nat :| k < WORD && Peeks(m, s, a + WORD * i, WORD)[k] != 0;
      assert b[t + k] != 0;
    }
  }

  lemma TextUpToZero(str: Block)
    requires forall t: nat :: t < |str| ==> str[t] != 0
    ensures UpToZero(str + [0], 1)
  {
    forall t: nat | t % 1 == 0 && t + 1 < |str + [0]| ensures !ZeroRange(str + [0], t, t + 1) {
      assert (str + [0])[t] != 0;
    }
  }

  /** The array of pointers and each string, with what ends them, fit the kernel buffers. */
  predicate Buffered(list: seq<Block>) {
    WORD * (|list| + 1) <= BUFFER && forall i: nat :: i < |list| ==> |list[i]| + 1 <= BUFFER
  }

  /** `sys_execve` copies the array and then each string to the kernel, each to a buffer of two
      pages. `fits` is false when a copy would go past its buffer. */
  method FetchStrings(u: UserMemory, s: Space, a: nat, ghost list: seq<Block>) returns (fits: bool, got: seq<Block>)
    requires u.Valid() && Strings(u.m, u.Frames(), s, a, list)
    ensures fits <==> Buffered(list)
    ensures fits ==> got == list
  {
    hide PageAllocator.Valid, Region.Valid, Region.Frames, Backed, AllTrees, Contents, Walk, Peek, UpToZero, Reads;
    hide Spans, Num, Peeks;
    ArrayUpToZero(u.m, u.Frames(), s, a, list);
    ghost var b := Peeks(u.m, s, a, WORD * (|list| + 1));
    got := [];
    var words;
    fits, words := Fetch(u, s, a, WORD, b);
    if !fits { return; }
    var i := 0;
    ArrayWord(u.m, s, a, |list| + 1, 0);
    while Num(words[WORD * i..WORD * i + WORD]) != 0
      invariant 0 <= i <= |list| && got == list[..i] &&
        Num(words[WORD * i..WORD * i + WORD]) == Word(u.m, s, a + WORD * i)
      invariant fits && forall j: nat :: j < i ==> |list[j]| + 1 <= BUFFER
      decreases |list| - i
    {
      assert i < |list|;
      var p := Num(words[WORD * i..WORD * i + WORD]);
      assert Text(u.m, u.Frames(), s, p, list[i]);
      TextUpToZero(list[i]);
      var str;
      fits, str := Fetch(u, s, p, 1, list[i] + [0]);
      if !fits { return; }
      assert str[..|str| - 1] == list[i];
      got := got + [str[..|str| - 1]];
      i := i + 1;
      ArrayWord(u.m, s, a, |list| + 1, i);
    }
    assert i == |list|;
  }

  lemma ArrayWord(m: UserMem, s: Space, a: nat, n: nat, i: nat)
    requires i < n
    ensures var b := Peeks(m, s, a, WORD * n);
            WORD * i + WORD <= |b| && Num(b[WORD * i..WORD * i + WORD]) == Word(m, s, a + WORD * i)
  {
    hide Num, Peek;
    assert Peeks(m, s, a, WORD * n)[WORD * i..WORD * i + WORD] == Peeks(m, s, a + WORD * i, WORD);
  }

  // ----- the layout -----

  /** Where string `j` starts in the string table. */
  function Offset(list: seq<Block>, j: nat): nat
    requires j <= |list|
    decreases j
  {
    if j == 0 then 0 else Offset(list, j - 1) + |list[j - 1]| + 1
  }

  function Size(list: seq<Block>): nat { Offset(list, |list|) }

  lemma {:induction false} OffsetGrows(list: seq<Block>, i: nat, j: nat)
    requires i <= j <= |list|
    ensures Offset(list, i) <= Offset(list, j)
    ensures i < j ==> Offset(list, i) + |list[i]| + 1 <= Offset(list, j)
    decreases j
  {
    if i < j { OffsetGrows(list, i, j - 1); }
  }

  lemma OffsetNext(list: seq<Block>, i: nat)
    requires i < |list|
    ensures Offset(list, i + 1) == Offset(list, i) + |list[i]| + 1
  {
  }

  predicate Aligned(a: nat, n: nat)
    requires n > 0
  {
    a % n == 0
  }

  lemma SlotAligned(a: nat, k: nat)
    requires Aligned(a, WORD)
    ensures Aligned(a + WORD * k, WORD)
  {
  }

  /** Pointer slots at `tsp` and strings at `tab`, apart and in pages the kernel has. */
  ghost predicate Room(m: UserMem, frame: map<nat, nat>, s: Space, list: seq<Block>, tsp: nat, tab: nat) {
    && Aligned(tsp, WORD) && tsp + WORD * (|list| + 1) <= tab && tab + Size(list) <= TOP
    && Spans(m, frame, s, tsp, WORD * (|list| + 1)) && Spans(m, frame, s, tab, Size(list)) && OneToOne(m, s)
    && forall i: nat, t: nat :: i < |list| && t < |list[i]| ==> list[i][t] != 0
  }

  ghost predicate InPlace(m: UserMem, frame: map<nat, nat>, s: Space, list: seq<Block>, j: nat, tsp: nat, tab: nat)
    requires j < |list|
  {
    Word(m, s, tsp + WORD * j) == tab + Offset(list, j) && Text(m, frame, s, tab + Offset(list, j), list[j])
  }

  /** Outside the first `i` slots and strings nothing changed. */
  ghost predicate Aside(m: UserMem, m0: UserMem, s: Space, tsp: nat, slots: nat, tab: nat, size: nat) {
    && OwnBytes(m, m0, s)
    && forall b: nat :: b < TOP && !(tsp <= b < tsp + WORD * slots) && !(tab <= b < tab + size) ==>
         Peek(m, s, b) == Peek(m0, s, b)
  }

  ghost predicate Pushed(m: UserMem, m0: UserMem, frame: map<nat, nat>, s: Space, list: seq<Block>, i: nat, tsp: nat,
                         tab: nat) {
    && i <= |list| && Aside(m, m0, s, tsp, i, tab, Offset(list, i))
    && forall j: nat :: j < i ==> InPlace(m, frame, s, list, j, tsp, tab)
  }

  ghost predicate SamePart(m: UserMem, m0: UserMem, s: Space, a: nat, n: nat) {
    m == m0.(bytes := m.bytes) && forall b: nat :: a <= b < a + n ==> Peek(m, s, b) == Peek(m0, s, b)
  }

  lemma WordSame(m: UserMem, m0: UserMem, s: Space, a: nat)
    requires SamePart(m, m0, s, a, WORD)
    ensures Word(m, s, a) == Word(m0, s, a)
  {
    hide Peek, Num;
    assert Peeks(m, s, a, WORD) == Peeks(m0, s, a, WORD);
  }

  lemma SpansSame(m: UserMem, m0: UserMem, frame: map<nat, nat>, s: Space, a: nat, n: nat)
    requires m == m0.(bytes := m.bytes) && Spans(m0, frame, s, a, n)
    ensures Spans(m, frame, s, a, n)
  {
    hide Walk;
    forall vpn: nat | a / PAGESIZE <= vpn < PageUp(a + n) ensures Seen(m, frame, s, vpn) {
      assert Seen(m0, frame, s, vpn) && Walkupt(m, s, vpn) == Walkupt(m0, s, vpn);
    }
  }

  lemma TextSame(m: UserMem, m0: UserMem, frame: map<nat, nat>, s: Space, p: nat, str: Block)
    requires SamePart(m, m0, s, p, |str| + 1) && Text(m0, frame, s, p, str)
    ensures Text(m, frame, s, p, str)
  {
    hide Peek, Spans;
    SpansSame(m, m0, frame, s, p, |str| + 1);
  }

  lemma WroteWord(m: UserMem, m0: UserMem, s: Space, a: nat, v: nat)
    requires Wrote(m, m0, s, a, Le(v, WORD)) && v <= TOP && a + WORD <= TOP
    ensures Word(m, s, a) == v
  {
    hide Peek, Num, Le, Power;
    AddressFits();
    NumLe(v, WORD);
    assert Peeks(m, s, a, WORD) == Le(v, WORD);
  }

  lemma WroteText(m: UserMem, m0: UserMem, frame: map<nat, nat>, s: Space, p: nat, str: Block)
    requires Wrote(m, m0, s, p, str + [0]) && p + |str| + 1 <= TOP && Spans(m0, frame, s, p, |str| + 1)
    requires forall t: nat :: t < |str| ==> str[t] != 0
    ensures Text(m, frame, s, p, str)
  {
    hide Peek, Spans;
    SpansSame(m, m0, frame, s, p, |str| + 1);
  }

  /** One turn of the loop. */
  lemma PushOne(m0: UserMem, m: UserMem, m1: UserMem, m2: UserMem, frame: map<nat, nat>, s: Space,
                list: seq<Block>, i: nat, tsp: nat, tab: nat)
    requires Room(m0, frame, s, list, tsp, tab) && Pushed(m, m0, frame, s, list, i, tsp, tab) && i < |list|
    requires Wrote(m1, m, s, tsp + WORD * i, Le(tab + Offset(list, i), WORD))
    requires Wrote(m2, m1, s, tab + Offset(list, i), list[i] + [0])
    ensures Pushed(m2, m0, frame, s, list, i + 1, tsp, tab)
  {
    hide Peek, Le, Word, Text, Spans, OneToOne, Offset, Aligned;
    OwnBytesMore(m1, m, m0, s);
    OwnBytesMore(m2, m1, m0, s);
    OffsetNext(list, i);
    OffsetGrows(list, i, |list|);
    OffsetGrows(list, i + 1, |list|);
    var here := tab + Offset(list, i);
    WroteWord(m1, m, s, tsp + WORD * i, here);
    WordSame(m2, m1, s, tsp + WORD * i);
    SpansPart(m0, m1, frame, s, tab, Size(list), here, |list[i]| + 1);
    WroteText(m2, m1, frame, s, here, list[i]);
    forall j: nat | j < i + 1 ensures InPlace(m2, frame, s, list, j, tsp, tab) {
      if j < i {
        assert InPlace(m, frame, s, list, j, tsp, tab);
        OffsetGrows(list, j, i);
        WordSame(m2, m, s, tsp + WORD * j);
        TextSame(m2, m, frame, s, tab + Offset(list, j), list[j]);
      }
    }
  }

  lemma SpansPart(m0: UserMem, m: UserMem, frame: map<nat, nat>, s: Space, a: nat, n: nat, b: nat, k: nat)
    requires Spans(m0, frame, s, a, n) && m == m0.(bytes := m.bytes) && a <= b && b + k <= a + n
    ensures Spans(m, frame, s, b, k)
  {
    SpansSame(m, m0, frame, s, a, n);
    assert PageUp(b + k) <= PageUp(a + n);
  }

  /** All of `list` is pushed, with the null pointer behind it. */
  ghost predicate Complete(m: UserMem, m0: UserMem, frame: map<nat, nat>, s: Space, list: seq<Block>, tsp: nat,
                           tab: nat) {
    && Aside(m, m0, s, tsp, |list| + 1, tab, Size(list)) && Word(m, s, tsp + WORD * |list|) == 0
    && forall j: nat :: j < |list| ==> InPlace(m, frame, s, list, j, tsp, tab)
  }

  lemma PushNull(m0: UserMem, m: UserMem, m1: UserMem, frame: map<nat, nat>, s: Space, list: seq<Block>, tsp: nat,
                 tab: nat)
    requires Room(m0, frame, s, list, tsp, tab) && Pushed(m, m0, frame, s, list, |list|, tsp, tab)
    requires Wrote(m1, m, s, tsp + WORD * |list|, Le(0, WORD))
    ensures Complete(m1, m0, frame, s, list, tsp, tab)
  {
    hide Peek, Le, Word, Text, Spans, OneToOne;
    OwnBytesMore(m1, m, m0, s);
    WroteWord(m1, m, s, tsp + WORD * |list|, 0);
    forall j: nat | j < |list| ensures InPlace(m1, frame, s, list, j, tsp, tab) {
      assert InPlace(m, frame, s, list, j, tsp, tab);
      OffsetGrows(list, j, |list|);
      WordSame(m1, m, s, tsp + WORD * j);
      TextSame(m1, m, frame, s, tab + Offset(list, j), list[j]);
    }
  }

  /** The kernel stores a pointer; a slot never crosses a page. */
  method StoreWord(u: UserMemory, s: Space, page: nat, a: nat, v: nat)
    requires u.Valid() && OneToOne(u.m, s) && Seen(u.m, u.Frames(), s, a / PAGESIZE) && Aligned(a, WORD)
    requires page == Walkupt(u.m, s, a / PAGESIZE)
    modifies u`m
    ensures u.Valid() && u.Frames() == old(u.Frames()) && Wrote(u.m, old(u.m), s, a, Le(v, WORD))
  {
    hide PageAllocator.Valid, Region.Valid, Region.Frames, Backed, AllTrees, Contents, Walk, Walkupt, OneToOne, Wrote;
    hide Le;
    ghost var m := u.m;
    StoreBytes(u, page, a % PAGESIZE, Le(v, WORD));
    PokeWrote(m, u.Frames(), s, a / PAGESIZE, a % PAGESIZE, Le(v, WORD));
  }

  lemma SpansAt(m: UserMem, frame: map<nat, nat>, s: Space, a: nat, n: nat)
    requires Spans(m, frame, s, a, n) && n > 0
    ensures Seen(m, frame, s, a / PAGESIZE)
  {
    hide Seen;
    assert a / PAGESIZE < PageUp(a + n);
  }

  lemma OneToOneSame(m: UserMem, m0: UserMem, s: Space)
    requires OneToOne(m0, s) && m == m0.(bytes := m.bytes)
    ensures OneToOne(m, s)
  {
    hide Walk;
    assert forall v: nat, w: nat :: SameFrame(m, s, v, w) == SameFrame(m0, s, v, w);
  }

  lemma RoomAt(m0: UserMem, m: UserMem, frame: map<nat, nat>, s: Space, list: seq<Block>, i: nat, tsp: nat, tab: nat)
    requires Room(m0, frame, s, list, tsp, tab) && i <= |list| && m == m0.(bytes := m.bytes)
    ensures var a := tsp + WORD * i; Aligned(a, WORD) && Seen(m, frame, s, a / PAGESIZE) && OneToOne(m, s)
    ensures i < |list| ==> Spans(m, frame, s, tab + Offset(list, i), |list[i]| + 1)
  {
    hide OneToOne, Seen, Spans, Aligned;
    var a := tsp + WORD * i;
    SlotAligned(tsp, i);
    SpansPart(m0, m, frame, s, tsp, WORD * (|list| + 1), a, WORD);
    SpansAt(m, frame, s, a, WORD);
    OneToOneSame(m, m0, s);
    if i < |list| {
      OffsetGrows(list, i, |list|);
      SpansPart(m0, m, frame, s, tab, Size(list), tab + Offset(list, i), |list[i]| + 1);
    }
  }

  /** A loop of `sys_execve` over the arguments, or over the environment. `vpn` is the user page
      last looked up and `page` the kernel page behind it. */
  method PushStrings(u: UserMemory, s: Space, list: seq<Block>, sp: nat, strtab: nat, vpn0: nat, page0: nat)
    returns (tsp: nat, tab: nat, vpn: nat, page: nat)
    requires u.Valid() && Room(u.m, u.Frames(), s, list, sp, strtab) && page0 == Walkupt(u.m, s, vpn0)
    modifies u`m
    ensures u.Valid() && u.Frames() == old(u.Frames()) && Complete(u.m, old(u.m), u.Frames(), s, list, sp, strtab)
    ensures tsp == sp + WORD * (|list| + 1) && tab == strtab + Size(list) && page == Walkupt(u.m, s, vpn)
  {
    hide PageAllocator.Valid, Region.Valid, Region.Frames, Backed, AllTrees, Contents, Walk, Walkupt, OneToOne, Le;
    hide Spans, Seen, InPlace, Room, Aligned;
    ghost var m0, frame := u.m, u.Frames();
    tsp, tab, vpn, page := sp, strtab, vpn0, page0;
    for i := 0 to |list| + 1
      invariant u.Valid() && u.Frames() == frame && tsp == sp + WORD * i && u.m == m0.(bytes := u.m.bytes)
      invariant page == Walkupt(u.m, s, vpn)
      invariant i <= |list| ==> Pushed(u.m, m0, frame, s, list, i, sp, strtab) && tab == strtab + Offset(list, i)
      invariant i > |list| ==> Complete(u.m, m0, frame, s, list, sp, strtab) && tab == strtab + Size(list)
    {
      ghost var m := u.m;
      RoomAt(m0, m, frame, s, list, i, sp, strtab);
      if tsp / PAGESIZE != vpn {
        vpn := tsp / PAGESIZE;
        page := Walkupt(u.m, s, vpn);
      }
      if i != |list| {
        StoreWord(u, s, page, tsp, tab);
        ghost var m1 := u.m;
        RoomAt(m0, m1, frame, s, list, i, sp, strtab);
        CopyOut(u, s, list[i] + [0], tab);
        OffsetNext(list, i);
        PushOne(m0, m, m1, u.m, frame, s, list, i, sp, strtab);
        tab := tab + |list[i]| + 1;
      } else {
        StoreWord(u, s, page, tsp, 0);
        PushNull(m0, m, u.m, frame, s, list, sp, strtab);
      }
      WalkuptSame(u.m, m, s, vpn);
      tsp := tsp + WORD;
    }
  }

  lemma WalkuptSame(m: UserMem, m0: UserMem, s: Space, vpn: nat)
    requires m == m0.(bytes := m.bytes)
    ensures Walkupt(m, s, vpn) == Walkupt(m0, s, vpn)
  {
  }

  /** The pointers of `list` are at `tsp` and its strings, one behind the other, at `tab`. */
  ghost predicate Laid(m: UserMem, frame: map<nat, nat>, s: Space, list: seq<Block>, tsp: nat, tab: nat) {
    && Strings(m, frame, s, tsp, list)
    && forall j: nat :: j < |list| ==> Word(m, s, tsp + WORD * j) == tab + Offset(list, j)
  }

  lemma LaidFrom(m: UserMem, frame: map<nat, nat>, s: Space, list: seq<Block>, tsp: nat, tab: nat)
    requires Spans(m, frame, s, tsp, WORD * (|list| + 1)) && tab > 0 && Word(m, s, tsp + WORD * |list|) == 0
    requires forall j: nat :: j < |list| ==> InPlace(m, frame, s, list, j, tsp, tab)
    ensures Laid(m, frame, s, list, tsp, tab)
  {
    hide Word, Text, Spans, Offset;
    forall j: nat | j < |list| ensures Word(m, s, tsp + WORD * j) == tab + Offset(list, j) {
      assert InPlace(m, frame, s, list, j, tsp, tab);
    }
    forall j: nat | j < |list|
      ensures Word(m, s, tsp + WORD * j) != 0 && Text(m, frame, s, Word(m, s, tsp + WORD * j), list[j])
    {
      assert InPlace(m, frame, s, list, j, tsp, tab);
    }
  }

  /** What is pushed stays when something is pushed elsewhere. */
  lemma StaysLaid(m0: UserMem, m1: UserMem, m2: UserMem, frame: map<nat, nat>, s: Space, list: seq<Block>, tsp: nat,
                  tab: nat, tsp2: nat, slots: nat, tab2: nat, size: nat)
    requires Complete(m1, m0, frame, s, list, tsp, tab) && Aside(m2, m1, s, tsp2, slots, tab2, size)
    requires tsp + WORD * (|list| + 1) <= tsp2 && tsp2 + WORD * slots <= tab && tab + Size(list) <= tab2
    requires Spans(m0, frame, s, tsp, WORD * (|list| + 1)) && tab > 0 && tab2 <= TOP
    ensures Laid(m2, frame, s, list, tsp, tab)
  {
    hide Peek, Word, Text, Spans, Offset, Laid;
    WordSame(m2, m1, s, tsp + WORD * |list|);
    SpansSame(m2, m0, frame, s, tsp, WORD * (|list| + 1));
    forall j: nat | j < |list| ensures InPlace(m2, frame, s, list, j, tsp, tab) {
      assert InPlace(m1, frame, s, list, j, tsp, tab);
      OffsetGrows(list, j, |list|);
      WordSame(m2, m1, s, tsp + WORD * j);
      TextSame(m2, m1, frame, s, tab + Offset(list, j), list[j]);
    }
    LaidFrom(m2, frame, s, list, tsp, tab);
  }

  function Rounded(n: nat): nat {
    if n % 16 != 0 then n - n % 16 + 16 else n
  }

  /** `Rounded` gives the least multiple of 16 that is not below `n`. */
  lemma RoundedLeast(n: nat, k: nat)
    ensures n <= Rounded(n) < n + 16 && Rounded(n) % 16 == 0
    ensures n <= k && k % 16 == 0 ==> Rounded(n) <= k
  {
  }

  lemma RoundedUp(n: nat, sp: nat)
    ensures n <= Rounded(n)
    ensures Rounded(n) <= sp && Aligned(sp, 16) ==> Aligned(sp - Rounded(n), 16) && Aligned(sp - Rounded(n), WORD)
  {
  }

  /** The bytes `sys_execve` takes from the stack. */
  function Total(argv: seq<Block>, envp: seq<Block>): nat {
    Rounded((|argv| + |envp| + 2) * WORD + Size(argv) + Size(envp))
  }

  /** What the strings of a list and their terminators take. */
  lemma SizeOf(list: seq<Block>, b: Block)
    ensures Size([]) == 0 && Size(list + [b]) == Size(list) + |b| + 1
  {
    OffsetPrefix(list, [b], |list|);
    assert (list + [b])[|list|] == b;
  }

  lemma {:induction false} OffsetPrefix(list: seq<Block>, more: seq<Block>, j: nat)
    requires j <= |list|
    ensures Offset(list + more, j) == Offset(list, j)
    decreases j
  {
    if j > 0 { OffsetPrefix(list, more, j - 1); }
  }

  /** The arguments of `/bin/ls` without an environment take 32 bytes: three pointers and a
      string of seven characters with its terminator. */
  lemma OneArgument()
    ensures Total([[0x2f, 0x62, 0x69, 0x6e, 0x2f, 0x6c, 0x73]], []) == 32
  {
    var argv: seq<Block> := [[0x2f, 0x62, 0x69, 0x6e, 0x2f, 0x6c, 0x73]];
    assert Offset(argv, 1) == Offset(argv, 0) + |argv[0]| + 1;
  }

  ghost predicate NoZeros(list: seq<Block>) {
    forall i: nat, t: nat :: i < |list| && t < |list[i]| ==> list[i][t] != 0
  }

  lemma Rooms(m: UserMem, frame: map<nat, nat>, s: Space, argv: seq<Block>, envp: seq<Block>, sp: nat)
    requires OneToOne(m, s) && NoZeros(argv) && NoZeros(envp) && Aligned(sp, 16) && sp <= TOP
    requires Total(argv, envp) <= sp && Spans(m, frame, s, sp - Total(argv, envp), Total(argv, envp))
    ensures var tsp := sp - Total(argv, envp); var tab := tsp + (|argv| + |envp| + 2) * WORD;
            && Aligned(tsp, 16) && tab + Size(argv) + Size(envp) <= sp
            && Room(m, frame, s, argv, tsp, tab) && Room(m, frame, s, envp, tsp + WORD * (|argv| + 1), tab + Size(argv))
  {
    hide OneToOne, Spans, Offset, Rounded, Aligned;
    RoundedUp((|argv| + |envp| + 2) * WORD + Size(argv) + Size(envp), sp);
    SlotAligned(sp - Total(argv, envp), |argv| + 1);
    var n := Total(argv, envp);
    var tsp := sp - n;
    var tab := tsp + (|argv| + |envp| + 2) * WORD;
    SpansPart(m, m, frame, s, tsp, n, tsp, WORD * (|argv| + 1));
    SpansPart(m, m, frame, s, tsp, n, tsp + WORD * (|argv| + 1), WORD * (|envp| + 1));
    SpansPart(m, m, frame, s, tsp, n, tab, Size(argv));
    SpansPart(m, m, frame, s, tsp, n, tab + Size(argv), Size(envp));
  }

  lemma RoomSame(m: UserMem, m0: UserMem, frame: map<nat, nat>, s: Space, list: seq<Block>, tsp: nat, tab: nat)
    requires Room(m0, frame, s, list, tsp, tab) && m == m0.(bytes := m.bytes)
    ensures Room(m, frame, s, list, tsp, tab)
  {
    hide OneToOne, Spans;
    SpansSame(m, m0, frame, s, tsp, WORD * (|list| + 1));
    SpansSame(m, m0, frame, s, tab, Size(list));
    OneToOneSame(m, m0, s);
  }

  /** The argument stack. Pointers and strings lie between the new and the old stack pointer, in
      this order and one behind the other, so they do not overlap; the new stack pointer is
      aligned; nothing else changes. */
  method PushArgs(u: UserMemory, s: Space, sp: nat, argv: seq<Block>, envp: seq<Block>)
    returns (x2: nat, x11: nat, x12: nat)
    requires u.Valid() && OneToOne(u.m, s) && NoZeros(argv) && NoZeros(envp) && Aligned(sp, 16) && sp <= TOP
    requires Total(argv, envp) <= sp && Spans(u.m, u.Frames(), s, sp - Total(argv, envp), Total(argv, envp))
    modifies u`m
    ensures u.Valid() && u.Frames() == old(u.Frames())
    ensures Aligned(x2, 16) && x2 == sp - Total(argv, envp) && x11 == x2 && x12 == x11 + WORD * (|argv| + 1)
    ensures var tab := x12 + WORD * (|envp| + 1);
            && Laid(u.m, u.Frames(), s, argv, x11, tab) && Laid(u.m, u.Frames(), s, envp, x12, tab + Size(argv))
            && tab + Size(argv) + Size(envp) <= sp < tab + Size(argv) + Size(envp) + 16
    ensures Aside(u.m, old(u.m), s, sp, 0, x2, sp - x2)
  {
    hide PageAllocator.Valid, Region.Valid, Region.Frames, Backed, AllTrees, Contents, OneToOne, Spans, Room, Complete;
    hide Laid, Walkupt, Offset, Aligned;
    ghost var m0, frame := u.m, u.Frames();
    Rooms(m0, frame, s, argv, envp, sp);
    var total := (|argv| + |envp| + 2) * WORD + Size(argv) + Size(envp);
    RoundedLeast(total, 0);
    if total % 16 != 0 { total := total - total % 16 + 16; }
    x2 := sp - total;
    var tsp := x2;
    var vpn := tsp / PAGESIZE;
    var page := Walkupt(u.m, s, vpn);
    var tab := tsp + (|argv| + |envp| + 2) * WORD;
    x11, x12 := tsp, tsp + (|argv| + 1) * WORD;
    tsp, tab, vpn, page := PushStrings(u, s, argv, tsp, tab, vpn, page);
    ghost var m1 := u.m;
    CompleteAside(m1, m0, frame, s, argv, x11, tab - Size(argv));
    RoomSame(m1, m0, frame, s, envp, tsp, tab);
    tsp, tab, vpn, page := PushStrings(u, s, envp, tsp, tab, vpn, page);
    Both(m0, m1, u.m, frame, s, argv, envp, x2, sp);
  }

  lemma CompleteAside(m: UserMem, m0: UserMem, frame: map<nat, nat>, s: Space, list: seq<Block>, tsp: nat, tab: nat)
    requires Complete(m, m0, frame, s, list, tsp, tab)
    ensures m == m0.(bytes := m.bytes)
  {
  }

  lemma Both(m0: UserMem, m1: UserMem, m2: UserMem, frame: map<nat, nat>, s: Space, argv: seq<Block>, envp: seq<Block>,
             tsp: nat, sp: nat)
    requires var tab := tsp + (|argv| + |envp| + 2) * WORD; var tsp2 := tsp + WORD * (|argv| + 1);
             && Room(m0, frame, s, argv, tsp, tab) && Room(m0, frame, s, envp, tsp2, tab + Size(argv))
             && Complete(m1, m0, frame, s, argv, tsp, tab) && Complete(m2, m1, frame, s, envp, tsp2, tab + Size(argv))
             && tab + Size(argv) + Size(envp) <= sp
    ensures var tab := tsp + (|argv| + |envp| + 2) * WORD; var tsp2 := tsp + WORD * (|argv| + 1);
            && Laid(m2, frame, s, argv, tsp, tab) && Laid(m2, frame, s, envp, tsp2, tab + Size(argv))
            && Aside(m2, m0, s, sp, 0, tsp, sp - tsp)
  {
    hide Peek, Word, Text, Spans, OneToOne, Laid, Offset, InPlace;
    var tab := tsp + (|argv| + |envp| + 2) * WORD;
    var tsp2 := tsp + WORD * (|argv| + 1);
    OwnBytesMore(m2, m1, m0, s);
    StaysLaid(m0, m1, m2, frame, s, argv, tsp, tab, tsp2, |envp| + 1, tab + Size(argv), Size(envp));
    SpansSame(m1, m0, frame, s, tsp2, WORD * (|envp| + 1));
    StaysLaid(m1, m2, m2, frame, s, envp, tsp2, tab + Size(argv), tab, 0, tab + Size(argv) + Size(envp), 0);
  }
}
