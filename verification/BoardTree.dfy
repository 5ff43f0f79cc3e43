/** What the devicetree parser (kernel/fdt.c) reads, said in bytes and numbers: the order of the
    bytes, the names it looks for, the page number of the end of memory, and the answers for a
    board with one processor. */
module BoardTree {
  import opened Paging
  import opened Chunks
  import opened DeviceTree

  /** The tokens of section 5.4.1 of the Devicetree Specification. */
  lemma Tokens()
    ensures Val(Token(BEGIN_NODE)) == 1 && Val(Token(END_NODE)) == 2 && Val(Token(PROP)) == 3
    ensures Val(Token(NOP)) == 4 && Val(Token(END)) == 9
  {
  }

  /** Numbers are stored with the highest byte first. */
  lemma HighByteFirst(words: seq<Word>, i: nat, b: seq<nat>)
    requires i + 1 < |words| && |b| == 8 && forall k :: 0 <= k < 8 ==> b[k] < 0x100
    requires words[i] == Word(b[0], b[1], b[2], b[3]) && words[i + 1] == Word(b[4], b[5], b[6], b[7])
    ensures WordAt(words, i) == 0x100_0000 * b[0] + 0x1_0000 * b[1] + 0x100 * b[2] + b[3]
    ensures LongAt(words, i) ==
      0x100_0000_0000_0000 * b[0] + 0x1_0000_0000_0000 * b[1] + 0x100_0000_0000 * b[2] + 0x1_0000_0000 * b[3]
      + 0x100_0000 * b[4] + 0x1_0000 * b[5] + 0x100 * b[6] + b[7]
  {
    assert Val(words[i]) == 0x100_0000 * b[0] + 0x1_0000 * b[1] + 0x100 * b[2] + b[3];
    assert Val(words[i + 1]) == 0x100_0000 * b[4] + 0x1_0000 * b[5] + 0x100 * b[6] + b[7];
  }

  /** The frame count is the last whole page that ends at or below the end of memory; an end past
      64 bits wraps around. */
  lemma PfnOf(begin: nat, size: nat)
    requires begin < 0x1_0000_0000_0000_0000 && size < 0x1_0000_0000_0000_0000
    ensures var end := if begin + size < 0x1_0000_0000_0000_0000 then begin + size
                       else begin + size - 0x1_0000_0000_0000_0000;
            Pfn(begin, size) * 4096 <= end < (Pfn(begin, size) + 1) * 4096
  {
  }

  /** The C string found at an offset of the strings block is the one stored there. */
  lemma {:induction false} StringBack(strings: seq<byte>, off: nat, text: seq<byte>)
    requires off + |text| < |strings| && strings[off..off + |text|] == text && 0 !in text
    requires strings[off + |text|] == 0
    ensures StringAt(strings, off) == text
    decreases |text|
  {
    if text != [] {
      assert strings[off] == strings[off..off + |text|][0] == text[0] && text[0] in text;
      assert strings[off + 1..off + |text|] == strings[off..off + |text|][1..];
      StringBack(strings, off + 1, text[1..]);
    }
  }

  // ----- names, in bytes -----

  const MEMORY: seq<byte> := [0x6d, 0x65, 0x6d, 0x6f, 0x72, 0x79, 0x40]
  const REG: seq<byte> := [0x72, 0x65, 0x67]
  const CPUS: seq<byte> := [0x63, 0x70, 0x75, 0x73]
  const CPU_MAP: seq<byte> := [0x63, 0x70, 0x75, 0x2d, 0x6d, 0x61, 0x70]
  const CPU: seq<byte> := [0x63, 0x70, 0x75]
  const TIMEBASE: seq<byte> :=
    [0x74, 0x69, 0x6d, 0x65, 0x62, 0x61, 0x73, 0x65, 0x2d, 0x66, 0x72, 0x65, 0x71, 0x75, 0x65, 0x6e, 0x63, 0x79]
  const SOC: seq<byte> := [0x73, 0x6f, 0x63]
  const VIRTIO: seq<byte> := [0x76, 0x69, 0x72, 0x74, 0x69, 0x6f, 0x5f, 0x6d, 0x6d, 0x69, 0x6f, 0x40]

  /** Which properties the kernel takes: `reg` of /memory@*, every `cpu` below /cpus/cpu-map,
      `timebase-frequency` of /cpus and `reg` of /soc/virtio_mmio@*. */
  lemma WhatIsTaken(path: seq<seq<byte>>, prop: seq<byte>)
    ensures IsMemory(path, prop) <==> |path| == 2 && MEMORY <= path[1] && prop == REG
    ensures IsCpu(path, prop) <==> |path| > 2 && path[1] == CPUS && path[2] == CPU_MAP && prop == CPU
    ensures IsClock(path, prop) <==> |path| == 2 && path[1] == CPUS && prop == TIMEBASE
    ensures IsVirtio(path, prop) <==> |path| == 3 && path[1] == SOC && VIRTIO <= path[2] && prop == REG
  {
    NamesInBytes();
  }

  lemma NamesInBytes()
    ensures Ascii("memory@") == MEMORY && Ascii("reg") == REG && Ascii("cpus") == CPUS && Ascii("cpu") == CPU
    ensures Ascii("cpu-map") == CPU_MAP && Ascii("soc") == SOC
    ensures Ascii("timebase-frequency") == TIMEBASE && Ascii("virtio_mmio@") == VIRTIO
  {
  }

  // ----- a board: 128 MiB from 0x80000000, one processor, a 10 MHz clock and one device -----

  /** The strings block: `reg` at 0, `timebase-frequency` at 4 and `cpu` at 23. */
  const STRINGS: seq<byte> := REG + [0] + TIMEBASE + [0] + CPU + [0]

  function Leaf(name: seq<byte>, off: nat, value: seq<Word>): Item
  {
    Child(Node(name, Cons(Property(off, 4 * |value|, value), Nil)))
  }

  const MEMORY_NODE: Item :=
    Leaf(MEMORY + [0x38], 0, [Word(0, 0, 0, 0), Word(0x80, 0, 0, 0), Word(0, 0, 0, 0), Word(8, 0, 0, 0)])

  const CPUS_NODE: Item :=
    Child(Node(CPUS, Cons(Property(4, 4, [Word(0, 0x98, 0x96, 0x80)]),
      Cons(Child(Node(CPU_MAP, Cons(Leaf([0x30], 23, [Word(0, 0, 0, 1)]), Nil))), Nil))))

  const SOC_NODE: Item :=
    Child(Node(SOC, Cons(Leaf(VIRTIO + [0x31], 0, [Word(0, 0, 0, 0), Word(0x10, 0, 0x10, 0)]), Nil)))

  const BOARD: Node := Node([], Cons(MEMORY_NODE, Cons(CPUS_NODE, Cons(SOC_NODE, Nil))))

  const MEMORY_ENTRY: Entry :=
    Entry([[], MEMORY + [0x38]], REG, [Word(0, 0, 0, 0), Word(0x80, 0, 0, 0), Word(0, 0, 0, 0), Word(8, 0, 0, 0)])
  const CLOCK_ENTRY: Entry := Entry([[], CPUS], TIMEBASE, [Word(0, 0x98, 0x96, 0x80)])
  const CPU_ENTRY: Entry := Entry([[], CPUS, CPU_MAP, [0x30]], CPU, [Word(0, 0, 0, 1)])
  const VIRTIO_ENTRY: Entry := Entry([[], SOC, VIRTIO + [0x31]], REG, [Word(0, 0, 0, 0), Word(0x10, 0, 0x10, 0)])

  lemma BoardStrings()
    ensures StringAt(STRINGS, 0) == REG && StringAt(STRINGS, 4) == TIMEBASE && StringAt(STRINGS, 23) == CPU
  {
    assert STRINGS[0..3] == REG && STRINGS[4..22] == TIMEBASE && STRINGS[23..26] == CPU;
    StringBack(STRINGS, 0, REG);
    StringBack(STRINGS, 4, TIMEBASE);
    StringBack(STRINGS, 23, CPU);
  }

  lemma LeafProps(path: seq<seq<byte>>, name: seq<byte>, off: nat, value: seq<Word>)
    ensures PropsOfItem(STRINGS, path, Leaf(name, off, value)) ==
      [Entry(path + [name], StringAt(STRINGS, off), value)]
  {
    hide StringAt;
    var property := Property(off, 4 * |value|, value);
    assert PropsOf(STRINGS, path + [name], Cons(property, Nil)) ==
      PropsOfItem(STRINGS, path + [name], property) + PropsOf(STRINGS, path + [name], Nil);
  }

  lemma OneItem(path: seq<seq<byte>>, item: Item)
    ensures PropsOf(STRINGS, path, Cons(item, Nil)) == PropsOfItem(STRINGS, path, item)
  {
    hide StringAt;
    assert PropsOf(STRINGS, path, Nil) == [];
  }

  lemma SocProps()
    ensures PropsOfItem(STRINGS, [[]], SOC_NODE) == [VIRTIO_ENTRY]
  {
    hide StringAt;
    BoardStrings();
    LeafProps([[], SOC], VIRTIO + [0x31], 0, [Word(0, 0, 0, 0), Word(0x10, 0, 0x10, 0)]);
    assert [[]] + [SOC] == [[], SOC] && [[], SOC] + [VIRTIO + [0x31]] == VIRTIO_ENTRY.path;
    OneItem([[], SOC], SOC_NODE.node.items.head);
  }

  lemma CpusProps()
    ensures PropsOfItem(STRINGS, [[]], CPUS_NODE) == [CLOCK_ENTRY, CPU_ENTRY]
  {
    hide StringAt;
    BoardStrings();
    var clock, cores := CPUS_NODE.node.items.head, CPUS_NODE.node.items.tail.head;
    LeafProps([[], CPUS, CPU_MAP], [0x30], 23, [Word(0, 0, 0, 1)]);
    assert [[]] + [CPUS] == [[], CPUS] && [[], CPUS] + [CPU_MAP] == [[], CPUS, CPU_MAP];
    assert [[], CPUS, CPU_MAP] + [[0x30]] == CPU_ENTRY.path;
    OneItem([[], CPUS, CPU_MAP], cores.node.items.head);
    OneItem([[], CPUS], cores);
    assert PropsOfItem(STRINGS, [[], CPUS], clock) == [CLOCK_ENTRY];
  }

  /** The properties of the board, in the order of the block. */
  lemma BoardProps()
    ensures PropsOf(STRINGS, [[]], BOARD.items) == [MEMORY_ENTRY, CLOCK_ENTRY, CPU_ENTRY, VIRTIO_ENTRY]
  {
    hide StringAt;
    BoardStrings();
    LeafProps([[]], MEMORY + [0x38], 0, MEMORY_ENTRY.value);
    assert [[]] + [MEMORY + [0x38]] == [[], MEMORY + [0x38]];
    CpusProps();
    SocProps();
    OneItem([[]], SOC_NODE);
    assert PropsOf(STRINGS, [[]], Cons(CPUS_NODE, Cons(SOC_NODE, Nil))) == [CLOCK_ENTRY, CPU_ENTRY] + [VIRTIO_ENTRY];
    assert PropsOfItem(STRINGS, [[]], MEMORY_NODE) == [MEMORY_ENTRY];
  }

  lemma BoardTaken()
    ensures IsMemory(MEMORY_ENTRY.path, REG) && IsClock(CLOCK_ENTRY.path, TIMEBASE)
    ensures IsCpu(CPU_ENTRY.path, CPU) && IsVirtio(VIRTIO_ENTRY.path, REG)
    ensures !IsCpu(MEMORY_ENTRY.path, REG) && !IsClock(MEMORY_ENTRY.path, REG) && !IsVirtio(MEMORY_ENTRY.path, REG)
    ensures !IsMemory(CLOCK_ENTRY.path, TIMEBASE) && !IsCpu(CLOCK_ENTRY.path, TIMEBASE)
    ensures !IsVirtio(CLOCK_ENTRY.path, TIMEBASE)
    ensures !IsMemory(CPU_ENTRY.path, CPU) && !IsClock(CPU_ENTRY.path, CPU) && !IsVirtio(CPU_ENTRY.path, CPU)
    ensures !IsMemory(VIRTIO_ENTRY.path, REG) && !IsClock(VIRTIO_ENTRY.path, REG) && !IsCpu(VIRTIO_ENTRY.path, REG)
  {
    WhatIsTaken(MEMORY_ENTRY.path, REG);
    WhatIsTaken(CLOCK_ENTRY.path, TIMEBASE);
    WhatIsTaken(CPU_ENTRY.path, CPU);
    WhatIsTaken(VIRTIO_ENTRY.path, REG);
  }

  /** What one more property changes: a later memory node or clock replaces an earlier one,
      processors are counted and devices collected. */
  lemma FoundMore(found: Found, es: seq<Entry>, e: Entry)
    ensures var f, f' := FoundIn(found, es), FoundIn(found, es + [e]);
            && f'.cpus == f.cpus + (if IsCpu(e.path, e.prop) then 1 else 0)
            && f'.maxPfn == (if IsMemory(e.path, e.prop) then Pfn(LongAt(e.value, 0), LongAt(e.value, 2)) else f.maxPfn)
            && f'.clock == (if IsClock(e.path, e.prop) then WordAt(e.value, 0) else f.clock)
            && f'.virtio == f.virtio + (if IsVirtio(e.path, e.prop) then [LongAt(e.value, 0)] else [])
  {
    hide IsMemory, IsCpu, IsClock, IsVirtio, Pfn, LongAt, WordAt;
    assert (es + [e])[..|es|] == es && (es + [e])[|es|] == e;
    var more := if IsVirtio(e.path, e.prop) then [LongAt(e.value, 0)] else [];
    assert found.virtio + (VirtioOf(es) + more) == found.virtio + VirtioOf(es) + more;
  }

  /** Four properties, one of each kind, and what they say. */
  lemma OneOfEach(a: Entry, b: Entry, c: Entry, d: Entry)
    requires IsMemory(a.path, a.prop) && !IsCpu(a.path, a.prop) && !IsClock(a.path, a.prop) && !IsVirtio(a.path, a.prop)
    requires !IsMemory(b.path, b.prop) && !IsCpu(b.path, b.prop) && IsClock(b.path, b.prop) && !IsVirtio(b.path, b.prop)
    requires !IsMemory(c.path, c.prop) && IsCpu(c.path, c.prop) && !IsClock(c.path, c.prop) && !IsVirtio(c.path, c.prop)
    requires !IsMemory(d.path, d.prop) && !IsCpu(d.path, d.prop) && !IsClock(d.path, d.prop) && IsVirtio(d.path, d.prop)
    ensures FoundIn(Found(0, 0, 0, []), [a, b, c, d]) ==
      Found(1, Pfn(LongAt(a.value, 0), LongAt(a.value, 2)), WordAt(b.value, 0), [LongAt(d.value, 0)])
  {
    hide IsMemory, IsCpu, IsClock, IsVirtio, Pfn, LongAt, WordAt, FoundIn;
    var none := Found(0, 0, 0, []);
    NothingFound(none);
    FoundMore(none, [], a);
    FoundMore(none, [a], b);
    FoundMore(none, [a, b], c);
    FoundMore(none, [a, b, c], d);
    assert [] + [a] == [a] && [a] + [b] == [a, b] && [a, b] + [c] == [a, b, c] && [a, b, c] + [d] == [a, b, c, d];
  }

  lemma NothingFound(found: Found)
    ensures FoundIn(found, []) == found
  {
    assert found.virtio + [] == found.virtio;
  }

  /** One processor, memory up to 0x88000000, 10 MHz and a device at 0x10001000. */
  lemma BoardFound()
    ensures FoundIn(Found(0, 0, 0, []), [MEMORY_ENTRY, CLOCK_ENTRY, CPU_ENTRY, VIRTIO_ENTRY]) ==
      Found(1, 0x88000, 10_000_000, [0x1000_1000])
  {
    hide IsMemory, IsCpu, IsClock, IsVirtio, Pfn, LongAt, WordAt, FoundIn;
    BoardTaken();
    BoardNumbers();
    OneOfEach(MEMORY_ENTRY, CLOCK_ENTRY, CPU_ENTRY, VIRTIO_ENTRY);
  }

  lemma BoardNumbers()
    ensures Pfn(LongAt(MEMORY_ENTRY.value, 0), LongAt(MEMORY_ENTRY.value, 2)) == 0x88000
    ensures WordAt(CLOCK_ENTRY.value, 0) == 10_000_000 && LongAt(VIRTIO_ENTRY.value, 0) == 0x1000_1000
  {
    assert LongAt(MEMORY_ENTRY.value, 0) == 0x8000_0000 && LongAt(MEMORY_ENTRY.value, 2) == 0x800_0000;
  }

  /** The structure block of the board, word by word. */
  const BLOCK: seq<Word> :=
    [Word(0, 0, 0, 1), Word(0, 0, 0, 0)] + MEMORY_BLOCK + CPUS_BLOCK + SOC_BLOCK + [Word(0, 0, 0, 2), Word(0, 0, 0, 9)]

  const MEMORY_BLOCK: seq<Word> :=
    [Word(0, 0, 0, 1), Word(0x6d, 0x65, 0x6d, 0x6f), Word(0x72, 0x79, 0x40, 0x38), Word(0, 0, 0, 0),
     Word(0, 0, 0, 3), Word(0, 0, 0, 16), Word(0, 0, 0, 0),
     Word(0, 0, 0, 0), Word(0x80, 0, 0, 0), Word(0, 0, 0, 0), Word(8, 0, 0, 0),
     Word(0, 0, 0, 2)]

  const CPUS_BLOCK: seq<Word> :=
    [Word(0, 0, 0, 1), Word(0x63, 0x70, 0x75, 0x73), Word(0, 0, 0, 0),
     Word(0, 0, 0, 3), Word(0, 0, 0, 4), Word(0, 0, 0, 4), Word(0, 0x98, 0x96, 0x80),
     Word(0, 0, 0, 1), Word(0x63, 0x70, 0x75, 0x2d), Word(0x6d, 0x61, 0x70, 0),
     Word(0, 0, 0, 1), Word(0x30, 0, 0, 0),
     Word(0, 0, 0, 3), Word(0, 0, 0, 4), Word(0, 0, 0, 23), Word(0, 0, 0, 1),
     Word(0, 0, 0, 2), Word(0, 0, 0, 2), Word(0, 0, 0, 2)]

  const SOC_BLOCK: seq<Word> :=
    [Word(0, 0, 0, 1), Word(0x73, 0x6f, 0x63, 0),
     Word(0, 0, 0, 1), Word(0x76, 0x69, 0x72, 0x74), Word(0x69, 0x6f, 0x5f, 0x6d), Word(0x6d, 0x69, 0x6f, 0x40),
     Word(0x31, 0, 0, 0),
     Word(0, 0, 0, 3), Word(0, 0, 0, 8), Word(0, 0, 0, 0), Word(0, 0, 0, 0), Word(0x10, 0, 0x10, 0),
     Word(0, 0, 0, 2), Word(0, 0, 0, 2)]

  lemma LeafFlat(name: seq<byte>, off: nat, value: seq<Word>)
    ensures FlatItem(Leaf(name, off, value)) ==
      [Token(1)] + NameWords(name) + [Token(3), Number(4 * |value|), Number(off)] + value + [Token(2)]
  {
    hide Number, NameWords;
    var property := Property(off, 4 * |value|, value);
    assert FlatItems(Cons(property, Nil)) == FlatItem(property) + FlatItems(Nil);
  }

  lemma OneFlat(item: Item)
    ensures FlatItems(Cons(item, Nil)) == FlatItem(item)
  {
    assert FlatItems(Nil) == [];
  }

  lemma Small(n: byte)
    ensures Number(n) == Word(0, 0, 0, n)
  {
  }

  lemma FlatMemory()
    ensures FlatItem(MEMORY_NODE) == MEMORY_BLOCK
  {
    hide Number;
    Small(0);
    Small(16);
    var name := MEMORY + [0x38];
    assert name[4..] == [0x72, 0x79, 0x40, 0x38] && name[4..][4..] == [];
    assert NameWords(name[4..]) == [Word(0x72, 0x79, 0x40, 0x38)] + [Word(0, 0, 0, 0)];
    LeafFlat(name, 0, MEMORY_ENTRY.value);
  }

  lemma FlatCores()
    ensures FlatItem(CPUS_NODE.node.items.tail.head) == CPUS_BLOCK[7..18]
  {
    hide Number;
    Small(4);
    Small(23);
    LeafFlat([0x30], 23, CPU_ENTRY.value);
    OneFlat(CPUS_NODE.node.items.tail.head.node.items.head);
    assert CPU_MAP[4..] == [0x6d, 0x61, 0x70];
  }

  lemma FlatCpus()
    ensures FlatItem(CPUS_NODE) == CPUS_BLOCK
  {
    hide Number;
    Small(4);
    var clock, cores := CPUS_NODE.node.items.head, CPUS_NODE.node.items.tail.head;
    FlatCores();
    OneFlat(cores);
    assert FlatItem(clock) == CPUS_BLOCK[3..7];
    assert CPUS[4..] == [];
    assert FlatItems(CPUS_NODE.node.items) == FlatItem(clock) + FlatItem(cores);
  }

  lemma VirtioName()
    ensures NameWords(VIRTIO + [0x31]) == SOC_BLOCK[3..7]
  {
    var name := VIRTIO + [0x31];
    assert name[4..] == [0x69, 0x6f, 0x5f, 0x6d, 0x6d, 0x69, 0x6f, 0x40, 0x31];
    assert name[4..][4..] == [0x6d, 0x69, 0x6f, 0x40, 0x31] && name[4..][4..][4..] == [0x31];
    assert NameWords(name[4..][4..]) == [Word(0x6d, 0x69, 0x6f, 0x40)] + [Word(0x31, 0, 0, 0)];
    assert NameWords(name[4..]) == [Word(0x69, 0x6f, 0x5f, 0x6d)] + NameWords(name[4..][4..]);
  }

  lemma FlatVirtio()
    ensures FlatItem(SOC_NODE.node.items.head) == SOC_BLOCK[2..13]
  {
    hide Number, NameWords;
    Small(0);
    Small(8);
    VirtioName();
    LeafFlat(VIRTIO + [0x31], 0, VIRTIO_ENTRY.value);
  }

  lemma FlatSoc()
    ensures FlatItem(SOC_NODE) == SOC_BLOCK
  {
    FlatVirtio();
    OneFlat(SOC_NODE.node.items.head);
    assert NameWords(SOC) == [Word(0x73, 0x6f, 0x63, 0)];
  }

  lemma FlatBoard()
    ensures Flat(BOARD) + [Token(END)] == BLOCK
  {
    FlatMemory();
    FlatCpus();
    FlatSoc();
    OneFlat(SOC_NODE);
    var tail := Cons(CPUS_NODE, Cons(SOC_NODE, Nil));
    assert FlatItems(tail) == CPUS_BLOCK + SOC_BLOCK && FlatItems(BOARD.items) == MEMORY_BLOCK + FlatItems(tail);
    assert NameWords([]) == [Word(0, 0, 0, 0)];
  }

  /** `parse_dtb` on that block: one processor, memory up to 0x88000000, a clock of 10 MHz and a
      device at 0x10001000. */
  lemma BoardParsed()
    ensures Exec(BLOCK, STRINGS, 0, |BLOCK|, Start()) == Stopped(0, 0, Found(1, 0x88000, 10_000_000, [0x1000_1000]))
  {
    hide Exec, FoundIn, Flat, PropsOf, FormedNode, Sized;
    FlatBoard();
    assert IsBlock(BLOCK, 0, BOARD, 0) by {
      assert BLOCK[0..|BLOCK|] == BLOCK;
      assert Nops(0) + Flat(BOARD) + Nops(0) + [Token(END)] == BLOCK;
    }
    BoardFormed();
    BoardProps();
    BoardSized();
    BoardFound();
    ParsesTree(BLOCK, STRINGS, 0, BOARD, 0);
  }

  lemma LeafFormed(name: seq<byte>, off: nat, value: seq<Word>, levels: nat)
    requires 0 !in name && off < 100 && |value| < 100 && levels > 0
    ensures FormedItem(Leaf(name, off, value), levels)
  {
    var property := Property(off, 4 * |value|, value);
    assert FormedItem(property, levels - 1) && Formed(Nil, levels - 1);
    assert Formed(Cons(property, Nil), levels - 1);
  }

  lemma BoardFormed()
    ensures FormedNode(BOARD, 7)
  {
    LeafFormed(MEMORY + [0x38], 0, MEMORY_ENTRY.value, 7);
    LeafFormed([0x30], 23, CPU_ENTRY.value, 5);
    LeafFormed(VIRTIO + [0x31], 0, VIRTIO_ENTRY.value, 6);
    assert FormedItem(CPUS_NODE, 7) && FormedItem(SOC_NODE, 7) && Formed(Nil, 7);
    assert Formed(Cons(SOC_NODE, Nil), 7) && Formed(Cons(CPUS_NODE, Cons(SOC_NODE, Nil)), 7);
    assert FormedItem(MEMORY_NODE, 7) && Formed(BOARD.items, 7);
  }

  lemma BoardSized()
    ensures Fit(Start().found, [MEMORY_ENTRY, CLOCK_ENTRY, CPU_ENTRY, VIRTIO_ENTRY])
  {
    hide IsMemory, IsCpu, IsClock, IsVirtio;
    BoardTaken();
    BoardFound();
  }
}
