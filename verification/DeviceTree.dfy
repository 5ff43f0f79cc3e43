/** The flattened devicetree parser (kernel/fdt.c): a pushdown machine over 32-bit words. The
    format is section 5.4 of the Devicetree Specification, v0.4. */
module DeviceTree {
  import opened Paging
  import opened Chunks

  /** Four bytes of the structure block, in memory order. */
  datatype Word = Word(b0: byte, b1: byte, b2: byte, b3: byte)

  const BEGIN_NODE := 1
  const END_NODE := 2
  const PROP := 3
  const NOP := 4
  const END := 9
  const LEVELS := 8
  const MAX_VIRTIO := 64

  /** `ntohl` of a word. */
  function Val(w: Word): nat
  {
    var a: nat, b: nat, c: nat, d: nat := w.b0, w.b1, w.b2, w.b3;
    a * 0x100_0000 + b * 0x1_0000 + c * 0x100 + d
  }

  function Token(n: byte): Word { Word(0, 0, 0, n) }

  predicate HasNul(w: Word) { w.b0 == 0 || w.b1 == 0 || w.b2 == 0 || w.b3 == 0 }

  /** The bytes of a word up to its first NUL. */
  function UpToNul(w: Word): seq<byte>
  {
    if w.b0 == 0 then [] else if w.b1 == 0 then [w.b0] else if w.b2 == 0 then [w.b0, w.b1]
    else if w.b3 == 0 then [w.b0, w.b1, w.b2] else [w.b0, w.b1, w.b2, w.b3]
  }

  /** The C string that starts at word `i`. */
  function NameAt(words: seq<Word>, i: nat): seq<byte>
    decreases |words| - i
  {
    if i >= |words| then [] else if HasNul(words[i]) then UpToNul(words[i])
      else UpToNul(words[i]) + NameAt(words, i + 1)
  }

  /** The C string at offset `off` of the strings block. */
  function StringAt(strings: seq<byte>, off: nat): seq<byte>
    decreases |strings| - off
  {
    if off >= |strings| || strings[off] == 0 then [] else [strings[off]] + StringAt(strings, off + 1)
  }

  function Ascii(s: string): seq<byte>
  {
    seq(|s|, i requires 0 <= i < |s| => if s[i] as int < 0x100 then s[i] as int else 0x3f)
  }

  predicate StartsWith(name: seq<byte>, prefix: seq<byte>) { prefix <= name }

  /** What the kernel takes from the tree. */
  datatype Found = Found(cpus: nat, maxPfn: nat, clock: nat, virtio: seq<nat>)

  predicate IsMemory(path: seq<seq<byte>>, prop: seq<byte>)
  {
    |path| == 2 && StartsWith(path[1], Ascii("memory@")) && prop == Ascii("reg")
  }

  predicate IsCpu(path: seq<seq<byte>>, prop: seq<byte>)
  {
    |path| > 2 && path[1] == Ascii("cpus") && path[2] == Ascii("cpu-map") && prop == Ascii("cpu")
  }

  predicate IsClock(path: seq<seq<byte>>, prop: seq<byte>)
  {
    |path| == 2 && path[1] == Ascii("cpus") && prop == Ascii("timebase-frequency")
  }

  predicate IsVirtio(path: seq<seq<byte>>, prop: seq<byte>)
  {
    |path| == 3 && path[1] == Ascii("soc") && StartsWith(path[2], Ascii("virtio_mmio@")) && prop == Ascii("reg")
  }

  datatype Mode = Initial | NodeName | NodeProp | PropLen | PropOff | PropVal

  /** The machine: `levels` holds where the names of the open nodes start. */
  datatype St = St(mode: Mode, indent: nat, left: int, levels: seq<nat>, found: Found)

  /** After a word: still running, stopped with a result, or outside the arrays of the parser. */
  datatype Out = Running(st: St) | Stopped(r: int, indent: nat, found: Found) | Outside

  function WordAt(words: seq<Word>, i: nat): nat { if i < |words| then Val(words[i]) else 0 }

  /** `ntohll` at word `i`. */
  function LongAt(words: seq<Word>, i: nat): nat { WordAt(words, i) * 0x1_0000_0000 + WordAt(words, i + 1) }

  /** The names of the open nodes. */
  function PathOf(words: seq<Word>, st: St): seq<seq<byte>>
  {
    seq(st.indent, k requires 0 <= k < st.indent => if k < |st.levels| then NameAt(words, st.levels[k]) else [])
  }

  function Pfn(begin: nat, size: nat): nat { (begin + size) % 0x1_0000_0000_0000_0000 / PAGESIZE }

  /** The case `propoff`: a property whose value starts at word `at`. */
  function Notice(words: seq<Word>, path: seq<seq<byte>>, prop: seq<byte>, at: nat, found: Found): Found
  {
    var f1 := if IsMemory(path, prop) then found.(maxPfn := Pfn(LongAt(words, at), LongAt(words, at + 2))) else found;
    var f2 := if IsCpu(path, prop) then f1.(cpus := f1.cpus + 1) else f1;
    var f3 := if IsClock(path, prop) then f2.(clock := WordAt(words, at)) else f2;
    if IsVirtio(path, prop) then f3.(virtio := f3.virtio + [LongAt(words, at)]) else f3
  }

  function Open(i: nat, st: St): Out
  {
    if st.indent < LEVELS && |st.levels| == LEVELS then
      Running(st.(mode := NodeName, levels := st.levels[st.indent := i + 1], indent := st.indent + 1))
    else Outside
  }

  /** One iteration of the loop of `parse_dtb`, at word `i`. */
  function Step(words: seq<Word>, strings: seq<byte>, i: nat, st: St): Out
    requires i < |words|
  {
    var input := Val(words[i]);
    match st.mode
    case Initial =>
      if input == NOP then Running(st) else if input == BEGIN_NODE then Open(i, st)
        else Stopped(-1, st.indent, st.found)
    case NodeName =>
      Running(if HasNul(words[i]) then st.(mode := NodeProp) else st)
    case NodeProp =>
      if input == NOP then Running(st)
      else if input == PROP then Running(st.(mode := PropLen))
      else if input == BEGIN_NODE then Open(i, st)
      else if input == END_NODE then if st.indent == 0 then Outside else Running(st.(indent := st.indent - 1))
      else if input == END then Stopped(if st.indent != 0 then -1 else 0, st.indent, st.found)
      else Stopped(-1, st.indent, st.found)
    case PropLen =>
      Running(st.(mode := PropOff, left := if input < 0x8000_0000 then input else input - 0x1_0000_0000))
    case PropOff =>
      var prop, path := StringAt(strings, input), PathOf(words, st);
      if IsVirtio(path, prop) && |st.found.virtio| >= MAX_VIRTIO then Outside
      else Running(st.(mode := if st.left != 0 then PropVal
        else NodeProp, found := Notice(words, path, prop, i + 1, st.found)))
    case PropVal =>
      Running(st.(left := st.left - 4, mode := if st.left - 4 <= 0 then NodeProp else PropVal))
  }

  /** The loop from word `i` to word `end`. */
  function Exec(words: seq<Word>, strings: seq<byte>, i: nat, end: nat, st: St): Out
    requires end <= |words|
    decreases end - i
  {
    if i >= end then Running(st)
    else match Step(words, strings, i, st)
      case Running(st') => Exec(words, strings, i + 1, end, st')
      case out => out
  }

  /** Running on from the middle. */
  lemma {:induction false} ExecSplit(words: seq<Word>, strings: seq<byte>, i: nat, mid: nat, end: nat, st: St)
    requires i <= mid <= end <= |words|
    ensures Exec(words, strings, i, end, st) ==
            match Exec(words, strings, i, mid, st)
            case Running(st') => Exec(words, strings, mid, end, st')
            case out => out
    decreases mid - i
  {
    if i < mid {
      match Step(words, strings, i, st) {
        case Running(st') => ExecSplit(words, strings, i + 1, mid, end, st');
        case _ =>
      }
    }
  }

  function Start(): St { St(Initial, 0, 0, seq(LEVELS, _ => 0), Found(0, 0, 0, [])) }

  /** `parse_dtb`. */
  method ParseDtb(words: seq<Word>, strings: seq<byte>) returns (out: Out)
    ensures out == Exec(words, strings, 0, |words|, Start())
  {
    var st := Start();
    var i := 0;
    while i < |words|
      invariant 0 <= i <= |words| && Exec(words, strings, 0, |words|, Start()) == Exec(words, strings, i, |words|, st)
    {
      var input := Val(words[i]);
      match st.mode {
        case Initial =>
          if input == NOP {
          } else if input == BEGIN_NODE {
            if st.indent >= LEVELS || |st.levels| != LEVELS { return Outside; }
            st := st.(mode := NodeName, levels := st.levels[st.indent := i + 1], indent := st.indent + 1);
          } else {
            return Stopped(-1, st.indent, st.found);
          }
        case NodeName =>
          if HasNul(words[i]) { st := st.(mode := NodeProp); }
        case NodeProp =>
          if input == NOP {
          } else if input == PROP {
            st := st.(mode := PropLen);
          } else if input == BEGIN_NODE {
            if st.indent >= LEVELS || |st.levels| != LEVELS { return Outside; }
            st := st.(mode := NodeName, levels := st.levels[st.indent := i + 1], indent := st.indent + 1);
          } else if input == END_NODE {
            if st.indent == 0 { return Outside; }
            st := st.(indent := st.indent - 1);
          } else if input == END {
            if st.indent != 0 { return Stopped(-1, st.indent, st.found); }
            return Stopped(0, st.indent, st.found);
          } else {
            return Stopped(-1, st.indent, st.found);
          }
        case PropLen =>
          var len: int := input;
          st := st.(mode := PropOff, left := if input < 0x8000_0000 then len else len - 0x1_0000_0000);
        case PropOff =>
          var prop, path := StringAt(strings, input), PathOf(words, st);
          if IsVirtio(path, prop) && |st.found.virtio| >= MAX_VIRTIO { return Outside; }
          var found := Notice(words, path, prop, i + 1, st.found);
          st := st.(mode := if st.left != 0 then PropVal else NodeProp, found := found);
        case PropVal =>
          st := st.(left := st.left - 4);
          if st.left <= 0 { st := st.(mode := NodeProp); }
      }
      i := i + 1;
    }
    out := Running(st);
  }

  /** A devicetree, with the NOPs of its flattened form. */
  datatype Node = Node(name: seq<byte>, items: Items)
  datatype Items = Nil | Cons(head: Item, tail: Items)
  datatype Item = Nop | Property(off: nat, len: nat, value: seq<Word>) | Child(node: Node)

  /** A name with its NUL, padded to words. */
  function NameWords(name: seq<byte>): seq<Word>
  {
    if |name| == 0 then [Word(0, 0, 0, 0)]
    else if |name| == 1 then [Word(name[0], 0, 0, 0)]
    else if |name| == 2 then [Word(name[0], name[1], 0, 0)]
    else if |name| == 3 then [Word(name[0], name[1], name[2], 0)]
    else [Word(name[0], name[1], name[2], name[3])] + NameWords(name[4..])
  }

  function Words(n: nat): nat { (n + 3) / 4 }

  function FlatItem(item: Item): seq<Word>
  {
    match item
    case Nop => [Token(NOP)]
    case Property(off, len, value) => [Token(PROP), Number(len), Number(off)] + value
    case Child(node) => Flat(node)
  }

  function FlatItems(items: Items): seq<Word>
  {
    match items
    case Nil => []
    case Cons(head, tail) => FlatItem(head) + FlatItems(tail)
  }

  /** The structure block of a node. */
  function Flat(node: Node): seq<Word>
  {
    [Token(BEGIN_NODE)] + NameWords(node.name) + FlatItems(node.items) + [Token(END_NODE)]
  }

  /** A 32-bit number, big-endian. */
  function Number(n: nat): Word
  {
    Word(n / 0x100_0000 % 0x100, n / 0x1_0000 % 0x100, n / 0x100 % 0x100, n % 0x100)
  }

  lemma NumberBack(n: nat)
    requires n < 0x1_0000_0000
    ensures Val(Number(n)) == n
  {
    Digits(n);
  }

  lemma TokenVal(n: byte)
    ensures Val(Token(n)) == n
  {
  }

  /** A property with the names of the nodes around it. */
  datatype Entry = Entry(path: seq<seq<byte>>, prop: seq<byte>, value: seq<Word>)

  /** All properties in document order. */
  function PropsOf(strings: seq<byte>, path: seq<seq<byte>>, items: Items): seq<Entry>
    decreases items
  {
    match items
    case Nil => []
    case Cons(head, tail) => PropsOfItem(strings, path, head) + PropsOf(strings, path, tail)
  }

  function PropsOfItem(strings: seq<byte>, path: seq<seq<byte>>, item: Item): seq<Entry>
    decreases item
  {
    match item
    case Nop => []
    case Property(off, _, value) => [Entry(path, StringAt(strings, off), value)]
    case Child(node) => PropsOf(strings, path + [node.name], node.items)
  }

  /** Number of CPUs: the properties `cpu` below /cpus/cpu-map. */
  function Cpus(es: seq<Entry>): nat
  {
    if es == [] then 0 else Cpus(es[..|es| - 1]) + if IsCpu(es[|es| - 1].path, es[|es| - 1].prop) then 1 else 0
  }

  /** End of memory: from the last `reg` of a memory node. */
  function EndOfMemory(es: seq<Entry>, otherwise: nat): nat
  {
    if es == [] then otherwise
    else
      var e := es[|es| - 1];
      if IsMemory(e.path, e.prop) then Pfn(LongAt(e.value, 0), LongAt(e.value, 2))
        else EndOfMemory(es[..|es| - 1], otherwise)
  }

  /** Clock frequency: the last `timebase-frequency` of /cpus. */
  function ClockOf(es: seq<Entry>, otherwise: nat): nat
  {
    if es == [] then otherwise
    else
      var e := es[|es| - 1];
      if IsClock(e.path, e.prop) then WordAt(e.value, 0) else ClockOf(es[..|es| - 1], otherwise)
  }

  /** Addresses of the VirtIO devices, in document order. */
  function VirtioOf(es: seq<Entry>): seq<nat>
  {
    if es == [] then []
    else
      var e := es[|es| - 1];
      VirtioOf(es[..|es| - 1]) + if IsVirtio(e.path, e.prop) then [LongAt(e.value, 0)] else []
  }

  /** What was found before, and then in `es`. */
  function FoundIn(found: Found, es: seq<Entry>): Found
  {
    Found(found.cpus + Cpus(es), EndOfMemory(es, found.maxPfn), ClockOf(es, found.clock), found.virtio + VirtioOf(es))
  }

  lemma {:induction false} FoundThen(found: Found, a: seq<Entry>, b: seq<Entry>)
    ensures FoundIn(FoundIn(found, a), b) == FoundIn(found, a + b)
    decreases |b|
  {
    if b == [] {
      assert a + b == a;
    } else {
      var n := |b| - 1;
      FoundThen(found, a, b[..n]);
      assert (a + b)[..|a + b| - 1] == a + b[..n] && (a + b)[|a + b| - 1] == b[n];
      var x := if IsVirtio(b[n].path, b[n].prop) then [LongAt(b[n].value, 0)] else [];
      assert VirtioOf(b) == VirtioOf(b[..n]) + x && VirtioOf(a + b) == VirtioOf(a + b[..n]) + x;
      assert found.virtio + VirtioOf(a) + (VirtioOf(b[..n]) + x) == (found.virtio + VirtioOf(a) + VirtioOf(b[..n])) + x;
      assert found.virtio + (VirtioOf(a + b[..n]) + x) == (found.virtio + VirtioOf(a + b[..n])) + x;
    }
  }

  /** Large enough values for what the kernel reads of them. */
  predicate Sized(e: Entry)
  {
    && (IsMemory(e.path, e.prop) ==> |e.value| >= 4)
    && (IsClock(e.path, e.prop) ==> |e.value| >= 1)
    && (IsVirtio(e.path, e.prop) ==> |e.value| >= 2)
  }

  /** A well-formed tree: names without NUL, 32-bit lengths and offsets, values of their length,
      depth at most `levels`. */
  predicate Formed(items: Items, levels: nat)
  {
    items.Cons? ==> FormedItem(items.head, levels) && Formed(items.tail, levels)
  }

  predicate FormedItem(item: Item, levels: nat)
  {
    match item
    case Nop => true
    case Property(off, len, value) => off < 0x1_0000_0000 && len < 0x8000_0000 && |value| == Words(len)
    case Child(node) => levels > 0 && FormedNode(node, levels - 1)
  }

  predicate FormedNode(node: Node, levels: nat) { 0 !in node.name && Formed(node.items, levels) }

  /** The words at `i` are `part`. */
  predicate Holds(words: seq<Word>, i: nat, part: seq<Word>) { i + |part| <= |words| && words[i..i + |part|] == part }

  lemma HoldsSplit(words: seq<Word>, i: nat, a: seq<Word>, b: seq<Word>)
    requires Holds(words, i, a + b)
    ensures Holds(words, i, a) && Holds(words, i + |a|, b)
  {
    var s := words[i..i + |a + b|];
    assert words[i..i + |a|] == s[..|a|] == a;
    assert words[i + |a|..i + |a| + |b|] == s[|a|..] == b;
  }

  /** A name in the block is the C string there. */
  lemma {:induction false} NameBack(words: seq<Word>, i: nat, name: seq<byte>)
    requires Holds(words, i, NameWords(name)) && 0 !in name
    ensures NameAt(words, i) == name
    decreases |name|
  {
    assert words[i] == NameWords(name)[0];
    if |name| >= 4 {
      HoldsSplit(words, i, [Word(name[0], name[1], name[2], name[3])], NameWords(name[4..]));
      NameBack(words, i + 1, name[4..]);
      assert name == [name[0], name[1], name[2], name[3]] + name[4..];
      assert name[0] in name && name[1] in name && name[2] in name && name[3] in name;
    } else {
      assert forall k :: 0 <= k < |name| ==> name[k] in name;
    }
  }

  /** Over a name the machine goes from the start of the name to its properties. */
  lemma {:induction false} NameRun(words: seq<Word>, strings: seq<byte>, i: nat, name: seq<byte>, st: St)
    requires Holds(words, i, NameWords(name)) && 0 !in name && st.mode == NodeName
    ensures Exec(words, strings, i, i + |NameWords(name)|, st) == Running(st.(mode := NodeProp))
    decreases |name|
  {
    var end := i + |NameWords(name)|;
    assert words[i] == NameWords(name)[0];
    if |name| >= 4 {
      HoldsSplit(words, i, [Word(name[0], name[1], name[2], name[3])], NameWords(name[4..]));
      assert name[0] in name && name[1] in name && name[2] in name && name[3] in name;
      NameRun(words, strings, i + 1, name[4..], st);
      assert Step(words, strings, i, st) == Running(st);
    } else {
      assert end == i + 1 && Step(words, strings, i, st) == Running(st.(mode := NodeProp));
      assert Exec(words, strings, i + 1, end, st.(mode := NodeProp)) == Running(st.(mode := NodeProp));
    }
  }

  /** Over the words of a value the machine comes back to the properties. */
  lemma {:induction false} ValueRun(words: seq<Word>, strings: seq<byte>, i: nat, st: St)
    requires st.mode == PropVal && st.left > 0 && i + Words(st.left) <= |words|
    ensures Exec(words, strings, i, i + Words(st.left), st) ==
      Running(st.(mode := NodeProp, left := st.left - 4 * Words(st.left)))
    decreases st.left
  {
    var end := i + Words(st.left);
    var st' := st.(left := st.left - 4, mode := if st.left - 4 <= 0 then NodeProp else PropVal);
    assert Step(words, strings, i, st) == Running(st');
    if st.left > 4 {
      ValueRun(words, strings, i + 1, st');
    } else {
      assert end == i + 1 && Exec(words, strings, end, end, st') == Running(st');
    }
  }

  /** The open nodes are those of `path`. */
  ghost predicate Names(words: seq<Word>, st: St, path: seq<seq<byte>>)
  {
    && st.indent == |path| <= LEVELS == |st.levels|
    && forall k: nat {:trigger path[k]} :: k < |path| ==> NameAt(words, st.levels[k]) == path[k]
  }

  lemma PathIs(words: seq<Word>, st: St, path: seq<seq<byte>>)
    requires Names(words, st, path)
    ensures PathOf(words, st) == path
  {
  }

  /** At the properties of the node at `path`, with this found. */
  ghost predicate Reached(out: Out, words: seq<Word>, path: seq<seq<byte>>, found: Found)
  {
    out.Running? && out.st.mode == NodeProp && Names(words, out.st, path) && out.st.found == found
  }

  /** Entries the kernel can take: large enough, and room for their devices. */
  ghost predicate Fit(found: Found, es: seq<Entry>)
  {
    (forall e :: e in es ==> Sized(e)) && |found.virtio| + |VirtioOf(es)| <= MAX_VIRTIO
  }

  lemma FitSplit(found: Found, a: seq<Entry>, b: seq<Entry>)
    requires Fit(found, a + b)
    ensures Fit(found, a) && Fit(FoundIn(found, a), b)
  {
    hide Cpus, EndOfMemory, ClockOf, VirtioOf, Sized;
    FoundThen(found, a, b);
    assert |found.virtio + VirtioOf(a + b)| == |found.virtio + VirtioOf(a) + VirtioOf(b)|;
    forall e | e in a ensures Sized(e) { assert e in a + b; }
    forall e | e in b ensures Sized(e) { assert e in a + b; }
  }

  /** The value the parser reads is that of the entry. */
  lemma NoticeIs(words: seq<Word>, path: seq<seq<byte>>, prop: seq<byte>, value: seq<Word>, at: nat, found: Found)
    requires Holds(words, at, value) && Sized(Entry(path, prop, value))
    ensures Notice(words, path, prop, at, found) == FoundIn(found, [Entry(path, prop, value)])
  {
    hide IsMemory, IsCpu, IsClock, IsVirtio, Val;
    var e := Entry(path, prop, value);
    assert forall k: nat :: k < |value| ==> words[at + k] == value[k];
    assert [e][..0] == [] && [e][|[e]| - 1] == e;
    assert Cpus([e]) == if IsCpu(path, prop) then 1 else 0;
    assert VirtioOf([e]) == if IsVirtio(path, prop) then [LongAt(value, 0)] else [];
    assert EndOfMemory([e], found.maxPfn) == if IsMemory(path, prop) then Pfn(LongAt(value, 0), LongAt(value, 2))
      else found.maxPfn;
    assert ClockOf([e], found.clock) == if IsClock(path, prop) then WordAt(value, 0) else found.clock;
    assert found.virtio + [] == found.virtio;
  }

  /** Over a property. */
  lemma PropertyRun(words: seq<Word>, strings: seq<byte>, i: nat, off: nat, len: nat, value: seq<Word>,
                    path: seq<seq<byte>>, st: St)
    requires Holds(words, i, FlatItem(Property(off, len, value))) && FormedItem(Property(off, len, value), 0)
    requires st.mode == NodeProp && Names(words, st, path) &&
      Fit(st.found, [Entry(path, StringAt(strings, off), value)])
    ensures Reached(Exec(words, strings, i, i + 3 + |value|, st), words, path,
                    FoundIn(st.found, [Entry(path, StringAt(strings, off), value)]))
  {
    hide Notice, IsVirtio, FoundIn, Sized, StringAt, NameAt, Val, Number, Token, Fit;
    var e := Entry(path, StringAt(strings, off), value);
    HoldsSplit(words, i, [Token(PROP), Number(len), Number(off)], value);
    assert words[i..i + 3] == [Token(PROP), Number(len), Number(off)];
    assert words[i] == Token(PROP) && words[i + 1] == Number(len) && words[i + 2] == Number(off);
    TokenVal(PROP);
    NumberBack(len);
    NumberBack(off);
    OneVirtio(st.found, e);
    NoticeIs(words, path, e.prop, value, i + 3, st.found);
    var end := i + 3 + |value|;
    var st1 := st.(mode := PropLen);
    var st2 := st1.(mode := PropOff, left := len);
    PathIs(words, st2, path);
    var st3 := st2.(mode := if len != 0 then PropVal else NodeProp, found := FoundIn(st.found, [e]));
    assert Step(words, strings, i, st) == Running(st1);
    assert Step(words, strings, i + 1, st1) == Running(st2);
    assert Step(words, strings, i + 2, st2) == Running(st3);
    assert Exec(words, strings, i, end, st) == Exec(words, strings, i + 1, end, st1);
    assert Exec(words, strings, i + 1, end, st1) == Exec(words, strings, i + 2, end, st2);
    assert Exec(words, strings, i + 2, end, st2) == Exec(words, strings, i + 3, end, st3);
    if len != 0 {
      ValueRun(words, strings, i + 3, st3);
    } else {
      assert Exec(words, strings, end, end, st3) == Running(st3);
    }
  }

  lemma OneVirtio(found: Found, e: Entry)
    requires Fit(found, [e])
    ensures Sized(e) && (IsVirtio(e.path, e.prop) ==> |found.virtio| < MAX_VIRTIO)
  {
    assert e in [e];
    assert [e][..0] == [] && [e][|[e]| - 1] == e;
    assert VirtioOf([e]) == VirtioOf([]) + if IsVirtio(e.path, e.prop) then [LongAt(e.value, 0)] else [];
  }

  /** Over a node: below it is what its items say, after it the path is as before. */
  lemma {:induction false} NodeRun(words: seq<Word>, strings: seq<byte>, i: nat, node: Node, path: seq<seq<byte>>,
                                   st: St)
    requires Holds(words, i, Flat(node)) && |path| < LEVELS && FormedNode(node, LEVELS - 1 - |path|)
    requires (st.mode == NodeProp || st.mode == Initial) && Names(words, st, path)
    requires Fit(st.found, PropsOf(strings, path + [node.name], node.items))
    ensures Reached(Exec(words, strings, i, i + |Flat(node)|, st), words, path,
                    FoundIn(st.found, PropsOf(strings, path + [node.name], node.items)))
    decreases node
  {
    hide Notice, FoundIn, Fit, NameWords, NameAt, PropsOf, FlatItems;
    var name, body := NameWords(node.name), FlatItems(node.items);
    var at1 := i + 1;
    var at2 := at1 + |name|;
    var at3 := at2 + |body|;
    var path' := path + [node.name];
    NodeHolds(words, i, name, body);
    TokenVal(BEGIN_NODE);
    TokenVal(END_NODE);
    var st1 := st.(mode := NodeName, levels := st.levels[st.indent := i + 1], indent := st.indent + 1);
    assert Step(words, strings, i, st) == Running(st1);
    NameRun(words, strings, at1, node.name, st1);
    NameBack(words, at1, node.name);
    var st2 := st1.(mode := NodeProp);
    assert Names(words, st2, path');
    ItemsRun(words, strings, at2, node.items, path', st2);
    var st3 := Exec(words, strings, at2, at3, st2).st;
    var st4 := st3.(indent := st3.indent - 1);
    assert Step(words, strings, at3, st3) == Running(st4);
    assert Exec(words, strings, at3, at3 + 1, st3) == Exec(words, strings, at3 + 1, at3 + 1, st4) == Running(st4);
    ExecSplit(words, strings, at2, at3, at3 + 1, st2);
    ExecSplit(words, strings, at1, at2, at3 + 1, st1);
    forall k: nat | k < |path| ensures NameAt(words, st4.levels[k]) == path[k] { assert path'[k] == path[k]; }
  }

  lemma NodeHolds(words: seq<Word>, i: nat, name: seq<Word>, body: seq<Word>)
    requires Holds(words, i, [Token(BEGIN_NODE)] + name + body + [Token(END_NODE)])
    ensures words[i] == Token(BEGIN_NODE) && Holds(words, i + 1, name) && Holds(words, i + 1 + |name|, body)
    ensures i + 1 + |name| + |body| < |words| && words[i + 1 + |name| + |body|] == Token(END_NODE)
  {
    HoldsSplit(words, i, [Token(BEGIN_NODE)] + name + body, [Token(END_NODE)]);
    HoldsSplit(words, i, [Token(BEGIN_NODE)] + name, body);
    HoldsSplit(words, i, [Token(BEGIN_NODE)], name);
    assert words[i..i + 1][0] == Token(BEGIN_NODE);
    var e := i + 1 + |name| + |body|;
    assert |[Token(BEGIN_NODE)] + name + body| == 1 + |name| + |body|;
    assert Holds(words, e, [Token(END_NODE)]);
    assert words[e..e + 1][0] == Token(END_NODE);
  }

  lemma {:induction false} ItemRun(words: seq<Word>, strings: seq<byte>, i: nat, item: Item, path: seq<seq<byte>>,
                                   st: St)
    requires Holds(words, i, FlatItem(item)) && |path| <= LEVELS && FormedItem(item, LEVELS - |path|)
    requires st.mode == NodeProp && Names(words, st, path) && Fit(st.found, PropsOfItem(strings, path, item))
    ensures Reached(Exec(words, strings, i, i + |FlatItem(item)|, st), words, path,
      FoundIn(st.found, PropsOfItem(strings, path, item)))
    decreases item
  {
    match item {
      case Nop =>
        assert words[i..i + 1][0] == Token(NOP);
        TokenVal(NOP);
        assert Step(words, strings, i, st) == Running(st);
        assert Exec(words, strings, i, i + 1, st) == Exec(words, strings, i + 1, i + 1, st) == Running(st);
        assert st.found.virtio + [] == st.found.virtio;
      case Property(off, len, value) => PropertyRun(words, strings, i, off, len, value, path, st);
      case Child(node) => NodeRun(words, strings, i, node, path, st);
    }
  }

  lemma {:induction false} ItemsRun(words: seq<Word>, strings: seq<byte>, i: nat, items: Items, path: seq<seq<byte>>,
                                    st: St)
    requires Holds(words, i, FlatItems(items)) && |path| <= LEVELS && Formed(items, LEVELS - |path|)
    requires st.mode == NodeProp && Names(words, st, path) && Fit(st.found, PropsOf(strings, path, items))
    ensures Reached(Exec(words, strings, i, i + |FlatItems(items)|, st), words, path,
      FoundIn(st.found, PropsOf(strings, path, items)))
    decreases items
  {
    match items {
      case Nil =>
        assert st.found.virtio + [] == st.found.virtio;
      case Cons(head, tail) =>
        var a, b := PropsOfItem(strings, path, head), PropsOf(strings, path, tail);
        var mid := i + |FlatItem(head)|;
        HoldsSplit(words, i, FlatItem(head), FlatItems(tail));
        FitSplit(st.found, a, b);
        FoundThen(st.found, a, b);
        ItemRun(words, strings, i, head, path, st);
        var st' := Exec(words, strings, i, mid, st).st;
        ItemsRun(words, strings, mid, tail, path, st');
        ExecSplit(words, strings, i, mid, mid + |FlatItems(tail)|, st);
    }
  }

  function Nops(n: nat): seq<Word> { if n == 0 then [] else [Token(NOP)] + Nops(n - 1) }

  lemma {:induction false} NopsRun(words: seq<Word>, strings: seq<byte>, i: nat, n: nat, st: St)
    requires Holds(words, i, Nops(n)) && (st.mode == Initial || st.mode == NodeProp)
    ensures |Nops(n)| == n && Exec(words, strings, i, i + n, st) == Running(st)
    decreases n
  {
    if n > 0 {
      HoldsSplit(words, i, [Token(NOP)], Nops(n - 1));
      assert words[i..i + 1][0] == Token(NOP);
      TokenVal(NOP);
      NopsRun(words, strings, i + 1, n - 1, st);
      assert Step(words, strings, i, st) == Running(st);
    }
  }

  /** The structure block of a devicetree: NOPs may stand before and after the root, and anything
      after the end. */
  predicate IsBlock(words: seq<Word>, before: nat, root: Node, after: nat)
  {
    Holds(words, 0, Nops(before) + Flat(root) + Nops(after) + [Token(END)])
  }

  /** On every well-formed devicetree of depth at most 8, `parse_dtb` ends at FDT_END with no node
      open, having found exactly what the tree says. */
  lemma ParsesTree(words: seq<Word>, strings: seq<byte>, before: nat, root: Node, after: nat)
    requires IsBlock(words, before, root, after) && FormedNode(root, LEVELS - 1)
    requires Fit(Start().found, PropsOf(strings, [root.name], root.items))
    ensures Exec(words, strings, 0, |words|, Start())
            == Stopped(0, 0, FoundIn(Start().found, PropsOf(strings, [root.name], root.items)))
  {
    hide FoundIn, Fit, PropsOf, Flat, Nops;
    var es := PropsOf(strings, [root.name], root.items);
    HoldsSplit(words, 0, Nops(before) + Flat(root) + Nops(after), [Token(END)]);
    HoldsSplit(words, 0, Nops(before) + Flat(root), Nops(after));
    HoldsSplit(words, 0, Nops(before), Flat(root));
    NopsRun(words, strings, 0, before, Start());
    var at2 := before + |Flat(root)|;
    assert [] + [root.name] == [root.name];
    NodeRun(words, strings, before, root, [], Start());
    var st := Exec(words, strings, before, at2, Start()).st;
    NopsRun(words, strings, at2, after, st);
    var at3 := at2 + after;
    assert words[at3..at3 + 1][0] == Token(END);
    TokenVal(END);
    assert Step(words, strings, at3, st) == Stopped(0, 0, st.found);
    ExecSplit(words, strings, at2, at3, |words|, st);
    ExecSplit(words, strings, before, at2, |words|, Start());
    ExecSplit(words, strings, 0, before, |words|, Start());
  }

  // ----- trees too deep, or with too many devices -----

  /** Nodes below each other. */
  function DepthItems(items: Items): nat
  {
    match items
    case Nil => 0
    case Cons(head, tail) => var a, b := DepthItem(head), DepthItems(tail); if a > b then a else b
  }

  function DepthItem(item: Item): nat { if item.Child? then Depth(item.node) else 0 }

  function Depth(node: Node): nat { 1 + DepthItems(node.items) }

  /** The bound on the depth is the only one that depends on the number of levels. */
  lemma {:induction false} FormedTo(items: Items, n: nat, m: nat)
    requires Formed(items, n) && DepthItems(items) <= m
    ensures Formed(items, m)
    decreases items
  {
    if items.Cons? {
      FormedTo(items.tail, n, m);
      var head := items.head;
      assert FormedItem(head, n) && DepthItem(head) <= m;
      if head.Child? {
        assert FormedNode(head.node, n - 1) && Depth(head.node) <= m;
        FormedTo(head.node.items, n - 1, m - 1);
        assert FormedNode(head.node, m - 1);
      }
      assert FormedItem(head, m);
    }
  }

  /** The arrays of the parser do not hold this: too deep below `path`, or too many devices. */
  predicate Exceeds(found: Found, depth: nat, path: seq<seq<byte>>, es: seq<Entry>)
  {
    |path| + depth > LEVELS || |found.virtio| + |VirtioOf(es)| > MAX_VIRTIO
  }

  ghost predicate AllSized(es: seq<Entry>) { forall e :: e in es ==> Sized(e) }

  /** The first device too many. */
  lemma PropertyOut(words: seq<Word>, strings: seq<byte>, i: nat, off: nat, len: nat, value: seq<Word>,
                    path: seq<seq<byte>>, st: St)
    requires Holds(words, i, FlatItem(Property(off, len, value))) && FormedItem(Property(off, len, value), 0)
    requires st.mode == NodeProp && Names(words, st, path) && |st.found.virtio| <= MAX_VIRTIO
    requires Exceeds(st.found, 0, path, [Entry(path, StringAt(strings, off), value)])
    ensures Exec(words, strings, i, i + 3 + |value|, st) == Outside
  {
    hide Notice, IsVirtio, StringAt, NameAt;
    var e := Entry(path, StringAt(strings, off), value);
    HoldsSplit(words, i, [Token(PROP), Number(len), Number(off)], value);
    assert words[i..i + 3] == [Token(PROP), Number(len), Number(off)];
    assert words[i] == Token(PROP) && words[i + 1] == Number(len) && words[i + 2] == Number(off);
    TokenVal(PROP);
    NumberBack(len);
    NumberBack(off);
    assert [e][..0] == [] && [e][|[e]| - 1] == e;
    assert VirtioOf([e]) == VirtioOf([]) + if IsVirtio(e.path, e.prop) then [LongAt(e.value, 0)] else [];
    var end := i + 3 + |value|;
    var st1 := st.(mode := PropLen);
    var st2 := st1.(mode := PropOff, left := len);
    PathIs(words, st2, path);
    assert Step(words, strings, i, st) == Running(st1);
    assert Step(words, strings, i + 1, st1) == Running(st2);
    assert Step(words, strings, i + 2, st2) == Outside;
    assert Exec(words, strings, i, end, st) == Exec(words, strings, i + 1, end, st1);
    assert Exec(words, strings, i + 1, end, st1) == Exec(words, strings, i + 2, end, st2);
  }

  lemma {:induction false} NodeOut(words: seq<Word>, strings: seq<byte>, i: nat, node: Node, n: nat,
                                   path: seq<seq<byte>>, st: St)
    requires Holds(words, i, Flat(node)) && FormedNode(node, n) &&
      AllSized(PropsOf(strings, path + [node.name], node.items))
    requires (st.mode == NodeProp || st.mode == Initial) && Names(words, st, path) && |st.found.virtio| <= MAX_VIRTIO
    requires Exceeds(st.found, Depth(node), path, PropsOf(strings, path + [node.name], node.items))
    ensures Exec(words, strings, i, i + |Flat(node)|, st) == Outside
    decreases node
  {
    hide Notice, NameWords, NameAt, PropsOf, FlatItems, VirtioOf;
    var name, body := NameWords(node.name), FlatItems(node.items);
    NodeHolds(words, i, name, body);
    TokenVal(BEGIN_NODE);
    if |path| == LEVELS {
      assert Step(words, strings, i, st) == Outside;
    } else {
      var at1 := i + 1;
      var at2 := at1 + |name|;
      var at3 := at2 + |body|;
      var path' := path + [node.name];
      var st1 := st.(mode := NodeName, levels := st.levels[st.indent := i + 1], indent := st.indent + 1);
      assert Step(words, strings, i, st) == Running(st1);
      NameRun(words, strings, at1, node.name, st1);
      NameBack(words, at1, node.name);
      var st2 := st1.(mode := NodeProp);
      assert Names(words, st2, path');
      ItemsOut(words, strings, at2, node.items, n, path', st2);
      ExecSplit(words, strings, at2, at3, at3 + 1, st2);
      ExecSplit(words, strings, at1, at2, at3 + 1, st1);
    }
  }

  lemma {:induction false} ItemOut(words: seq<Word>, strings: seq<byte>, i: nat, item: Item, n: nat,
                                   path: seq<seq<byte>>, st: St)
    requires Holds(words, i, FlatItem(item)) && FormedItem(item, n) && AllSized(PropsOfItem(strings, path, item))
    requires st.mode == NodeProp && Names(words, st, path) && |st.found.virtio| <= MAX_VIRTIO
    requires Exceeds(st.found, DepthItem(item), path, PropsOfItem(strings, path, item))
    ensures Exec(words, strings, i, i + |FlatItem(item)|, st) == Outside
    decreases item
  {
    hide Sized, FoundIn, Exec, NameAt, StringAt, Exceeds, AllSized, VirtioOf, Number, Words, Flat, PropsOf;
    hide Names, Formed;
    match item {
      case Nop =>
        NopFits(words, st, path);
        assert false;
      case Property(off, len, value) => PropertyOut(words, strings, i, off, len, value, path, st);
      case Child(node) => NodeOut(words, strings, i, node, n - 1, path, st);
    }
  }

  lemma {:induction false} ItemsOut(words: seq<Word>, strings: seq<byte>, i: nat, items: Items, n: nat,
                                    path: seq<seq<byte>>, st: St)
    requires Holds(words, i, FlatItems(items)) && Formed(items, n) && AllSized(PropsOf(strings, path, items))
    requires st.mode == NodeProp && Names(words, st, path) && |st.found.virtio| <= MAX_VIRTIO
    requires Exceeds(st.found, DepthItems(items), path, PropsOf(strings, path, items))
    ensures Exec(words, strings, i, i + |FlatItems(items)|, st) == Outside
    decreases items
  {
    hide Sized, FoundIn, Exceeds, Exec, NameAt;
    NotNil(st.found, items, path, PropsOf(strings, path, items));
    var head, tail := items.head, items.tail;
    var a, b := PropsOfItem(strings, path, head), PropsOf(strings, path, tail);
    var mid := i + |FlatItem(head)|;
    HoldsSplit(words, i, FlatItem(head), FlatItems(tail));
    SizedSplit(a, b);
    ExecSplit(words, strings, i, mid, mid + |FlatItems(tail)|, st);
    if Exceeds(st.found, DepthItem(head), path, a) {
      ItemOut(words, strings, i, head, n, path, st);
    } else {
      ExceedsSplit(st.found, DepthItem(head), DepthItems(tail), path, a, b);
      NotExceeded(st.found, DepthItem(head), path, a);
      HeadFormed(head, tail, n, LEVELS - |path|);
      ItemRun(words, strings, i, head, path, st);
      var st' := Exec(words, strings, i, mid, st).st;
      ItemsOut(words, strings, mid, tail, n, path, st');
    }
  }

  lemma NopFits(words: seq<Word>, st: St, path: seq<seq<byte>>)
    requires Names(words, st, path) && |st.found.virtio| <= MAX_VIRTIO
    ensures !Exceeds(st.found, 0, path, [])
  {
  }

  lemma NotNil(found: Found, items: Items, path: seq<seq<byte>>, es: seq<Entry>)
    requires Exceeds(found, DepthItems(items), path, es) && |path| <= LEVELS && |found.virtio| <= MAX_VIRTIO &&
      (items.Nil? ==> es == [])
    ensures items.Cons?
  {
  }

  lemma NotExceeded(found: Found, depth: nat, path: seq<seq<byte>>, es: seq<Entry>)
    requires !Exceeds(found, depth, path, es) && AllSized(es)
    ensures |path| + depth <= LEVELS && Fit(found, es)
  {
  }

  lemma HeadFormed(head: Item, tail: Items, n: nat, m: nat)
    requires Formed(Cons(head, tail), n) && DepthItem(head) <= m
    ensures FormedItem(head, m)
  {
    assert FormedItem(head, n);
    if head.Child? {
      assert FormedNode(head.node, n - 1) && Depth(head.node) <= m;
      FormedTo(head.node.items, n - 1, m - 1);
      assert FormedNode(head.node, m - 1);
    }
  }

  lemma ExceedsSplit(found: Found, depth: nat, other: nat, path: seq<seq<byte>>, a: seq<Entry>, b: seq<Entry>)
    requires Exceeds(found, if depth > other then depth else other, path, a + b) && !Exceeds(found, depth, path, a)
    ensures Exceeds(FoundIn(found, a), other, path, b) && |FoundIn(found, a).virtio| <= MAX_VIRTIO
  {
    hide Cpus, EndOfMemory, ClockOf, VirtioOf;
    FoundThen(found, a, b);
    assert |found.virtio + VirtioOf(a + b)| == |found.virtio + VirtioOf(a) + VirtioOf(b)|;
  }

  lemma SizedSplit(a: seq<Entry>, b: seq<Entry>)
    requires AllSized(a + b)
    ensures AllSized(a) && AllSized(b)
  {
    hide Sized;
    forall e | e in a ensures Sized(e) { assert e in a + b; }
    forall e | e in b ensures Sized(e) { assert e in a + b; }
  }

  /** On every well-formed devicetree, however deep, the parser leaves its arrays if and only if the
      tree is deeper than 8 or has more than 64 of the devices; otherwise it finds what the tree says. */
  lemma ParsesAny(words: seq<Word>, strings: seq<byte>, before: nat, root: Node, after: nat, n: nat)
    requires IsBlock(words, before, root, after) && FormedNode(root, n)
    requires AllSized(PropsOf(strings, [root.name], root.items))
    ensures var es, out := PropsOf(strings, [root.name], root.items), Exec(words, strings, 0, |words|, Start());
            if Depth(root) > LEVELS || |VirtioOf(es)| > MAX_VIRTIO then out == Outside
            else out == Stopped(0, 0, FoundIn(Start().found, es))
  {
    hide FoundIn, PropsOf, Flat, Nops, VirtioOf, Sized;
    var es := PropsOf(strings, [root.name], root.items);
    if Depth(root) > LEVELS || |VirtioOf(es)| > MAX_VIRTIO {
      HoldsSplit(words, 0, Nops(before) + Flat(root) + Nops(after), [Token(END)]);
      HoldsSplit(words, 0, Nops(before) + Flat(root), Nops(after));
      HoldsSplit(words, 0, Nops(before), Flat(root));
      NopsRun(words, strings, 0, before, Start());
      assert [] + [root.name] == [root.name];
      NodeOut(words, strings, before, root, n, [], Start());
      ExecSplit(words, strings, before, before + |Flat(root)|, |words|, Start());
      ExecSplit(words, strings, 0, before, |words|, Start());
    } else {
      FormedTo(root.items, n, LEVELS - 1);
      ParsesTree(words, strings, before, root, after);
    }
  }

  /** The parser on a well-formed devicetree. */
  method ParseTree(words: seq<Word>, strings: seq<byte>, ghost before: nat, ghost root: Node, ghost after: nat)
    returns (cpus: nat, maxPfn: nat, clock: nat, virtio: seq<nat>)
    requires IsBlock(words, before, root, after) && FormedNode(root, LEVELS - 1)
    requires Fit(Start().found, PropsOf(strings, [root.name], root.items))
    ensures var es := PropsOf(strings, [root.name], root.items);
            cpus == Cpus(es) && maxPfn == EndOfMemory(es, 0) && clock == ClockOf(es, 0) && virtio == VirtioOf(es)
  {
    hide PropsOf, Fit, Exec, IsBlock, FormedNode, Cpus, EndOfMemory, ClockOf, VirtioOf;
    ParsesTree(words, strings, before, root, after);
    var out := ParseDtb(words, strings);
    ghost var es := PropsOf(strings, [root.name], root.items);
    assert [] + VirtioOf(es) == VirtioOf(es);
    cpus, maxPfn, clock, virtio := out.found.cpus, out.found.maxPfn, out.found.clock, out.found.virtio;
  }
}
