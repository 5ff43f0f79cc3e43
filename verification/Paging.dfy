/** Sv39 page tables as the hardware walks them: section 4.3.2 (address translation) and
    section 4.4 (Sv39) of the RISC-V Privileged Architecture, version 20211203.
    A page table is a frame of 512 entries; memory maps frame numbers to such frames. */
module Paging {

  datatype Option<+T> = None | Some(value: T)

  type byte = x: nat | x < 0x100
  type Block = seq<byte>

  const PAGESIZE := 4096
  const ENTRIES := 512
  /** Page numbers are 27 bits: the walk looks at no other bit of a virtual page number. */
  const PAGES := 0x800_0000

  /** The macro ADDR_2_PAGEUP. */
  function PageUp(addr: nat): nat { addr / PAGESIZE + (if addr % PAGESIZE != 0 then 1 else 0) }

  datatype Flags = Flags(v: bool, r: bool, w: bool, x: bool, u: bool)
  const NONE := Flags(false, false, false, false, false)
  const INTERIOR := Flags(true, false, false, false, false)
  const RW := Flags(true, true, true, false, false)

  /** A page-table entry: frame number in bits 10 and up, flags below. */
  datatype Pte = Pte(pfn: nat, flags: Flags)
  type Memory = map<nat, seq<Pte>>
  datatype Leaf = Leaf(pfn: nat, flags: Flags)

  /** The macro VPN(level, vpn). */
  function Vpn(level: nat, vpn: nat): (i: nat)
    requires level <= 2
    ensures i < ENTRIES
  {
    if level == 2 then (vpn / 0x40000) % 512 else if level == 1 then (vpn / 512) % 512 else vpn % 512
  }

  /** The page whose three indices are i, j, k. */
  function Join(i: nat, j: nat, k: nat): nat { i * 0x40000 + j * 512 + k }

  lemma IndicesOfJoin(i: nat, j: nat, k: nat)
    requires i < ENTRIES && j < ENTRIES && k < ENTRIES
    ensures Join(i, j, k) < PAGES
    ensures Vpn(2, Join(i, j, k)) == i && Vpn(1, Join(i, j, k)) == j && Vpn(0, Join(i, j, k)) == k
  {
    var n := i * 512 + j;
    assert Join(i, j, k) == n * 512 + k;
    assert Join(i, j, k) / 512 == n;
    assert Join(i, j, k) / 0x40000 == n / 512 == i;
  }

  lemma JoinOfIndices(vpn: nat)
    requires vpn < PAGES
    ensures Join(Vpn(2, vpn), Vpn(1, vpn), Vpn(0, vpn)) == vpn
    ensures Vpn(2, vpn) * 0x4_0000 + Vpn(1, vpn) * 0x200 + Vpn(0, vpn) == vpn
    ensures Vpn(2, vpn) < 0x200 && Vpn(1, vpn) < 0x200 && Vpn(0, vpn) < 0x200
  {
    assert vpn / 0x40000 == (vpn / 512) / 512;
  }

  lemma VpnInjective(a: nat, b: nat)
    requires a < PAGES && b < PAGES
    requires Vpn(2, a) == Vpn(2, b) && Vpn(1, a) == Vpn(1, b) && Vpn(0, a) == Vpn(0, b)
    ensures a == b
  {
    JoinOfIndices(a);
    JoinOfIndices(b);
  }

  /** Pages outside the two root entries that map the page table itself. */
  predicate Managed(vpn: nat)
    ensures vpn < PAGES ==> (Managed(vpn) <==> 2 <= Vpn(2, vpn))
  {
    0x8_0000 <= vpn < PAGES
  }

  /** Where a leaf found at `level` maps `vpn`: superpages must be aligned. */
  function LeafAt(level: nat, pte: Pte, vpn: nat): Option<Leaf>
    requires level <= 2
  {
    var span := if level == 2 then 0x40000 else if level == 1 then 512 else 1;
    if pte.pfn % span != 0 then None else Some(Leaf(pte.pfn + vpn % span, pte.flags))
  }

  /** The entry at index `i` of the table in frame `table`; zero outside known tables. */
  function Load(mem: Memory, table: nat, i: nat): Pte
  {
    if table in mem && i < |mem[table]| then mem[table][i] else Pte(0, NONE)
  }

  /** Memory with one entry overwritten. */
  function Store(mem: Memory, table: nat, i: nat, e: Pte): Memory
  {
    if table in mem && i < |mem[table]| then mem[table := mem[table][i := e]] else mem
  }

  lemma StoreStore(mem: Memory, t: nat, i: nat, a: Pte, b: Pte)
    ensures Store(Store(mem, t, i, a), t, i, b) == Store(mem, t, i, b)
  {
    if t in mem && i < |mem[t]| { assert mem[t][i := a][i := b] == mem[t][i := b]; }
  }

  lemma StoreSame(mem: Memory, t: nat, i: nat)
    ensures Store(mem, t, i, Load(mem, t, i)) == mem
  {
    if t in mem && i < |mem[t]| { assert mem[t][i := mem[t][i]] == mem[t]; }
  }

  lemma StoreCommute(mem: Memory, t: nat, i: nat, a: Pte, u: nat, j: nat, b: Pte)
    requires t != u
    ensures Store(Store(mem, t, i, a), u, j, b) == Store(Store(mem, u, j, b), t, i, a)
  {
  }

  lemma StoreBesideNew(mem: Memory, t: nat, i: nat, a: Pte, u: nat, page: seq<Pte>)
    requires t != u
    ensures Store(mem[u := page], t, i, a) == Store(mem, t, i, a)[u := page]
  {
  }

  /** The hardware walk from the table in frame `table`, looking at index `level`. */
  function WalkFrom(mem: Memory, table: nat, level: nat, vpn: nat): Option<Leaf>
    requires level <= 2
    decreases level
  {
    var pte := Load(mem, table, Vpn(level, vpn));
    if !pte.flags.v || (!pte.flags.r && pte.flags.w) then None
    else if pte.flags.r || pte.flags.x then LeafAt(level, pte, vpn)
    else if level == 0 then None
    else WalkFrom(mem, pte.pfn, level - 1, vpn)
  }

  function Walk(mem: Memory, root: nat, vpn: nat): Option<Leaf> { WalkFrom(mem, root, 2, vpn) }

  /** Flags that make an entry a leaf the walk accepts. */
  predicate IsLeaf(f: Flags) { f.v && (f.r || f.x) && (f.w ==> f.r) }

  function EmptyTable(): (t: seq<Pte>)
    ensures |t| == ENTRIES && forall i :: 0 <= i < |t| ==> t[i] == Pte(0, NONE)
  {
    seq(ENTRIES, _ => Pte(0, NONE))
  }
}
