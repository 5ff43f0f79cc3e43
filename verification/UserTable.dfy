/** A user address space (kernel/pagetable.c, kernel/pagetable.h): the Sv39 table the
    hardware walks, and the shadow of reference arrays the kernel walks (`walkupt`). */
module UserTable {
  import opened Paging

  /** PTReference_2 and PTReference_1: kernel page of the child table (0 for none) and
      kernel page of the child's own reference array. */
  datatype Ref = Ref(table: nat, refs: nat)

  /** ptbase_pfn, ptbase_vpn and ptref_base of a process. */
  datatype Space = Space(pfn: nat, vpn: nat, refs: nat)

  /** Where a page or an array hangs in a space. */
  datatype Place = Base | Mid(i: nat) | Low(i: nat, j: nat) | Page(i: nat, j: nat, k: nat)
  {
    predicate Valid()
    {
      match this
      case Base => true
      case Mid(i) => i < ENTRIES
      case Low(i, j) => i < ENTRIES && j < ENTRIES
      case Page(i, j, k) => i < ENTRIES && j < ENTRIES && k < ENTRIES
    }
  }
  datatype Owner = Owner(id: nat, place: Place)

  /** Memory that address spaces are made of: tables and data by frame, reference arrays
      by kernel page. */
  datatype UserMem = UserMem(tables: Memory, refs: map<nat, seq<Ref>>, leaves: map<nat, seq<nat>>,
                             bytes: map<nat, Block>)

  function RefAt(m: UserMem, a: nat, i: nat): Ref
  {
    if a in m.refs && i < |m.refs[a]| then m.refs[a][i] else Ref(0, 0)
  }

  function MidRef(m: UserMem, s: Space, i: nat): Ref { RefAt(m, s.refs, i) }

  function LowRef(m: UserMem, s: Space, i: nat, j: nat): Ref
  {
    var r := MidRef(m, s, i);
    if r.table == 0 then Ref(0, 0) else RefAt(m, r.refs, j)
  }

  function LeafRef(m: UserMem, s: Space, i: nat, j: nat, k: nat): nat
  {
    var r := LowRef(m, s, i, j);
    if r.table == 0 then 0
    else if r.refs in m.leaves && k < |m.leaves[r.refs]| then m.leaves[r.refs][k] else 0
  }

  /** `walkupt`: the kernel page behind user page `vpn`, 0 if there is none. */
  function Walkupt(m: UserMem, s: Space, vpn: nat): nat
  {
    LeafRef(m, s, Vpn(2, vpn), Vpn(1, vpn), Vpn(0, vpn))
  }

  /** The kernel page at a place of the space, 0 if there is none. */
  function PageAt(m: UserMem, s: Space, p: Place): nat
  {
    match p
    case Base => s.vpn
    case Mid(i) => MidRef(m, s, i).table
    case Low(i, j) => LowRef(m, s, i, j).table
    case Page(i, j, k) => LeafRef(m, s, i, j, k)
  }

  /** The reference array of the table at a place. */
  function RefsAt(m: UserMem, s: Space, p: Place): nat
  {
    match p
    case Base => s.refs
    case Mid(i) => MidRef(m, s, i).refs
    case Low(i, j) => LowRef(m, s, i, j).refs
    case Page(_, _, _) => 0
  }

  predicate OwnedBy(own: map<nat, Owner>, v: nat, id: nat) { v in own && own[v].id == id }

  predicate Has(own: map<nat, Owner>, v: nat, id: nat, p: Place) { v in own && own[v] == Owner(id, p) }

  /** The table at `p` is 512 entries in the frame of its kernel page, with a reference
      array of the same size beside it. */
  ghost predicate TableAt(m: UserMem, frame: map<nat, nat>, own: map<nat, Owner>, kown: map<nat, Owner>,
                          s: Space, id: nat, p: Place)
  {
    var v, a := PageAt(m, s, p), RefsAt(m, s, p);
    && Has(own, v, id, p) && Has(kown, a, id, p) && a != 0
    && v in frame && frame[v] in m.tables && |m.tables[frame[v]]| == ENTRIES
    && (if p.Low? then a in m.leaves && |m.leaves[a]| == ENTRIES else a in m.refs && |m.refs[a]| == ENTRIES)
  }

  function FrameNat(frame: map<nat, nat>, v: nat): nat
  {
    if v in frame then frame[v] else 0
  }

  /** The hardware entry that points to the table at kernel page `v`. */
  function Pointer(frame: map<nat, nat>, v: nat): Pte
  {
    if v == 0 then Pte(0, NONE) else Pte(FrameNat(frame, v), INTERIOR)
  }

  /** The hardware entry at index `i` of the table at kernel page `v`. */
  function Entry(m: UserMem, frame: map<nat, nat>, v: nat, i: nat): Pte { Load(m.tables, FrameNat(frame, v), i) }

  /** The places of `s` that hold a page and the pages owned by `id` are in one-to-one
      correspondence. */
  ghost predicate Shadow(m: UserMem, frame: map<nat, nat>, own: map<nat, Owner>, kown: map<nat, Owner>, s: Space,
                         id: nat)
  {
    && s.vpn != 0
    && (forall p: Place :: p.Valid() && !p.Page? && PageAt(m, s, p) != 0 ==> TableAt(m, frame, own, kown, s, id, p))
    && (forall p: Place :: p.Valid() && p.Page? && PageAt(m, s, p) != 0 ==>
          Has(own, PageAt(m, s, p), id, p) && PageAt(m, s, p) in frame)
    && (forall v {:trigger OwnedBy(own, v, id)} :: OwnedBy(own, v, id) ==>
          own[v].place.Valid() && PageAt(m, s, own[v].place) == v != 0)
    && (forall a {:trigger OwnedBy(kown, a, id)} :: OwnedBy(kown, a, id) ==>
          && kown[a].place.Valid() && !kown[a].place.Page?
          && PageAt(m, s, kown[a].place) != 0 && RefsAt(m, s, kown[a].place) == a)
  }

  /** A leaf entry for a page the kernel sees maps that page's frame. */
  ghost predicate LeafFor(e: Pte, frame: map<nat, nat>, v: nat)
  {
    v != 0 ==> IsLeaf(e.flags) && e.pfn == FrameNat(frame, v)
  }

  /** The hardware table follows the shadow. */
  ghost predicate Hardware(m: UserMem, frame: map<nat, nat>, s: Space)
  {
    && s.pfn == FrameNat(frame, s.vpn)
    && (forall i {:trigger MidRef(m, s, i)} :: 0 <= i < ENTRIES ==>
          Entry(m, frame, s.vpn, i) == Pointer(frame, MidRef(m, s, i).table))
    && (forall i, j {:trigger LowRef(m, s, i, j)} ::
      0 <= i < ENTRIES && 0 <= j < ENTRIES && MidRef(m, s, i).table != 0 ==>
          Entry(m, frame, MidRef(m, s, i).table, j) == Pointer(frame, LowRef(m, s, i, j).table))
    && (forall i, j, k {:trigger LeafRef(m, s, i, j, k)} :: 0 <= i < ENTRIES && 0 <= j < ENTRIES && 0 <= k < ENTRIES ==>
          LeafFor(Entry(m, frame, LowRef(m, s, i, j).table, k), frame, LeafRef(m, s, i, j, k)))
  }

  ghost predicate Tree(m: UserMem, frame: map<nat, nat>, own: map<nat, Owner>, kown: map<nat, Owner>, s: Space, id: nat)
  {
    Shadow(m, frame, own, kown, s, id) && Hardware(m, frame, s)
  }

  ghost predicate Injective(frame: map<nat, nat>)
  {
    forall v, w :: v in frame && w in frame && frame[v] == frame[w] ==> v == w
  }

  /** The hardware walk reaches a last-level table exactly where the shadow has one, and it
      is the same table. */
  lemma WalksAgree(m: UserMem, frame: map<nat, nat>, own: map<nat, Owner>, kown: map<nat, Owner>,
                   s: Space, id: nat, vpn: nat)
    requires Tree(m, frame, own, kown, s, id)
    ensures var low := LowRef(m, s, Vpn(2, vpn), Vpn(1, vpn)).table;
            Walk(m.tables, s.pfn, vpn) ==
              if low == 0 then None
              else
                var e := Entry(m, frame, low, Vpn(0, vpn));
                if IsLeaf(e.flags) then Some(Leaf(e.pfn, e.flags)) else None
    ensures Walkupt(m, s, vpn) != 0 ==>
              && Walk(m.tables, s.pfn, vpn).Some?
              && Walk(m.tables, s.pfn, vpn).value.pfn == FrameNat(frame, Walkupt(m, s, vpn))
  {
    var i, j, k := Vpn(2, vpn), Vpn(1, vpn), Vpn(0, vpn);
    assert Entry(m, frame, s.vpn, i) == Pointer(frame, MidRef(m, s, i).table);
    if MidRef(m, s, i).table != 0 {
      assert Entry(m, frame, MidRef(m, s, i).table, j) == Pointer(frame, LowRef(m, s, i, j).table);
      assert Walk(m.tables, s.pfn, vpn) == WalkFrom(m.tables, FrameNat(frame, MidRef(m, s, i).table), 1, vpn);
    }
  }

  function EmptyRefs(): (r: seq<Ref>)
    ensures |r| == ENTRIES && forall i :: 0 <= i < |r| ==> r[i] == Ref(0, 0)
  {
    seq(ENTRIES, _ => Ref(0, 0))
  }

  function EmptyLeaves(): (r: seq<nat>)
    ensures |r| == ENTRIES && forall i :: 0 <= i < |r| ==> r[i] == 0
  {
    seq(ENTRIES, _ => 0)
  }

  function SetRef(refs: map<nat, seq<Ref>>, a: nat, i: nat, r: Ref): map<nat, seq<Ref>>
  {
    if a in refs && i < |refs[a]| then refs[a := refs[a][i := r]] else refs
  }

  function SetPage(leaves: map<nat, seq<nat>>, a: nat, k: nat, v: nat): map<nat, seq<nat>>
  {
    if a in leaves && k < |leaves[a]| then
      var l: seq<nat> := leaves[a][..k] + [v] + leaves[a][k + 1..];
      leaves[a := l]
    else leaves
  }

  /** A new empty middle table at entry `i`: kernel page `v`, frame `pfn`, array `a`. */
  function AddMid(m: UserMem, s: Space, i: nat, v: nat, pfn: nat, a: nat): UserMem
  {
    m.(tables := Store(m.tables, s.pfn, i, Pte(pfn, INTERIOR))[pfn := EmptyTable()],
       refs := SetRef(m.refs, s.refs, i, Ref(v, a))[a := EmptyRefs()])
  }

  /** A new empty last-level table at entry `j` of the middle table `r` in frame `t`. */
  function AddLow(m: UserMem, t: nat, r: Ref, j: nat, v: nat, pfn: nat, a: nat): UserMem
  {
    m.(tables := Store(m.tables, t, j, Pte(pfn, INTERIOR))[pfn := EmptyTable()],
       refs := SetRef(m.refs, r.refs, j, Ref(v, a)),
       leaves := m.leaves[a := EmptyLeaves()])
  }

  /** Entry `k` of the last-level table `r` in frame `t` and its kernel page. */
  function SetLeaf(m: UserMem, t: nat, r: Ref, k: nat, e: Pte, v: nat): UserMem
  {
    m.(tables := Store(m.tables, t, k, e),
       leaves := SetPage(m.leaves, r.refs, k, v))
  }

  /** A kernel page and an array that no space has yet. */
  ghost predicate Unused(m: UserMem, frame: map<nat, nat>, own: map<nat, Owner>, kown: map<nat, Owner>,
                         v: nat, pfn: nat, a: nat)
  {
    && v != 0 && a != 0 && v !in own && a !in kown
    && v in frame && frame[v] == pfn && pfn !in m.tables && a !in m.refs && a !in m.leaves
    && (forall w :: w in own ==> w in frame && frame[w] != pfn)
  }

  /** The paths of `s` are the same but for what hangs at `p0`. */
  ghost predicate PathsKept(m': UserMem, m: UserMem, s: Space, p0: Place)
  {
    forall p: Place :: p.Valid() && p != p0 ==>
      PageAt(m', s, p) == PageAt(m, s, p) && RefsAt(m', s, p) == RefsAt(m, s, p)
  }

  /** No table or array goes away or changes its length. */
  ghost predicate Grown(m': UserMem, m: UserMem)
  {
    && (forall t :: t in m.tables ==> t in m'.tables && |m'.tables[t]| == |m.tables[t]|)
    && (forall a :: a in m.refs ==> a in m'.refs && |m'.refs[a]| == |m.refs[a]|)
    && (forall a :: a in m.leaves ==> a in m'.leaves && |m'.leaves[a]| == |m.leaves[a]|)
  }

  /** A new empty table at place `p0` keeps the correspondence of places and pages. */
  lemma ShadowGrow(m: UserMem, m': UserMem, frame: map<nat, nat>, own: map<nat, Owner>, kown: map<nat, Owner>,
                   s: Space, id: nat, p0: Place, v: nat, a: nat)
    requires Shadow(m, frame, own, kown, s, id)
    requires p0.Valid() && !p0.Page? && PageAt(m, s, p0) == 0 && v !in own && a !in kown && v != 0 && a != 0
    requires PathsKept(m', m, s, p0) && Grown(m', m)
    requires TableAt(m', frame, own[v := Owner(id, p0)], kown[a := Owner(id, p0)], s, id, p0)
    requires PageAt(m', s, p0) == v && RefsAt(m', s, p0) == a
    ensures Shadow(m', frame, own[v := Owner(id, p0)], kown[a := Owner(id, p0)], s, id)
  {
    var own', kown' := own[v := Owner(id, p0)], kown[a := Owner(id, p0)];
    forall p: Place | p.Valid() && !p.Page? && PageAt(m', s, p) != 0
      ensures TableAt(m', frame, own', kown', s, id, p)
    {
      if p != p0 { assert TableAt(m, frame, own, kown, s, id, p); }
    }
    forall w | OwnedBy(own', w, id) ensures own'[w].place.Valid() && PageAt(m', s, own'[w].place) == w != 0 {
      if w != v { assert OwnedBy(own, w, id); }
    }
    forall b | OwnedBy(kown', b, id)
      ensures kown'[b].place.Valid() && !kown'[b].place.Page?
      ensures PageAt(m', s, kown'[b].place) != 0 && RefsAt(m', s, kown'[b].place) == b
    {
      if b != a { assert OwnedBy(kown, b, id); }
    }
  }

  /** Paths after a new middle table: only entry `i` of the base changes. */
  lemma AddMidPaths(m: UserMem, frame: map<nat, nat>, own: map<nat, Owner>, kown: map<nat, Owner>, s: Space, id: nat,
                    i: nat, v: nat, pfn: nat, a: nat)
    requires Shadow(m, frame, own, kown, s, id) && i < ENTRIES && MidRef(m, s, i).table == 0
    requires Unused(m, frame, own, kown, v, pfn, a)
    ensures PathsKept(AddMid(m, s, i, v, pfn, a), m, s, Mid(i))
    ensures MidRef(AddMid(m, s, i, v, pfn, a), s, i) == Ref(v, a)
  {
    assert TableAt(m, frame, own, kown, s, id, Base);
    var m' := AddMid(m, s, i, v, pfn, a);
    forall x: nat, j: nat | x < ENTRIES ensures LowRef(m', s, x, j) == LowRef(m, s, x, j) {
      if x != i && MidRef(m, s, x).table != 0 {
        assert PageAt(m, s, Mid(x)) != 0 && TableAt(m, frame, own, kown, s, id, Mid(x));
      }
    }
  }

  /** Paths after a new last-level table: only entry `j` of middle table `i` changes. */
  lemma AddLowPaths(m: UserMem, frame: map<nat, nat>, own: map<nat, Owner>, kown: map<nat, Owner>, s: Space, id: nat,
                    i: nat, j: nat, v: nat, pfn: nat, a: nat)
    requires Shadow(m, frame, own, kown, s, id) && i < ENTRIES && j < ENTRIES
    requires MidRef(m, s, i).table != 0 && LowRef(m, s, i, j).table == 0
    requires Unused(m, frame, own, kown, v, pfn, a)
    ensures var r := MidRef(m, s, i);
            var m' := AddLow(m, FrameNat(frame, r.table), r, j, v, pfn, a);
            PathsKept(m', m, s, Low(i, j)) && LowRef(m', s, i, j) == Ref(v, a)
  {
    var r := MidRef(m, s, i);
    var m' := AddLow(m, FrameNat(frame, r.table), r, j, v, pfn, a);
    assert TableAt(m, frame, own, kown, s, id, Base);
    assert PageAt(m, s, Mid(i)) != 0 && TableAt(m, frame, own, kown, s, id, Mid(i));
    forall x: nat ensures MidRef(m', s, x) == MidRef(m, s, x) { }
    forall x: nat, y: nat | x < ENTRIES && (x != i || y != j) ensures LowRef(m', s, x, y) == LowRef(m, s, x, y) {
      if MidRef(m, s, x).table != 0 {
        assert PageAt(m, s, Mid(x)) != 0 && TableAt(m, frame, own, kown, s, id, Mid(x));
      }
    }
    forall x: nat, y: nat, k: nat | x < ENTRIES && y < ENTRIES
      ensures LeafRef(m', s, x, y, k) == LeafRef(m, s, x, y, k) {
      if LowRef(m, s, x, y).table != 0 {
        assert PageAt(m, s, Low(x, y)) != 0 && TableAt(m, frame, own, kown, s, id, Low(x, y));
      }
    }
  }

  /** The tables of `own` keep their entries, but for entry `i0` of the table at `w0`. */
  ghost predicate EntriesKept(m': UserMem, m: UserMem, frame: map<nat, nat>, own: map<nat, Owner>, w0: nat, i0: nat)
  {
    forall w, i :: w in own && 0 <= i < ENTRIES && (w != w0 || i != i0) ==>
      Entry(m', frame, w, i) == Entry(m, frame, w, i)
  }

  /** The entry that points to a table place. */
  function Parent(m: UserMem, s: Space, p: Place): (nat, nat)
    requires p.Mid? || p.Low?
  {
    if p.Mid? then (s.vpn, p.i) else (MidRef(m, s, p.i).table, p.j)
  }

  /** A new empty table at `p0`, pointed to by the entry above it, keeps the hardware table
      following the shadow. */
  lemma HardwareGrow(m: UserMem, m': UserMem, frame: map<nat, nat>, own: map<nat, Owner>, kown: map<nat, Owner>,
                     s: Space, id: nat, p0: Place, v: nat)
    requires Tree(m, frame, own, kown, s, id) && (p0.Mid? || p0.Low?) && p0.Valid()
    requires PageAt(m, s, p0) == 0 && (p0.Low? ==> PageAt(m, s, Mid(p0.i)) != 0)
    requires PathsKept(m', m, s, p0) && PageAt(m', s, p0) == v != 0 && v !in own
    requires EntriesKept(m', m, frame, own, Parent(m, s, p0).0, Parent(m, s, p0).1)
    requires Entry(m', frame, Parent(m, s, p0).0, Parent(m, s, p0).1) == Pointer(frame, v)
    requires forall i :: 0 <= i < ENTRIES ==> Entry(m', frame, v, i) == Pte(0, NONE)
    ensures Hardware(m', frame, s)
  {
    assert TableAt(m, frame, own, kown, s, id, Base);
    forall i | 0 <= i < ENTRIES ensures Entry(m', frame, s.vpn, i) == Pointer(frame, MidRef(m', s, i).table) {
      assert Entry(m, frame, s.vpn, i) == Pointer(frame, MidRef(m, s, i).table);
      assert Mid(i).Valid();
      assert PageAt(m', s, Mid(i)) == MidRef(m', s, i).table;
      if p0.Low? { assert TableAt(m, frame, own, kown, s, id, Mid(p0.i)); }
    }
    forall i, j | 0 <= i < ENTRIES && 0 <= j < ENTRIES && MidRef(m', s, i).table != 0
      ensures Entry(m', frame, MidRef(m', s, i).table, j) == Pointer(frame, LowRef(m', s, i, j).table)
    {
      assert PageAt(m', s, Mid(i)) == MidRef(m', s, i).table;
      assert PageAt(m', s, Low(i, j)) == LowRef(m', s, i, j).table;
      if p0 == Mid(i) {
        assert PageAt(m, s, Low(i, j)) == 0;
      } else {
        assert PageAt(m, s, Mid(i)) != 0 && TableAt(m, frame, own, kown, s, id, Mid(i));
        assert Entry(m, frame, MidRef(m, s, i).table, j) == Pointer(frame, LowRef(m, s, i, j).table);
        if p0.Low? { assert TableAt(m, frame, own, kown, s, id, Mid(p0.i)); }
      }
    }
    forall i, j, k | 0 <= i < ENTRIES && 0 <= j < ENTRIES && 0 <= k < ENTRIES
      ensures LeafFor(Entry(m', frame, LowRef(m', s, i, j).table, k), frame, LeafRef(m', s, i, j, k))
    {
      assert PageAt(m', s, Page(i, j, k)) == PageAt(m, s, Page(i, j, k));
      if LeafRef(m, s, i, j, k) != 0 {
        assert PageAt(m, s, Low(i, j)) != 0 && TableAt(m, frame, own, kown, s, id, Low(i, j));
        assert PageAt(m', s, Low(i, j)) == PageAt(m, s, Low(i, j));
        assert LeafFor(Entry(m, frame, LowRef(m, s, i, j).table, k), frame, LeafRef(m, s, i, j, k));
        if p0.Low? { assert TableAt(m, frame, own, kown, s, id, Mid(p0.i)); }
      }
    }
  }

  lemma AddMidTree(m: UserMem, frame: map<nat, nat>, own: map<nat, Owner>, kown: map<nat, Owner>, s: Space, id: nat,
                   i: nat, v: nat, pfn: nat, a: nat)
    requires Tree(m, frame, own, kown, s, id) && i < ENTRIES && MidRef(m, s, i).table == 0
    requires Unused(m, frame, own, kown, v, pfn, a) && Injective(frame)
    ensures var m' := AddMid(m, s, i, v, pfn, a);
            && Tree(m', frame, own[v := Owner(id, Mid(i))], kown[a := Owner(id, Mid(i))], s, id)
            && PathsKept(m', m, s, Mid(i)) && MidRef(m', s, i) == Ref(v, a)
            && EntriesKept(m', m, frame, own, s.vpn, i) && ViewKept(m', m, s)
  {
    var m' := AddMid(m, s, i, v, pfn, a);
    assert TableAt(m, frame, own, kown, s, id, Base);
    AddMidPaths(m, frame, own, kown, s, id, i, v, pfn, a);
    assert PageAt(m', s, Mid(i)) == v;
    ShadowGrow(m, m', frame, own, kown, s, id, Mid(i), v, a);
    HardwareGrow(m, m', frame, own, kown, s, id, Mid(i), v);
    GrowView(m, m', frame, own, own[v := Owner(id, Mid(i))], kown, kown[a := Owner(id, Mid(i))], s, id, Mid(i), v);
  }

  lemma AddLowTree(m: UserMem, frame: map<nat, nat>, own: map<nat, Owner>, kown: map<nat, Owner>, s: Space, id: nat,
                   i: nat, j: nat, v: nat, pfn: nat, a: nat)
    requires Tree(m, frame, own, kown, s, id) && i < ENTRIES && j < ENTRIES
    requires MidRef(m, s, i).table != 0 && LowRef(m, s, i, j).table == 0
    requires Unused(m, frame, own, kown, v, pfn, a) && Injective(frame)
    ensures var r := MidRef(m, s, i);
            var m' := AddLow(m, FrameNat(frame, r.table), r, j, v, pfn, a);
            && Tree(m', frame, own[v := Owner(id, Low(i, j))], kown[a := Owner(id, Low(i, j))], s, id)
            && PathsKept(m', m, s, Low(i, j)) && LowRef(m', s, i, j) == Ref(v, a)
            && EntriesKept(m', m, frame, own, r.table, j) && ViewKept(m', m, s)
  {
    var r := MidRef(m, s, i);
    var m' := AddLow(m, FrameNat(frame, r.table), r, j, v, pfn, a);
    assert TableAt(m, frame, own, kown, s, id, Base);
    assert PageAt(m, s, Mid(i)) != 0 && TableAt(m, frame, own, kown, s, id, Mid(i));
    AddLowPaths(m, frame, own, kown, s, id, i, j, v, pfn, a);
    assert PageAt(m', s, Low(i, j)) == v;
    ShadowGrow(m, m', frame, own, kown, s, id, Low(i, j), v, a);
    HardwareGrow(m, m', frame, own, kown, s, id, Low(i, j), v);
    GrowView(m, m', frame, own, own[v := Owner(id, Low(i, j))], kown, kown[a := Owner(id, Low(i, j))], s, id, Low(i, j),
      v);
  }

  /** Page `was` leaves its place and page `v` takes it; 0 stands for no page. */
  ghost function Reown(own: map<nat, Owner>, was: nat, v: nat, o: Owner): map<nat, Owner>
  {
    if v == 0 then own - {was} else (own - {was})[v := o]
  }

  lemma SetLeafPaths(m: UserMem, frame: map<nat, nat>, own: map<nat, Owner>, kown: map<nat, Owner>, s: Space, id: nat,
                     i: nat, j: nat, k: nat, e: Pte, v: nat)
    requires Shadow(m, frame, own, kown, s, id) && Page(i, j, k).Valid() && LowRef(m, s, i, j).table != 0
    ensures var r := LowRef(m, s, i, j);
            var m' := SetLeaf(m, FrameNat(frame, r.table), r, k, e, v);
            PathsKept(m', m, s, Page(i, j, k)) && LeafRef(m', s, i, j, k) == v && Grown(m', m)
  {
    var r := LowRef(m, s, i, j);
    var m' := SetLeaf(m, FrameNat(frame, r.table), r, k, e, v);
    assert PageAt(m, s, Low(i, j)) != 0 && TableAt(m, frame, own, kown, s, id, Low(i, j));
    forall x: nat, y: nat ensures LowRef(m', s, x, y) == LowRef(m, s, x, y) { }
    forall x: nat, y: nat, z: nat | Page(x, y, z).Valid() && (x != i || y != j || z != k)
      ensures LeafRef(m', s, x, y, z) == LeafRef(m, s, x, y, z)
    {
      if LowRef(m, s, x, y).table != 0 {
        assert PageAt(m, s, Low(x, y)) != 0 && TableAt(m, frame, own, kown, s, id, Low(x, y));
      }
    }
  }

  ghost predicate AllFramed(own: map<nat, Owner>, frame: map<nat, nat>) { forall w :: w in own ==> w in frame }

  lemma SetLeafShadow(m: UserMem, frame: map<nat, nat>, own: map<nat, Owner>, kown: map<nat, Owner>, s: Space, id: nat,
                      i: nat, j: nat, k: nat, e: Pte, v: nat)
    requires Shadow(m, frame, own, kown, s, id) && Page(i, j, k).Valid() && LowRef(m, s, i, j).table != 0
    requires v != 0 ==> v in frame && (v in own ==> v == LeafRef(m, s, i, j, k))
    ensures var r := LowRef(m, s, i, j);
            Shadow(SetLeaf(m, FrameNat(frame, r.table), r, k, e, v), frame,
                   Reown(own, LeafRef(m, s, i, j, k), v, Owner(id, Page(i, j, k))), kown, s, id)
  {
    var r, was := LowRef(m, s, i, j), LeafRef(m, s, i, j, k);
    var m' := SetLeaf(m, FrameNat(frame, r.table), r, k, e, v);
    var own' := Reown(own, was, v, Owner(id, Page(i, j, k)));
    SetLeafPaths(m, frame, own, kown, s, id, i, j, k, e, v);
    assert PageAt(m', s, Page(i, j, k)) == v && PageAt(m, s, Page(i, j, k)) == was;
    forall p: Place | p.Valid() && !p.Page? && PageAt(m', s, p) != 0
      ensures TableAt(m', frame, own', kown, s, id, p)
    {
      assert TableAt(m, frame, own, kown, s, id, p);
    }
    SetLeafOwned(m, m', frame, own, kown, s, id, Page(i, j, k), v);
  }

  /** The pages owned after one leaf has changed. */
  lemma SetLeafOwned(m: UserMem, m': UserMem, frame: map<nat, nat>, own: map<nat, Owner>, kown: map<nat, Owner>,
                     s: Space, id: nat, p: Place, v: nat)
    requires Shadow(m, frame, own, kown, s, id) && p.Valid() && p.Page?
    requires PathsKept(m', m, s, p) && PageAt(m', s, p) == v
    ensures var own' := Reown(own, PageAt(m, s, p), v, Owner(id, p));
            forall w {:trigger OwnedBy(own', w, id)} :: OwnedBy(own', w, id) ==>
              own'[w].place.Valid() && PageAt(m', s, own'[w].place) == w != 0
  {
    hide PageAt, TableAt, RefsAt;
    var own' := Reown(own, PageAt(m, s, p), v, Owner(id, p));
    forall w | OwnedBy(own', w, id) ensures own'[w].place.Valid() && PageAt(m', s, own'[w].place) == w != 0 {
      if w != v { assert OwnedBy(own, w, id) && own'[w].place != p; }
    }
  }

  lemma SetLeafHardware(m: UserMem, m': UserMem, frame: map<nat, nat>, own: map<nat, Owner>, kown: map<nat, Owner>,
                        s: Space, id: nat, i: nat, j: nat, k: nat, v: nat)
    requires Tree(m, frame, own, kown, s, id) && Page(i, j, k).Valid() && LowRef(m, s, i, j).table != 0
    requires PathsKept(m', m, s, Page(i, j, k)) && LeafRef(m', s, i, j, k) == v
    requires EntriesKept(m', m, frame, own, LowRef(m, s, i, j).table, k)
    requires LeafFor(Entry(m', frame, LowRef(m, s, i, j).table, k), frame, v)
    ensures Hardware(m', frame, s)
  {
    assert PageAt(m, s, Low(i, j)) != 0 && TableAt(m, frame, own, kown, s, id, Low(i, j));
    assert TableAt(m, frame, own, kown, s, id, Base);
    forall x | 0 <= x < ENTRIES ensures Entry(m', frame, s.vpn, x) == Pointer(frame, MidRef(m', s, x).table) {
      assert PageAt(m', s, Mid(x)) == PageAt(m, s, Mid(x));
      assert Entry(m, frame, s.vpn, x) == Pointer(frame, MidRef(m, s, x).table);
    }
    forall x, y | 0 <= x < ENTRIES && 0 <= y < ENTRIES && MidRef(m', s, x).table != 0
      ensures Entry(m', frame, MidRef(m', s, x).table, y) == Pointer(frame, LowRef(m', s, x, y).table)
    {
      assert PageAt(m', s, Mid(x)) == PageAt(m, s, Mid(x)) && PageAt(m', s, Low(x, y)) == PageAt(m, s, Low(x, y));
      assert TableAt(m, frame, own, kown, s, id, Mid(x));
      assert Entry(m, frame, MidRef(m, s, x).table, y) == Pointer(frame, LowRef(m, s, x, y).table);
    }
    forall x, y, z | 0 <= x < ENTRIES && 0 <= y < ENTRIES && 0 <= z < ENTRIES
      ensures LeafFor(Entry(m', frame, LowRef(m', s, x, y).table, z), frame, LeafRef(m', s, x, y, z))
    {
      assert PageAt(m', s, Low(x, y)) == PageAt(m, s, Low(x, y));
      assert LeafFor(Entry(m, frame, LowRef(m, s, x, y).table, z), frame, LeafRef(m, s, x, y, z));
      if LowRef(m, s, x, y).table != 0 {
        assert TableAt(m, frame, own, kown, s, id, Low(x, y));
        assert PageAt(m', s, Page(x, y, z)) == LeafRef(m', s, x, y, z);
        assert PageAt(m, s, Page(x, y, z)) == LeafRef(m, s, x, y, z);
      }
    }
  }

  lemma SetLeafTree(m: UserMem, frame: map<nat, nat>, own: map<nat, Owner>, kown: map<nat, Owner>, s: Space, id: nat,
                    i: nat, j: nat, k: nat, e: Pte, v: nat)
    requires Tree(m, frame, own, kown, s, id) && Injective(frame) && AllFramed(own, frame)
    requires Page(i, j, k).Valid() && LowRef(m, s, i, j).table != 0
    requires v != 0 ==> v in frame && frame[v] == e.pfn && IsLeaf(e.flags) && (v in own ==> v == LeafRef(m, s, i, j, k))
    ensures var r := LowRef(m, s, i, j);
            var m' := SetLeaf(m, FrameNat(frame, r.table), r, k, e, v);
            && Tree(m', frame, Reown(own, LeafRef(m, s, i, j, k), v, Owner(id, Page(i, j, k))), kown, s, id)
            && PathsKept(m', m, s, Page(i, j, k)) && LeafRef(m', s, i, j, k) == v
            && EntriesKept(m', m, frame, own, r.table, k) && Entry(m', frame, r.table, k) == e
  {
    var r := LowRef(m, s, i, j);
    var m' := SetLeaf(m, FrameNat(frame, r.table), r, k, e, v);
    SetLeafPaths(m, frame, own, kown, s, id, i, j, k, e, v);
    SetLeafShadow(m, frame, own, kown, s, id, i, j, k, e, v);
    assert EntriesKept(m', m, frame, own, r.table, k) && Entry(m', frame, r.table, k) == e by {
      assert PageAt(m, s, Low(i, j)) != 0 && TableAt(m, frame, own, kown, s, id, Low(i, j));
    }
    SetLeafHardware(m, m', frame, own, kown, s, id, i, j, k, v);
  }

  /** The tables and arrays of space `id` are the same in both memories. */
  ghost predicate SameFor(m': UserMem, m: UserMem, frame: map<nat, nat>, own: map<nat, Owner>, kown: map<nat, Owner>,
                          id: nat)
  {
    && (forall v :: v in own && own[v].id == id && v in frame && frame[v] in m.tables ==>
          frame[v] in m'.tables && m'.tables[frame[v]] == m.tables[frame[v]])
    && (forall a :: a in kown && kown[a].id == id ==>
          && (a in m.refs ==> a in m'.refs && m'.refs[a] == m.refs[a])
          && (a in m.leaves ==> a in m'.leaves && m'.leaves[a] == m.leaves[a]))
  }

  /** Space `id` owns the same pages in both maps. */
  ghost predicate SameOwner(own': map<nat, Owner>, own: map<nat, Owner>, id: nat)
  {
    forall v :: (v in own && own[v].id == id ==> v in own' && own'[v] == own[v])
      && (v in own' && own'[v].id == id ==> v in own && own'[v] == own[v])
  }

  ghost predicate Extended(frame': map<nat, nat>, frame: map<nat, nat>)
  {
    forall v :: v in frame ==> v in frame' && frame'[v] == frame[v]
  }

  ghost predicate AllPathsKept(m': UserMem, m: UserMem, s: Space)
  {
    forall p: Place :: p.Valid() ==> PageAt(m', s, p) == PageAt(m, s, p) && RefsAt(m', s, p) == RefsAt(m, s, p)
  }

  lemma PathsSame(m: UserMem, m': UserMem, frame: map<nat, nat>, own: map<nat, Owner>, kown: map<nat, Owner>,
                  s: Space, id: nat)
    requires Shadow(m, frame, own, kown, s, id) && SameFor(m', m, frame, own, kown, id)
    ensures AllPathsKept(m', m, s)
  {
    assert TableAt(m, frame, own, kown, s, id, Base);
    forall i: nat, j: nat | i < ENTRIES ensures LowRef(m', s, i, j) == LowRef(m, s, i, j) {
      if MidRef(m, s, i).table != 0 { assert PageAt(m, s, Mid(i)) != 0 && TableAt(m, frame, own, kown, s, id, Mid(i)); }
    }
    forall i: nat, j: nat, k: nat | i < ENTRIES && j < ENTRIES
      ensures LeafRef(m', s, i, j, k) == LeafRef(m, s, i, j, k) {
      if LowRef(m, s, i, j).table != 0 {
        assert PageAt(m, s, Low(i, j)) != 0 && TableAt(m, frame, own, kown, s, id, Low(i, j));
      }
    }
  }

  /** A space is not affected by what happens to the others. */
  lemma TreeKept(m: UserMem, m': UserMem, frame: map<nat, nat>, frame': map<nat, nat>,
                 own: map<nat, Owner>, own': map<nat, Owner>, kown: map<nat, Owner>, kown': map<nat, Owner>,
                 s: Space, id: nat)
    requires Tree(m, frame, own, kown, s, id)
    requires SameFor(m', m, frame, own, kown, id) && SameOwner(own', own, id) && SameOwner(kown', kown, id)
    requires Extended(frame', frame)
    ensures Tree(m', frame', own', kown', s, id) && AllPathsKept(m', m, s)
    ensures forall v, i :: OwnedBy(own, v, id) && !own[v].place.Page? && 0 <= i < ENTRIES ==>
      Entry(m', frame', v, i) == Entry(m, frame, v, i)
  {
    PathsSame(m, m', frame, own, kown, s, id);
    assert TableAt(m, frame, own, kown, s, id, Base);
    forall i | 0 <= i < ENTRIES ensures Entry(m', frame', s.vpn, i) == Pointer(frame', MidRef(m', s, i).table) {
      assert PageAt(m', s, Mid(i)) == PageAt(m, s, Mid(i));
      assert Entry(m, frame, s.vpn, i) == Pointer(frame, MidRef(m, s, i).table);
      if MidRef(m, s, i).table != 0 { assert TableAt(m, frame, own, kown, s, id, Mid(i)); }
    }
    forall i, j | 0 <= i < ENTRIES && 0 <= j < ENTRIES && MidRef(m', s, i).table != 0
      ensures Entry(m', frame', MidRef(m', s, i).table, j) == Pointer(frame', LowRef(m', s, i, j).table)
    {
      assert PageAt(m', s, Mid(i)) == PageAt(m, s, Mid(i)) && PageAt(m', s, Low(i, j)) == PageAt(m, s, Low(i, j));
      assert TableAt(m, frame, own, kown, s, id, Mid(i));
      assert Entry(m, frame, MidRef(m, s, i).table, j) == Pointer(frame, LowRef(m, s, i, j).table);
      if LowRef(m, s, i, j).table != 0 { assert TableAt(m, frame, own, kown, s, id, Low(i, j)); }
    }
    forall i, j, k | 0 <= i < ENTRIES && 0 <= j < ENTRIES && 0 <= k < ENTRIES
      ensures LeafFor(Entry(m', frame', LowRef(m', s, i, j).table, k), frame', LeafRef(m', s, i, j, k))
    {
      assert PageAt(m', s, Low(i, j)) == PageAt(m, s, Low(i, j)) &&
        PageAt(m', s, Page(i, j, k)) == PageAt(m, s, Page(i, j, k));
      assert LeafFor(Entry(m, frame, LowRef(m, s, i, j).table, k), frame, LeafRef(m, s, i, j, k));
      if LeafRef(m, s, i, j, k) != 0 { assert TableAt(m, frame, own, kown, s, id, Low(i, j)); }
    }
    forall p: Place | p.Valid() && !p.Page? && PageAt(m', s, p) != 0
      ensures TableAt(m', frame', own', kown', s, id, p)
    {
      assert TableAt(m, frame, own, kown, s, id, p);
    }
    assert forall v :: OwnedBy(own', v, id) ==> OwnedBy(own, v, id);
    assert forall a :: OwnedBy(kown', a, id) ==> OwnedBy(kown, a, id);
    forall v, i | OwnedBy(own, v, id) && !own[v].place.Page? && 0 <= i < ENTRIES
      ensures Entry(m', frame', v, i) == Entry(m, frame, v, i)
    {
      assert TableAt(m, frame, own, kown, s, id, own[v].place);
    }
  }

  /** Both walks give the same for every page. */
  ghost predicate ViewKept(m': UserMem, m: UserMem, s: Space)
  {
    forall vpn: nat ::
      Walk(m'.tables, s.pfn, vpn) == Walk(m.tables, s.pfn, vpn) && Walkupt(m', s, vpn) == Walkupt(m, s, vpn)
  }

  ghost predicate ViewKeptExcept(m': UserMem, m: UserMem, s: Space, vpn: nat)
  {
    forall w: nat :: w < PAGES && w != vpn ==>
      Walk(m'.tables, s.pfn, w) == Walk(m.tables, s.pfn, w) && Walkupt(m', s, w) == Walkupt(m, s, w)
  }

  /** A new empty table changes what neither walk gives. */
  lemma GrowView(m: UserMem, m': UserMem, frame: map<nat, nat>, own: map<nat, Owner>, own': map<nat, Owner>,
                 kown: map<nat, Owner>, kown': map<nat, Owner>, s: Space, id: nat, p0: Place, v: nat)
    requires Tree(m, frame, own, kown, s, id) && Tree(m', frame, own', kown', s, id)
    requires (p0.Mid? || p0.Low?) && p0.Valid() && PageAt(m, s, p0) == 0 && PageAt(m', s, p0) == v
    requires PathsKept(m', m, s, p0) && (p0.Low? ==> PageAt(m, s, Mid(p0.i)) != 0)
    requires EntriesKept(m', m, frame, own, Parent(m, s, p0).0, Parent(m, s, p0).1)
    requires forall i :: 0 <= i < ENTRIES ==> Entry(m', frame, v, i) == Pte(0, NONE)
    ensures ViewKept(m', m, s)
  {
    forall vpn: nat
      ensures Walk(m'.tables, s.pfn, vpn) == Walk(m.tables, s.pfn, vpn) && Walkupt(m', s, vpn) == Walkupt(m, s, vpn)
    {
      var i, j, k := Vpn(2, vpn), Vpn(1, vpn), Vpn(0, vpn);
      WalksAgree(m, frame, own, kown, s, id, vpn);
      WalksAgree(m', frame, own', kown', s, id, vpn);
      assert PageAt(m', s, Page(i, j, k)) == PageAt(m, s, Page(i, j, k));
      if p0 != Low(i, j) {
        assert PageAt(m', s, Low(i, j)) == PageAt(m, s, Low(i, j));
        if PageAt(m, s, Low(i, j)) != 0 {
          assert TableAt(m, frame, own, kown, s, id, Low(i, j));
          assert TableAt(m, frame, own, kown, s, id, Base);
          if p0.Low? { assert TableAt(m, frame, own, kown, s, id, Mid(p0.i)); }
        }
      } else {
        assert PageAt(m, s, Low(i, j)) == 0;
      }
    }
  }

  /** Setting a leaf changes what both walks give for its page only. */
  lemma LeafView(m: UserMem, m': UserMem, frame: map<nat, nat>, own: map<nat, Owner>, own': map<nat, Owner>,
                 kown: map<nat, Owner>, s: Space, id: nat, vpn: nat, e: Pte, v: nat)
    requires Tree(m, frame, own, kown, s, id) && Tree(m', frame, own', kown, s, id) && vpn < PAGES
    requires var i, j, k := Vpn(2, vpn), Vpn(1, vpn), Vpn(0, vpn);
             var low := LowRef(m, s, i, j).table;
             && low != 0 && PathsKept(m', m, s, Page(i, j, k)) && LeafRef(m', s, i, j, k) == v
             && EntriesKept(m', m, frame, own, low, k) && Entry(m', frame, low, k) == e
    ensures ViewKeptExcept(m', m, s, vpn) && Walkupt(m', s, vpn) == v
    ensures Walk(m'.tables, s.pfn, vpn) == if IsLeaf(e.flags) then Some(Leaf(e.pfn, e.flags)) else None
  {
    WalksAgree(m', frame, own', kown, s, id, vpn);
    assert PageAt(m', s, Low(Vpn(2, vpn), Vpn(1, vpn))) == PageAt(m, s, Low(Vpn(2, vpn), Vpn(1, vpn)));
    forall w: nat | w < PAGES && w != vpn
      ensures Walk(m'.tables, s.pfn, w) == Walk(m.tables, s.pfn, w) && Walkupt(m', s, w) == Walkupt(m, s, w)
    {
      var i, j, k := Vpn(2, w), Vpn(1, w), Vpn(0, w);
      if i == Vpn(2, vpn) && j == Vpn(1, vpn) && k == Vpn(0, vpn) { VpnInjective(w, vpn); }
      WalksAgree(m, frame, own, kown, s, id, w);
      WalksAgree(m', frame, own', kown, s, id, w);
      assert PageAt(m', s, Page(i, j, k)) == PageAt(m, s, Page(i, j, k));
      assert PageAt(m', s, Low(i, j)) == PageAt(m, s, Low(i, j));
      if PageAt(m, s, Low(i, j)) != 0 {
        assert TableAt(m, frame, own, kown, s, id, Low(i, j));
        assert PageAt(m, s, Low(Vpn(2, vpn), Vpn(1, vpn))) != 0;
        assert TableAt(m, frame, own, kown, s, id, Low(Vpn(2, vpn), Vpn(1, vpn)));
      }
    }
  }
}
