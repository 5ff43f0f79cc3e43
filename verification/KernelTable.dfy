/** The kernel's own Sv39 table and its frame counter (kernel/pagetable.c): `palloc`,
    `ptmap` and `ptunmap` through the recursive self-map, `ptmap_physical` before paging. */
module KernelTable {
  import opened Paging

  /** The one place a table frame has in the tree. */
  datatype Role = Root | Middle(i: nat) | Last(i: nat, j: nat)

  /** The root maps itself at entries 0 and 1, every other interior entry is a plain
      pointer, and a frame is the child of one entry only. */
  ghost predicate WellFormed(mem: Memory, root: nat, role: map<nat, Role>)
  {
    && mem.Keys == role.Keys
    && root in mem
    && (forall p :: p in mem ==> |mem[p]| == ENTRIES)
    && (forall p :: p in role ==> (role[p] == Root <==> p == root))
    && mem[root][0] == Pte(root, INTERIOR)
    && mem[root][1] == Pte(root, RW)
    && (forall i :: 2 <= i < ENTRIES ==> Child(role, mem[root][i], Middle(i)))
    && (forall p, j :: p in role && role[p].Middle? && 0 <= j < ENTRIES ==>
          Child(role, mem[p][j], Last(role[p].i, j)))
  }

  ghost predicate Child(role: map<nat, Role>, e: Pte, r: Role)
  {
    e.flags.v ==> e.flags == INTERIOR && e.pfn in role && role[e.pfn] == r
  }

  ghost predicate Below(role: map<nat, Role>, next: nat) { forall p :: p in role ==> p < next }

  /** `role'` adds exactly the frames [next, next'). */
  ghost predicate Extends(role': map<nat, Role>, role: map<nat, Role>, next: nat, next': nat)
  {
    && next <= next' <= next + 2
    && (forall p :: p in role' <==> p in role || next <= p < next')
    && (forall p :: p in role ==> role'[p] == role[p])
  }

  /** Two memories that translate every page alike, the self-mapped ones aside. */
  ghost predicate SameTranslation(a: Memory, b: Memory, root: nat)
  {
    forall vpn :: Managed(vpn) ==> Walk(a, root, vpn) == Walk(b, root, vpn)
  }

  ghost predicate OthersKept(a: Memory, b: Memory, root: nat, vpn: nat)
  {
    forall v: nat :: v != vpn && Managed(v) ==> Walk(a, root, v) == Walk(b, root, v)
  }

  /** What the walk needs of the root to reach tables through the self-map. */
  predicate SelfMapped(mem: Memory, root: nat)
  {
    && root in mem && |mem[root]| == ENTRIES
    && mem[root][0] == Pte(root, INTERIOR) && mem[root][1] == Pte(root, RW)
  }

  datatype Grown = Grown(mem: Memory, next: nat, child: nat)

  /** The child table at entry `i`, made from frame `next` and zeroed if it is missing. */
  function Ensure(mem: Memory, next: nat, table: nat, i: nat): Grown
  {
    var e := Load(mem, table, i);
    if e.flags.v then Grown(mem, next, e.pfn)
    else Grown(Store(mem, table, i, Pte(next, INTERIOR))[next := EmptyTable()], next + 1, next)
  }

  /** Both interior tables of `vpn`: `child` is the frame of its last-level table. */
  function EnsurePath(mem: Memory, root: nat, next: nat, vpn: nat): Grown
  {
    var g := Ensure(mem, next, root, Vpn(2, vpn));
    Ensure(g.mem, g.next, g.child, Vpn(1, vpn))
  }

  /** Memory after mapping `vpn`. */
  function Mapped(mem: Memory, root: nat, next: nat, vpn: nat, pfn: nat, flags: Flags): Memory
  {
    var g := EnsurePath(mem, root, next, vpn);
    Store(g.mem, g.child, Vpn(0, vpn), Pte(pfn, flags))
  }

  /** The frame of the last-level table of `vpn`, if both interior entries are valid. */
  function LastTable(mem: Memory, root: nat, vpn: nat): Option<nat>
  {
    var e := Load(mem, root, Vpn(2, vpn));
    if !e.flags.v then None else
    var e' := Load(mem, e.pfn, Vpn(1, vpn));
    if !e'.flags.v then None else Some(e'.pfn)
  }

  /** Memory after unmapping `vpn`: the entry keeps its frame number and loses its flags. */
  function Unmapped(mem: Memory, root: nat, vpn: nat): Memory
  {
    match LastTable(mem, root, vpn)
    case None => mem
    case Some(t) => Store(mem, t, Vpn(0, vpn), Load(mem, t, Vpn(0, vpn)).(flags := NONE))
  }

  /** In a well-formed table a page outside the self-map is translated by the entry its
      last-level table holds, and by nothing else. */
  lemma WalkIsLast(mem: Memory, root: nat, role: map<nat, Role>, vpn: nat)
    requires WellFormed(mem, root, role) && Managed(vpn)
    ensures LastTable(mem, root, vpn).Some? ==>
              var t := LastTable(mem, root, vpn).value;
              t in role && role[t] == Last(Vpn(2, vpn), Vpn(1, vpn))
    ensures Walk(mem, root, vpn) ==
            match LastTable(mem, root, vpn)
            case None => None
            case Some(t) =>
              var e := Load(mem, t, Vpn(0, vpn));
              if IsLeaf(e.flags) then Some(Leaf(e.pfn, e.flags)) else None
  {
    var e := mem[root][Vpn(2, vpn)];
    assert Child(role, e, Middle(Vpn(2, vpn)));
    if e.flags.v {
      var e' := mem[e.pfn][Vpn(1, vpn)];
      assert Child(role, e', Last(Vpn(2, vpn), Vpn(1, vpn)));
      assert Walk(mem, root, vpn) == WalkFrom(mem, e.pfn, 1, vpn);
    }
  }

  /** A new empty table below an invalid interior entry changes no translation. */
  lemma EnsureKeepsWalk(mem: Memory, root: nat, role: map<nat, Role>, role': map<nat, Role>,
                        next: nat, table: nat, i: nat, vpn: nat)
    requires WellFormed(mem, root, role) && Below(role, next) && table in role && i < ENTRIES
    requires WellFormed(Ensure(mem, next, table, i).mem, root, role')
    requires !role[table].Last? && Managed(vpn)
    ensures Walk(Ensure(mem, next, table, i).mem, root, vpn) == Walk(mem, root, vpn)
  {
    var mem' := Ensure(mem, next, table, i).mem;
    WalkIsLast(mem, root, role, vpn);
    WalkIsLast(mem', root, role', vpn);
    if !mem[table][i].flags.v {
      assert mem'[next] == EmptyTable();
      var e := mem[root][Vpn(2, vpn)];
      assert Child(role, e, Middle(Vpn(2, vpn)));
      if table == root && i == Vpn(2, vpn) {
        assert LastTable(mem', root, vpn) == None;
      } else if e.flags.v {
        assert mem'[root][Vpn(2, vpn)] == e;
        var e' := mem[e.pfn][Vpn(1, vpn)];
        assert Child(role, e', Last(Vpn(2, vpn), Vpn(1, vpn)));
        if e.pfn == table && i == Vpn(1, vpn) {
          assert LastTable(mem', root, vpn) == Some(next);
        } else {
          assert mem'[e.pfn][Vpn(1, vpn)] == e';
        }
      }
    }
  }

  lemma EnsureMiddle(mem: Memory, root: nat, role: map<nat, Role>, next: nat, i: nat)
    returns (role': map<nat, Role>)
    requires WellFormed(mem, root, role) && Below(role, next) && 2 <= i < ENTRIES
    ensures var g := Ensure(mem, next, root, i);
            && WellFormed(g.mem, root, role') && Below(role', g.next)
            && g.child in role' && role'[g.child] == Middle(i)
            && g.mem[root][i] == Pte(g.child, INTERIOR)
            && SameTranslation(g.mem, mem, root)
            && Extends(role', role, next, g.next)
  {
    role' := if mem[root][i].flags.v then role else role[next := Middle(i)];
    assert Child(role, mem[root][i], Middle(i));
    forall vpn | Managed(vpn)
      ensures Walk(Ensure(mem, next, root, i).mem, root, vpn) == Walk(mem, root, vpn)
    {
      EnsureKeepsWalk(mem, root, role, role', next, root, i, vpn);
    }
  }

  lemma EnsureLast(mem: Memory, root: nat, role: map<nat, Role>, next: nat, table: nat, j: nat)
    returns (role': map<nat, Role>)
    requires WellFormed(mem, root, role) && Below(role, next) && j < ENTRIES
    requires table in role && role[table].Middle?
    ensures var g := Ensure(mem, next, table, j);
            && WellFormed(g.mem, root, role') && Below(role', g.next)
            && g.child in role' && role'[g.child] == Last(role[table].i, j)
            && g.mem[root] == mem[root]
            && g.mem[table][j] == Pte(g.child, INTERIOR)
            && SameTranslation(g.mem, mem, root)
            && Extends(role', role, next, g.next)
  {
    role' := if mem[table][j].flags.v then role else role[next := Last(role[table].i, j)];
    assert Child(role, mem[table][j], Last(role[table].i, j));
    forall vpn | Managed(vpn)
      ensures Walk(Ensure(mem, next, table, j).mem, root, vpn) == Walk(mem, root, vpn)
    {
      EnsureKeepsWalk(mem, root, role, role', next, table, j, vpn);
    }
  }

  /** Storing a leaf in the last-level table of `vpn` changes the translation of `vpn` only. */
  lemma StoreLeaf(mem: Memory, root: nat, role: map<nat, Role>, vpn: nat, e: Pte)
    requires WellFormed(mem, root, role) && Managed(vpn)
    requires LastTable(mem, root, vpn).Some?
    ensures var t := LastTable(mem, root, vpn).value;
            var mem' := Store(mem, t, Vpn(0, vpn), e);
            && WellFormed(mem', root, role)
            && LastTable(mem', root, vpn) == Some(t)
            && Walk(mem', root, vpn) == (if IsLeaf(e.flags) then Some(Leaf(e.pfn, e.flags)) else None)
            && OthersKept(mem', mem, root, vpn)
  {
    var t := LastTable(mem, root, vpn).value;
    var mem' := Store(mem, t, Vpn(0, vpn), e);
    WalkIsLast(mem, root, role, vpn);
    WalkIsLast(mem', root, role, vpn);
    forall v: nat | v != vpn && Managed(v)
      ensures Walk(mem', root, v) == Walk(mem, root, v)
    {
      WalkIsLast(mem, root, role, v);
      WalkIsLast(mem', root, role, v);
      if Vpn(2, v) == Vpn(2, vpn) && Vpn(1, v) == Vpn(1, vpn) && Vpn(0, v) == Vpn(0, vpn) {
        VpnInjective(v, vpn);
      }
    }
  }

  /** Mapping a page: it translates to what was asked, every other page as before, and the
      table stays well formed on the frames below the new counter. */
  lemma MappedTranslates(mem: Memory, root: nat, role: map<nat, Role>, next: nat,
                         vpn: nat, pfn: nat, flags: Flags)
    returns (role': map<nat, Role>)
    requires WellFormed(mem, root, role) && Below(role, next)
    requires Managed(vpn) && IsLeaf(flags)
    ensures var mem' := Mapped(mem, root, next, vpn, pfn, flags);
            && WellFormed(mem', root, role') && Below(role', EnsurePath(mem, root, next, vpn).next)
            && Walk(mem', root, vpn) == Some(Leaf(pfn, flags))
            && OthersKept(mem', mem, root, vpn)
            && Extends(role', role, next, EnsurePath(mem, root, next, vpn).next)
  {
    var g1 := Ensure(mem, next, root, Vpn(2, vpn));
    var role1 := EnsureMiddle(mem, root, role, next, Vpn(2, vpn));
    var g2 := Ensure(g1.mem, g1.next, g1.child, Vpn(1, vpn));
    role' := EnsureLast(g1.mem, root, role1, g1.next, g1.child, Vpn(1, vpn));
    StoreLeaf(g2.mem, root, role', vpn, Pte(pfn, flags));
  }

  /** The frames on the path of `vpn` that `ptmap` goes through are different tables. */
  lemma PathFrames(mem: Memory, root: nat, role: map<nat, Role>, next: nat, vpn: nat)
    requires WellFormed(mem, root, role) && Below(role, next) && Managed(vpn)
    ensures var i, j := Vpn(2, vpn), Vpn(1, vpn);
            var g1 := Ensure(mem, next, root, i);
            var g2 := Ensure(g1.mem, g1.next, g1.child, j);
            && SelfMapped(mem, root) && SelfMapped(g1.mem, root) && root < next <= g1.next
            && g1.mem[root][i] == Pte(g1.child, INTERIOR)
            && g1.child in g1.mem && |g1.mem[g1.child]| == ENTRIES
            && g1.child < g1.next && g1.child != root
            && Load(g2.mem, g1.child, j) == Pte(g2.child, INTERIOR) && g2.child != g1.child
  {
    var g1 := Ensure(mem, next, root, Vpn(2, vpn));
    var role1 := EnsureMiddle(mem, root, role, next, Vpn(2, vpn));
    var role2 := EnsureLast(g1.mem, root, role1, g1.next, g1.child, Vpn(1, vpn));
  }

  lemma LastFrames(mem: Memory, root: nat, role: map<nat, Role>, vpn: nat)
    requires WellFormed(mem, root, role) && Managed(vpn)
    ensures SelfMapped(mem, root)
    ensures var e := Load(mem, root, Vpn(2, vpn));
            e.flags.v ==>
              && e.flags == INTERIOR && e.pfn in mem && |mem[e.pfn]| == ENTRIES && e.pfn != root
              && var e' := Load(mem, e.pfn, Vpn(1, vpn));
              e'.flags.v ==>
                e'.flags == INTERIOR && e'.pfn in mem && |mem[e'.pfn]| == ENTRIES && e'.pfn != root && e'.pfn != e.pfn
  {
    var e := Load(mem, root, Vpn(2, vpn));
    assert Child(role, e, Middle(Vpn(2, vpn)));
    if e.flags.v {
      assert Child(role, mem[e.pfn][Vpn(1, vpn)], Last(Vpn(2, vpn), Vpn(1, vpn)));
    }
  }

  /** No managed page loses its last-level table. */
  ghost predicate TablesKept(a: Memory, b: Memory, root: nat)
  {
    forall v: nat :: Managed(v) && LastTable(b, root, v).Some? ==> LastTable(a, root, v).Some?
  }

  /** Where the tables of a page exist, mapping it takes no frame. */
  lemma PathThere(mem: Memory, root: nat, next: nat, vpn: nat)
    requires LastTable(mem, root, vpn).Some?
    ensures EnsurePath(mem, root, next, vpn) == Grown(mem, next, LastTable(mem, root, vpn).value)
  {
  }

  lemma EnsureKeepsTables(mem: Memory, root: nat, role: map<nat, Role>, next: nat, table: nat, i: nat)
    requires WellFormed(mem, root, role) && Below(role, next) && table in role && i < ENTRIES
    ensures TablesKept(Ensure(mem, next, table, i).mem, mem, root)
  {
    forall v: nat | Managed(v) && LastTable(mem, root, v).Some?
      ensures LastTable(Ensure(mem, next, table, i).mem, root, v).Some?
    {
      LastFrames(mem, root, role, v);
    }
  }

  /** Storing into a last-level table changes no interior entry. */
  lemma LeafKeepsTables(mem: Memory, root: nat, role: map<nat, Role>, t: nat, k: nat, e: Pte)
    requires WellFormed(mem, root, role) && t in role && role[t].Last?
    ensures TablesKept(Store(mem, t, k, e), mem, root)
  {
    forall v: nat | Managed(v) && LastTable(mem, root, v).Some? ensures LastTable(Store(mem, t, k, e), root, v).Some? {
      var d := mem[root][Vpn(2, v)];
      assert Child(role, d, Middle(Vpn(2, v)));
    }
  }

  lemma MappedKeepsTables(mem: Memory, root: nat, role: map<nat, Role>, next: nat, vpn: nat, pfn: nat, flags: Flags)
    requires WellFormed(mem, root, role) && Below(role, next) && Managed(vpn)
    ensures TablesKept(Mapped(mem, root, next, vpn, pfn, flags), mem, root)
  {
    hide WellFormed, Ensure;
    var g1 := Ensure(mem, next, root, Vpn(2, vpn));
    var role1 := EnsureMiddle(mem, root, role, next, Vpn(2, vpn));
    var g2 := Ensure(g1.mem, g1.next, g1.child, Vpn(1, vpn));
    var role2 := EnsureLast(g1.mem, root, role1, g1.next, g1.child, Vpn(1, vpn));
    RootHasRole(mem, root, role);
    EnsureKeepsTables(mem, root, role, next, root, Vpn(2, vpn));
    EnsureKeepsTables(g1.mem, root, role1, g1.next, g1.child, Vpn(1, vpn));
    LeafKeepsTables(g2.mem, root, role2, g2.child, Vpn(0, vpn), Pte(pfn, flags));
  }

  lemma UnmappedKeepsTables(mem: Memory, root: nat, role: map<nat, Role>, vpn: nat)
    requires WellFormed(mem, root, role) && Managed(vpn)
    ensures TablesKept(Unmapped(mem, root, vpn), mem, root)
  {
    WalkIsLast(mem, root, role, vpn);
    if LastTable(mem, root, vpn).Some? {
      var t := LastTable(mem, root, vpn).value;
      LeafKeepsTables(mem, root, role, t, Vpn(0, vpn), Load(mem, t, Vpn(0, vpn)).(flags := NONE));
    }
  }

  lemma RootHasRole(mem: Memory, root: nat, role: map<nat, Role>)
    requires WellFormed(mem, root, role)
    ensures root in role
  {
  }

  /** Unmapping, then mapping the frame that was there, is the identity on memory. */
  lemma UnmapMapIdentity(mem: Memory, root: nat, role: map<nat, Role>, next: nat, vpn: nat, leaf: Leaf)
    requires WellFormed(mem, root, role)
    requires Managed(vpn)
    requires Walk(mem, root, vpn) == Some(leaf)
    ensures Walk(Unmapped(mem, root, vpn), root, vpn) == None
    ensures Mapped(Unmapped(mem, root, vpn), root, next, vpn, leaf.pfn, leaf.flags) == mem
  {
    WalkIsLast(mem, root, role, vpn);
    var t := LastTable(mem, root, vpn).value;
    var e := Load(mem, t, Vpn(0, vpn));
    StoreLeaf(mem, root, role, vpn, e.(flags := NONE));
    assert mem[t][Vpn(0, vpn) := e.(flags := NONE)][Vpn(0, vpn) := e] == mem[t];
  }

  /** Opening an interior entry for writing, storing below it and closing it again is one
      store below it. */
  lemma OpenStoreClose(mem: Memory, t: nat, i: nat, u: nat, k: nat, e: Pte)
    requires t != u && Load(mem, t, i).flags == INTERIOR
    ensures var p := Load(mem, t, i);
            Store(Store(Store(mem, t, i, p.(flags := RW)), u, k, e), t, i, p) == Store(mem, u, k, e)
  {
    var p := Load(mem, t, i);
    StoreCommute(Store(mem, t, i, p.(flags := RW)), u, k, e, t, i, p);
    StoreStore(mem, t, i, p.(flags := RW), p);
    StoreSame(mem, t, i);
  }

  /** Page 1 is the root; page i the middle table while root entry i is writable; page
      (i, j) the last-level table while entry j of the middle table is writable. */
  lemma ThroughSelfMap(mem: Memory, root: nat, i: nat, j: nat)
    requires SelfMapped(mem, root) && i < ENTRIES && j < ENTRIES
    ensures Walk(mem, root, 1) == Some(Leaf(root, RW))
    ensures mem[root][i].flags == RW ==> Walk(mem, root, i) == Some(Leaf(mem[root][i].pfn, RW))
    ensures mem[root][i].flags == INTERIOR && Load(mem, mem[root][i].pfn, j).flags == RW ==>
      Walk(mem, root, Join(0, i, j)) == Some(Leaf(Load(mem, mem[root][i].pfn, j).pfn, RW))
  {
    IndicesOfJoin(0, 0, 1);
    IndicesOfJoin(0, 0, i);
    IndicesOfJoin(0, i, j);
    assert Walk(mem, root, 1) == WalkFrom(mem, root, 1, 1) == WalkFrom(mem, root, 0, 1);
    assert Walk(mem, root, i) == WalkFrom(mem, root, 1, i) == WalkFrom(mem, root, 0, i);
    var e := mem[root][i];
    if e.flags == INTERIOR && Load(mem, e.pfn, j).flags == RW {
      var page := Join(0, i, j);
      assert Walk(mem, root, page) == WalkFrom(mem, root, 1, page) == WalkFrom(mem, e.pfn, 0, page);
    }
  }

  class KernelSpace {
    /** Contents of the table frames. */
    var mem: Memory
    /** First frame not handed out yet. */
    var pfnStart: nat
    const maxPfn: nat
    const root: nat
    ghost var role: map<nat, Role>

    ghost predicate Valid()
      reads this
    {
      WellFormed(mem, root, role) && Below(role, pfnStart) && pfnStart <= maxPfn
    }

    /** Every frame has been handed out. */
    ghost predicate Exhausted()
      reads this
    {
      pfnStart >= maxPfn
    }

    /** The table that `init_pagetable` starts from: a zeroed root with its two self-maps. */
    constructor (ekernel: nat, maxPfn: nat)
      requires ekernel < maxPfn
      ensures Valid() && this.maxPfn == maxPfn && root == ekernel && pfnStart == ekernel + 1
      ensures forall vpn :: Managed(vpn) ==> Walk(mem, root, vpn) == None
      ensures role == map[root := Root]
    {
      this.maxPfn := maxPfn;
      root := ekernel;
      pfnStart := ekernel + 1;
      mem := map[ekernel := EmptyTable()[0 := Pte(ekernel, INTERIOR)][1 := Pte(ekernel, RW)]];
      role := map[ekernel := Root];
    }

    /** `palloc` with an empty `pfreelist`; None is the panic. */
    method Palloc() returns (r: Option<nat>)
      modifies this`pfnStart
      ensures r.None? <==> old(Exhausted())
      ensures r.None? ==> pfnStart == old(pfnStart)
      ensures r.Some? ==> r.value == old(pfnStart) && pfnStart == old(pfnStart) + 1
    {
      if pfnStart >= maxPfn { return None; }
      r := Some(pfnStart);
      pfnStart := pfnStart + 1;
    }

    /** The frame a kernel store to virtual page `page` reaches: the hardware must find a
        writable leaf there, otherwise the store faults. */
    function Target(page: nat): nat
      requires Walk(mem, root, page).Some? && Walk(mem, root, page).value.flags.w
      reads this
    {
      Walk(mem, root, page).value.pfn
    }

    /** The level-2 step of `ptmap`: root entry i ends writable, its table at page i. */
    method OpenMiddle(i: nat) returns (middle: Option<nat>)
      requires SelfMapped(mem, root) && 2 <= i < ENTRIES && pfnStart <= maxPfn
      requires root < pfnStart
      modifies this`mem, this`pfnStart
      ensures middle.Some? <==> old(Ensure(mem, pfnStart, root, i).next) <= maxPfn
      ensures middle.None? ==> Exhausted()
      ensures middle.Some? ==> var g := old(Ensure(mem, pfnStart, root, i));
        && middle.value == g.child && pfnStart == g.next
        && mem == Store(g.mem, root, i, Pte(g.child, RW))
    {
      ThroughSelfMap(mem, root, i, 0);
      var dir := Target(1);
      if !Load(mem, dir, i).flags.v {
        var t := Palloc();
        if t.None? { return None; }
        mem := Store(mem, dir, i, Pte(t.value, RW));
        ThroughSelfMap(mem, root, i, 0);
        mem := mem[Target(i) := EmptyTable()];
        StoreStore(old(mem), root, i, Pte(t.value, INTERIOR), Pte(t.value, RW));
        StoreBesideNew(Store(old(mem), root, i, Pte(t.value, INTERIOR)), root, i, Pte(t.value, RW), t.value,
          EmptyTable());
      } else {
        mem := Store(mem, dir, i, Load(mem, dir, i).(flags := RW));
      }
      ThroughSelfMap(mem, root, i, 0);
      middle := Some(Target(i));
    }

    /** The level-1 step: entry j of the middle table ends writable, root entry i a pointer. */
    method OpenLast(i: nat, middle: nat, j: nat) returns (last: Option<nat>)
      requires SelfMapped(mem, root) && 2 <= i < ENTRIES && j < ENTRIES && pfnStart <= maxPfn
      requires mem[root][i] == Pte(middle, RW) && middle in mem && |mem[middle]| == ENTRIES
      requires root < pfnStart && middle < pfnStart && middle != root
      modifies this`mem, this`pfnStart
      ensures last.Some? <==>
        old(Ensure(Store(mem, root, i, Pte(middle, INTERIOR)), pfnStart, middle, j)).next <= maxPfn
      ensures last.None? ==> Exhausted()
      ensures last.Some? ==>
        var g := old(Ensure(Store(mem, root, i, Pte(middle, INTERIOR)), pfnStart, middle, j));
        && last.value == g.child && pfnStart == g.next
        && mem == Store(g.mem, middle, j, Pte(g.child, RW))
    {
      ThroughSelfMap(mem, root, i, j);
      var dir := Target(1);
      ghost var m0 := Store(mem, root, i, Pte(middle, INTERIOR));
      ghost var e := Load(mem, middle, j);
      ghost var g := Ensure(m0, pfnStart, middle, j);
      StoreCommute(mem, middle, j, Pte(g.child, RW), root, i, Pte(middle, INTERIOR));
      if !Load(mem, middle, j).flags.v {
        var t := Palloc();
        if t.None? { return None; }
        mem := Store(mem, middle, j, Pte(t.value, RW));
        mem := Store(mem, dir, i, Load(mem, dir, i).(flags := INTERIOR));
        ThroughSelfMap(mem, root, i, j);
        mem := mem[Target(Join(0, i, j)) := EmptyTable()];
        StoreBesideNew(Store(m0, middle, j, Pte(g.child, INTERIOR)), middle, j, Pte(g.child, RW), g.child,
          EmptyTable());
        StoreStore(m0, middle, j, Pte(g.child, INTERIOR), Pte(g.child, RW));
      } else {
        mem := Store(mem, middle, j, Load(mem, middle, j).(flags := RW));
        mem := Store(mem, dir, i, Load(mem, dir, i).(flags := INTERIOR));
      }
      ThroughSelfMap(mem, root, i, j);
      last := Some(Target(Join(0, i, j)));
    }

    /** `ptmap`, editing the table through its own self-map. A table pointer is resolved
        when it is first formed and keeps its target while the entry above it changes.
        `ok` is false when `palloc` panics. */
    method Ptmap(vpn: nat, pfn: nat, flags: Flags) returns (ok: bool)
      requires Valid() && Managed(vpn) && IsLeaf(flags)
      modifies this`mem, this`pfnStart, this`role
      ensures ok <==> old(EnsurePath(mem, root, pfnStart, vpn).next) <= maxPfn
      ensures !ok ==> Exhausted()
      ensures ok ==>
        && Valid()
        && mem == old(Mapped(mem, root, pfnStart, vpn, pfn, flags))
        && pfnStart == old(EnsurePath(mem, root, pfnStart, vpn).next)
        && Walk(mem, root, vpn) == Some(Leaf(pfn, flags))
        && OthersKept(mem, old(mem), root, vpn)
        && Extends(role, old(role), old(pfnStart), pfnStart)
    {
      hide OthersKept, Extends, Walk, WellFormed, Below, SelfMapped, Vpn;
      var i, j, k := Vpn(2, vpn), Vpn(1, vpn), Vpn(0, vpn);
      ghost var g1 := Ensure(mem, pfnStart, root, i);
      ghost var g2 := Ensure(g1.mem, g1.next, g1.child, j);
      PathFrames(mem, root, role, pfnStart, vpn);

      var middle := OpenMiddle(i);
      if middle.None? { return false; }
      assert Store(mem, root, i, Pte(middle.value, INTERIOR)) == g1.mem by {
        StoreStore(g1.mem, root, i, Pte(middle.value, RW), Pte(middle.value, INTERIOR));
        StoreSame(g1.mem, root, i);
      }
      var last := OpenLast(i, middle.value, j);
      if last.None? { return false; }
      mem := Store(mem, last.value, k, Pte(pfn, flags));
      mem := Store(mem, middle.value, j, Load(mem, middle.value, j).(flags := INTERIOR));
      assert mem == old(Mapped(mem, root, pfnStart, vpn, pfn, flags)) by {
        OpenStoreClose(g2.mem, g1.child, j, g2.child, k, Pte(pfn, flags));
      }
      role := MappedTranslates(old(mem), root, role, old(pfnStart), vpn, pfn, flags);
      ok := true;
    }

    /** `ptunmap`; None is the panic on a missing interior table. */
    method Ptunmap(vpn: nat) returns (r: Option<nat>)
      requires Valid() && Managed(vpn)
      modifies this`mem
      ensures r.Some? <==> old(LastTable(mem, root, vpn)).Some?
      ensures r.Some? ==>
        && Valid()
        && mem == old(Unmapped(mem, root, vpn))
        && r.value == old(Load(mem, LastTable(mem, root, vpn).value, Vpn(0, vpn)).pfn)
        && Walk(mem, root, vpn) == None
        && OthersKept(mem, old(mem), root, vpn)
    {
      hide WellFormed, Walk, OthersKept, Below;
      var i, j, k := Vpn(2, vpn), Vpn(1, vpn), Vpn(0, vpn);
      LastFrames(mem, root, role, vpn);
      ThroughSelfMap(mem, root, i, j);
      var dir := Target(1);
      if !Load(mem, dir, i).flags.v { return None; }
      mem := Store(mem, dir, i, Load(mem, dir, i).(flags := RW));
      ThroughSelfMap(mem, root, i, j);
      var middle := Target(i);
      if !Load(mem, middle, j).flags.v { return None; }
      mem := Store(mem, middle, j, Load(mem, middle, j).(flags := RW));
      mem := Store(mem, dir, i, Load(mem, dir, i).(flags := INTERIOR));
      ThroughSelfMap(mem, root, i, j);
      var last := Target(Join(0, i, j));
      r := Some(Load(mem, last, k).pfn);
      mem := Store(mem, last, k, Load(mem, last, k).(flags := NONE));
      mem := Store(mem, middle, j, Load(mem, middle, j).(flags := INTERIOR));
      ghost var m, e, e' := old(mem), old(mem)[root][i], old(mem)[middle][j];
      ghost var leaf := old(mem)[last][k].(flags := NONE);
      OpenStoreClose(m, root, i, middle, j, e'.(flags := RW));
      OpenStoreClose(m, middle, j, last, k, leaf);
      StoreLeaf(old(mem), root, role, vpn, old(mem)[last][k].(flags := NONE));
    }

    /** `ptmap_physical`, before paging is on: the loop follows frame numbers directly. */
    method PtmapPhysical(vpn: nat, pfn: nat, flags: Flags) returns (ok: bool)
      requires Valid() && Managed(vpn) && IsLeaf(flags)
      modifies this`mem, this`pfnStart, this`role
      ensures ok <==> old(EnsurePath(mem, root, pfnStart, vpn).next) <= maxPfn
      ensures !ok ==> Exhausted()
      ensures ok ==>
        && Valid()
        && mem == old(Mapped(mem, root, pfnStart, vpn, pfn, flags))
        && pfnStart == old(EnsurePath(mem, root, pfnStart, vpn).next)
        && Extends(role, old(role), old(pfnStart), pfnStart)
    {
      ghost var g1 := Ensure(mem, pfnStart, root, Vpn(2, vpn));
      ghost var g2 := Ensure(g1.mem, g1.next, g1.child, Vpn(1, vpn));
      PathFrames(mem, root, role, pfnStart, vpn);
      var temp := root;
      var level := 2;
      while level > 0
        invariant 0 <= level <= 2 && pfnStart <= maxPfn
        invariant role == old(role)
        invariant level == 2 ==> temp == root && mem == old(mem) && pfnStart == old(pfnStart)
        invariant level == 1 ==> Grown(mem, pfnStart, temp) == g1
        invariant level == 0 ==> Grown(mem, pfnStart, temp) == g2
      {
        var table, i := temp, Vpn(level, vpn);
        label before:
        if !Load(mem, table, i).flags.v {
          var t := Palloc();
          if t.None? { return false; }
          temp := t.value;
          mem := mem[temp := EmptyTable()];
          StoreBesideNew(old@before(mem), table, i, Pte(temp, INTERIOR), temp, EmptyTable());
          mem := Store(mem, table, i, Pte(temp, INTERIOR));
        } else {
          temp := Load(mem, table, i).pfn;
        }
        level := level - 1;
      }
      mem := Store(mem, temp, Vpn(0, vpn), Pte(pfn, flags));
      role := MappedTranslates(old(mem), root, role, old(pfnStart), vpn, pfn, flags);
      ok := true;
    }
  }
}
