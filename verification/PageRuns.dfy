/** A range of kernel pages given out in runs: bump growth at the break, freed runs on a
    singly linked list whose nodes sit in the freed pages themselves, first fit with
    splitting (`dmalloc`/`dmafree` and `kalloc`/`kfree`, kernel/pagetable.c). */
module PageRuns {
  import opened Paging

  /** A run of `size` pages; `pfn` is its first frame (unused by `kalloc`). */
  datatype Run = Run(pfn: nat, size: nat)

  /** The FreeNode stored at the start of a freed run; page 0 stands for NULL. */
  datatype Node = Node(run: Run, next: nat)

  ghost predicate Covers(runs: map<nat, Run>, tag: map<nat, nat>)
  {
    && (forall s :: s in runs ==> runs[s].size >= 1)
    && (forall s, v :: Holds(runs, s, v) ==> v in tag && tag[v] == s)
  }

  predicate Holds(runs: map<nat, Run>, s: nat, v: nat)
  {
    s in runs && s <= v < s + runs[s].size
  }

  /** Live and free runs cut the pages [base, brk) into pieces: `tag` names the start of
      the one run that holds a page. */
  ghost predicate Partition(base: nat, brk: nat, tag: map<nat, nat>, live: map<nat, Run>, free: map<nat, Run>)
  {
    && live.Keys !! free.Keys
    && Covers(live, tag) && Covers(free, tag)
    && (forall v :: v in tag <==> base <= v < brk)
    && (forall v :: v in tag ==> Holds(live, tag[v], v) || Holds(free, tag[v], v))
  }

  /** The page after position `k` of the list, or NULL. */
  function After(order: seq<nat>, k: nat): nat
  {
    if k + 1 < |order| then order[k + 1] else 0
  }

  /** The list from `head`: its nodes in order, without repetition, ending in NULL. */
  ghost predicate Linked(nodes: map<nat, Node>, head: nat, order: seq<nat>)
  {
    && head == (if order == [] then 0 else order[0])
    && (forall k :: 0 <= k < |order| ==> order[k] in nodes && order[k] != 0)
    && (forall k {:trigger After(order, k)} :: 0 <= k < |order| ==> nodes[order[k]].next == After(order, k))
    && (forall k, l :: 0 <= k < l < |order| ==> order[k] != order[l])
  }

  /** The free runs the list holds. */
  ghost function FreeRuns(nodes: map<nat, Node>, order: seq<nat>): map<nat, Run>
    requires forall k :: 0 <= k < |order| ==> order[k] in nodes
  {
    map s | s in order :: nodes[s].run
  }

  /** Every page below the break is in exactly one run, live or free. */
  lemma OneRunPerPage(base: nat, brk: nat, tag: map<nat, nat>, live: map<nat, Run>, free: map<nat, Run>, v: nat)
    requires Partition(base, brk, tag, live, free) && base <= v < brk
    ensures exists s :: Holds(live, s, v) != Holds(free, s, v)
    ensures forall s, t :: (Holds(live, s, v) || Holds(free, s, v)) && (Holds(live, t, v) || Holds(free, t, v)) ==>
      s == t
  {
    assert Holds(live, tag[v], v) != Holds(free, tag[v], v);
  }

  /** The frame behind page `v`, read off the run that holds it. */
  ghost function FrameOf(tag: map<nat, nat>, live: map<nat, Run>, free: map<nat, Run>, v: nat): nat
    requires v in tag
  {
    (if tag[v] <= v then v - tag[v] else 0) + (if tag[v] in live then live[tag[v]].pfn else if tag[v] in free
      then free[tag[v]].pfn else 0)
  }

  /** The frame behind each page below the break. */
  ghost function FramesOf(tag: map<nat, nat>, live: map<nat, Run>, free: map<nat, Run>): map<nat, nat>
  {
    map v | v in tag :: FrameOf(tag, live, free, v)
  }

  /** `tag` after the run at `s` is cut at page `m`. */
  ghost function CutTag(tag: map<nat, nat>, s: nat, m: nat): map<nat, nat>
  {
    map v | v in tag :: if tag[v] == s && m <= v then m else tag[v]
  }

  /** A free run becomes live as a whole. */
  lemma TakeWhole(base: nat, brk: nat, tag: map<nat, nat>, live: map<nat, Run>, free: map<nat, Run>, s: nat)
    requires Partition(base, brk, tag, live, free) && s in free
    ensures Partition(base, brk, tag, live[s := free[s]], free - {s})
    ensures FramesOf(tag, live[s := free[s]], free - {s}) == FramesOf(tag, live, free)
  {
    var live', free' := live[s := free[s]], free - {s};
    forall v | v in tag ensures Holds(live', tag[v], v) || Holds(free', tag[v], v) {
      assert Holds(live, tag[v], v) || Holds(free, tag[v], v);
    }
    assert forall t, v :: Holds(live', t, v) ==> Holds(live, t, v) || Holds(free, t, v);
    assert forall t, v :: Holds(free', t, v) ==> Holds(free, t, v);
  }

  /** The first `pages` pages of a free run become live, the rest stays free. */
  lemma TakeFront(base: nat, brk: nat, tag: map<nat, nat>, live: map<nat, Run>, free: map<nat, Run>,
                  s: nat, pages: nat, rest: Run)
    requires Partition(base, brk, tag, live, free) && s in free
    requires 1 <= pages < free[s].size && rest.size == free[s].size - pages
    ensures s + pages !in live && s + pages !in free
    ensures Partition(base, brk, CutTag(tag, s, s + pages),
                      live[s := free[s].(size := pages)], (free - {s})[s + pages := rest])
  {
    var m := s + pages;
    var tag' := CutTag(tag, s, m);
    var live', free' := live[s := free[s].(size := pages)], (free - {s})[m := rest];
    assert Holds(free, s, m);
    assert m in live ==> Holds(live, m, m);
    assert m in free ==> Holds(free, m, m);
    forall t, v | Holds(live', t, v) ensures v in tag' && tag'[v] == t {
      assert Holds(live, t, v) || Holds(free, t, v);
    }
    forall t, v | Holds(free', t, v) ensures v in tag' && tag'[v] == t {
      assert Holds(free, if t == m then s else t, v);
    }
    forall v | v in tag' ensures Holds(live', tag'[v], v) || Holds(free', tag'[v], v) {
      assert Holds(live, tag[v], v) || Holds(free, tag[v], v);
    }
  }

  lemma TakeFrontFrames(base: nat, brk: nat, tag: map<nat, nat>, live: map<nat, Run>, free: map<nat, Run>,
                        s: nat, pages: nat, rest: Run)
    requires Partition(base, brk, tag, live, free) && s in free && s + pages !in live && s + pages !in free
    requires rest.pfn == free[s].pfn + pages
    ensures FramesOf(CutTag(tag, s, s + pages), live[s := free[s].(size := pages)], (free - {s})[s + pages := rest])
         == FramesOf(tag, live, free)
  {
  }

  /** A live run becomes free. */
  lemma GiveBack(base: nat, brk: nat, tag: map<nat, nat>, live: map<nat, Run>, free: map<nat, Run>, s: nat, run: Run)
    requires Partition(base, brk, tag, live, free) && s in live && run.size == live[s].size
    ensures Partition(base, brk, tag, live - {s}, free[s := run])
    ensures run == live[s] ==> FramesOf(tag, live - {s}, free[s := run]) == FramesOf(tag, live, free)
  {
    var live', free' := live - {s}, free[s := run];
    forall v | v in tag ensures Holds(live', tag[v], v) || Holds(free', tag[v], v) {
      assert Holds(live, tag[v], v) || Holds(free, tag[v], v);
    }
    assert forall t, v :: Holds(free', t, v) ==> Holds(live, t, v) || Holds(free, t, v);
    assert forall t, v :: Holds(live', t, v) ==> Holds(live, t, v);
  }

  ghost function BumpTag(base: nat, brk: nat, tag: map<nat, nat>, size: nat): map<nat, nat>
    requires forall v :: base <= v < brk ==> v in tag
  {
    map v | base <= v < brk + size :: if v < brk then tag[v] else brk
  }

  /** A new live run at the break. */
  lemma Bump(base: nat, brk: nat, tag: map<nat, nat>, live: map<nat, Run>, free: map<nat, Run>, run: Run)
    requires Partition(base, brk, tag, live, free) && run.size >= 1 && base <= brk
    ensures var tag' := BumpTag(base, brk, tag, run.size);
            && brk !in live && brk !in free
            && Partition(base, brk + run.size, tag', live[brk := run], free)
            && (forall v :: v in tag' <==> base <= v < brk + run.size)
  {
    var tag' := BumpTag(base, brk, tag, run.size);
    var live' := live[brk := run];
    assert brk in live ==> Holds(live, brk, brk);
    assert brk in free ==> Holds(free, brk, brk);
    forall v | v in tag' ensures Holds(live', tag'[v], v) || Holds(free, tag'[v], v) {
      if v in tag { assert Holds(live, tag[v], v) || Holds(free, tag[v], v); }
    }
    forall t: nat, v: nat | Holds(live', t, v) ensures v in tag' && tag'[v] == t {
      if t != brk { assert Holds(live, t, v); }
    }
  }

  lemma BumpFrames(base: nat, brk: nat, tag: map<nat, nat>, live: map<nat, Run>, free: map<nat, Run>, run: Run)
    requires Partition(base, brk, tag, live, free) && brk !in live && brk !in free
    ensures var tag' := BumpTag(base, brk, tag, run.size);
            FramesOf(tag', live[brk := run], free)
              == map v | v in tag' :: if v < brk then FramesOf(tag, live, free)[v] else run.pfn + v - brk
  {
    var tag' := BumpTag(base, brk, tag, run.size);
    forall v | v in tag' && v < brk
      ensures FrameOf(tag', live[brk := run], free, v) == FrameOf(tag, live, free, v)
    {
      assert Holds(live, tag[v], v) || Holds(free, tag[v], v);
    }
  }

  /** Index of the first node with room for `pages`, or the length of the list. */
  ghost function FirstFit(nodes: map<nat, Node>, order: seq<nat>, pages: nat): (k: nat)
    requires forall k :: 0 <= k < |order| ==> order[k] in nodes
    ensures k <= |order|
    ensures k < |order| ==> nodes[order[k]].run.size >= pages
    ensures forall l :: 0 <= l < k ==> nodes[order[l]].run.size < pages
  {
    if order == [] then 0
    else if nodes[order[0]].run.size >= pages then 0
    else 1 + FirstFit(nodes, order[1..], pages)
  }

  /** What a walk along the list meets: the page and the run of each node, in order. */
  ghost function FreeList(nodes: map<nat, Node>, order: seq<nat>): seq<(nat, Run)>
    requires forall k :: 0 <= k < |order| ==> order[k] in nodes
  {
    seq(|order|, k requires 0 <= k < |order| => (order[k], nodes[order[k]].run))
  }

  /** The list once `pages` pages are taken from the front of its run `k`: a rest stays at
      the same place in the list, an exact fit leaves no node. */
  function TakenFrom(list: seq<(nat, Run)>, k: nat, pages: nat, physical: bool): seq<(nat, Run)>
    requires k < |list| && pages <= list[k].1.size
  {
    var (p, run) := list[k];
    if run.size == pages then list[..k] + list[k + 1..]
    else list[k := (p + pages, Run(if physical then run.pfn + pages else 0, run.size - pages))]
  }

  /** `nodes` with the `next` pointer before position `k` aimed at page `p`. */
  function Aim(nodes: map<nat, Node>, prev: nat, p: nat): map<nat, Node>
  {
    if prev in nodes then nodes[prev := nodes[prev].(next := p)] else nodes
  }

  /** Replacing node `k` by a node for the rest of its run, further up. */
  lemma CutNode(nodes: map<nat, Node>, head: nat, order: seq<nat>, k: nat, newp: nat, rest: Run)
    requires Linked(nodes, head, order) && k < |order| && newp != 0 && newp !in order
    ensures var nodes1 := nodes[newp := Node(rest, nodes[order[k]].next)];
            var nodes' := if k > 0 then Aim(nodes1, order[k - 1], newp) else nodes1;
            && Linked(nodes', if k > 0 then head else newp, order[k := newp])
            && FreeRuns(nodes', order[k := newp]) == (FreeRuns(nodes, order) - {order[k]})[newp := rest]
  {
    var nodes1 := nodes[newp := Node(rest, nodes[order[k]].next)];
    var nodes' := if k > 0 then Aim(nodes1, order[k - 1], newp) else nodes1;
    var order' := order[k := newp];
    var want := (FreeRuns(nodes, order) - {order[k]})[newp := rest];
    forall s ensures s in order' <==> s in want {
      if s in order && s != order[k] {
        var l :| 0 <= l < |order| && order[l] == s;
        assert order'[l] == s;
      }
      assert order'[k] == newp;
    }
    forall l {:trigger After(order', l)} | 0 <= l < |order'|
      ensures nodes'[order'[l]].next == After(order', l)
    {
      assert nodes[order[l]].next == After(order, l);
    }
  }

  lemma DropMembers(order: seq<nat>, k: nat, s: nat)
    requires k < |order| && forall a, b :: 0 <= a < b < |order| ==> order[a] != order[b]
    ensures s in order[..k] + order[k + 1..] <==> s in order && s != order[k]
  {
    var order' := order[..k] + order[k + 1..];
    if s in order && s != order[k] {
      var l :| 0 <= l < |order| && order[l] == s;
      assert order'[if l < k then l else l - 1] == s;
    }
  }

  /** The list without node `k` has every other free run. */
  lemma DropRuns(nodes: map<nat, Node>, nodes': map<nat, Node>, order: seq<nat>, k: nat)
    requires k < |order| && forall a, b :: 0 <= a < b < |order| ==> order[a] != order[b]
    requires forall l :: 0 <= l < |order| ==>
      order[l] in nodes && order[l] in nodes' && nodes'[order[l]].run == nodes[order[l]].run
    ensures FreeRuns(nodes', order[..k] + order[k + 1..]) == FreeRuns(nodes, order) - {order[k]}
  {
    var order' := order[..k] + order[k + 1..];
    forall s ensures s in order' <==> s in order && s != order[k] { DropMembers(order, k, s); }
  }

  /** Unlinking node `k`. */
  lemma DropNode(nodes: map<nat, Node>, head: nat, order: seq<nat>, k: nat)
    requires Linked(nodes, head, order) && k < |order|
    ensures var order' := order[..k] + order[k + 1..];
            var nodes' := if k > 0 then Aim(nodes, order[k - 1], nodes[order[k]].next) else nodes;
            && Linked(nodes', if k > 0 then head else nodes[order[k]].next, order')
            && FreeRuns(nodes', order') == FreeRuns(nodes, order) - {order[k]}
  {
    hide FreeRuns;
    var order' := order[..k] + order[k + 1..];
    var nodes' := if k > 0 then Aim(nodes, order[k - 1], nodes[order[k]].next) else nodes;
    DropRuns(nodes, nodes', order, k);
    assert forall l :: 0 <= l < |order'| ==> order'[l] == order[if l < k then l else l + 1];
    assert nodes[order[k]].next == After(order, k);
    forall l {:trigger After(order', l)} | 0 <= l < |order'|
      ensures nodes'[order'[l]].next == After(order', l)
    {
      var m := if l < k then l else l + 1;
      assert nodes[order[m]].next == After(order, m);
    }
  }

  /** Pushing a node in front. */
  lemma PushNode(nodes: map<nat, Node>, head: nat, order: seq<nat>, p: nat, run: Run)
    requires Linked(nodes, head, order) && p != 0 && p !in order
    ensures var nodes' := nodes[p := Node(run, head)];
            && Linked(nodes', p, [p] + order)
            && FreeRuns(nodes', [p] + order) == FreeRuns(nodes, order)[p := run]
  {
    var order' := [p] + order;
    forall l {:trigger After(order', l)} | 0 <= l < |order'|
      ensures nodes[p := Node(run, head)][order'[l]].next == After(order', l)
    {
      if l > 0 { assert nodes[order[l - 1]].next == After(order, l - 1); }
    }
    assert order'[0] == p;
  }

  /** The list that `CutNode` leaves differs at place `k` only. */
  lemma CutList(nodes: map<nat, Node>, head: nat, order: seq<nat>, k: nat, newp: nat, rest: Run)
    requires Linked(nodes, head, order) && k < |order| && newp !in order
    ensures var nodes1 := nodes[newp := Node(rest, nodes[order[k]].next)];
            var nodes' := if k > 0 then Aim(nodes1, order[k - 1], newp) else nodes1;
            var order' := order[k := newp];
            && (forall l :: 0 <= l < |order'| ==> order'[l] in nodes')
            && FreeList(nodes', order') == FreeList(nodes, order)[k := (newp, rest)]
  {
  }

  /** The list that `DropNode` leaves lacks node `k` only. */
  lemma DropList(nodes: map<nat, Node>, head: nat, order: seq<nat>, k: nat)
    requires Linked(nodes, head, order) && k < |order|
    ensures var order' := order[..k] + order[k + 1..];
            var nodes' := if k > 0 then Aim(nodes, order[k - 1], nodes[order[k]].next) else nodes;
            && (forall l :: 0 <= l < |order'| ==> order'[l] in nodes')
            && FreeList(nodes', order') == FreeList(nodes, order)[..k] + FreeList(nodes, order)[k + 1..]
  {
  }

  /** The pages from `vpn` have the frames from `pfn`. */
  ghost predicate RunFrames(frame: map<nat, nat>, vpn: nat, pfn: nat, pages: nat)
  {
    forall v :: vpn <= v < vpn + pages ==> v in frame && frame[v] == pfn + v - vpn
  }

  /** The frames of a live run follow one another from its first frame. */
  lemma LiveFrames(base: nat, brk: nat, tag: map<nat, nat>, live: map<nat, Run>, free: map<nat, Run>, s: nat)
    requires Partition(base, brk, tag, live, free) && s in live
    ensures base <= s < brk && RunFrames(FramesOf(tag, live, free), s, live[s].pfn, live[s].size)
  {
    assert Holds(live, s, s);
    forall v | s <= v < s + live[s].size
      ensures v in FramesOf(tag, live, free) && FramesOf(tag, live, free)[v] == live[s].pfn + v - s
    {
      assert Holds(live, s, v);
    }
  }

  /** Cutting the run of node `k` keeps the partition, the list and, for a rest that starts at
      the right frame, every frame. */
  lemma CutRun(base: nat, brk: nat, tag: map<nat, nat>, live: map<nat, Run>, nodes: map<nat, Node>, head: nat,
               order: seq<nat>,
               k: nat, pages: nat, rest: Run)
    requires Linked(nodes, head, order) && Partition(base, brk, tag, live, FreeRuns(nodes, order)) && k < |order|
    requires 1 <= pages < nodes[order[k]].run.size && rest.size == nodes[order[k]].run.size - pages
    ensures var p, newp := order[k], order[k] + pages;
            var run := nodes[p].run;
            var nodes1 := nodes[newp := Node(rest, nodes[p].next)];
            var nodes' := if k > 0 then Aim(nodes1, order[k - 1], newp) else nodes1;
            var live', tag' := live[p := Run(run.pfn, pages)], CutTag(tag, p, newp);
            && (k > 0 ==> order[k - 1] != 0) && p !in live && newp !in order && tag'.Keys == tag.Keys
            && Linked(nodes', if k > 0 then head else newp, order[k := newp])
            && Partition(base, brk, tag', live', FreeRuns(nodes', order[k := newp]))
            && (rest.pfn == run.pfn + pages ==>
                  FramesOf(tag', live', FreeRuns(nodes', order[k := newp])) ==
                    FramesOf(tag, live, FreeRuns(nodes, order)))
  {
    hide FrameOf, Holds, FramesOf;
    var free, p := FreeRuns(nodes, order), order[k];
    assert p in free && free[p] == nodes[p].run;
    TakeFront(base, brk, tag, live, free, p, pages, rest);
    if rest.pfn == nodes[p].run.pfn + pages { TakeFrontFrames(base, brk, tag, live, free, p, pages, rest); }
    CutNode(nodes, head, order, k, p + pages, rest);
  }

  class Region {
    const base: nat
    /** Whether free nodes carry frame numbers: true for `dmalloc`, false for `kalloc`. */
    const physical: bool
    var brk: nat
    var nodes: map<nat, Node>
    var head: nat
    ghost var order: seq<nat>
    ghost var live: map<nat, Run>
    ghost var tag: map<nat, nat>

    ghost predicate Valid()
      reads this
    {
      && 0 < base <= brk
      && Linked(nodes, head, order)
      && Partition(base, brk, tag, live, FreeRuns(nodes, order))
    }

    constructor (base: nat, physical: bool)
      requires 0 < base
      ensures Valid() && this.base == base && this.physical == physical
      ensures brk == base && live == map[] && order == [] && tag == map[] && Frames() == map[]
    {
      this.base, this.physical, brk := base, physical, base;
      nodes, head, order, live, tag := map[], 0, [], map[], map[];
    }

    ghost function Free(): map<nat, Run>
      requires Linked(nodes, head, order)
      reads this
    {
      FreeRuns(nodes, order)
    }

    /** The free list as `dmalloc` and `kalloc` walk it. */
    ghost function List(): seq<(nat, Run)>
      requires Valid()
      reads this
    {
      FreeList(nodes, order)
    }

    /** The place in the list of the first run with room for `pages`, or its length. */
    ghost function First(pages: nat): (k: nat)
      requires Valid()
      reads this
      ensures k <= |List()| && (k < |List()| ==> List()[k].1.size >= pages)
      ensures forall l :: 0 <= l < k ==> List()[l].1.size < pages
    {
      FirstFit(nodes, order, pages)
    }

    /** The frame behind each page below the break. */
    ghost function Frames(): map<nat, nat>
      requires Valid()
      reads this
    {
      FramesOf(tag, live, Free())
    }

    /** Node `k` at page `p` has more room than asked: its tail becomes the node. */
    method Cut(ghost k: nat, prev: nat, p: nat, pages: nat)
      requires Valid() && k < |order| && p == order[k] && prev == (if k > 0 then order[k - 1] else 0)
      requires p in nodes && 1 <= pages < nodes[p].run.size
      modifies this`nodes, this`head, this`order, this`live, this`tag
      ensures Valid()
      ensures live == old(live)[p := Run(old(nodes)[p].run.pfn, pages)] && p !in old(live)
      ensures tag.Keys == old(tag.Keys) && List() == TakenFrom(old(List()), k, pages, physical)
      ensures physical ==> Frames() == old(Frames())
    {
      hide Partition, Linked, FreeRuns, FramesOf, CutTag, Aim;
      var run, next := nodes[p].run, nodes[p].next;
      var rest := Run(if physical then run.pfn + pages else 0, run.size - pages);
      var newp := p + pages;
      CutRun(base, brk, tag, live, nodes, head, order, k, pages, rest);
      CutList(nodes, head, order, k, p + pages, rest);
      nodes := nodes[newp := Node(rest, next)];
      if prev != 0 { nodes := Aim(nodes, prev, newp); } else { head := newp; }
      order := order[k := newp];
      live := live[p := Run(run.pfn, pages)];
      tag := CutTag(tag, p, newp);
    }

    /** Node `k` at page `p` has exactly the room asked: it leaves the list. */
    method Unlink(ghost k: nat, prev: nat, p: nat)
      requires Valid() && k < |order| && p == order[k] && prev == (if k > 0 then order[k - 1] else 0)
      modifies this`nodes, this`head, this`order, this`live
      ensures Valid()
      ensures live == old(live)[p := old(nodes)[p].run] && p !in old(live)
      ensures List() == TakenFrom(old(List()), k, old(nodes)[p].run.size, physical)
      ensures Frames() == old(Frames())
    {
      var run, next := nodes[p].run, nodes[p].next;
      TakeWhole(base, brk, tag, live, Free(), p);
      DropNode(nodes, head, order, k);
      DropList(nodes, head, order, k);
      if prev != 0 { nodes := Aim(nodes, prev, next); } else { head := next; }
      order := order[..k] + order[k + 1..];
      live := live[p := run];
    }

    /** The free-list search of `dmalloc` and `kalloc`: the first node with room is cut or
        unlinked; None when there is none and the break must grow. */
    method Take(pages: nat) returns (r: Option<(nat, nat)>)
      requires Valid() && pages >= 1
      modifies this`nodes, this`head, this`order, this`live, this`tag
      ensures Valid()
      ensures r.None? <==> old(First(pages)) == old(|List()|)
      ensures r.None? ==> nodes == old(nodes) && order == old(order) && live == old(live) && tag == old(tag)
      ensures r.Some? ==>
        var (s, run) := old(List()[First(pages)]);
        && r.value == (s, run.pfn)
        && live == old(live)[s := Run(run.pfn, pages)] && s !in old(live)
        && tag.Keys == old(tag.Keys)
        && List() == TakenFrom(old(List()), old(First(pages)), pages, physical)
      ensures physical ==> Frames() == old(Frames())
    {
      var p, prev := head, 0;
      ghost var k := 0;
      while p != 0
        invariant 0 <= k <= |order| && Valid()
        invariant p == if k < |order| then order[k] else 0
        invariant prev == if k > 0 then order[k - 1] else 0
        invariant forall l :: 0 <= l < k ==> nodes[order[l]].run.size < pages
        invariant nodes == old(nodes) && order == old(order) && live == old(live) && tag == old(tag)
        decreases |order| - k
      {
        var node := nodes[p];
        if node.run.size > pages {
          Cut(k, prev, p, pages);
          return Some((p, node.run.pfn));
        } else if node.run.size == pages {
          Unlink(k, prev, p);
          return Some((p, node.run.pfn));
        }
        assert node.next == After(order, k);
        prev := p;
        p := node.next;
        k := k + 1;
      }
      r := None;
    }

    /** `dmafree` and `kfree`: a live run goes to the front of the list. */
    method Give(vpn: nat, pfn: nat, pages: nat)
      requires Valid() && vpn in live && live[vpn].size == pages && (physical ==> live[vpn].pfn == pfn)
      modifies this`nodes, this`head, this`order, this`live
      ensures Valid()
      ensures order == [vpn] + old(order) && live == old(live) - {vpn}
      ensures Free() == old(Free())[vpn := Run(pfn, pages)]
      ensures List() == [(vpn, Run(pfn, pages))] + old(List())
      ensures physical ==> Frames() == old(Frames())
    {
      assert Holds(live, vpn, vpn) && vpn !in Free();
      GiveBack(base, brk, tag, live, Free(), vpn, Run(pfn, pages));
      PushNode(nodes, head, order, vpn, Run(pfn, pages));
      nodes := nodes[vpn := Node(Run(pfn, pages), head)];
      head := vpn;
      order := [vpn] + order;
      live := live - {vpn};
    }

    lemma Domain()
      requires Valid()
      ensures forall v :: v in Frames() <==> base <= v < brk
      ensures base <= brk && forall v :: v in tag <==> base <= v < brk
    {
    }

    lemma LiveSize(s: nat)
      requires Valid() && s in live
      ensures live[s].size >= 1
    {
    }

    /** Growth at the break. */
    method Extend(pages: nat, pfn: nat) returns (vpn: nat)
      requires Valid() && pages >= 1
      modifies this`brk, this`live, this`tag
      ensures Valid()
      ensures vpn == old(brk) && brk == old(brk) + pages
      ensures live == old(live)[vpn := Run(pfn, pages)] && vpn !in old(live)
      ensures forall v :: v in tag <==> base <= v < brk
      ensures physical ==> Frames() == map v | v in tag :: if v < vpn then old(Frames())[v] else pfn + v - vpn
    {
      Bump(base, brk, tag, live, Free(), Run(pfn, pages));
      BumpFrames(base, brk, tag, live, Free(), Run(pfn, pages));
      vpn := brk;
      tag := BumpTag(base, brk, tag, pages);
      brk := brk + pages;
      live := live[vpn := Run(pfn, pages)];
    }
  }
}
