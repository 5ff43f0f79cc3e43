/** How many blocks a file of a given size takes, at all four levels of indirection: what
    `fs_file_truncate` (kernel/fs_file.c) allocates and frees page by page, and what
    `filesize_to_blocks` (script/mkfs.py) computes at once. */
module BlockCount {
  import opened Limits
  import opened Paging

  /** First page of the double and of the triple indirect part, and the largest file. */
  const DOUBLE := 25 + 1024
  const TRIPLE := 25 + 1024 + 1024 * 1024
  const LARGEST := 25 + 1024 + 1024 * 1024 + 1024 * 1024 * 1024

  function One(b: bool): nat { if b then 1 else 0 }

  /** 1 where page `id` is the first below a new index block for `d` pages. */
  function Starts(id: nat, d: nat): nat
    requires d > 0
  {
    One(id % d == 0)
  }

  /** Calls of `allocate_block` when the file grows by page `p`. */
  function Allocs(p: nat): nat
  {
    if p < DIRECT_PTRS then 1
    else if p < DOUBLE then One(p - DIRECT_PTRS == 0) + 1
    else if p < TRIPLE then
      var id := p - DOUBLE;
      One(id == 0) + Starts(id, PTRS_PER_BLOCK) + 1
    else
      var id := p - TRIPLE;
      One(id == 0) + Starts(id, PTRS_PER_BLOCK * PTRS_PER_BLOCK) + Starts(id, PTRS_PER_BLOCK) + 1
  }

  /** Calls of `free_block` when the file shrinks by page `p`. */
  function Frees(p: nat): nat
  {
    if p < DIRECT_PTRS then 1
    else if p < DOUBLE then 1 + One(p - DIRECT_PTRS == 0)
    else if p < TRIPLE then
      var id := p - DOUBLE;
      1 + Starts(id, PTRS_PER_BLOCK) + One(id == 0)
    else
      var id := p - TRIPLE;
      1 + Starts(id, PTRS_PER_BLOCK) + Starts(id, PTRS_PER_BLOCK * PTRS_PER_BLOCK) + One(id == 0)
  }

  /** Allocations for the pages [lo, hi), and frees for them. */
  function AllocSum(lo: nat, hi: nat): nat
    decreases hi
  {
    if hi <= lo then 0 else AllocSum(lo, hi - 1) + Allocs(hi - 1)
  }

  function FreeSum(lo: nat, hi: nat): nat
    decreases hi
  {
    if hi <= lo then 0 else FreeSum(lo, hi - 1) + Frees(hi - 1)
  }

  /** Growing in two steps allocates what growing in one does. */
  lemma {:induction false} Additive(a: nat, b: nat, c: nat)
    requires a <= b <= c
    ensures AllocSum(a, c) == AllocSum(a, b) + AllocSum(b, c)
    decreases c
  {
    if b < c { Additive(a, b, c - 1); }
  }

  /** A larger file needs no fewer blocks. */
  lemma SumGrows(a: nat, b: nat, c: nat)
    requires a <= b <= c
    ensures AllocSum(a, b) <= AllocSum(a, c)
  {
    Additive(a, b, c);
  }

  /** Shrinking frees as many blocks as growing allocated. */
  lemma {:induction false} FreesWhatGrew(lo: nat, hi: nat)
    ensures FreeSum(lo, hi) == AllocSum(lo, hi)
    decreases hi
  {
    if lo < hi { FreesWhatGrew(lo, hi - 1); }
  }

  function CeilDiv(n: nat, d: nat): nat
    requires d > 0
  {
    n / d + (if n % d != 0 then 1 else 0)
  }

  /** `filesize_to_blocks`, None where it returns nothing. */
  function FilesizeToBlocks(size: nat): Option<seq<seq<nat>>>
  {
    var total := CeilDiv(size, PAGESIZE);
    if total <= DIRECT_PTRS then Some([[total]])
    else if total <= DOUBLE then Some([[DIRECT_PTRS], [1, total - DIRECT_PTRS]])
    else if total <= TRIPLE then
      var uncovered := total - DOUBLE;
      Some([[DIRECT_PTRS], [1, PTRS_PER_BLOCK], [1, CeilDiv(uncovered, PTRS_PER_BLOCK), uncovered]])
    else if total <= LARGEST then
      var uncovered := total - TRIPLE;
      var second := CeilDiv(uncovered, PTRS_PER_BLOCK);
      Some([[DIRECT_PTRS], [1, PTRS_PER_BLOCK], [1, PTRS_PER_BLOCK, PTRS_PER_BLOCK * PTRS_PER_BLOCK],
        [1, CeilDiv(second, PTRS_PER_BLOCK), second, uncovered]])
    else None
  }

  function Sum(s: seq<nat>): nat { if s == [] then 0 else Sum(s[..|s| - 1]) + s[|s| - 1] }

  function SumAll(s: seq<seq<nat>>): nat { if s == [] then 0 else SumAll(s[..|s| - 1]) + Sum(s[|s| - 1]) }

  /** Rounding up goes up by one exactly after a multiple. */
  lemma CeilStep(n: nat, d: nat)
    requires d > 0
    ensures CeilDiv(n + 1, d) == CeilDiv(n, d) + Starts(n, d)
  {
    var q, r := n / d, n % d;
    assert n == q * d + r;
    if r + 1 < d {
      QuotientIs(n + 1, d, q, r + 1);
    } else {
      assert n + 1 == (q + 1) * d;
      QuotientIs(n + 1, d, q + 1, 0);
    }
  }

  lemma QuotientIs(n: nat, d: nat, q: nat, r: nat)
    requires d > 0 && n == q * d + r && r < d
    ensures n / d == q && n % d == r
  {
    var q', r' := n / d, n % d;
    assert n == q' * d + r';
    assert q' < q ==> (q' + 1) * d <= q * d;
    assert q' > q ==> (q + 1) * d <= q' * d;
  }

  lemma CeilFacts(d: nat)
    requires d > 0
    ensures CeilDiv(0, d) == 0 && Starts(0, d) == 1 &&
      CeilDiv(PTRS_PER_BLOCK * PTRS_PER_BLOCK, PTRS_PER_BLOCK) == PTRS_PER_BLOCK
  {
  }

  /** Blocks of a file of `n` pages. */
  function Closed(n: nat): nat
  {
    if n <= DIRECT_PTRS then n
    else if n <= DOUBLE then n + 1
    else if n <= TRIPLE then n + 2 + CeilDiv(n - DOUBLE, PTRS_PER_BLOCK)
    else n + 3 + PTRS_PER_BLOCK + CeilDiv(n - TRIPLE, PTRS_PER_BLOCK) + CeilDiv(n - TRIPLE,
      PTRS_PER_BLOCK * PTRS_PER_BLOCK)
  }

  /** The page-by-page count in closed form. */
  lemma {:induction false} AllocClosed(n: nat)
    ensures AllocSum(0, n) == Closed(n)
  {
    if n > 0 {
      AllocClosed(n - 1);
      ClosedStep(n - 1);
    }
  }

  /** The closed form goes up by what page `n` takes. */
  lemma ClosedStep(n: nat)
    ensures Closed(n + 1) == Closed(n) + Allocs(n)
  {
    hide CeilDiv, Starts;
    CeilFacts(PTRS_PER_BLOCK);
    CeilFacts(PTRS_PER_BLOCK * PTRS_PER_BLOCK);
    if n >= TRIPLE {
      CeilStep(n - TRIPLE, PTRS_PER_BLOCK);
      CeilStep(n - TRIPLE, PTRS_PER_BLOCK * PTRS_PER_BLOCK);
    } else if n >= DOUBLE {
      CeilStep(n - DOUBLE, PTRS_PER_BLOCK);
    }
  }

  /** Rounding up twice by 1024 is rounding up by 1024 * 1024. */
  lemma CeilTwice(n: nat)
    ensures CeilDiv(CeilDiv(n, PTRS_PER_BLOCK), PTRS_PER_BLOCK) == CeilDiv(n, PTRS_PER_BLOCK * PTRS_PER_BLOCK)
  {
    var q, r := n / (PTRS_PER_BLOCK * PTRS_PER_BLOCK), n % (PTRS_PER_BLOCK * PTRS_PER_BLOCK);
    var s, t := r / PTRS_PER_BLOCK, r % PTRS_PER_BLOCK;
    assert n == q * (PTRS_PER_BLOCK * PTRS_PER_BLOCK) + s * PTRS_PER_BLOCK + t;
    QuotientIs(n, PTRS_PER_BLOCK, q * PTRS_PER_BLOCK + s, t);
    if t == 0 {
      QuotientIs(q * PTRS_PER_BLOCK + s, PTRS_PER_BLOCK, q, s);
    } else if s + 1 < PTRS_PER_BLOCK {
      QuotientIs(q * PTRS_PER_BLOCK + s + 1, PTRS_PER_BLOCK, q, s + 1);
    } else {
      QuotientIs(q * PTRS_PER_BLOCK + s + 1, PTRS_PER_BLOCK, q + 1, 0);
    }
  }

  /** A file grown from nothing takes exactly the blocks the image builder reckons with. */
  lemma SameAsImageBuilder(size: nat)
    requires PageUp(size) <= LARGEST
    ensures FilesizeToBlocks(size).Some? && SumAll(FilesizeToBlocks(size).value) == AllocSum(0, PageUp(size))
  {
    hide CeilDiv, Sum, SumAll, AllocSum;
    var n := PageUp(size);
    assert CeilDiv(size, PAGESIZE) == n by { PagesCeil(size); }
    AllocClosed(n);
    CeilFacts(PTRS_PER_BLOCK);
    Sums(DIRECT_PTRS, 0, 0, 0);
    Sums(1, PTRS_PER_BLOCK, PTRS_PER_BLOCK * PTRS_PER_BLOCK, 0);
    if n <= DIRECT_PTRS {
      Sums(n, 0, 0, 0);
      SumAlls([n], [], [], []);
    } else if n <= DOUBLE {
      Sums(1, n - DIRECT_PTRS, 0, 0);
      SumAlls([DIRECT_PTRS], [1, n - DIRECT_PTRS], [], []);
    } else if n <= TRIPLE {
      var last := [1, CeilDiv(n - DOUBLE, PTRS_PER_BLOCK), n - DOUBLE];
      Sums(1, CeilDiv(n - DOUBLE, PTRS_PER_BLOCK), n - DOUBLE, 0);
      SumAlls([DIRECT_PTRS], [1, PTRS_PER_BLOCK], last, []);
    } else {
      CeilTwice(n - TRIPLE);
      var second := CeilDiv(n - TRIPLE, PTRS_PER_BLOCK);
      Sums(1, CeilDiv(second, PTRS_PER_BLOCK), second, n - TRIPLE);
      SumAlls([DIRECT_PTRS], [1, PTRS_PER_BLOCK], [1, PTRS_PER_BLOCK, PTRS_PER_BLOCK * PTRS_PER_BLOCK],
        [1, CeilDiv(second, PTRS_PER_BLOCK), second, n - TRIPLE]);
    }
  }

  lemma PagesCeil(size: nat)
    ensures CeilDiv(size, PAGESIZE) == PageUp(size)
  {
  }

  lemma SumSnoc(s: seq<nat>, x: nat)
    ensures Sum(s + [x]) == Sum(s) + x
  {
    assert (s + [x])[..|s|] == s;
  }

  lemma SumAllSnoc(s: seq<seq<nat>>, x: seq<nat>)
    ensures SumAll(s + [x]) == SumAll(s) + Sum(x)
  {
    assert (s + [x])[..|s|] == s;
  }

  lemma Sums(a: nat, b: nat, c: nat, d: nat)
    ensures Sum([a]) == a && Sum([a, b]) == a + b && Sum([a, b, c]) == a + b + c && Sum([a, b, c, d]) == a + b + c + d
  {
    SumSnoc([], a);
    SumSnoc([a], b);
    SumSnoc([a, b], c);
    SumSnoc([a, b, c], d);
    assert [] + [a] == [a] && [a] + [b] == [a, b] && [a, b] + [c] == [a, b, c] && [a, b, c] + [d] == [a, b, c, d];
  }

  lemma SumAlls(x: seq<nat>, y: seq<nat>, z: seq<nat>, w: seq<nat>)
    ensures SumAll([x]) == Sum(x) && SumAll([x, y]) == Sum(x) + Sum(y) && SumAll([x, y, z]) == Sum(x) + Sum(y) + Sum(z)
    ensures SumAll([x, y, z, w]) == Sum(x) + Sum(y) + Sum(z) + Sum(w)
  {
    SumAllSnoc([], x);
    SumAllSnoc([x], y);
    SumAllSnoc([x, y], z);
    SumAllSnoc([x, y, z], w);
    assert [] + [x] == [x] && [x] + [y] == [x, y] && [x, y] + [z] == [x, y, z] && [x, y, z] + [w] == [x, y, z, w];
  }

  /** The growing loop, counting its allocations. */
  method GrowLoop(oldPages: nat, newPages: nat) returns (calls: nat)
    ensures calls == AllocSum(oldPages, newPages)
  {
    calls := 0;
    var p := oldPages;
    while p < newPages
      invariant oldPages <= p && (p <= newPages || p == oldPages) && calls == AllocSum(oldPages, p)
    {
      if p < DIRECT_PTRS {
        calls := calls + 1;
      } else if p < DIRECT_PTRS + PTRS_PER_BLOCK {
        var id := p - DIRECT_PTRS;
        if id == 0 { calls := calls + 1; }
        calls := calls + 1;
      } else if p < DIRECT_PTRS + PTRS_PER_BLOCK + PTRS_PER_BLOCK * PTRS_PER_BLOCK {
        var id := p - (DIRECT_PTRS + PTRS_PER_BLOCK);
        if id == 0 { calls := calls + 1; }
        if id % PTRS_PER_BLOCK == 0 { calls := calls + 1; }
        calls := calls + 1;
      } else {
        var id := p - (DIRECT_PTRS + PTRS_PER_BLOCK + PTRS_PER_BLOCK * PTRS_PER_BLOCK);
        if id == 0 { calls := calls + 1; }
        if id % (PTRS_PER_BLOCK * PTRS_PER_BLOCK) == 0 { calls := calls + 1; }
        if id % PTRS_PER_BLOCK == 0 { calls := calls + 1; }
        calls := calls + 1;
      }
      p := p + 1;
    }
  }

  /** The shrinking loop, counting its frees, down to a page at least. */
  method ShrinkLoop(oldPages: nat, newPages: nat) returns (calls: nat)
    requires 1 <= newPages <= oldPages
    ensures calls == FreeSum(newPages, oldPages) == AllocSum(newPages, oldPages)
  {
    calls := 0;
    var id := oldPages;
    while id > newPages
      invariant newPages <= id <= oldPages && calls + FreeSum(newPages, id) == FreeSum(newPages, oldPages)
    {
      id := id - 1;
      if id < DIRECT_PTRS {
        calls := calls + 1;
      } else if id < DIRECT_PTRS + PTRS_PER_BLOCK {
        calls := calls + 1;
        if id - DIRECT_PTRS == 0 { calls := calls + 1; }
      } else if id < DIRECT_PTRS + PTRS_PER_BLOCK + PTRS_PER_BLOCK * PTRS_PER_BLOCK {
        var readId := id - (DIRECT_PTRS + PTRS_PER_BLOCK);
        calls := calls + 1;
        if readId % PTRS_PER_BLOCK == 0 { calls := calls + 1; }
        if readId == 0 { calls := calls + 1; }
      } else {
        var readId := id - (DIRECT_PTRS + PTRS_PER_BLOCK + PTRS_PER_BLOCK * PTRS_PER_BLOCK);
        calls := calls + 1;
        if readId % PTRS_PER_BLOCK == 0 { calls := calls + 1; }
        if readId % (PTRS_PER_BLOCK * PTRS_PER_BLOCK) == 0 { calls := calls + 1; }
        if readId == 0 { calls := calls + 1; }
      }
    }
    FreesWhatGrew(newPages, oldPages);
  }
}
