/** The kernel services that vm.c and kapi.c call, with the preconditions the kernel
    imposes: nothing is freed twice, no page is freed while it is mapped, and no vmalloc
    area is freed while its permissions are changed. Which requests succeed, and which addresses
    and frames are handed out, is left open: the callers are proved for every choice. */
module Kernel {
  import opened VmLayout

  const AREA_PAGES: nat := STATIC_MEMORY_SIZE / PAGE_SIZE

  datatype Option<T> = None | Some(value: T)

  datatype ImportInfo = ImportInfo(fn: nat, paramCount: int)

  /** `struct import_resolver_instance`: a resolve callback or NULL, and whether there is
      a release callback. A resolve that returns an error is None. */
  datatype Instance = Instance(resolve: Option<string -> Option<ImportInfo>>, hasRelease: bool)

  /** RAM index of virtual address a. */
  function Phys(pageTable: map<nat, nat>, a: nat): nat
    requires PageOf(a) in pageTable
  {
    pageTable[PageOf(a)] * PAGE_SIZE + a % PAGE_SIZE
  }

  function ByteAt(ram: seq<Byte>, pageTable: map<nat, nat>, a: nat): Byte {
    if PageOf(a) in pageTable && Phys(pageTable, a) < |ram| then ram[Phys(pageTable, a)] else 0
  }

  /** The bytes that the mapping shows at [base, base + bound). */
  function View(ram: seq<Byte>, pageTable: map<nat, nat>, base: nat, bound: nat): (v: seq<Byte>)
    ensures |v| == bound
    ensures forall i :: 0 <= i < bound ==> v[i] == ByteAt(ram, pageTable, base + i)
  {
    seq<Byte>(bound, i requires 0 <= i < bound => ByteAt(ram, pageTable, base + i))
  }

  ghost predicate Injective(pageTable: map<nat, nat>) {
    forall v, w :: v in pageTable && w in pageTable && pageTable[v] == pageTable[w] ==> v == w
  }

  ghost predicate MappedWithin(pageTable: map<nat, nat>, frames: set<nat>) {
    forall v :: v in pageTable ==> pageTable[v] in frames
  }

  ghost predicate Unmapped(pageTable: map<nat, nat>, frame: nat) {
    forall v :: v in pageTable ==> pageTable[v] != frame
  }

  function Without(pageTable: map<nat, nat>, first: nat, count: nat): (r: map<nat, nat>)
    ensures forall v :: v in r <==> v in pageTable && !(first <= v < first + count)
    ensures forall v :: v in r ==> r[v] == pageTable[v]
  {
    map v | v in pageTable && !(first <= v < first + count) :: pageTable[v]
  }

  function Elems(s: seq<nat>): set<nat> { set x | x in s }

  ghost predicate Distinct(s: seq<nat>) { forall i, j :: 0 <= i < j < |s| ==> s[i] != s[j] }

  /** now is was with the first n frames mapped from page first on, where nothing was. */
  ghost predicate MappedPrefix(was: map<nat, nat>, now: map<nat, nat>, first: nat, frames: seq<nat>, n: nat)
    requires n <= |frames|
  {
    && (forall v :: v in now <==> v in was || first <= v < first + n)
    && (forall v :: v in was ==> v in now && now[v] == was[v] && !(first <= v < first + n))
    && (forall v :: v in now && first <= v < first + n ==> now[v] == frames[v - first])
  }

  lemma NothingMapped(pt: map<nat, nat>, first: nat, frames: seq<nat>)
    ensures MappedPrefix(pt, pt, first, frames, 0)
  {
  }

  lemma MapOneMore(was: map<nat, nat>, now: map<nat, nat>, pages: set<nat>, first: nat, frames: seq<nat>, i: nat)
    requires i < |frames| && MappedPrefix(was, now, first, frames, i) && first + i !in now
    requires Injective(now) && MappedWithin(now, pages) && Elems(frames) <= pages && Distinct(frames)
    requires forall f :: f in frames ==> Unmapped(was, f)
    ensures var then' := now[first + i := frames[i]];
      MappedPrefix(was, then', first, frames, i + 1) && Injective(then') && MappedWithin(then', pages)
  {
    assert Unmapped(was, frames[i]) && frames[i] in Elems(frames);
  }

  // ---------------------------------------------------------------- views

  /** Address a is mapped, to a place that exists. */
  predicate Shown(pt: map<nat, nat>, ramSize: nat, a: nat) { PageOf(a) in pt && Phys(pt, a) < ramSize }

  ghost predicate AllShown(pt: map<nat, nat>, ramSize: nat, base: nat, bound: nat) {
    forall a :: base <= a < base + bound ==> Shown(pt, ramSize, a)
  }

  /** A mapping that only gains pages shows the same bytes where it showed some before. */
  lemma ViewExtends(ram: seq<Byte>, pt: map<nat, nat>, pt': map<nat, nat>, base: nat, bound: nat, bound': nat)
    requires bound <= bound' && AllShown(pt, |ram|, base, bound)
    requires forall v :: v in pt ==> v in pt' && pt'[v] == pt[v]
    ensures View(ram, pt', base, bound')[..bound] == View(ram, pt, base, bound)
  {
    var v, v' := View(ram, pt, base, bound), View(ram, pt', base, bound');
    forall i | 0 <= i < bound
      ensures v'[i] == v[i]
    {
      assert Shown(pt, |ram|, base + i);
    }
  }

  lemma PageInside(base: nat, i: nat, count: nat)
    requires base % PAGE_SIZE == 0 && i < count * PAGE_SIZE
    ensures PageOf(base) <= PageOf(base + i) < PageOf(base) + count
  {
  }

  lemma PageStep(base: nat, count: nat)
    ensures PageOf(base + count * PAGE_SIZE) == PageOf(base) + count
  {
  }

  lemma PhysInjective(pt: map<nat, nat>, a: nat, b: nat)
    requires Injective(pt) && PageOf(a) in pt && PageOf(b) in pt
    ensures Phys(pt, a) == Phys(pt, b) ==> a == b
  {
    if Phys(pt, a) == Phys(pt, b) {
      assert pt[PageOf(a)] == pt[PageOf(b)];
      assert a % PAGE_SIZE == b % PAGE_SIZE;
    }
  }

  /** Storing a byte at a mapped address changes that byte of the view and no other. */
  lemma StoreShows(ram: seq<Byte>, pt: map<nat, nat>, base: nat, bound: nat, offset: nat, b: Byte)
    requires Injective(pt) && offset < bound && AllShown(pt, |ram|, base, bound) && Shown(pt, |ram|, base + offset)
    ensures View(ram[Phys(pt, base + offset) := b], pt, base, bound) == View(ram, pt, base, bound)[offset := b]
  {
    var ram' := ram[Phys(pt, base + offset) := b];
    var v, v' := View(ram, pt, base, bound), View(ram', pt, base, bound);
    forall i | 0 <= i < bound
      ensures v'[i] == v[offset := b][i]
    {
      assert Shown(pt, |ram|, base + i);
      PhysInjective(pt, base + i, base + offset);
    }
  }

  function Splice(s: seq<Byte>, at: nat, data: seq<Byte>): (r: seq<Byte>)
    requires at + |data| <= |s|
    ensures |r| == |s|
    ensures forall i :: 0 <= i < |s| ==> r[i] == if at <= i < at + |data| then data[i - at] else s[i]
  {
    s[..at] + data + s[at + |data|..]
  }

  ghost predicate AreaEmpty(pt: map<nat, nat>, first: nat) {
    forall v :: first <= v < first + AREA_PAGES ==> v !in pt
  }

  class Machine {
    var ram: seq<Byte>             // physical memory, one frame after the other
    var pageTable: map<nat, nat>   // virtual page number -> frame number
    var pages: set<nat>            // frames handed out by alloc_page; 0 is NULL
    var buffers: set<nat>          // addresses from kmalloc, vmalloc, __get_vm_area; 0 is NULL
    var readOnly: set<nat>         // virtual pages made read-only
    var nx: set<nat>               // virtual pages made non-executable
    ghost var instances: multiset<Instance>  // provider instances that still have to be released
    ghost var mapErrors: nat       // how often mapping a range has failed so far
    ghost var refusals: nat        // how often anything has failed: allocation, mapping, user copy

    ghost predicate Valid()
      reads this`ram, this`pageTable, this`pages, this`buffers
    {
      && Injective(pageTable) && MappedWithin(pageTable, pages)
      && (forall f :: f in pages ==> f != 0 && (f + 1) * PAGE_SIZE <= |ram|)
      && 0 !in buffers
    }

    method AllocPage() returns (f: nat)
      requires Valid()
      modifies this`pages, this`refusals
      ensures Valid() && refusals == old(refusals) + if f == 0 then 1 else 0
      ensures f == 0 ==> pages == old(pages)
      ensures f != 0 ==> f !in old(pages) && pages == old(pages) + {f}
    {
      var c: nat := *;
      if c == 0 || c in pages || (c + 1) * PAGE_SIZE > |ram| {
        refusals := refusals + 1;
        return 0;
      }
      f := c;
      pages := pages + {f};
    }

    method FreePage(f: nat)
      requires Valid() && f in pages && Unmapped(pageTable, f)
      modifies this`pages
      ensures Valid() && pages == old(pages) - {f}
    {
      pages := pages - {f};
    }

    /** `map_kernel_range_noflush`: maps a prefix of the wanted pages; the page count when
        that is all of them, otherwise an error. An entry that is in use stops it. A range
        that ends inside a page has no frame for its rest: the empty slot is an error. */
    method MapRange(first: nat, frames: seq<nat>, whole: bool) returns (ret: int, ghost mapped: nat)
      requires Valid() && Elems(frames) <= pages && Distinct(frames)
      requires forall f :: f in frames ==> Unmapped(pageTable, f)
      modifies this`pageTable, this`mapErrors, this`refusals
      ensures Valid() && mapped <= |frames| && MappedPrefix(old(pageTable), pageTable, first, frames, mapped)
      ensures ret == if whole && mapped == |frames| then |frames| else -12
      ensures mapErrors - old(mapErrors) == refusals - old(refusals) == if mapped == |frames| then 0 else 1
    {
      hide Injective, MappedWithin, Distinct, Elems, Unmapped, MappedPrefix;
      var i := 0;
      NothingMapped(pageTable, first, frames);
      while i < |frames|
        invariant 0 <= i <= |frames| && Valid() && mapErrors == old(mapErrors) && refusals == old(refusals)
        invariant MappedPrefix(old(pageTable), pageTable, first, frames, i)
      {
        var refused: bool := *;
        if refused || first + i in pageTable {
          mapErrors, refusals := mapErrors + 1, refusals + 1;
          return -12, i;
        }
        MapOneMore(old(pageTable), pageTable, pages, first, frames, i);
        pageTable := pageTable[first + i := frames[i]];
        i := i + 1;
      }
      return if whole then |frames| else -12, |frames|;
    }

    method UnmapRange(first: nat, count: nat)
      requires Valid()
      modifies this`pageTable
      ensures Valid() && pageTable == Without(old(pageTable), first, count)
    {
      pageTable := Without(pageTable, first, count);
    }

    /** kmalloc or vmalloc: 0 or a new page-aligned address with size writable
        bytes below 2^64. */
    method Alloc(size: nat) returns (b: nat)
      requires Valid()
      modifies this`buffers, this`refusals
      ensures Valid() && refusals == old(refusals) + if b == 0 then 1 else 0
      ensures b == 0 ==> buffers == old(buffers)
      ensures b != 0 ==> b !in old(buffers) && buffers == old(buffers) + {b} && b % PAGE_SIZE == 0 && b + size < U64
      ensures b != 0 ==> PageRange(PageOf(b), size / PAGE_SIZE) !! readOnly
    {
      var c: nat := *;
      if c == 0 || c in buffers || c % PAGE_SIZE != 0 || c + size >= U64 || !(PageRange(PageOf(c), size / PAGE_SIZE) !! readOnly) {
        refusals := refusals + 1;
        return 0;
      }
      b := c;
      buffers := buffers + {b};
    }

    /** `__vmalloc` with PAGE_KERNEL_EXEC: as Alloc, and the pages are executable. */
    method AllocCode(size: nat) returns (b: nat)
      requires Valid()
      modifies this`buffers, this`refusals
      ensures Valid() && refusals == old(refusals) + if b == 0 then 1 else 0
      ensures b == 0 ==> buffers == old(buffers)
      ensures b != 0 ==> b !in old(buffers) && buffers == old(buffers) + {b} && b % PAGE_SIZE == 0 && b + size < U64
      ensures b != 0 ==> PageRange(PageOf(b), size / PAGE_SIZE) !! nx
    {
      var c: nat := *;
      if c == 0 || c in buffers || c % PAGE_SIZE != 0 || c + size >= U64 || !(PageRange(PageOf(c), size / PAGE_SIZE) !! nx) {
        refusals := refusals + 1;
        return 0;
      }
      b := c;
      buffers := buffers + {b};
    }

    /** The code buffer must be executable again when it goes back. */
    method FreeCode(b: nat, ghost size: nat)
      requires Valid() && (b == 0 || b in buffers)
      requires b != 0 ==> PageRange(PageOf(b), size / PAGE_SIZE) !! nx
      modifies this`buffers
      ensures Valid() && buffers == old(buffers) - {b}
    {
      buffers := buffers - {b};
    }

    /** kfree or vfree; freeing NULL does nothing. */
    method Free(b: nat)
      requires Valid() && (b == 0 || b in buffers)
      modifies this`buffers
      ensures Valid() && buffers == old(buffers) - {b}
    {
      buffers := buffers - {b};
    }

    /** The stack backing must be writable again when it goes back. */
    method FreeStack(b: nat)
      requires Valid() && (b == 0 || b in buffers)
      requires b != 0 ==> PageRange(PageOf(b), STACK_SIZE / PAGE_SIZE) !! readOnly
      modifies this`buffers
      ensures Valid() && buffers == old(buffers) - {b}
    {
      buffers := buffers - {b};
    }

    /** An area of address space in which nothing is mapped. */
    method GetVmArea() returns (b: nat)
      requires Valid()
      modifies this`buffers, this`refusals
      ensures Valid() && refusals == old(refusals) + if b == 0 then 1 else 0
      ensures b == 0 ==> buffers == old(buffers)
      ensures b != 0 ==> b !in old(buffers) && buffers == old(buffers) + {b} && b % PAGE_SIZE == 0 && b + STATIC_MEMORY_SIZE < U64
      ensures b != 0 ==> AreaEmpty(pageTable, PageOf(b))
    {
      var c: nat := *;
      if c == 0 || c in buffers || c % PAGE_SIZE != 0 || c + STATIC_MEMORY_SIZE >= U64
        || exists v :: PageOf(c) <= v < PageOf(c) + AREA_PAGES && v in pageTable {
        refusals := refusals + 1;
        return 0;
      }
      b := c;
      buffers := buffers + {b};
    }

    /** Returns the area and drops whatever is still mapped in it. */
    method FreeVmArea(b: nat)
      requires Valid() && b in buffers
      modifies this`buffers, this`pageTable
      ensures Valid() && buffers == old(buffers) - {b} && pageTable == Without(old(pageTable), PageOf(b), AREA_PAGES)
    {
      UnmapRange(PageOf(b), AREA_PAGES);
      buffers := buffers - {b};
    }

    /** The release callback of an instance that has not been released yet. */
    method ReleaseInstance(x: Instance)
      requires x in instances
      modifies this`instances
      ensures instances == old(instances) - multiset{x}
    {
      instances := instances - multiset{x};
    }

    method SetMemoryRo(first: nat, count: nat)
      modifies this`readOnly
      ensures readOnly == old(readOnly) + PageRange(first, count)
    {
      readOnly := readOnly + PageRange(first, count);
    }

    method SetMemoryRw(first: nat, count: nat)
      modifies this`readOnly
      ensures readOnly == old(readOnly) - PageRange(first, count)
    {
      readOnly := readOnly - PageRange(first, count);
    }

    method SetMemoryNx(first: nat, count: nat)
      modifies this`nx
      ensures nx == old(nx) + PageRange(first, count)
    {
      nx := nx + PageRange(first, count);
    }

    method SetMemoryX(first: nat, count: nat)
      modifies this`nx
      ensures nx == old(nx) - PageRange(first, count)
    {
      nx := nx - PageRange(first, count);
    }

    /** Whether a copy from or to user space faults. */
    method CopyFaults() returns (fault: bool)
      modifies this`refusals
      ensures refusals == old(refusals) + if fault then 1 else 0
    {
      fault := *;
      if fault {
        refusals := refusals + 1;
      }
    }

    /** copy_to_user, byte by byte through the mapping. */
    method CopyOut(base: nat, ghost bound: nat, offset: nat, len: nat) returns (data: seq<Byte>)
      requires Valid() && AllShown(pageTable, |ram|, base, bound) && offset + len <= bound
      ensures data == View(ram, pageTable, base, bound)[offset..offset + len]
    {
      data := [];
      for i := 0 to len
        invariant data == View(ram, pageTable, base, bound)[offset..offset + i]
      {
        assert Shown(pageTable, |ram|, base + (offset + i));
        data := data + [ram[Phys(pageTable, base + (offset + i))]];
      }
    }

    /** copy_from_user, byte by byte through the mapping. */
    method CopyIn(base: nat, ghost bound: nat, offset: nat, data: seq<Byte>)
      requires Valid() && AllShown(pageTable, |ram|, base, bound) && offset + |data| <= bound
      modifies this`ram
      ensures Valid() && |ram| == |old(ram)|
      ensures View(ram, pageTable, base, bound) == Splice(View(old(ram), pageTable, base, bound), offset, data)
    {
      ghost var was := View(ram, pageTable, base, bound);
      for i := 0 to |data|
        invariant Valid() && |ram| == |old(ram)|
        invariant View(ram, pageTable, base, bound) == Splice(was, offset, data[..i])
      {
        assert Shown(pageTable, |ram|, base + (offset + i));
        StoreShows(ram, pageTable, base, bound, offset + i, data[i]);
        ram := ram[Phys(pageTable, base + (offset + i)) := data[i]];
        assert Splice(was, offset, data[..i])[offset + i := data[i]] == Splice(was, offset, data[..i + 1]);
      }
      assert data[..|data|] == data;
    }
  }
}
