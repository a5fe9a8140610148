/** The linear memory of an engine (vm.c): an array of page frames, a mapping of them at
    consecutive virtual addresses, and a base and bound through which guest and host see
    one growable byte sequence. */
module LinearMemory {
  import opened VmLayout
  import opened Kernel

  const SLOTS: nat := STATIC_MEMORY_AVAILABLE / PAGE_SIZE

  /** The ways `wasm_memory_grow` ends. */
  datatype GrowOutcome = NoMemory | NoChange | TooLarge | OutOfPages | MapFailed | Granted

  // ---------------------------------------------------------------- slots

  /** Slot i holds a live frame that backs virtual page first + i. */
  ghost predicate Backed(pages: set<nat>, pt: map<nat, nat>, slots: seq<nat>, first: nat) {
    forall i :: 0 <= i < |slots| ==> slots[i] in pages && first + i in pt && pt[first + i] == slots[i]
  }

  /** The slots beyond the page count are empty and so are their virtual pages. */
  ghost predicate Tidy(pt: map<nat, nat>, rest: seq<nat>, from: nat, to: nat) {
    (forall i :: 0 <= i < |rest| ==> rest[i] == 0) && forall v :: from <= v < to ==> v !in pt
  }

  /** The frames are new, distinct, and all that was taken. */
  ghost predicate Taken(was: set<nat>, now: set<nat>, frames: seq<nat>) {
    Distinct(frames) && Elems(frames) !! was && now == was + Elems(frames)
  }

  lemma BackedGrows(was: set<nat>, now: set<nat>, pt: map<nat, nat>, pt': map<nat, nat>, slots: seq<nat>, frames: seq<nat>, first: nat)
    requires Backed(was, pt, slots, first) && Taken(was, now, frames)
    requires MappedPrefix(pt, pt', first + |slots|, frames, |frames|)
    ensures Backed(now, pt', slots + frames, first)
  {
    forall i | 0 <= i < |frames|
      ensures frames[i] in now && first + |slots| + i in pt' && pt'[first + |slots| + i] == frames[i]
    {
      assert frames[i] in Elems(frames);
    }
  }

  lemma BackedStays(was: set<nat>, now: set<nat>, pt: map<nat, nat>, pt': map<nat, nat>, slots: seq<nat>, first: nat)
    requires Backed(was, pt, slots, first) && was <= now
    requires forall v :: v in pt ==> v in pt' && pt'[v] == pt[v]
    ensures Backed(now, pt', slots, first)
  {
  }

  lemma BackedShows(ramSize: nat, pages: set<nat>, pt: map<nat, nat>, slots: seq<nat>, base: nat)
    requires Backed(pages, pt, slots, PageOf(base)) && base % PAGE_SIZE == 0
    requires forall f :: f in pages ==> (f + 1) * PAGE_SIZE <= ramSize
    ensures AllShown(pt, ramSize, base, |slots| * PAGE_SIZE)
  {
    forall a | base <= a < base + |slots| * PAGE_SIZE
      ensures Shown(pt, ramSize, a)
    {
      PageInside(base, a - base, |slots|);
      assert slots[PageOf(a) - PageOf(base)] in pages;
    }
  }

  /** Base, page array, mapping and books fit together. */
  ghost predicate Consistent(pages: set<nat>, pt: map<nat, nat>, slots: seq<nat>, count: nat, base: nat, leaked: set<nat>, untidy: bool) {
    && |slots| == SLOTS && count <= SLOTS
    && base != 0 && base % PAGE_SIZE == 0 && base + STATIC_MEMORY_SIZE < U64
    && Backed(pages, pt, slots[..count], PageOf(base))
    && leaked <= pages && leaked !! Elems(slots[..count]) && (leaked != {} <==> untidy)
    && (!untidy ==> Tidy(pt, slots[count..], PageOf(base) + count, PageOf(base) + AREA_PAGES))
  }

  lemma ConsistentShape(pages: set<nat>, pt: map<nat, nat>, slots: seq<nat>, count: nat, base: nat, leaked: set<nat>, untidy: bool)
    requires Consistent(pages, pt, slots, count, base, leaked, untidy)
    ensures |slots| == SLOTS && count <= SLOTS && base % PAGE_SIZE == 0 && 0 < base && base + STATIC_MEMORY_SIZE < U64
  {
  }

  lemma RefusalKeeps(pages: set<nat>, pt: map<nat, nat>, was: seq<nat>, now: seq<nat>, count: nat, to: nat, base: nat, leaked: set<nat>, untidy: bool)
    requires Consistent(pages, pt, was, count, base, leaked, untidy)
    requires count <= to <= |now| == |was| && now[..count] == was[..count] && now[to..] == was[to..]
    requires forall j :: count <= j < to ==> now[j] == 0 || now[j] == was[j]
    ensures Consistent(pages, pt, now, count, base, leaked, untidy)
    ensures !untidy ==> now == was
    ensures (pages - pages) + (Elems(was[..count]) + leaked) == Elems(now[..count]) + leaked
  {
    if !untidy {
      forall j | 0 <= j < |now|
        ensures now[j] == was[j]
      {
        if j < count {
          assert now[..count][j] == was[..count][j];
        } else if to <= j {
          assert now[to..][j - to] == was[to..][j - to];
        } else {
          assert was[count..][j - count] == 0;
        }
      }
    }
  }

  lemma MapFailureKeeps(pages: set<nat>, pages': set<nat>, pt: map<nat, nat>, pt': map<nat, nat>, was: seq<nat>, now: seq<nat>,
                        count: nat, frames: seq<nat>, n: nat, base: nat, leaked: set<nat>, untidy: bool)
    requires Consistent(pages, pt, was, count, base, leaked, untidy)
    requires |now| == |was| && now[..count] == was[..count] && Taken(pages, pages', frames)
    requires n < |frames| && MappedPrefix(pt, pt', PageOf(base) + count, frames, n)
    ensures Consistent(pages', pt', now, count, base, leaked + Elems(frames), true)
    ensures (pages' - pages) + (Elems(was[..count]) + leaked) == Elems(now[..count]) + (leaked + Elems(frames))
  {
    BackedStays(pages, pages', pt, pt', was[..count], PageOf(base));
    assert frames[0] in Elems(frames);
    forall f | f in Elems(was[..count])
      ensures f in pages
    {
      assert f in was[..count];
    }
  }

  lemma GrantKeeps(pages: set<nat>, pages': set<nat>, pt: map<nat, nat>, pt': map<nat, nat>, was: seq<nat>, now: seq<nat>,
                   count: nat, frames: seq<nat>, base: nat, leaked: set<nat>, untidy: bool)
    requires Consistent(pages, pt, was, count, base, leaked, untidy) && count + |frames| <= |now| == |was|
    requires now[..count] == was[..count] && now[count + |frames|..] == was[count + |frames|..]
    requires frames == now[count..count + |frames|] && Taken(pages, pages', frames)
    requires MappedPrefix(pt, pt', PageOf(base) + count, frames, |frames|)
    ensures now[..count + |frames|] == was[..count] + frames
    ensures Consistent(pages', pt', now, count + |frames|, base, leaked, untidy)
    ensures (pages' - pages) + (Elems(was[..count]) + leaked) == Elems(now[..count + |frames|]) + leaked
  {
    assert now[..count + |frames|] == was[..count] + frames;
    BackedGrows(pages, pages', pt, pt', was[..count], frames, PageOf(base));
    if !untidy {
      var rest := now[count + |frames|..];
      forall i | 0 <= i < |rest|
        ensures rest[i] == 0
      {
        assert rest[i] == was[count + |frames|..][i] == was[count..][i + |frames|];
      }
    }
  }

  lemma FreshUnmapped(was: set<nat>, now: set<nat>, pt: map<nat, nat>, frames: seq<nat>)
    requires MappedWithin(pt, was) && Taken(was, now, frames)
    ensures forall f :: f in frames ==> Unmapped(pt, f)
    ensures Elems(frames) <= now && Distinct(frames)
    ensures was <= now && now - was == Elems(frames)
  {
    forall f | f in frames
      ensures Unmapped(pt, f)
    {
      assert f in Elems(frames);
    }
  }

  /** The frames are distinct and live, and mapped at most in the given window. */
  ghost predicate Releasable(pages: set<nat>, pt: map<nat, nat>, frames: seq<nat>, first: nat, count: nat) {
    && Distinct(frames) && Elems(frames) <= pages
    && forall v :: v in pt && pt[v] in frames ==> first <= v < first + count
  }

  lemma BackedIsReleasable(pages: set<nat>, pt: map<nat, nat>, slots: seq<nat>, first: nat)
    requires Injective(pt) && Backed(pages, pt, slots, first)
    ensures Releasable(pages, pt, slots, first, |slots|)
  {
    forall v | v in pt && pt[v] in slots
      ensures first <= v < first + |slots|
    {
      var i :| 0 <= i < |slots| && slots[i] == pt[v];
      assert pt[first + i] == pt[v];
    }
    forall i, j | 0 <= i < j < |slots|
      ensures slots[i] != slots[j]
    {
      assert slots[i] in pages && slots[j] in pages;
      assert pt[first + i] == slots[i] && pt[first + j] == slots[j];
    }
  }

  lemma PrefixIsReleasable(was: set<nat>, now: set<nat>, pt: map<nat, nat>, pt': map<nat, nat>, first: nat, frames: seq<nat>, n: nat)
    requires MappedWithin(pt, was) && Taken(was, now, frames) && n <= |frames| && MappedPrefix(pt, pt', first, frames, n)
    ensures Releasable(now, pt', frames, first, |frames|)
  {
    FreshUnmapped(was, now, pt, frames);
  }

  lemma WithoutTwice(pt: map<nat, nat>, first: nat, n: nat, m: nat)
    requires n <= m
    ensures Without(Without(pt, first, n), first, m) == Without(pt, first, m)
  {
  }

  lemma AreaRestored(pt: map<nat, nat>, pt': map<nat, nat>, first: nat, frames: seq<nat>, n: nat)
    requires AreaEmpty(pt, first) && n <= |frames| <= SLOTS && MappedPrefix(pt, pt', first, frames, n)
    ensures Without(pt', first, AREA_PAGES) == pt
  {
  }

  lemma UnmappedIsReleasable(was: set<nat>, now: set<nat>, pt: map<nat, nat>, first: nat, frames: seq<nat>)
    requires MappedWithin(pt, was) && Taken(was, now, frames)
    ensures Releasable(now, pt, frames, first, 0)
  {
    FreshUnmapped(was, now, pt, frames);
  }

  lemma FirstPagesConsistent(was: set<nat>, now: set<nat>, pt: map<nat, nat>, pt': map<nat, nat>, slots: seq<nat>, count: nat, base: nat)
    requires |slots| == SLOTS && count <= SLOTS && base != 0 && base % PAGE_SIZE == 0 && base + STATIC_MEMORY_SIZE < U64
    requires AreaEmpty(pt, PageOf(base)) && Taken(was, now, slots[..count])
    requires MappedPrefix(pt, pt', PageOf(base), slots[..count], count)
    requires forall j :: count <= j < SLOTS ==> slots[j] == 0
    ensures Consistent(now, pt', slots, count, base, {}, false)
  {
    hide PageOf, Backed, Taken, Elems, Tidy, MappedPrefix, AreaEmpty;
    FirstPagesBacked(was, now, pt, pt', slots[..count], PageOf(base));
    FirstPagesTidy(pt, pt', slots, count, PageOf(base));
  }

  lemma FirstPagesBacked(was: set<nat>, now: set<nat>, pt: map<nat, nat>, pt': map<nat, nat>, frames: seq<nat>, first: nat)
    requires Taken(was, now, frames) && MappedPrefix(pt, pt', first, frames, |frames|)
    ensures Backed(now, pt', frames, first)
  {
    BackedGrows(was, now, pt, pt', [], frames, first);
    assert [] + frames == frames;
  }

  lemma FirstPagesTidy(pt: map<nat, nat>, pt': map<nat, nat>, slots: seq<nat>, count: nat, first: nat)
    requires count <= |slots| == SLOTS && AreaEmpty(pt, first) && MappedPrefix(pt, pt', first, slots[..count], count)
    requires forall j :: count <= j < SLOTS ==> slots[j] == 0
    ensures Tidy(pt', slots[count..], first + count, first + AREA_PAGES)
  {
  }

  lemma EmptyElems()
    ensures Elems([]) == {}
  {
  }

  lemma TakenAccount(was: set<nat>, now: set<nat>, frames: seq<nat>)
    requires Taken(was, now, frames)
    ensures now == was + Elems(frames) && Elems(frames) !! was
  {
  }

  lemma ConsistentShows(ramSize: nat, pages: set<nat>, pt: map<nat, nat>, slots: seq<nat>, count: nat, base: nat, leaked: set<nat>, untidy: bool)
    requires Consistent(pages, pt, slots, count, base, leaked, untidy)
    requires forall f :: f in pages ==> f != 0 && (f + 1) * PAGE_SIZE <= ramSize
    ensures AllShown(pt, ramSize, base, count * PAGE_SIZE)
  {
    BackedShows(ramSize, pages, pt, slots[..count], base);
  }

  lemma MappedInArea(pt: map<nat, nat>, pt': map<nat, nat>, first: nat, count: nat, frames: seq<nat>, n: nat)
    requires n <= |frames| && count + |frames| <= SLOTS && MappedPrefix(pt, pt', first + count, frames, n)
    ensures forall v :: v in pt' && v !in pt ==> first <= v < first + AREA_PAGES
    ensures forall v :: v in pt ==> v in pt' && pt'[v] == pt[v]
  {
  }

  class Memory {
    const k: Machine
    var memoryBase: nat
    var memoryBound: nat
    var staticMemoryVm: nat
    var memoryPagesBuf: nat       // address of memory_pages, 0 when NULL
    var memoryPages: array<nat>   // its elements
    var memoryPageCount: nat
    ghost var leaked: set<nat>    // frames no slot below the count holds any more
    ghost var everUntidy: bool    // some grow failed in its mapping step

    constructor (k: Machine)
      ensures this.k == k && fresh(memoryPages) && memoryPages.Length == 0
      ensures memoryBase == 0 && memoryBound == 0 && staticMemoryVm == 0 && memoryPagesBuf == 0 && memoryPageCount == 0
      ensures leaked == {} && !everUntidy
    {
      this.k := k;
      memoryBase, memoryBound, staticMemoryVm, memoryPagesBuf, memoryPageCount := 0, 0, 0, 0, 0;
      memoryPages := new nat[0];
      leaked, everUntidy := {}, false;
    }

    /** Frames in the slots below the page count. */
    ghost function Owned(): set<nat>
      reads this, memoryPages
    {
      if memoryPageCount <= memoryPages.Length then Elems(memoryPages[..][..memoryPageCount]) else {}
    }

    ghost predicate Shaped()
      reads this, k`pages, k`pageTable, memoryPages
    {
      && Consistent(k.pages, k.pageTable, memoryPages[..], memoryPageCount, memoryBase, leaked, everUntidy)
      && memoryBase == staticMemoryVm
      && memoryBound == memoryPageCount * PAGE_SIZE > 0
    }

    ghost predicate Loaded()
      reads this, k`ram, k`pages, k`pageTable, k`buffers, memoryPages
    {
      k.Valid() && Shaped()
    }

    /** Either an engine without memory, whose base is NULL, or a loaded one. */
    ghost predicate Valid()
      reads this, k`ram, k`pages, k`pageTable, k`buffers, memoryPages
    {
      && k.Valid()
      && (memoryBase == 0 ==> memoryBound == 0 && leaked == {} && !everUntidy)
      && (memoryBase != 0 ==> Loaded())
    }

    /** What guest and host see. */
    ghost function Flat(): seq<Byte>
      reads this, k`ram, k`pageTable
    {
      View(k.ram, k.pageTable, memoryBase, memoryBound)
    }

    /** Gives back the frames in slots [from, to) and clears the slots. */
    method Rollback(from: nat, to: nat)
      requires k.Valid() && from <= to <= memoryPages.Length
      requires Distinct(memoryPages[from..to])
      requires forall f :: f in memoryPages[from..to] ==> f in k.pages && Unmapped(k.pageTable, f)
      modifies memoryPages, k`pages
      ensures k.Valid() && k.pages == old(k.pages) - old(Elems(memoryPages[from..to]))
      ensures forall j :: 0 <= j < memoryPages.Length ==> memoryPages[j] == if from <= j < to then 0 else old(memoryPages[j])
    {
      ghost var frames := memoryPages[from..to];
      var j := from;
      while j < to
        invariant from <= j <= to && k.Valid()
        invariant forall i :: 0 <= i < memoryPages.Length ==> memoryPages[i] == if from <= i < j then 0 else old(memoryPages[i])
        invariant k.pages == old(k.pages) - Elems(frames[..j - from])
      {
        assert memoryPages[j] == frames[j - from];
        assert frames[..j + 1 - from] == frames[..j - from] + [frames[j - from]];
        k.FreePage(memoryPages[j]);
        memoryPages[j] := 0;
        j := j + 1;
      }
      assert frames[..to - from] == frames;
    }

    /** Fills slots [from, to) with new frames, or leaves no frame taken. */
    method AllocSlots(from: nat, to: nat) returns (ok: bool)
      requires k.Valid() && from <= to <= memoryPages.Length
      modifies memoryPages, k`pages, k`refusals
      ensures k.Valid() && old(k.refusals) <= k.refusals && (ok <==> k.refusals == old(k.refusals))
      ensures memoryPages[..][..from] == old(memoryPages[..])[..from] && memoryPages[..][to..] == old(memoryPages[..])[to..]
      ensures !ok ==> k.pages == old(k.pages)
      ensures !ok ==> forall j :: from <= j < to ==> memoryPages[j] == 0 || memoryPages[j] == old(memoryPages[j])
      ensures ok ==> Taken(old(k.pages), k.pages, memoryPages[from..to])
    {
      var i := from;
      while i < to
        invariant from <= i <= to && k.Valid() && k.refusals == old(k.refusals)
        invariant memoryPages[..from] == old(memoryPages[..from])
        invariant forall j :: i <= j < memoryPages.Length ==> memoryPages[j] == old(memoryPages[j])
        invariant Taken(old(k.pages), k.pages, memoryPages[from..i])
      {
        ghost var before := memoryPages[from..i];
        var f := k.AllocPage();
        memoryPages[i] := f;
        assert memoryPages[from..i] == before;
        if f == 0 {
          FreshUnmapped(old(k.pages), k.pages, k.pageTable, before);
          Rollback(from, i);
          return false;
        }
        assert memoryPages[from..i + 1] == before + [f];
        i := i + 1;
      }
      return true;
    }

    /** `wasm_memory_size`. */
    function Size(): (pages: nat)
      reads this
    {
      if memoryBase != 0 then memoryBound / WASM_PAGE else 0
    }

    /** The mapping step and the commit of a grow whose new frames are in their slots. */
    method MapSlots(frames: seq<nat>, ghost was: seq<nat>, ghost wasPages: set<nat>) returns (ghost how: GrowOutcome, ok: bool)
      requires k.Valid() && MappedWithin(k.pageTable, wasPages) && Taken(wasPages, k.pages, frames) && frames != []
      requires Consistent(wasPages, k.pageTable, was, memoryPageCount, memoryBase, leaked, everUntidy)
      requires memoryBase == staticMemoryVm && memoryBound == memoryPageCount * PAGE_SIZE > 0
      requires memoryPageCount + |frames| <= SLOTS && |was| == memoryPages.Length == SLOTS
      requires memoryPages[..][..memoryPageCount] == was[..memoryPageCount]
      requires memoryPages[..][memoryPageCount + |frames|..] == was[memoryPageCount + |frames|..]
      requires frames == memoryPages[..][memoryPageCount..memoryPageCount + |frames|]
      modifies this`memoryPageCount, this`memoryBound, this`leaked, this`everUntidy, k`pageTable, k`mapErrors, k`refusals
      ensures Loaded() && ok == (how == Granted) && (how == Granted || how == MapFailed)
      ensures memoryPageCount == old(memoryPageCount) + if ok then |frames| else 0
      ensures (k.pages - wasPages) + (Elems(was[..old(memoryPageCount)]) + old(leaked)) == Elems(memoryPages[..][..memoryPageCount]) + leaked
      ensures everUntidy <==> old(everUntidy) || how == MapFailed
      ensures k.mapErrors == old(k.mapErrors) + if how == MapFailed then 1 else 0
      ensures old(k.refusals) <= k.refusals && (k.refusals == old(k.refusals) <==> how != MapFailed && how != OutOfPages)
      ensures forall v :: v in k.pageTable && v !in old(k.pageTable) ==> PageOf(memoryBase) <= v < PageOf(memoryBase) + AREA_PAGES
      ensures forall v :: v in old(k.pageTable) ==> v in k.pageTable && k.pageTable[v] == old(k.pageTable)[v]
    {
      hide Consistent, Elems, PageOf, Backed, Tidy, Taken, MappedPrefix, Unmapped, Distinct, Injective, MappedWithin, View, Machine.Valid;
      ghost var c := memoryPageCount;
      FreshUnmapped(wasPages, k.pages, k.pageTable, frames);
      PageStep(memoryBase, c);
      var ret, mapped := k.MapRange(PageOf(staticMemoryVm + memoryBound), frames, true);
      MappedInArea(old(k.pageTable), k.pageTable, PageOf(memoryBase), c, frames, mapped);
      if ret != |frames| {
        MapFailureKeeps(wasPages, k.pages, old(k.pageTable), k.pageTable, was, memoryPages[..], c, frames, mapped, memoryBase, leaked, everUntidy);
        leaked, everUntidy := leaked + Elems(frames), true;
        return MapFailed, false;
      }
      GrantKeeps(wasPages, k.pages, old(k.pageTable), k.pageTable, was, memoryPages[..], c, frames, memoryBase, leaked, everUntidy);
      memoryPageCount := memoryPageCount + |frames|;
      memoryBound := memoryBound + |frames| * PAGE_SIZE;
      return Granted, true;
    }

    /** Allocation, mapping and commit of a grow by extra slots. */
    method GrowBy(extra: nat) returns (ghost how: GrowOutcome, ok: bool)
      requires Loaded() && 0 < extra && memoryPageCount + extra <= SLOTS
      modifies this`memoryPageCount, this`memoryBound, this`leaked, this`everUntidy, memoryPages, k`pages, k`pageTable, k`mapErrors, k`refusals
      ensures Loaded()
      ensures how == OutOfPages || how == MapFailed || how == Granted
      ensures ok <==> how == Granted
      ensures memoryPageCount == old(memoryPageCount) + if ok then extra else 0
      ensures how == OutOfPages ==> k.pages == old(k.pages) && k.pageTable == old(k.pageTable)
      ensures how == OutOfPages && !everUntidy ==> memoryPages[..] == old(memoryPages[..])
      ensures old(k.pages) <= k.pages
      ensures (k.pages - old(k.pages)) + (old(Owned()) + old(leaked)) == Owned() + leaked
      ensures everUntidy <==> old(everUntidy) || how == MapFailed
      ensures k.mapErrors == old(k.mapErrors) + if how == MapFailed then 1 else 0
      ensures old(k.refusals) <= k.refusals && (k.refusals == old(k.refusals) <==> how != MapFailed && how != OutOfPages)
      ensures forall v :: v in k.pageTable && v !in old(k.pageTable) ==> PageOf(memoryBase) <= v < PageOf(memoryBase) + AREA_PAGES
      ensures forall v :: v in old(k.pageTable) ==> v in k.pageTable && k.pageTable[v] == old(k.pageTable)[v]
    {
      hide Consistent, Elems, PageOf, Taken, Injective, MappedWithin;
      ConsistentShape(k.pages, k.pageTable, memoryPages[..], memoryPageCount, memoryBase, leaked, everUntidy);
      var c := memoryPageCount;
      ghost var was := memoryPages[..];
      var filled := AllocSlots(c, c + extra);
      if !filled {
        RefusalKeeps(k.pages, k.pageTable, was, memoryPages[..], c, c + extra, memoryBase, leaked, everUntidy);
        return OutOfPages, false;
      }
      var frames := memoryPages[c..c + extra];
      FreshUnmapped(old(k.pages), k.pages, k.pageTable, frames);
      how, ok := MapSlots(frames, was, old(k.pages));
    }

    lemma AllMapped()
      requires Loaded()
      ensures AllShown(k.pageTable, |k.ram|, memoryBase, memoryBound)
      ensures memoryBound <= STATIC_MEMORY_AVAILABLE && memoryBase + STATIC_MEMORY_SIZE < U64
    {
      BackedShows(|k.ram|, k.pages, k.pageTable, memoryPages[..][..memoryPageCount], memoryBase);
    }

    /** The page array and the mapping, as load and every grow leave them: slot i is
        non-null exactly below the page count, unless a grow failed in its mapping step,
        and backs page i of the area, and no more of the area is mapped. */
    lemma SlotsBackTheArea()
      requires Loaded()
      ensures memoryPages.Length == SLOTS && memoryPageCount == memoryBound / PAGE_SIZE <= SLOTS
      ensures Backed(k.pages, k.pageTable, memoryPages[..memoryPageCount], PageOf(memoryBase))
      ensures forall i :: 0 <= i < memoryPageCount ==> memoryPages[i] != 0
      ensures !everUntidy ==> forall i :: memoryPageCount <= i < SLOTS ==> memoryPages[i] == 0
      ensures !everUntidy ==> forall v :: PageOf(memoryBase) + memoryPageCount <= v < PageOf(memoryBase) + AREA_PAGES ==> v !in k.pageTable
    {
      assert memoryPages[..][..memoryPageCount] == memoryPages[..memoryPageCount];
      assert forall i :: 0 <= i < memoryPageCount ==> memoryPages[..memoryPageCount][i] == memoryPages[i];
      assert forall i :: memoryPageCount <= i < SLOTS ==> memoryPages[i] == memoryPages[..][memoryPageCount..][i - memoryPageCount];
    }

    /** Every byte of a slice is on a mapped page, and any bound a later grow could set gives
        the same slice at the same address. */
    lemma SliceIsMapped(offset: U32Word, len: U32Word, later: nat)
      requires Loaded() && memoryBound <= later <= STATIC_MEMORY_AVAILABLE
      requires GetMemorySlice(memoryBase, memoryBound, offset, len) != 0
      ensures forall a :: memoryBase + offset <= a < memoryBase + offset + len ==> Shown(k.pageTable, |k.ram|, a)
      ensures GetMemorySlice(memoryBase, later, offset, len) == GetMemorySlice(memoryBase, memoryBound, offset, len) == memoryBase + offset
    {
      AllMapped();
    }

    /** `wasm_memory_grow`. Whatever the kernel does, the bytes seen before stay at their
        addresses; a refusal before the mapping step leaves everything as it was; exactly
        a refusal in the mapping step strands the frames it had taken. */
    method Grow(pages: U32Word) returns (r: int, ghost how: GrowOutcome)
      requires Valid()
      modifies this`memoryPageCount, this`memoryBound, this`leaked, this`everUntidy, memoryPages, k`pages, k`pageTable, k`mapErrors, k`refusals
      ensures Valid()
      ensures how == NoMemory <==> memoryBase == 0
      ensures how == NoChange <==> memoryBase != 0 && pages == 0
      ensures how == TooLarge <==> memoryBase != 0 && pages != 0 && old(memoryBound) + pages * WASM_PAGE > STATIC_MEMORY_AVAILABLE
      ensures r == if how == NoChange || how == Granted then old(Size()) else -1
      ensures memoryBound == old(memoryBound) + if how == Granted then pages * WASM_PAGE else 0
      ensures how != Granted ==> memoryPageCount == old(memoryPageCount)
      ensures Flat()[..old(memoryBound)] == old(Flat())
      ensures how != Granted && how != MapFailed ==> k.pages == old(k.pages) && k.pageTable == old(k.pageTable)
      ensures how != Granted && how != MapFailed && !everUntidy ==> memoryPages[..] == old(memoryPages[..])
      ensures old(k.pages) <= k.pages
      ensures memoryBase == 0 ==> k.pages == old(k.pages)
      ensures memoryBase != 0 ==> (k.pages - old(k.pages)) + (old(Owned()) + old(leaked)) == Owned() + leaked
      ensures everUntidy <==> old(everUntidy) || how == MapFailed
      ensures k.mapErrors == old(k.mapErrors) + if how == MapFailed then 1 else 0
      ensures old(k.refusals) <= k.refusals && (k.refusals == old(k.refusals) <==> how != MapFailed && how != OutOfPages)
      ensures forall v :: v in k.pageTable && v !in old(k.pageTable) ==> PageOf(memoryBase) <= v < PageOf(memoryBase) + AREA_PAGES
      ensures forall v :: v in old(k.pageTable) ==> v in k.pageTable && k.pageTable[v] == old(k.pageTable)[v]
    {
      hide Consistent, Owned, PageOf, View, AllShown, Injective, MappedWithin;
      if memoryBase == 0 {
        return -1, NoMemory;
      }
      ConsistentShape(k.pages, k.pageTable, memoryPages[..], memoryPageCount, memoryBase, leaked, everUntidy);
      AllMapped();
      ViewExtends(k.ram, k.pageTable, k.pageTable, memoryBase, memoryBound, memoryBound);
      var oldSize := memoryBound;
      if pages == 0 {
        return oldSize / WASM_PAGE, NoChange;
      }
      var delta := pages * WASM_PAGE;
      if oldSize + delta > STATIC_MEMORY_AVAILABLE {
        return -1, TooLarge;
      }
      var granted;
      assert delta / PAGE_SIZE == 16 * pages;
      how, granted := GrowBy(delta / PAGE_SIZE);
      ConsistentShape(k.pages, k.pageTable, memoryPages[..], memoryPageCount, memoryBase, leaked, everUntidy);
      ViewExtends(k.ram, old(k.pageTable), k.pageTable, memoryBase, oldSize, memoryBound);
      r := if granted then oldSize / WASM_PAGE else -1;
    }

    /** Host read: `handle_wasm_read_memory` from the slice check on. None is -EINVAL. */
    method HostRead(offset: U32Word, len: U32Word) returns (ok: bool, data: seq<Byte>)
      requires Valid()
      ensures ok <==> offset < |Flat()| && offset + len <= |Flat()|
      ensures ok ==> data == Flat()[offset..offset + len]
    {
      hide Consistent;
      data := [];
      if memoryBase != 0 {
        AllMapped();
      }
      var slice := GetMemorySlice(memoryBase, memoryBound, offset, len);
      if slice == 0 {
        return false, [];
      }
      data := k.CopyOut(memoryBase, memoryBound, slice - memoryBase, len);
      return true, data;
    }

    /** Host write: landed is what copy_from_user leaves in the slice, complete or not. */
    method HostWrite(offset: U32Word, landed: seq<Byte>) returns (ok: bool)
      requires Valid() && |landed| < U32
      modifies k`ram
      ensures Valid()
      ensures ok <==> offset < |old(Flat())| && offset + |landed| <= |old(Flat())|
      ensures Flat() == if ok then Splice(old(Flat()), offset, landed) else old(Flat())
    {
      hide Consistent;
      if memoryBase != 0 {
        AllMapped();
      }
      var slice := GetMemorySlice(memoryBase, memoryBound, offset, |landed|);
      if slice == 0 {
        return false;
      }
      k.CopyIn(memoryBase, memoryBound, slice - memoryBase, landed);
      return true;
    }

    /** The frames in the slots can be given back, after unmapping the pages below the
        count when they are mapped. */
    ghost predicate Freeable(mapped: bool)
      reads this, k`pages, k`pageTable, memoryPages
    {
      && (memoryPagesBuf != 0 ==>
           && memoryPageCount <= memoryPages.Length == SLOTS && staticMemoryVm != 0
           && Releasable(k.pages, k.pageTable, memoryPages[..][..memoryPageCount], PageOf(staticMemoryVm), if mapped then memoryPageCount else 0))
      && (memoryPagesBuf == 0 ==> Owned() == {})
    }

    lemma LoadedIsFreeable()
      requires Loaded() && memoryPagesBuf != 0
      ensures Freeable(true)
    {
      BackedIsReleasable(k.pages, k.pageTable, memoryPages[..][..memoryPageCount], PageOf(memoryBase));
    }

    /** Allocates frames into slots 0, 1, ... until n are there or none is left. */
    method FillSlots(n: nat) returns (got: nat)
      requires k.Valid() && n <= memoryPages.Length
      modifies memoryPages, k`pages, k`refusals
      ensures k.Valid() && got <= n && old(k.refusals) <= k.refusals && (got == n <==> k.refusals == old(k.refusals))
      ensures Taken(old(k.pages), k.pages, memoryPages[..][..got])
      ensures forall j :: n <= j < memoryPages.Length ==> memoryPages[j] == old(memoryPages[j])
    {
      got := 0;
      while got < n
        invariant 0 <= got <= n && k.Valid() && k.refusals == old(k.refusals)
        invariant Taken(old(k.pages), k.pages, memoryPages[..][..got])
        invariant forall j :: n <= j < memoryPages.Length ==> memoryPages[j] == old(memoryPages[j])
      {
        ghost var before := memoryPages[..][..got];
        var f := k.AllocPage();
        memoryPages[got] := f;
        assert memoryPages[..][..got] == before;
        if f == 0 {
          return;
        }
        assert memoryPages[..][..got + 1] == before + [f];
        got := got + 1;
      }
    }

    /** Unmaps and frees the pages, the page array and the area. */
    method FreeMemory(mapped: bool)
      requires k.Valid() && Freeable(mapped)
      requires (staticMemoryVm == 0 || staticMemoryVm in k.buffers) && (memoryPagesBuf == 0 || memoryPagesBuf in k.buffers)
      requires memoryPagesBuf != 0 ==> memoryPagesBuf != staticMemoryVm
      modifies k`pages, k`pageTable, k`buffers
      ensures k.Valid()
      ensures k.pages == old(k.pages) - Owned()
      ensures k.buffers == old(k.buffers) - {memoryPagesBuf, staticMemoryVm}
      ensures k.pageTable == if staticMemoryVm != 0 then Without(old(k.pageTable), PageOf(staticMemoryVm), AREA_PAGES) else old(k.pageTable)
    {
      hide PageOf;
      if memoryPagesBuf != 0 {
        ghost var frames := memoryPages[..][..memoryPageCount];
        if mapped {
          k.UnmapRange(PageOf(staticMemoryVm), memoryPageCount);
          WithoutTwice(old(k.pageTable), PageOf(staticMemoryVm), memoryPageCount, AREA_PAGES);
        }
        ghost var pt := k.pageTable;
        var i := 0;
        while i < memoryPageCount
          invariant 0 <= i <= memoryPageCount && k.Valid() && k.pageTable == pt && k.buffers == old(k.buffers)
          invariant k.pages == old(k.pages) - Elems(frames[..i])
          invariant forall f :: f in frames ==> Unmapped(k.pageTable, f)
        {
          assert memoryPages[i] == frames[i] && frames[i] in Elems(frames);
          assert frames[..i + 1] == frames[..i] + [frames[i]];
          k.FreePage(memoryPages[i]);
          i := i + 1;
        }
        assert frames[..memoryPageCount] == frames;
        k.Free(memoryPagesBuf);
      }
      if staticMemoryVm != 0 {
        k.FreeVmArea(staticMemoryVm);
      }
    }

    /** Frames for the initial whole pages, and their mapping. whole: the initial size is
        a number of whole pages. */
    method Populate(count: nat, whole: bool) returns (ok: bool, mapped: bool)
      requires k.Valid() && count <= SLOTS == memoryPages.Length && (forall j :: 0 <= j < SLOTS ==> memoryPages[j] == 0)
      requires staticMemoryVm != 0 && staticMemoryVm % PAGE_SIZE == 0 && staticMemoryVm + STATIC_MEMORY_SIZE < U64
      requires AreaEmpty(k.pageTable, PageOf(staticMemoryVm)) && memoryPageCount == count
      modifies this`memoryPageCount, memoryPages, k`pages, k`pageTable, k`mapErrors, k`refusals
      ensures k.Valid() && memoryPageCount <= count && old(k.mapErrors) <= k.mapErrors
      ensures old(k.refusals) <= k.refusals && (ok <==> whole && k.refusals == old(k.refusals))
      ensures Taken(old(k.pages), k.pages, memoryPages[..][..memoryPageCount])
      ensures Releasable(k.pages, k.pageTable, memoryPages[..][..memoryPageCount], PageOf(staticMemoryVm), if mapped then memoryPageCount else 0)
      ensures Without(k.pageTable, PageOf(staticMemoryVm), AREA_PAGES) == old(k.pageTable)
      ensures ok ==> mapped && memoryPageCount == count
      ensures ok ==> Consistent(k.pages, k.pageTable, memoryPages[..], count, staticMemoryVm, {}, false)
    {
      hide PageOf, Elems, Distinct, Unmapped, Injective, MappedWithin, AreaEmpty, MappedPrefix, Taken, Releasable, Consistent, Without;
      ghost var first := PageOf(staticMemoryVm);
      var got := FillSlots(count);
      ghost var frames := memoryPages[..][..got];
      FreshUnmapped(old(k.pages), k.pages, k.pageTable, frames);
      memoryPageCount := got;
      if got < count {
        NothingMapped(k.pageTable, first, frames);
        AreaRestored(k.pageTable, k.pageTable, first, frames, 0);
        UnmappedIsReleasable(old(k.pages), k.pages, k.pageTable, first, frames);
        return false, false;
      }
      assert memoryPages[..count] == frames;
      var ret, n := k.MapRange(PageOf(staticMemoryVm), memoryPages[..count], whole);
      PrefixIsReleasable(old(k.pages), k.pages, old(k.pageTable), k.pageTable, first, frames, n);
      AreaRestored(old(k.pageTable), k.pageTable, first, frames, n);
      if ret != count {
        return false, true;
      }
      FirstPagesConsistent(old(k.pages), k.pages, old(k.pageTable), k.pageTable, memoryPages[..], count, staticMemoryVm);
      return true, true;
    }

    /** The memory part of `init_execution_engine`: image is what copy_from_user finds at
        request->memory. On an error the fields are left for FreeMemory. */
    method InitMemory(image: seq<Byte>) returns (ok: bool, mapped: bool)
      requires k.Valid() && memoryBase == 0 && memoryBound == 0 && staticMemoryVm == 0 && memoryPagesBuf == 0 && memoryPageCount == 0
      requires leaked == {} && !everUntidy && memoryPages.Length == 0
      requires 0 < |image| <= MAX_MEMORY_SIZE
      modifies this, k`pages, k`pageTable, k`mapErrors, k`refusals, k`buffers, k`ram
      ensures (fresh(memoryPages) || memoryPages == old(memoryPages)) && old(k.mapErrors) <= k.mapErrors
      ensures old(k.refusals) <= k.refusals && (ok <==> |image| % PAGE_SIZE == 0 && k.refusals == old(k.refusals))
      ensures k.Valid() && Freeable(mapped) && leaked == {} && !everUntidy
      ensures memoryPagesBuf != 0 ==> memoryPagesBuf != staticMemoryVm
      ensures ok ==> mapped && Loaded() && Flat() == image && memoryPagesBuf != 0
      ensures k.pages == old(k.pages) + Owned() && Owned() !! old(k.pages)
      ensures k.buffers == old(k.buffers) + ({memoryPagesBuf, staticMemoryVm} - {0})
      ensures memoryPagesBuf !in old(k.buffers) && staticMemoryVm !in old(k.buffers)
      ensures if staticMemoryVm == 0 then k.pageTable == old(k.pageTable)
              else Without(k.pageTable, PageOf(staticMemoryVm), AREA_PAGES) == old(k.pageTable)
    {
      hide PageOf, Distinct, Unmapped, Injective, MappedWithin, Consistent, Releasable, Elems, AreaEmpty, MappedPrefix,
           Taken, Without, AllShown, View, Shaped, Machine.Valid;
      EmptyElems();
      staticMemoryVm := k.GetVmArea();
      if staticMemoryVm == 0 {
        return false, true;
      }
      memoryPageCount := |image| / PAGE_SIZE;
      memoryPagesBuf := k.Alloc(8 * SLOTS);
      if memoryPagesBuf == 0 {
        NothingMapped(k.pageTable, PageOf(staticMemoryVm), []);
        AreaRestored(k.pageTable, k.pageTable, PageOf(staticMemoryVm), [], 0);
        return false, true;
      }
      memoryPages := new nat[SLOTS](_ => 0);
      ok, mapped := PopulateImage(image);
    }

    /** The initial pages and their bytes, in an area and a page array that are there. */
    method PopulateImage(image: seq<Byte>) returns (ok: bool, mapped: bool)
      requires k.Valid() && 0 < |image| && memoryPageCount == |image| / PAGE_SIZE <= SLOTS == memoryPages.Length
      requires forall j :: 0 <= j < SLOTS ==> memoryPages[j] == 0
      requires memoryBase == 0 && memoryBound == 0 && leaked == {} && !everUntidy && memoryPagesBuf != 0
      requires staticMemoryVm != 0 && staticMemoryVm % PAGE_SIZE == 0 && staticMemoryVm + STATIC_MEMORY_SIZE < U64
      requires AreaEmpty(k.pageTable, PageOf(staticMemoryVm))
      modifies this`memoryPageCount, this`memoryBase, this`memoryBound, memoryPages, k`pages, k`pageTable, k`mapErrors, k`refusals, k`ram
      ensures old(k.mapErrors) <= k.mapErrors
      ensures old(k.refusals) <= k.refusals && (ok <==> |image| % PAGE_SIZE == 0 && k.refusals == old(k.refusals))
      ensures k.Valid() && Freeable(mapped)
      ensures ok ==> mapped && Loaded() && Flat() == image
      ensures k.pages == old(k.pages) + Owned() && Owned() !! old(k.pages)
      ensures Without(k.pageTable, PageOf(staticMemoryVm), AREA_PAGES) == old(k.pageTable)
    {
      hide PageOf, Distinct, Unmapped, Consistent, Releasable, Elems, AreaEmpty, MappedPrefix, Taken, Without, AllShown, View, Shaped, Machine.Valid;
      ok, mapped := Populate(memoryPageCount, |image| % PAGE_SIZE == 0);
      TakenAccount(old(k.pages), k.pages, memoryPages[..][..memoryPageCount]);
      if ok {
        ok := CopyImage(image);
      }
    }

    /** Sets the base, copies the initial bytes and sets the bound. */
    method CopyImage(image: seq<Byte>) returns (ok: bool)
      requires k.Valid() && |image| == memoryPageCount * PAGE_SIZE > 0
      requires Consistent(k.pages, k.pageTable, memoryPages[..], memoryPageCount, staticMemoryVm, leaked, everUntidy)
      modifies this`memoryBase, this`memoryBound, k`ram, k`refusals
      ensures old(k.refusals) <= k.refusals && (ok <==> k.refusals == old(k.refusals))
      ensures k.Valid() && (ok ==> Loaded() && Flat() == image)
    {
      hide PageOf, Consistent, Injective, MappedWithin;
      memoryBase := staticMemoryVm;
      var fault := k.CopyFaults();
      if fault {
        return false;
      }
      ConsistentShows(|k.ram|, k.pages, k.pageTable, memoryPages[..], memoryPageCount, memoryBase, leaked, everUntidy);
      k.CopyIn(memoryBase, |image|, 0, image);
      memoryBound := |image|;
      return true;
    }
  }
}
