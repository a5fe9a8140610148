/** Ownership in `init_execution_engine` and `destroy_execution_engine` (vm.c): ten kernel
    buffers, the frames of the linear memory, the provider instances and the guard pages,
    through every failure point of a load and through the destructor. */
module Vm {
  import opened VmLayout
  import opened Kernel
  import opened LinearMemory
  import opened Kapi

  /** `struct load_code_request`; a pointer that may be NULL is a flag beside its data. */
  datatype LoadRequest = LoadRequest(
    codeLen: U32Word,
    hasMemory: bool, memory: seq<Byte>,
    hasGlobals: bool, globalCount: U32Word,
    hasImports: bool, imports: seq<ImportRequest>,
    hasSigindices: bool, sigindiceCount: U32Word,
    hasTable: bool, tableCount: U32Word)
  {
    /** The limits checked first. */
    predicate WithinLimits() {
      && 0 < codeLen <= MAX_CODE_SIZE && |memory| <= MAX_MEMORY_SIZE && globalCount <= MAX_GLOBAL_COUNT
      && |imports| <= MAX_IMPORT_COUNT && sigindiceCount <= MAX_DYNAMIC_SIGINDICE_COUNT && tableCount <= MAX_TABLE_COUNT
    }
    predicate WantsMemory() { hasMemory && |memory| > 0 }
    predicate WantsGlobals() { hasGlobals && globalCount > 0 }
    predicate WantsImports() { hasImports && imports != [] }
    predicate WantsSigindices() { hasSigindices && sigindiceCount > 0 }
    predicate WantsTable() { hasTable && tableCount > 0 }
    /** Not checked as such, but a partial page of initial memory makes the mapping fail. */
    predicate WholePages() { WantsMemory() ==> |memory| % PAGE_SIZE == 0 }
  }

  /** Nothing in the request or the registered providers stands in the way of a load. */
  ghost predicate Loadable(providers: seq<Provider>, req: LoadRequest) {
    && req.WithinLimits() && req.WholePages() && FirstFailing(providers) == |providers|
    && (req.WantsImports() ==> AllFound(InstancesOf(providers, |providers|), req.imports))
  }

  /** Functions of the requested imports, found in the instances. */
  ghost function ImportTable(instances: seq<Instance>, req: LoadRequest): (table: seq<nat>)
    ensures |table| == if req.WantsImports() then |req.imports| else 0
    ensures forall i :: 0 <= i < |table| ==> table[i] == Lookup(instances, req.imports[i].Name(), req.imports[i].Arity())
  {
    if req.WantsImports() then
      seq(|req.imports|, i requires 0 <= i < |req.imports| => Lookup(instances, req.imports[i].Name(), req.imports[i].Arity()))
    else []
  }

  /** Instances that a failed load leaves unreleased: none if it fails before the providers
      are asked or after all of them answered. */
  ghost function Lost(providers: seq<Provider>, req: LoadRequest, refused: bool): multiset<Instance> {
    if req.WithinLimits() && !refused then Stranded(providers) else multiset{}
  }

  /** What the kernel holds for others. */
  datatype World = World(buffers: set<nat>, pages: set<nat>, pageTable: map<nat, nat>, readOnly: set<nat>, nx: set<nat>, ghost instances: multiset<Instance>)

  // ---------------------------------------------------------------- books

  /** Two slots never hold the same buffer. */
  ghost predicate Unique(hs: seq<nat>) {
    forall i, j :: 0 <= i < j < |hs| && hs[i] == hs[j] ==> hs[i] == 0
  }

  function Held(hs: seq<nat>): set<nat> { Elems(hs) - {0} }

  /** Live buffers are those from outside and those in the slots, each in one slot. */
  ghost predicate Books(outside: set<nat>, buffers: set<nat>, hs: seq<nat>) {
    Unique(hs) && Held(hs) !! outside && buffers == outside + Held(hs)
  }

  lemma BooksAlloc(outside: set<nat>, buffers: set<nat>, hs: seq<nat>, j: nat, b: nat)
    requires Books(outside, buffers, hs) && j < |hs| && hs[j] == 0 && b !in buffers
    ensures Books(outside, buffers + ({b} - {0}), hs[j := b])
  {
    var hs' := hs[j := b];
    forall x | x in Held(hs')
      ensures x in Held(hs) + ({b} - {0})
    {
      var i :| 0 <= i < |hs'| && hs'[i] == x;
      assert i == j || hs[i] in Elems(hs);
    }
    forall x | x in Held(hs) + ({b} - {0})
      ensures x in Held(hs')
    {
      if x in Held(hs) {
        var i :| 0 <= i < |hs| && hs[i] == x;
        assert hs'[i] == x;
      } else {
        assert hs'[j] == x;
      }
    }
    forall i, l | 0 <= i < l < |hs'| && hs'[i] == hs'[l]
      ensures hs'[i] == 0
    {
      assert i != j ==> hs[i] in Elems(hs);
      assert l != j ==> hs[l] in Elems(hs);
    }
  }

  /** The first slot can be freed, and then the books of the others are right. */
  lemma FreeFirst(outside: set<nat>, buffers: set<nat>, hs: seq<nat>)
    requires Books(outside, buffers, hs) && 0 !in buffers && hs != []
    ensures hs[0] == 0 || hs[0] in buffers
    ensures Books(outside, buffers - {hs[0]}, hs[1..])
  {
    assert hs[0] in Elems(hs);
    forall x | x in Held(hs) && x != hs[0]
      ensures x in Held(hs[1..])
    {
      var l :| 0 <= l < |hs| && hs[l] == x;
      assert hs[1..][l - 1] == x;
    }
    forall x | x in Held(hs[1..])
      ensures x in Held(hs) && x != hs[0]
    {
      var l :| 0 <= l < |hs[1..]| && hs[1..][l] == x;
      assert hs[l + 1] == x;
    }
  }

  lemma NothingLeft(outside: set<nat>, buffers: set<nat>, hs: seq<nat>)
    requires Books(outside, buffers, hs) && hs == []
    ensures buffers == outside
  {
  }

  class Engine {
    const k: Machine
    ghost var outside: World     // the kernel as it was before the load
    ghost var request: LoadRequest      // what was asked for
    ghost var providers: seq<Provider>  // the registered providers at the load
    ghost var codeSize: nat             // size of the code allocation
    var resolver: ModuleResolver
    var mem: Memory
    var code: nat
    var codeLen: U32Word
    var localGlobalPtrBacking: nat
    var localGlobalBacking: nat
    var importedFuncsBuf: nat
    var importedFuncs: array<nat>
    var dynamicSigindices: nat
    var tableBase: nat
    var stackBacking: nat
    var stackBegin: nat
    var stackEnd: nat
    var stackLowerBound: nat

    ghost predicate NoTables()
      reads this`stackBacking, this`tableBase, this`dynamicSigindices, this`importedFuncsBuf, this`localGlobalBacking, this`localGlobalPtrBacking
    {
      && stackBacking == 0 && tableBase == 0 && dynamicSigindices == 0 && importedFuncsBuf == 0
      && localGlobalBacking == 0 && localGlobalPtrBacking == 0
    }

    /** Buffers in the order in which both exits free them, after the memory. */
    ghost function Buffers(): seq<nat>
      reads this, resolver
    {
      [stackBacking, tableBase, dynamicSigindices, importedFuncsBuf, localGlobalBacking, localGlobalPtrBacking, code, resolver.buf]
    }

    /** The two of the memory first, as the destructor empties them. */
    ghost function Slots(): seq<nat>
      reads this, mem, resolver
    {
      [mem.memoryPagesBuf, mem.staticMemoryVm] + Buffers()
    }

    /** The engine as the memset of `init_execution_engine` leaves it. */
    constructor (k: Machine)
      ensures this.k == k && mem.k == k && fresh(mem) && fresh(mem.memoryPages)
      ensures fresh(resolver) && fresh(resolver.instances) && fresh(importedFuncs)
      ensures mem.memoryPagesBuf == 0 && mem.staticMemoryVm == 0 && NoTables() && code == 0 && resolver.buf == 0
      ensures mem.memoryBase == 0 && mem.memoryBound == 0 && mem.memoryPageCount == 0
      ensures mem.memoryPages.Length == 0 && mem.leaked == {} && !mem.everUntidy
      ensures resolver.resolverCount == 0 && resolver.instances.Length == 0 && importedFuncs.Length == 0 && importedFuncs != mem.memoryPages
    {
      this.k := k;
      outside := World({}, {}, map[], {}, {}, multiset{});
      request, providers, codeSize := LoadRequest(0, false, [], false, 0, false, [], false, 0, false, 0), [], 0;
      resolver := new ModuleResolver();
      mem := new Memory(k);
      importedFuncs := new nat[0];
      code, codeLen, localGlobalPtrBacking, localGlobalBacking, importedFuncsBuf := 0, 0, 0, 0, 0;
      dynamicSigindices, tableBase, stackBacking, stackBegin, stackEnd, stackLowerBound := 0, 0, 0, 0, 0, 0;
    }

    method FreeStackAndTables(ghost outside: set<nat>)
      requires k.Valid() && Books(outside, k.buffers, Buffers())
      requires stackBacking != 0 ==> PageRange(PageOf(stackBacking), STACK_SIZE / PAGE_SIZE) !! k.readOnly
      modifies k`buffers
      ensures k.Valid() && Books(outside, k.buffers, Buffers()[4..])
    {
      hide PageRange, PageOf, Injective, MappedWithin, Books;
      ghost var hs := Buffers();
      FreeFirst(outside, k.buffers, hs);
      k.FreeStack(stackBacking);
      FreeFirst(outside, k.buffers, hs[1..]);
      k.Free(tableBase);
      FreeFirst(outside, k.buffers, hs[2..]);
      k.Free(dynamicSigindices);
      FreeFirst(outside, k.buffers, hs[3..]);
      k.Free(importedFuncsBuf);
    }

    /** The vfree calls and the resolver release that end both the error path and the
        destructor, after the memory has been given back. */
    method FreeBuffers(ghost outside: set<nat>)
      requires k.Valid() && Books(outside, k.buffers, Buffers())
      requires stackBacking != 0 ==> PageRange(PageOf(stackBacking), STACK_SIZE / PAGE_SIZE) !! k.readOnly
      requires CodeFreeable()
      requires resolver.resolverCount == resolver.instances.Length && Owed(resolver.instances[..]) <= k.instances
      modifies k`buffers, k`instances
      ensures k.Valid() && k.buffers == outside
      ensures k.instances == old(k.instances) - Owed(resolver.instances[..])
    {
      hide PageRange, PageOf, Owed, Injective, MappedWithin, Books;
      FreeStackAndTables(outside);
      ghost var hs := Buffers()[4..];
      FreeFirst(outside, k.buffers, hs);
      k.Free(localGlobalBacking);
      FreeFirst(outside, k.buffers, hs[1..]);
      k.Free(localGlobalPtrBacking);
      FreeFirst(outside, k.buffers, hs[2..]);
      k.FreeCode(code, codeSize);
      FreeFirst(outside, k.buffers, hs[3..]);
      resolver.Release(k);
      NothingLeft(outside, k.buffers, hs[4..]);
    }

    // ---------------------------------------------------------------- invariants

    /** No page of the code buffer is non-executable. */
    ghost predicate CodeFreeable()
      reads this`code, this`codeSize, k`nx
    {
      code != 0 ==> PageRange(PageOf(code), codeSize / PAGE_SIZE) !! k.nx
    }

    /** Frames and mappings: what was outside, and what the memory holds. */
    ghost predicate MemoryBooks(mapped: bool)
      reads this`mem, this`outside, mem, k`pages, k`pageTable, mem.memoryPages
    {
      && mem.k == k && mem.Freeable(mapped) && mem.leaked == {} && !mem.everUntidy
      && k.pages == outside.pages + mem.Owned() && mem.Owned() !! outside.pages
      && (if mem.staticMemoryVm == 0 then k.pageTable == outside.pageTable
          else Without(k.pageTable, PageOf(mem.staticMemoryVm), AREA_PAGES) == outside.pageTable)
    }

    ghost predicate InstanceBooks()
      reads this`resolver, this`outside, resolver, resolver.instances, k`instances
    {
      && resolver.resolverCount == resolver.instances.Length
      && k.instances == outside.instances + Owed(resolver.instances[..])
    }

    ghost predicate BufferBooks()
      reads this, mem, resolver, k`buffers
    {
      Books(outside.buffers, k.buffers, Slots())
    }

    /** A load that has not reached the stack yet. */
    ghost predicate Loading(mapped: bool)
      reads this, mem, k, mem.memoryPages, resolver, resolver.instances
    {
      && k.Valid() && BufferBooks() && MemoryBooks(mapped) && InstanceBooks() && CodeFreeable()
      && k.readOnly == outside.readOnly && k.nx == outside.nx && stackBacking == 0
    }

    // ---------------------------------------------------------------- stages of a load

    method LoadCode(req: LoadRequest) returns (ok: bool)
      requires Loading(true) && code == 0
      modifies this`code, this`codeLen, this`codeSize, k`buffers, k`refusals
      ensures old(k.refusals) <= k.refusals && (ok <==> k.refusals == old(k.refusals))
      ensures Loading(true) && (ok ==> CodeLoaded(req))
    {
      hide Machine.Valid, MemoryBooks, InstanceBooks, Books, Without, Elems, PageRange;
      ghost var hs, buffers := Slots(), k.buffers;
      codeSize := RoundUpToPageSize(req.codeLen);
      code := k.AllocCode(RoundUpToPageSize(req.codeLen));
      BooksAlloc(outside.buffers, buffers, hs, 8, code);
      assert Slots() == hs[8 := code];
      assert k.buffers == buffers + ({code} - {0});
      if code == 0 || code % PAGE_SIZE != 0 {
        return false;
      }
      var fault := k.CopyFaults();
      if fault {
        return false;
      }
      codeLen := req.codeLen;
      return true;
    }

    method LoadGlobals(req: LoadRequest) returns (ok: bool)
      requires Loading(true) && localGlobalPtrBacking == 0 && localGlobalBacking == 0
      modifies this`localGlobalPtrBacking, this`localGlobalBacking, k`buffers, k`refusals
      ensures old(k.refusals) <= k.refusals && (ok <==> k.refusals == old(k.refusals))
      ensures Loading(true) && (ok && req.WantsGlobals() ==> localGlobalPtrBacking != 0 && localGlobalBacking != 0)
    {
      hide CodeFreeable, Machine.Valid, MemoryBooks, InstanceBooks, Books, Without, Elems, PageRange;
      if !req.WantsGlobals() {
        return true;
      }
      ghost var hs, buffers := Slots(), k.buffers;
      localGlobalPtrBacking := k.Alloc(8 * req.globalCount);
      BooksAlloc(outside.buffers, buffers, hs, 7, localGlobalPtrBacking);
      assert Slots() == hs[7 := localGlobalPtrBacking] && k.buffers == buffers + ({localGlobalPtrBacking} - {0});
      if localGlobalPtrBacking == 0 {
        return false;
      }
      ok := LoadGlobalValues(req);
    }

    /** The second of the two buffers for globals, and the copy into it. */
    method LoadGlobalValues(req: LoadRequest) returns (ok: bool)
      requires Loading(true) && localGlobalBacking == 0
      modifies this`localGlobalBacking, k`buffers, k`refusals
      ensures old(k.refusals) <= k.refusals && (ok <==> k.refusals == old(k.refusals))
      ensures Loading(true) && (ok ==> localGlobalBacking != 0)
    {
      hide CodeFreeable, Machine.Valid, MemoryBooks, InstanceBooks, Books, Without, Elems, PageRange;
      ghost var hs, buffers := Slots(), k.buffers;
      localGlobalBacking := k.Alloc(8 * req.globalCount);
      BooksAlloc(outside.buffers, buffers, hs, 6, localGlobalBacking);
      assert Slots() == hs[6 := localGlobalBacking] && k.buffers == buffers + ({localGlobalBacking} - {0});
      if localGlobalBacking == 0 {
        return false;
      }
      var fault := k.CopyFaults();
      return !fault;
    }

    method LoadMemory(req: LoadRequest) returns (ok: bool, mapped: bool)
      requires Loading(true) && req.WithinLimits()
      requires mem.memoryPagesBuf == 0 && mem.staticMemoryVm == 0 && mem.memoryBase == 0 && mem.memoryBound == 0
      requires mem.memoryPageCount == 0 && mem.memoryPages.Length == 0
      modifies mem, k`pages, k`pageTable, k`mapErrors, k`refusals, k`buffers, k`ram
      ensures old(k.refusals) <= k.refusals && (ok <==> req.WholePages() && k.refusals == old(k.refusals))
      ensures Loading(mapped) && (ok ==> mapped) && old(k.mapErrors) <= k.mapErrors
      ensures fresh(mem.memoryPages) || mem.memoryPages == old(mem.memoryPages)
      ensures ok ==> MemoryReady(req)
    {
      hide Books, Without, Elems, PageRange, Injective, MappedWithin, Releasable, Consistent, View;
      if !req.WantsMemory() {
        return true, true;
      }
      ghost var hs, buffers := Slots(), k.buffers;
      ok, mapped := mem.InitMemory(req.memory);
      ghost var vm, pg := mem.staticMemoryVm, mem.memoryPagesBuf;
      BooksAlloc(outside.buffers, buffers, hs, 1, vm);
      BooksAlloc(outside.buffers, buffers + ({vm} - {0}), hs[1 := vm], 0, pg);
      assert Slots() == hs[1 := vm][0 := pg];
      assert k.buffers == buffers + ({vm} - {0}) + ({pg} - {0});
    }

    method LoadImports(req: LoadRequest) returns (ok: bool)
      requires Loading(true) && importedFuncsBuf == 0 && importedFuncs.Length == 0
      modifies this`importedFuncsBuf, this`importedFuncs, k`buffers, k`refusals
      ensures old(k.refusals) <= k.refusals && (ok <==> k.refusals == old(k.refusals) && ImportsFound(req))
      ensures fresh(importedFuncs) || importedFuncs == old(importedFuncs)
      ensures Loading(true)
      ensures ok ==> ImportsResolved(req) && (req.WantsImports() ==> importedFuncsBuf != 0)
    {
      hide CodeFreeable, ImportTable, AllFound, Machine.Valid, MemoryBooks, Books, Without, Elems, PageRange, Lookup;
      if !req.WantsImports() {
        return true;
      }
      ghost var hs, buffers := Slots(), k.buffers;
      importedFuncsBuf := k.Alloc(16 * |req.imports|);
      BooksAlloc(outside.buffers, buffers, hs, 5, importedFuncsBuf);
      assert Slots() == hs[5 := importedFuncsBuf] && k.buffers == buffers + ({importedFuncsBuf} - {0});
      if importedFuncsBuf == 0 {
        return false;
      }
      ok, importedFuncs := resolver.ResolveImports(k, req.imports);
    }

    method LoadSigindices(req: LoadRequest) returns (ok: bool)
      requires Loading(true) && dynamicSigindices == 0
      modifies this`dynamicSigindices, k`buffers, k`refusals
      ensures old(k.refusals) <= k.refusals && (ok <==> k.refusals == old(k.refusals))
      ensures Loading(true) && (ok && req.WantsSigindices() ==> dynamicSigindices != 0)
    {
      hide CodeFreeable, Machine.Valid, MemoryBooks, InstanceBooks, Books, Without, Elems, PageRange;
      if !req.WantsSigindices() {
        return true;
      }
      ghost var hs, buffers := Slots(), k.buffers;
      dynamicSigindices := k.Alloc(4 * req.sigindiceCount);
      BooksAlloc(outside.buffers, buffers, hs, 4, dynamicSigindices);
      assert Slots() == hs[4 := dynamicSigindices] && k.buffers == buffers + ({dynamicSigindices} - {0});
      if dynamicSigindices == 0 {
        return false;
      }
      var fault := k.CopyFaults();
      return !fault;
    }

    method LoadTable(req: LoadRequest) returns (ok: bool)
      requires Loading(true) && tableBase == 0
      modifies this`tableBase, k`buffers, k`refusals
      ensures old(k.refusals) <= k.refusals && (ok <==> k.refusals == old(k.refusals))
      ensures Loading(true) && (ok && req.WantsTable() ==> tableBase != 0)
    {
      hide CodeFreeable, Machine.Valid, MemoryBooks, InstanceBooks, Books, Without, Elems, PageRange;
      if !req.WantsTable() {
        return true;
      }
      ghost var hs, buffers := Slots(), k.buffers;
      tableBase := k.Alloc(24 * req.tableCount);
      BooksAlloc(outside.buffers, buffers, hs, 3, tableBase);
      assert Slots() == hs[3 := tableBase] && k.buffers == buffers + ({tableBase} - {0});
      if tableBase == 0 {
        return false;
      }
      var fault := k.CopyFaults();
      return !fault;
    }

    /** The guest stack, with its guard pages made read-only. Nothing can fail after it. */
    method LoadStack() returns (ok: bool)
      requires Loading(true)
      modifies this`stackBacking, this`stackBegin, this`stackEnd, this`stackLowerBound, k`buffers, k`refusals, k`readOnly
      ensures old(k.refusals) <= k.refusals && (ok <==> k.refusals == old(k.refusals))
      ensures k.Valid() && BufferBooks() && MemoryBooks(true) && InstanceBooks() && k.nx == outside.nx && CodeFreeable()
      ensures !ok ==> Loading(true)
      ensures ok ==> Guarded()
    {
      hide CodeFreeable, Machine.Valid, MemoryBooks, InstanceBooks, Books, PageRange, PageOf, RoundUpToPageSize, StackEnd, StackLowerBound;
      AllocStack();
      if stackBacking == 0 {
        return false;
      }
      stackBegin := StackBegin(stackBacking);
      stackEnd := StackEnd(stackBacking);
      k.SetMemoryRo(PageOf(stackBegin), STACK_GUARD_SIZE / PAGE_SIZE);
      stackLowerBound := StackLowerBound(stackBacking);
      return true;
    }

    method AllocStack()
      requires Loading(true)
      modifies this`stackBacking, k`buffers, k`refusals
      ensures k.Valid() && BufferBooks() && MemoryBooks(true) && InstanceBooks() && CodeFreeable()
      ensures k.refusals == old(k.refusals) + if stackBacking == 0 then 1 else 0
      ensures stackBacking != 0 ==> stackBacking % PAGE_SIZE == 0 && stackBacking + STACK_SIZE < U64
      ensures stackBacking != 0 ==> PageRange(PageOf(stackBacking), STACK_SIZE / PAGE_SIZE) !! k.readOnly
    {
      hide CodeFreeable, Machine.Valid, MemoryBooks, InstanceBooks, Books, Elems, PageRange, PageOf;
      ghost var hs, buffers := Slots(), k.buffers;
      stackBacking := k.Alloc(STACK_SIZE);
      BooksAlloc(outside.buffers, buffers, hs, 2, stackBacking);
      assert Slots() == hs[2 := stackBacking] && k.buffers == buffers + ({stackBacking} - {0});
    }

    /** The guard pages, and of this engine's pages only they, are read-only. */
    ghost predicate Guarded()
      reads this, k`readOnly
    {
      && stackBacking != 0 && stackBacking + STACK_SIZE < U64 && stackBacking % PAGE_SIZE == 0
      && stackBegin == StackBegin(stackBacking) && stackEnd == StackEnd(stackBacking)
      && stackLowerBound == StackLowerBound(stackBacking)
      && k.readOnly == outside.readOnly + GuardPages(stackBacking)
      && PageRange(PageOf(stackBacking), STACK_SIZE / PAGE_SIZE) !! outside.readOnly
    }

    // ---------------------------------------------------------------- life of an engine

    /** An engine after a successful load: its books are right and it is what was asked
        for. */
    ghost predicate Live()
      reads this, mem, mem.memoryPages, resolver, resolver.instances, importedFuncs
      reads k`ram, k`pages, k`pageTable, k`buffers, k`readOnly, k`instances
    {
      k.Valid() && BufferBooks() && LiveMemory() && InstanceBooks() && Guarded() && CodeLoaded(request) && Wired(request, providers) && importedFuncs != mem.memoryPages
    }

    ghost predicate LiveMemory()
      reads this`mem, this`outside, mem, k`ram, k`pages, k`pageTable, k`buffers, mem.memoryPages
    {
      && mem.k == k && mem.Valid()
      && k.pages == outside.pages + (mem.Owned() + mem.leaked) && (mem.Owned() + mem.leaked) !! outside.pages
      && (mem.memoryBase == 0 ==> mem.staticMemoryVm == 0 && mem.memoryPagesBuf == 0 && mem.Owned() == {} && k.pageTable == outside.pageTable)
      && (mem.memoryBase != 0 ==>
           mem.memoryPagesBuf != 0 && Without(k.pageTable, PageOf(mem.staticMemoryVm), AREA_PAGES) == outside.pageTable)
    }

    ghost predicate CodeLoaded(req: LoadRequest)
      reads this`code, this`codeLen, this`codeSize
    {
      code != 0 && code % PAGE_SIZE == 0 && codeLen == req.codeLen && codeSize == RoundUpToPageSize(codeLen)
    }

    /** The providers' instances are those of the load, every import is its lookup among
        them, and there is a buffer for everything that was asked for. */
    ghost predicate Wired(req: LoadRequest, ps: seq<Provider>)
      reads this`resolver, this`importedFuncs, resolver, resolver.instances, importedFuncs
      reads this`localGlobalPtrBacking, this`localGlobalBacking, this`importedFuncsBuf, this`dynamicSigindices, this`tableBase
    {
      && Loadable(ps, req) && resolver.instances[..] == InstancesOf(ps, |ps|)
      && ImportsResolved(req) && TablesThere(req)
    }

    /** No page of the code is non-executable, and permissions elsewhere are as before. */
    ghost predicate Executable()
      reads this`code, this`codeLen, this`outside, k`nx
    {
      k.nx == outside.nx && CodePages(code, codeLen) !! k.nx
    }

    /** Between runs every byte of the code allocation lies on an executable page. */
    lemma CodeBytesExecutable(a: nat)
      requires CodeLoaded(request) && Executable() && code <= a < code + codeSize
      ensures PageOf(a) !in k.nx
    {
      CodePagesAreTheAllocation(code, codeLen, PageOf(a));
    }

    /** The kernel is as it was before the load. */
    ghost predicate Restored()
      reads this, k
    {
      && k.buffers == outside.buffers && k.pages == outside.pages && k.pageTable == outside.pageTable
      && k.readOnly == outside.readOnly && k.instances == outside.instances
    }

    /** The common tail: memory first, then the buffers and the resolver. */
    method ReleaseAll(mapped: bool)
      requires k.Valid() && BufferBooks() && InstanceBooks() && mem.k == k && mem.Freeable(mapped)
      requires k.readOnly == outside.readOnly && CodeFreeable()
      requires stackBacking != 0 ==> PageRange(PageOf(stackBacking), STACK_SIZE / PAGE_SIZE) !! k.readOnly
      modifies k`pages, k`pageTable, k`buffers, k`instances
      ensures k.Valid() && k.buffers == outside.buffers && k.instances == outside.instances
      ensures k.pages == old(k.pages) - mem.Owned()
      ensures k.pageTable == if mem.staticMemoryVm != 0 then Without(old(k.pageTable), PageOf(mem.staticMemoryVm), AREA_PAGES) else old(k.pageTable)
    {
      hide Books, Without, Elems, PageRange, Injective, MappedWithin, Releasable, Owed, PageOf;
      ghost var hs, buffers := Slots(), k.buffers;
      FreeFirst(outside.buffers, buffers, hs);
      FreeFirst(outside.buffers, buffers - {hs[0]}, hs[1..]);
      BooksApart(outside.buffers, buffers, hs);
      mem.FreeMemory(mapped);
      assert hs[1..][1..] == Buffers();
      assert k.buffers == buffers - {hs[0]} - {hs[1]};
      FreeBuffers(outside.buffers);
    }

    /** The fail label of `init_execution_engine`. */
    method Fail(mapped: bool)
      requires Loading(mapped)
      modifies k`pages, k`pageTable, k`buffers, k`instances
      ensures k.Valid() && Restored()
    {
      hide Books, Without, Elems, PageRange, Injective, MappedWithin, Releasable, Owed, PageOf;
      ReleaseAll(mapped);
    }

    /** The engine as the constructor leaves it. */
    ghost predicate Zeroed()
      reads this, mem, resolver
    {
      && mem.k == k && mem.memoryPagesBuf == 0 && mem.staticMemoryVm == 0 && NoTables() && code == 0 && resolver.buf == 0
      && mem.memoryBase == 0 && mem.memoryBound == 0 && mem.memoryPageCount == 0
      && mem.memoryPages.Length == 0 && mem.leaked == {} && !mem.everUntidy
      && resolver.resolverCount == 0 && resolver.instances.Length == 0 && importedFuncs.Length == 0 && importedFuncs != mem.memoryPages
    }

    /** Globals, imports, signature indices and the table. */
    method LoadTables(req: LoadRequest) returns (ok: bool)
      requires Loading(true) && NoTables() && importedFuncs.Length == 0
      modifies this`localGlobalPtrBacking, this`localGlobalBacking, this`importedFuncsBuf, this`importedFuncs,
               this`dynamicSigindices, this`tableBase, k`buffers, k`refusals
      ensures old(k.refusals) <= k.refusals && (ok <==> k.refusals == old(k.refusals) && ImportsFound(req))
      ensures Loading(true) && (fresh(importedFuncs) || importedFuncs == old(importedFuncs))
      ensures ok ==> ImportsResolved(req) && TablesThere(req)
    {
      hide Loading, AllFound, ImportsResolved;
      ok := LoadGlobals(req);
      if ok {
        ok := LoadImports(req);
      }
      if ok {
        ok := LoadSigindices(req);
      }
      if ok {
        ok := LoadTable(req);
      }
    }

    /** The memory is the requested one, at least as the frames and mappings go. */
    ghost predicate MemoryReady(req: LoadRequest)
      reads this`mem, mem, mem.k`ram, mem.k`pages, mem.k`pageTable, mem.memoryPages
    {
      if req.WantsMemory() then mem.Shaped() && mem.memoryPagesBuf != 0 && mem.Flat() == req.memory
      else mem.memoryPagesBuf == 0 && mem.staticMemoryVm == 0 && mem.memoryBase == 0 && mem.memoryBound == 0
    }

    /** From the code to the stack; the first thing that fails undoes all of it. */
    method Stages(req: LoadRequest) returns (ok: bool)
      requires Loading(true) && req.WithinLimits()
      requires NoTables() && code == 0 && importedFuncs.Length == 0 && importedFuncs != mem.memoryPages
      requires mem.memoryPagesBuf == 0 && mem.staticMemoryVm == 0 && mem.memoryBase == 0 && mem.memoryBound == 0
      requires request == req && Snapshot()
      requires mem.memoryPageCount == 0 && mem.memoryPages.Length == 0
      modifies this, mem, k`pages, k`pageTable, k`mapErrors, k`refusals, k`buffers, k`ram, k`readOnly, k`instances
      ensures mem == old(mem) && resolver == old(resolver) && outside == old(outside) && old(k.mapErrors) <= k.mapErrors
      ensures request == old(request) && providers == old(providers)
      ensures fresh(mem.memoryPages) || mem.memoryPages == old(mem.memoryPages)
      ensures fresh(importedFuncs) || importedFuncs == old(importedFuncs)
      ensures old(k.refusals) <= k.refusals && (ok <==> req.WholePages() && k.refusals == old(k.refusals) && old(ImportsFound(req)))
      ensures !ok ==> k.Valid() && Restored()
      ensures ok ==> k.Valid() && Live() && Executable() && MemoryAsRequested(req) && mem.leaked == {} && !mem.everUntidy
    {
      hide Machine.Valid, Loading, Live, ImportsFound, MemoryReady, MemoryAsRequested, CodeLoaded, Executable, Snapshot, NoTables, Restored;
      var mapped := true;
      LoadingShape(true);
      ok := LoadCode(req);
      if ok {
        ok, mapped := LoadMemory(req);
      }
      if ok {
        ok := LoadRest(req);
      }
      if !ok {
        Fail(mapped);
      }
    }

    /** What comes after code and memory. */
    method LoadRest(req: LoadRequest) returns (ok: bool)
      requires Loading(true) && req.WithinLimits() && req.WholePages() && CodeLoaded(req) && MemoryReady(req)
      requires NoTables() && importedFuncs.Length == 0 && importedFuncs != mem.memoryPages
      requires request == req && Snapshot()
      modifies this`localGlobalPtrBacking, this`localGlobalBacking, this`importedFuncsBuf, this`importedFuncs, this`dynamicSigindices, this`tableBase
      modifies this`stackBacking, this`stackBegin, this`stackEnd, this`stackLowerBound, k`buffers, k`refusals, k`readOnly
      ensures fresh(importedFuncs) || importedFuncs == old(importedFuncs)
      ensures old(k.refusals) <= k.refusals && (ok <==> k.refusals == old(k.refusals) && ImportsFound(req))
      ensures !ok ==> Loading(true)
      ensures ok ==> k.Valid() && Live() && Executable() && MemoryAsRequested(req) && mem.leaked == {} && !mem.everUntidy
    {
      hide Machine.Valid, Loading, Live, ImportsFound, TablesThere, Guarded, MemoryReady, ImportsResolved, MemoryBooks,
           BufferBooks, InstanceBooks, MemoryAsRequested, CodeLoaded, CodeFreeable, Executable, Snapshot;
      ok := LoadTables(req);
      if !ok { return; }
      ok := LoadStack();
      if ok {
        BecomesLive(req);
      }
    }

    lemma LoadingShape(mapped: bool)
      requires Loading(mapped)
      ensures mem.k == k
    {
    }

    lemma BecomesLive(req: LoadRequest)
      requires k.Valid() && BufferBooks() && MemoryBooks(true) && InstanceBooks() && Guarded() && MemoryReady(req)
      requires request == req && req.WithinLimits() && req.WholePages() && Snapshot() && ImportsFound(req)
      requires CodeLoaded(req) && ImportsResolved(req) && TablesThere(req) && CodeFreeable() && k.nx == outside.nx && importedFuncs != mem.memoryPages
      ensures k.Valid() && Live() && Executable() && MemoryAsRequested(req) && mem.leaked == {} && !mem.everUntidy
    {
      hide Books, Without, Elems, Owed, Releasable, PageOf, AllFound, ImportTable, InstancesOf, FirstFailing, RoundUpToPageSize, PageRange;
    }

    /** An instance of every provider, in the order of the list. */
    ghost predicate Snapshot()
      reads this`providers, this`resolver, resolver, resolver.instances
    {
      FirstFailing(providers) == |providers| && resolver.instances[..] == InstancesOf(providers, |providers|)
    }

    ghost predicate MemoryAsRequested(req: LoadRequest)
      reads this`mem, mem, mem.k
    {
      mem.Flat() == if req.WantsMemory() then req.memory else []
    }

    ghost predicate ImportsFound(req: LoadRequest)
      reads this`resolver, resolver, resolver.instances
    {
      req.WantsImports() ==> AllFound(resolver.instances[..], req.imports)
    }

    /** A buffer for everything that was asked for. */
    ghost predicate TablesThere(req: LoadRequest)
      reads this`localGlobalPtrBacking, this`localGlobalBacking, this`importedFuncsBuf, this`dynamicSigindices, this`tableBase
    {
      && (req.WantsGlobals() ==> localGlobalPtrBacking != 0 && localGlobalBacking != 0)
      && (req.WantsImports() ==> importedFuncsBuf != 0)
      && (req.WantsSigindices() ==> dynamicSigindices != 0)
      && (req.WantsTable() ==> tableBase != 0)
    }

    /** Every import is the lookup in the snapshot taken at the start of the load. */
    ghost predicate ImportsResolved(req: LoadRequest)
      reads this`resolver, this`importedFuncs, resolver, resolver.instances, importedFuncs
    {
      importedFuncs[..] == ImportTable(resolver.instances[..], req)
    }

    /** `init_execution_engine` on a cleared engine. */
    method Init(reg: Registry, req: LoadRequest) returns (ok: bool)
      requires Zeroed() && k.Valid() && reg.Valid()
      modifies this, mem, resolver, k`pages, k`pageTable, k`mapErrors, k`refusals, k`buffers, k`ram, k`readOnly, k`instances
      ensures mem == old(mem) && resolver == old(resolver) && old(k.mapErrors) <= k.mapErrors
      ensures fresh(mem.memoryPages) || mem.memoryPages == old(mem.memoryPages)
      ensures fresh(resolver.instances) || resolver.instances == old(resolver.instances)
      ensures fresh(importedFuncs) || importedFuncs == old(importedFuncs)
      ensures outside == old(World(k.buffers, k.pages, k.pageTable, k.readOnly, k.nx, k.instances)) || !ok
      ensures old(k.refusals) <= k.refusals && (ok <==> Loadable(old(reg.Contents()), req) && k.refusals == old(k.refusals))
      ensures ok ==> Live() && Executable() && MemoryAsRequested(req) && request == req && providers == old(reg.Contents())
      ensures k.Valid() && (ok ==> mem.leaked == {} && !mem.everUntidy)
      ensures !ok ==> k.buffers == old(k.buffers) && k.pages == old(k.pages) && k.pageTable == old(k.pageTable)
      ensures !ok ==> k.readOnly == old(k.readOnly)
      ensures !ok ==> k.instances == old(k.instances) + Lost(old(reg.Contents()), req, k.refusals > old(k.refusals))
    {
      hide Machine.Valid, Loading, Live, AllFound, MemoryAsRequested, Executable, Owed, Linked, Inners, InstancesOf, FirstFailing, NodeSet;
      if !req.WithinLimits() {
        return false;
      }
      outside := World(k.buffers, k.pages, k.pageTable, k.readOnly, k.nx, k.instances);
      request, providers := req, reg.Contents();
      ok := reg.GetModuleResolver(k, resolver);
      if !ok {
        return;
      }
      ResolverLoaded();
      ok := Stages(req);
    }

    /** `init_execution_engine`, memset included: a new engine, and the kernel before and
        after. */
    static method Load(k: Machine, reg: Registry, req: LoadRequest) returns (ee: Engine, ok: bool)
      requires k.Valid() && reg.Valid()
      modifies k`pages, k`pageTable, k`mapErrors, k`refusals, k`buffers, k`ram, k`readOnly, k`instances
      ensures fresh(ee) && fresh(ee.mem) && fresh(ee.mem.memoryPages) && fresh(ee.importedFuncs) && ee.k == k && k.Valid()
      ensures old(k.mapErrors) <= k.mapErrors && old(k.refusals) <= k.refusals
      ensures ok <==> Loadable(old(reg.Contents()), req) && k.refusals == old(k.refusals)
      ensures ok ==> ee.Live() && ee.Executable() && ee.request == req && ee.providers == old(reg.Contents()) && ee.mem.leaked == {}
      ensures ok ==> ee.mem.Flat() == if req.WantsMemory() then req.memory else []
      ensures ok ==> ee.outside == old(World(k.buffers, k.pages, k.pageTable, k.readOnly, k.nx, k.instances))
      ensures !ok ==> k.buffers == old(k.buffers) && k.pages == old(k.pages) && k.pageTable == old(k.pageTable)
      ensures !ok ==> k.readOnly == old(k.readOnly)
      ensures !ok ==> k.instances == old(k.instances) + Lost(old(reg.Contents()), req, k.refusals > old(k.refusals))
    {
      hide Machine.Valid, Registry.Contents, Engine.Live, Engine.Executable, Loadable, View, Lost, Inners, Linked;
      ee := new Engine(k);
      ok := ee.Init(reg, req);
    }

    /** With the snapshot of the providers taken the load can begin. */
    lemma ResolverLoaded()
      requires k.Valid() && mem.k == k && mem.memoryPagesBuf == 0 && mem.staticMemoryVm == 0 && NoTables() && code == 0
      requires mem.memoryPageCount == 0 && mem.memoryPages.Length == 0 && mem.leaked == {} && !mem.everUntidy
      requires resolver.buf !in outside.buffers && k.buffers == outside.buffers + {resolver.buf} && resolver.buf != 0
      requires k.pages == outside.pages && k.pageTable == outside.pageTable && k.readOnly == outside.readOnly && k.nx == outside.nx && InstanceBooks()
      ensures Loading(true)
    {
      hide Books, Elems, Owed;
      EmptyBooks(outside.buffers);
      EmptyElems();
      assert mem.memoryPages[..][..0] == [];
      BooksAlloc(outside.buffers, outside.buffers, [0, 0, 0, 0, 0, 0, 0, 0, 0, 0], 9, resolver.buf);
      assert Slots() == [0, 0, 0, 0, 0, 0, 0, 0, 0, 0][9 := resolver.buf];
      assert k.buffers == outside.buffers + ({resolver.buf} - {0});
    }

    /** memory.grow of a live engine: the books stay right. */
    method Grow(pages: U32Word) returns (r: int, ghost how: GrowOutcome)
      requires Live()
      modifies mem, mem.memoryPages, k`pages, k`pageTable, k`mapErrors, k`refusals
      ensures Live() && mem.memoryPages == old(mem.memoryPages) && mem.memoryBase == old(mem.memoryBase)
      ensures importedFuncs[..] == old(importedFuncs[..])
      ensures how == NoMemory <==> mem.memoryBase == 0
      ensures how == NoChange <==> mem.memoryBase != 0 && pages == 0
      ensures how == TooLarge <==> mem.memoryBase != 0 && pages != 0 && old(mem.memoryBound) + pages * WASM_PAGE > STATIC_MEMORY_AVAILABLE
      ensures r == if how == NoChange || how == Granted then old(mem.Size()) else -1
      ensures mem.memoryBound == old(mem.memoryBound) + if how == Granted then pages * WASM_PAGE else 0
      ensures mem.Flat()[..old(mem.memoryBound)] == old(mem.Flat())
      ensures mem.everUntidy <==> old(mem.everUntidy) || how == MapFailed
      ensures k.mapErrors == old(k.mapErrors) + if how == MapFailed then 1 else 0
      ensures old(k.refusals) <= k.refusals && (k.refusals == old(k.refusals) <==> how != MapFailed && how != OutOfPages)
    {
      hide Books, Elems, Owed, PageOf, View, Consistent, Guarded, Wired, CodeLoaded;
      ghost var area := PageOf(mem.staticMemoryVm);
      assert mem.memoryBase != 0 ==> mem.memoryBase == mem.staticMemoryVm;
      r, how := mem.Grow(pages);
      if mem.memoryBase != 0 {
        AreaGrows(outside.pageTable, old(k.pageTable), k.pageTable, area);
        PagesGrow(outside.pages, old(k.pages), k.pages, old(mem.Owned()) + old(mem.leaked), mem.Owned() + mem.leaked);
      }
    }

    /** `destroy_execution_engine`: everything the load and the grows took goes back, except
        the frames that a grow stranded in its mapping step. */
    method Destroy()
      requires Live() && Executable()
      modifies k`pages, k`pageTable, k`buffers, k`instances, k`readOnly
      ensures k.Valid() && k.buffers == outside.buffers && k.instances == outside.instances
      ensures k.readOnly == outside.readOnly && k.pageTable == outside.pageTable
      ensures k.pages == outside.pages + mem.leaked && mem.leaked !! outside.pages
    {
      hide Books, Without, Elems, Injective, MappedWithin, Owed, PageOf, Consistent, StackEnd, StackLowerBound;
      DestroyReady();
      k.SetMemoryRw(PageOf(stackBegin), STACK_GUARD_SIZE / PAGE_SIZE);
      ReleaseAll(true);
    }

    lemma DestroyReady()
      requires Live() && Executable()
      ensures mem.Freeable(true) && mem.leaked !! mem.Owned() && CodeFreeable()
      ensures GuardPages(stackBacking) <= PageRange(PageOf(stackBacking), STACK_SIZE / PAGE_SIZE)
    {
      if mem.memoryBase != 0 {
        mem.LoadedIsFreeable();
      }
      GuardInStack(stackBacking);
    }
  }

  lemma AreaGrows(outside: map<nat, nat>, was: map<nat, nat>, now: map<nat, nat>, area: nat)
    requires Without(was, area, AREA_PAGES) == outside
    requires forall v :: v in now && v !in was ==> area <= v < area + AREA_PAGES
    requires forall v :: v in was ==> v in now && now[v] == was[v]
    ensures Without(now, area, AREA_PAGES) == outside
  {
  }

  lemma PagesGrow(outside: set<nat>, was: set<nat>, now: set<nat>, mine: set<nat>, mine': set<nat>)
    requires was == outside + mine && mine !! outside && was <= now && (now - was) + mine == mine'
    ensures now == outside + mine' && mine' !! outside
  {
  }

  lemma EmptyBooks(outside: set<nat>)
    ensures Books(outside, outside, [0, 0, 0, 0, 0, 0, 0, 0, 0, 0])
  {
  }

  lemma GuardInStack(backing: U64Word)
    requires 0 < backing && backing + STACK_SIZE < U64 && backing % PAGE_SIZE == 0
    ensures GuardPages(backing) <= PageRange(PageOf(backing), STACK_SIZE / PAGE_SIZE)
  {
  }

  lemma BooksApart(outside: set<nat>, buffers: set<nat>, hs: seq<nat>)
    requires Books(outside, buffers, hs) && |hs| >= 2
    ensures hs[0] != 0 ==> hs[0] != hs[1]
    ensures (hs[0] == 0 || hs[0] in buffers) && (hs[1] == 0 || hs[1] in buffers)
  {
    assert hs[0] in Elems(hs) && hs[1] in Elems(hs);
  }
}
