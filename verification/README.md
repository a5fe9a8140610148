# kernel-wasm: a verified model

kernel-wasm is a Linux kernel module that loads and runs WebAssembly. This project models its
stateful cores in Dafny and proves what holds over every run, every schedule and every choice
the kernel makes:

- **The run protocol** (`RunProtocol.dfy`, `RunTheorems.dfy`, `RunPlan.dfy`). The caller, the runner thread and
  the finalizer thread of `uapi.c` share a record on the caller's stack. Each statement on shared
  state is one atomic step; a run is any interleaving of steps, with any number of signals and any
  guest outcome. One invariant is preserved by every step, and the theorems about task lifetime,
  results, files, permissions, deadlock and termination follow from it for all runs. `RunPlan.dfy`
  turns complete runs into something one request of a session executes.
- **The coroutine** (`Coroutine.dfy`, `CoroutineRun.dfy`). `co_switch` is executed instruction by
  instruction on a register-and-stack machine. Control follows the return addresses that are really
  in memory, between arbitrary code on both sides.
- **Linear memory, engine and session** (`Kernel.dfy`, `LinearMemory.dfy`, `Vm.dfy`,
  `FlatModel.dfy`, `Uapi.dfy`).
  A page array and a page table are shown to behave as one growable byte sequence, and a session,
  from open to release, is shown to give everything back.
- **Vectored I/O** (`VectoredIo.dfy`, `IoTheorems.dfy`, `GuestIo.dfy`). The iovec loops of `fd_write` and `fd_read`
  are proved to be one contiguous transfer each, to be inverse to each other, and to change guest
  memory only by stores that a run may make.
- **The resolver registry** (`Kapi.dfy`). An intrusive ring with a separate count, the snapshot an
  engine takes of it, and the first-match lookup.

`VmLayout.dfy` holds the address arithmetic that the others share, with 64-bit and 32-bit wrap-around
written out.

## How the parts fit

Code that updates things in place is modelled by classes whose methods do the same updates; each
method is tied by its contract to a function of the old state or to an invariant. Kernel primitives
(`alloc_page`, `vmalloc`, `__get_vm_area`, mapping a range) are methods of `Kernel.Machine` that
choose freely among the results the primitive may give, failure included, so a theorem about a
caller holds for every choice. Freeing and releasing are only allowed of something that is held, a
frame may only be freed when nothing maps it, the stack only when it is writable and the code only when
it is executable: these are preconditions, so every proof of a caller is also a proof that it frees
nothing twice, nothing that is mapped and nothing with changed permissions. Two ghost counters of `Kernel.Machine`
record how often the kernel refused something, and how often a mapping failed; with them the success
of a load or a grow is stated as an if-and-only-if.

`Uapi.Lifetime` puts the session together: any sequence of loads, runs, reads and writes, with any changes
of the resolver registry before each, closed by release, is a run of the flat model `FlatRun` and leaves
the kernel as it was. A run request executes a complete run of the protocol for the engine's own code
pages, with memory.grow and stores of the guest in between; its plan is a parameter, and `PlanIsRun` and
`RunHasPlan` say that plans are exactly the complete runs. A step of the flat model is decided by the
request, the registered providers and whether the kernel refused something, except for the bytes that a
grow brings in. The lemmas in `FlatModel.dfy` then say what a user of the device can rely on.

Three properties one might expect do not hold on all paths of the code. They are kept as the code
has them, with the exact condition:

- The task record is safe after the call returns if and only if the runner thread was created.
  When `kthread_create` fails, the caller may return before the finalizer has looked at the record
  (`SafeIffRunnerCreated`, `FailedCreationIsUnsafe`).
- Frames are missing after release if and only if the kernel failed to map a range during some run,
  that is in a `memory.grow` of its guest (`Uapi.Lifetime`). The bytes a guest sees are right even then.
- Instances of providers are left unreleased if and only if some load on a closed session, within limits
  and unrefused, meets a failing `get_instance` behind a provider whose instance has a release callback;
  they are then exactly the instances obtained before the failing one (`Uapi.Lifetime`,
  `FlatModel.LostIff`, `Kapi.Registry.GetModuleResolver`). `Kapi.TwoProvidersStrandOne` is such a list.

## Assumptions

- Semaphore operations and single shared accesses are atomic. `down_interruptible` takes an available
  count before it looks at signals.
- Calls on one session do not overlap, as the comment at `vm.h:97` says, and other users of the kernel's
  allocator do not act in the middle of a modelled call.
- Permission changes succeed. `fget_raw` gives a valid reference or an error.
- New frames hold arbitrary bytes, since `alloc_page` is not asked for zeroed ones.
- A mapping call maps some prefix of the range and stops with an error at a page that is already mapped,
  or at an empty slot of the page array. An initial memory that is not a whole number of 4096-byte pages
  therefore fails to load, although the source does not check for it.
- A guest stores inside its memory bound only; a store outside traps.
- An allocation of code is executable.
- A killed guest ends with a nonzero exit code of its thread.
- Words of the coroutine machine are 8-byte cells named by the address of their first byte. The compiled
  `call_entry` keeps its parameter in `rbx`. Each side writes only its own stack, and the entry body
  follows sections 3.2.1 and 3.2.2 of the System V AMD64 ABI when it returns.
- A provider's `get_instance` and an instance's `resolve` are values, so they do not change between calls.
- A user copy that fails during a load leaves no bytes behind; one that fails during a host write leaves
  any bytes behind.

## Model

| member | source | states |
|---|---|---|
| VmLayout.GetMemorySlice | vm.h:111-121 | with a non-null base, a slice is returned exactly when base + bound does not overflow 64 bits, offset < bound and offset + len <= bound as true integers; it is then base + offset |
| VmLayout.RoundUpToPageSize | vm.h:107-109 | the least multiple of 4096 not below the argument, except that the last page of the address space wraps to 0 |
| VmLayout.CodePagesAreTheAllocation | vm.h:123-129 | the NX and X calls cover a page if and only if some byte of the code allocation lies on it |
| VmLayout.StackLayoutInOrder | vm.c:281-292 | for every backing address: guard, lower bound and the nine-word first coroutine frame lie in order and disjoint inside the backing, whose end is 16-byte aligned |
| RunProtocol.StepKeepsInv | uapi.c:323-426 | every enabled step of caller, runner, finalizer, guest or signal preserves the protocol invariant |
| RunTheorems.RunInv | uapi.c:323-426 | the invariant holds in every state of every run |
| RunTheorems.NoTouchAfterReturn | uapi.c:366-409 | once the call has returned and the runner had been created, the runner is dead, the finalizer is gone and no later step touches the task record |
| RunTheorems.SafeIffRunnerCreated | uapi.c:375-384 | at the moment `kthread_create` returns: all continuations are free of late accesses to the task record if and only if it succeeded |
| RunTheorems.FailedCreationIsUnsafe | uapi.c:376-384 | from a failed creation there is always a schedule in which the finalizer touches the record after the call has returned |
| RunTheorems.EarlyReturnIsSafe | uapi.c:330-373 | a call that returns before the creation of the runner has no late access |
| RunTheorems.StopIsTimely | uapi.c:267-277 | the finalizer stops only a runner that is set, referenced and past its first semaphore; a kill goes only to a referenced thread |
| RunTheorems.CallerReadsFinalValues | uapi.c:400-409 | when the caller reads `ret` and `finalize_ret` they are the guest's own outcome, and no later step changes them |
| RunTheorems.ResultIsTheOutcome | uapi.c:400-409 | what is reported to the user, as a function of how the guest ended, for each of the four ways |
| RunTheorems.SemaphoresAreBinary | uapi.c:362-392 | each semaphore is upped at most once and stays in {0, 1} |
| RunTheorems.NoDeadlock | uapi.c:391-399 | in every run, error branches included, some advancing step is enabled exactly until all three threads are done |
| RunTheorems.StepLowersRank | uapi.c:391-399 | a ranking function falls on every step except guest steps and signals, and a signal raises it by at most three |
| RunTheorems.RunIsBounded | uapi.c:391-399 | every run has at most 36 steps, plus one per guest step, plus four per signal |
| RunTheorems.FilesConsumedOnce | uapi.c:198-234 | no reference to a standard file is consumed twice, and after the call each one taken was consumed exactly once, by fput or by installation |
| RunTheorems.CodeExecutableAfterRun | uapi.c:394-414 | whatever signals arrived, after the call exactly the pages that were not executable before are not executable; during it only code pages differ |
| RunPlan.PlanIsRun | uapi.c:323-426 | every plan of moves ends as some complete run of the protocol ends |
| RunPlan.RunHasPlan | uapi.c:323-426 | every complete run whose call got past its checks is the run of some plan |
| RunPlan.Perform | vm.h:123-129 | a step with its permission calls made on the kernel keeps the kernel's non-executable pages those of the protocol state |
| RunPlan.FinishRun | uapi.c:391-426 | carrying on always ends with all three threads done and the non-executable pages as before the call |
| RunPlan.FinalAlike | uapi.c:323-426 | the end of a run, apart from page permissions, does not depend on where the code lies |
| Coroutine.Cpu.CoSwitch | coroutine.h:4-20 | the sixteen instructions have the effect of storing the own frame, swapping the cell and loading the other frame |
| Coroutine.Cpu.PreCallEntry | coroutine.h:22-27 | the two pops and the call enter the stored entry with the stored coroutine as argument |
| Coroutine.Cpu.PrepareStack | coroutine.h:50-67 | the stores of `start_coroutine` build the nine-word frame and point the cell at it |
| Coroutine.SwitchSaves | coroutine.h:4-20 | switching away leaves a frame from which exactly the caller's registers, stack pointer and return address can be taken |
| Coroutine.SwitchWritesOwnRegion | coroutine.h:4-20 | a switch changes no word outside its own stack region and the cell |
| Coroutine.SwitchResumes | coroutine.h:4-20 | a switch resumes exactly the context in the frame the cell pointed at |
| Coroutine.EachSideResumes | coroutine.h:4-20 | over any number of switches between two disjoint stacks, each side comes back with the rbx, rbp, r12 to r15, stack pointer and return address it had |
| CoroutineRun.TraceInv | coroutine.h:43-69 | the coroutine invariant holds in every state of every trace, with arbitrary code of either side in between |
| CoroutineRun.TraceIsSafe | coroutine.h:22-48 | `ud2` is never reached, `terminated` is set only after entry returned, entry is called at most once and with its own `co`, and `call_entry` starts with rsp + 8 a multiple of 16 |
| CoroutineRun.LoopEndsAfterAllYields | uapi.c:251-265 | for a body that yields k times the host loop ends after exactly k + 1 further switches, with entry called once and returned |
| CoroutineRun.CrossingResumes | coroutine.h:43-69 | each crossing between the sides resumes the other with exactly the context it last switched away with |
| CoroutineRun.StepLowersRank | uapi.c:251-265 | a ranking function falls on every step of the modelled code |
| CoroutineRun.TraceIsBounded | uapi.c:251-265 | a trace makes at most 10k + 16 steps of the modelled code |
| CoroutineRun.TraceCanGoOn | uapi.c:251-265 | before the host is done some step is always possible, once the body meets its ABI obligations |
| VectoredIo.PutLe32 | wasi/ext.c:191-219 | a counter store reads back as stored and changes no other byte |
| VectoredIo.WriteAtJoins | wasi/ext.c:213-220 | two adjacent writes to a file are one write |
| VectoredIo.Vmctx.WriteIovec | wasi/ext.c:203-220 | one iteration on real memory and file is the specification step, all error exits included |
| VectoredIo.Vmctx.FdWrite | wasi/ext.c:176-225 | the whole call is the specification loop from the cleared counter; bad counter address and bad descriptor leave the file alone; the file reference is dropped on every exit |
| VectoredIo.Vmctx.ReadIovec | wasi/ext.c:254-271 | one iteration on real memory and file is the specification step, all error exits included |
| VectoredIo.Vmctx.FdRead | wasi/ext.c:227-276 | the whole call is the specification loop from the cleared counter; error exits and reference as for writing |
| IoTheorems.WriteAddressesNeverWrap | wasi/ext.c:202-221 | for every iovs, count and overlap, the truncated iovec address does not wrap in any iteration reached, and at most bound / 8 iterations complete |
| IoTheorems.ReadAddressesNeverWrap | wasi/ext.c:253-272 | the same for the read loop |
| IoTheorems.FdWriteIsOneWrite | wasi/ext.c:176-225 | if the counter overlaps no iovec looked at and no buffer served: a write call is one contiguous write of the accepted prefixes at the initial position; at every exit the counter is the sum of transfers mod 2^32, the position has moved by the true sum and no other guest byte has changed |
| IoTheorems.FdReadIsOneRead | wasi/ext.c:227-276 | if nothing looked at or served overlaps: a read call fills prefixes that concatenate to the file bytes from the old position; counter, position, status and untouched bytes as for writing |
| IoTheorems.ChunkStays | wasi/ext.c:253-272 | with disjoint buffers, bytes put into one buffer are not overwritten by later iterations |
| IoTheorems.OthersUntouched | wasi/ext.c:253-272 | a byte outside every filled prefix keeps its value |
| IoTheorems.WriteThenReadIsIdentity | wasi/ext.c:176-276 | data written under one iovec partition and fully read back from the same position under another is the same stream |
| GuestIo.ReadIsStores | wasi/ext.c:253-272 | whatever overlaps, the read loop changes guest memory exactly as a list of guest stores of a run |
| GuestIo.WriteIsStores | wasi/ext.c:202-221 | the write loop changes guest memory exactly as a list of four-byte guest stores to the counter |
| GuestIo.StoreIsMove | vm.h:111-121 | such a store, made while the guest runs, is a move of the flat model |
| Kernel.PhysInjective | vm.c:80-88 | different mapped addresses are different places in physical memory |
| Kernel.StoreShows | uapi.c:317-319 | a store through the mapping changes exactly that byte of the view, across page boundaries |
| Kernel.ViewExtends | vm.c:80-97 | a mapping that only gains pages keeps showing the same bytes |
| Kernel.Machine.MapRange | vm.c:80-88 | some prefix of the frames is mapped and nothing else changes; the page count is returned exactly when all are and the range ends at a page |
| Kernel.Machine.CopyOut | uapi.c:295-297 | copying out byte by byte through the page table gives the slice of the view |
| Kernel.Machine.CopyIn | uapi.c:317-319 | copying in byte by byte through the page table splices the data into the view |
| LinearMemory.Memory.Rollback | vm.c:71-74 | the frames of the slots are given back and the slots cleared, others untouched |
| LinearMemory.Memory.AllocSlots | vm.c:68-78 | new distinct frames in all slots, or no frame taken and the other slots as before |
| LinearMemory.Memory.MapSlots | vm.c:80-97 | mapping and commit keep memory consistent; a failed mapping strands exactly the frames taken |
| LinearMemory.Memory.Grow | vm.c:51-101 | refused exactly without memory, above 1 GiB, or when the kernel refuses a page or the mapping; the outcome decides result, bound and books; bytes seen before stay at their place in every case; a refusal before mapping restores frames, page table and slots exactly; frames taken equal frames owned plus frames stranded |
| LinearMemory.Memory.SlotsBackTheArea | vm.c:61-97 | slot i is non-null exactly below the page count, which is bound / 4096, and backs page i; nothing beyond is mapped, unless a grow failed in its mapping step |
| LinearMemory.Memory.SliceIsMapped | vm.h:111-121 | every byte of a slice lies on a mapped page, and the slice stays valid at the same address under any later bound |
| LinearMemory.Memory.HostRead | uapi.c:279-299 | succeeds exactly when the range is inside the bound, and gives those bytes |
| LinearMemory.Memory.HostWrite | uapi.c:301-321 | succeeds exactly when the range is inside the bound, and splices what landed; otherwise no byte changes |
| LinearMemory.Memory.Populate | vm.c:166-184 | succeeds exactly when the size is whole pages and nothing is refused; after the initial pages, successful or not, the frames can be released and the page table restored; on success memory is consistent |
| LinearMemory.Memory.InitMemory | vm.c:152-194 | for every initial size: succeeds exactly when it is whole pages and the kernel refuses nothing; on success memory shows exactly the requested bytes; on any failure what was taken is what the fields hold |
| LinearMemory.Memory.FreeMemory | vm.c:298-310 | unmaps before freeing, gives back every owned frame, the page array and the area, and empties the area |
| Kapi.LookupTakesFirst | kapi.c:108-125 | a function is found exactly when the first instance that knows the name offers it with the demanded arity |
| Kapi.ModuleResolver.ResolveImport | kapi.c:108-125 | the loop computes the lookup |
| Kapi.ModuleResolver.ResolveImports | vm.c:221-232 | succeeds exactly when no copy faults and every import is found, and then each import is its lookup in the snapshot |
| Kapi.ModuleResolver.Release | kapi.c:99-106 | exactly the snapshot's instances with a release callback are released, each as often as it occurs and each while still held, and the array goes back |
| Kapi.ListAdd | kapi.c:37-52 | the ring stays linked both ways with the entry right behind the head |
| Kapi.ListDel | kapi.c:55-64 | the ring stays linked both ways without the entry |
| Kapi.Registry.Register | kapi.c:37-52 | the provider becomes the newest and the count stays the length, or nothing changes for want of memory |
| Kapi.Registry.Deregister | kapi.c:55-64 | exactly that provider leaves and the count stays the length |
| Kapi.Registry.Serve | kapi.c:37-64 | after any sequence of registrations, some of which may fail, and deregistrations the count equals the list length and the list is the replay of the calls |
| Kapi.Registry.FillInstances | kapi.c:80-92 | the array, sized by the count, is filled exactly in list order; it fails exactly when some provider fails, with the instances before that one obtained |
| Kapi.Registry.GetModuleResolver | kapi.c:67-97 | succeeds exactly when the array is granted and no provider fails; on success the snapshot has one instance per provider, newest first; on failure the array is freed, and if a provider failed exactly the instances before it are left unreleased, otherwise none |
| Kapi.StrandedIff | kapi.c:84-90 | something is left unreleased exactly when a provider fails behind one whose instance has a release callback |
| Kapi.TwoProvidersStrandOne | kapi.c:84-90 | of one working and one failing provider the working one's instance is left |
| Kapi.Registry.Destroy | kapi.c:27-35 | every entry is freed once; links are read through NextOf only |
| Kapi.Registry.NextOf | kapi.c:30-33 | a link is read only out of an entry that is still allocated |
| Vm.BooksAlloc | vm.c:133-285 | putting a new buffer into an empty slot keeps live buffers equal to outside buffers plus slots, no buffer twice |
| Vm.FreeFirst | vm.c:308-317 | the next slot to be freed holds a live buffer or NULL, and the books of the rest stay right |
| Vm.Engine.FreeBuffers | vm.c:311-319 | the frees in this order give back every buffer exactly once, the code while it is executable, and release the snapshot's instances |
| Vm.Engine.LoadGlobals | vm.c:195-214 | the load invariant holds after success and after every failure; success exactly when nothing is refused, and then both buffers are there |
| Vm.Engine.LoadMemory | vm.c:152-194 | the load invariant holds after success and after every failure; success exactly for whole pages with nothing refused, and then the requested bytes are shown |
| Vm.Engine.LoadCode | vm.c:134-150 | the load invariant holds after success and after every failure; the code lies on executable pages |
| Vm.Engine.LoadImports | vm.c:215-233 | the load invariant holds after success and after every failure; success exactly when unrefused with all imports found, and then the import table is that of the snapshot |
| Vm.Engine.LoadStack | vm.c:281-292 | the stack buffer is booked, its guard pages and no other page of the engine become read-only |
| Vm.Engine.Init | vm.c:108-322 | succeeds exactly when the request is within limits and of whole pages, no provider fails, every import is found and the kernel refuses nothing; on success a live engine as requested, with executable code and imports resolved against the registry as it was; on failure at any point buffers, frames, page table and permissions are as before, and instances differ by exactly those lost to a failing provider |
| Vm.Engine.Load | vm.c:108-322 | the same from a new engine: either a live engine with the request and the providers of the load, whose books start from the kernel before the call, or the kernel as it was but for the lost instances |
| Vm.Engine.Grow | vm.c:51-101 | a live engine stays live, imports included: every frame is outside, owned or stranded, in each outcome |
| Vm.Engine.Destroy | vm.c:324-349 | everything goes back exactly once, guard pages become writable before the stack is freed, the code is executable when it is freed, and frames differ from before the load by exactly the stranded ones |
| Vm.Engine.CodeBytesExecutable | vm.h:123-129 | outside runs no byte of the code allocation lies on a non-executable page |
| Uapi.Session.constructor | uapi.c:96-105 | a new session owns nothing and is not ready |
| Uapi.Session.DoLoad | uapi.c:128-163 | refines the flat load, whose success is an if-and-only-if; a failed load leaves a session that owns nothing and loses exactly the instances the flat model says; a second load is refused |
| Uapi.Session.GuestGrows | vm.c:51-101 | refines the flat grow, and counts exactly the mapping failures the kernel made |
| Uapi.Session.GuestStores | vm.h:111-121 | refines the flat store |
| Uapi.Session.PlayPlan | uapi.c:323-426 | the moves of a plan keep the session sound, refine the flat play, and keep the kernel's non-executable pages those of the protocol state |
| Uapi.Session.DoRun | uapi.c:323-426 | refused when not ready; otherwise a complete run of the protocol with the engine's own code, whose outcome is the reply; afterwards the session is valid, its code executable and all other permissions as before |
| Uapi.Session.CodeIsExecutable | uapi.c:394-414 | between requests every byte of a ready session's code is on an executable page |
| Uapi.LiveContext | vm.h:111-121 | base and bound of a live engine are what the iovec loops assume |
| Uapi.Session.DoRead | uapi.c:279-299 | refines the flat read |
| Uapi.Session.DoWrite | uapi.c:301-321 | refines the flat write, faulting copies included |
| Uapi.Session.Serve | uapi.c:431-441 | each request, runs included, keeps the session invariant and is a step of the flat model |
| Uapi.Session.Turn | kapi.c:37-64 | registry changes before a request reach neither the engine's memory nor its resolved imports |
| Uapi.Session.Release | uapi.c:107-118 | the kernel is as when the file was opened, but for stranded frames and lost instances |
| Uapi.Lifetime | uapi.c:96-163 | any sequence of requests, runs included, with any registry changes in between, closed by release, is a flat run from a closed session; buffers, page table, read-only and non-executable pages are as before; frames are missing exactly when mapping failed during some run; the instances left are exactly those the loads lost |
| FlatModel.LostIff | kapi.c:84-90 | over a whole run instances are left exactly when some load on a closed session, within limits and unrefused, meets a failing provider behind one with a release callback |
| FlatModel.MemoryNeverShrinks | vm.c:96-97 | in every flat run a ready session stays ready and a range once valid stays valid |
| FlatModel.ImportsNeverChange | vm.c:215-233 | after a load the imports stay the lookups among the providers of that load, whatever providers later requests meet |
| FlatModel.BytesPersist | vm.c:51-101 | bytes that no write and no guest store in between overlaps are the same later, across any grows |
| FlatModel.UnrefusedRunsAgree | uapi.c:128-426 | as long as the kernel refuses nothing, the requests and the registered providers alone decide every reply, the imports and the memory size |
| FlatModel.WriteIsReadBack | uapi.c:279-321 | what was written is read back by any later read inside it with no overlapping store in between |

## Left out

- networking/ext.c and wasi/def.h: wrappers over system calls and constant tables; only the 8-byte iovec layout is used.
- ext.c, `uapi_init`, `uapi_cleanup`, `vm_init`, symbol lookup, device registration and logging: kernel plumbing without state of interest.
- Guest machine code and `ee_call0`: foreign code, represented by its outcome in the run protocol and by grows and stores in the plan of a run.
- FPU state, the preempt notifier callbacks and their counters: they rest on kernel behaviour that is not part of this model.
- Stubbed and constant WASI calls (`fd_seek`, `random_get`, `path_open`, `environ_get`, `args_get` and the like): single-branch facts.
- `memory_max` and table offsets against the code length: the code enforces neither.
- Contents of globals, signature indices and the table: only their buffers are followed.
- Overlapping calls on one session, and interleaving of several sessions inside one call.
- Files other than a plain byte sequence with a position, and overflow of `loff_t`: `kernel_read` and `kernel_write` are modelled on a byte sequence, each granting any number of bytes or an error.
- Vm.Engine.Load: clearing the engine with memset is modelled by making a new cleared engine.
- Vm.Engine.LoadStack: which buffers are writable is followed for whole pages of the stack only.
- Uapi.Session.constructor: the allocation of the session record itself, which may fail, and its free at release.
- VectoredIo.Vmctx.FdRead: works on guest memory as one array; GuestIo turns its effect, and that of FdWrite, into stores of a session's run.
- Uapi.Session.DoRun: serves the threads of one run until all are done, so no other request of the session overlaps its finalizer.
- Kapi.Registry.Deregister: the registry mutex is not modelled; each registry operation is one step.
