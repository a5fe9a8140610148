/** Address arithmetic of vm.h: the wrapping bounds check behind every guest memory
    access, page rounding, and where the guard pages and the first coroutine frame
    fall inside the stack backing. Addresses are unsigned 64-bit; NULL is 0. */
module VmLayout {

  const U32: nat := 0x1_0000_0000
  const U64: nat := 0x1_0000_0000_0000_0000
  const PAGE_SIZE: nat := 4096
  const WASM_PAGE: nat := 65536
  const MAX_CODE_SIZE: nat := 8 * 1048576
  const MAX_MEMORY_SIZE: nat := 16 * 1048576
  const MAX_GLOBAL_COUNT: nat := 128
  const MAX_IMPORT_COUNT: nat := 128
  const MAX_DYNAMIC_SIGINDICE_COUNT: nat := 8192
  const MAX_TABLE_COUNT: nat := 1024
  const STACK_SIZE: nat := 2 * 1048576
  const STACK_GUARD_SIZE: nat := 8192
  const STATIC_MEMORY_SIZE: nat := 6144 * 1048576
  const STATIC_MEMORY_AVAILABLE: nat := 1024 * 1048576

  type U64Word = x: nat | x < U64
  type U32Word = x: nat | x < U32
  type Byte = b: nat | b < 256

  /** The check of `vmctx_get_memory_slice`, in wrapping arithmetic; the contract says
      what it decides in true integers. */
  function GetMemorySlice(base: U64Word, bound: U64Word, offset: U32Word, len: U32Word): (slice: nat)
    ensures base != 0 ==>
      (slice != 0 <==> base + bound < U64 && offset < bound && offset + len <= bound)
    ensures slice != 0 ==> slice == base + offset
    ensures bound == 0 ==> slice == 0
  {
    var begin := (base + offset) % U64;
    var end := (begin + len) % U64;
    var realEnd := (base + bound) % U64;
    if end < begin || begin < base || begin >= realEnd || end > realEnd then 0 else begin
  }

  /** `round_up_to_page_size`: masking with ~4095 drops the remainder. The least page
      multiple not below x, except that the last page of the address space wraps to 0. */
  function RoundUpToPageSize(x: U64Word): (r: nat)
    ensures r % PAGE_SIZE == 0
    ensures x + 4095 < U64 <==> r >= x && r < U64 && r < x + PAGE_SIZE && (x == 0 || r > 0)
    ensures x + 4095 >= U64 ==> r == 0
  {
    var y := (x + 4095) % U64;
    y - y % PAGE_SIZE
  }

  function PageOf(a: nat): nat { a / PAGE_SIZE }

  predicate InPages(p: nat, first: nat, count: nat) { first <= p < first + count }

  /** The page numbers that a (start address, page count) pair denotes. */
  function PageRange(first: nat, count: nat): (pages: set<nat>)
    ensures forall p: nat :: p in pages <==> first <= p < first + count
  {
    set p: nat | first <= p < first + count && InPages(p, first, count)
  }

  /** Virtual pages that `set_memory_nx` and `set_memory_x` receive for the code buffer. */
  function CodePages(code: nat, codeLen: U32Word): set<nat> {
    PageRange(PageOf(code), RoundUpToPageSize(codeLen) / PAGE_SIZE)
  }

  /** The permission calls cover exactly the pages of the allocation: a page is in the
      range if and only if some allocated code byte lies on it. */
  lemma CodePagesAreTheAllocation(code: nat, codeLen: U32Word, p: nat)
    requires code % PAGE_SIZE == 0
    ensures p in CodePages(code, codeLen) <==>
      exists a: nat :: code <= a < code + RoundUpToPageSize(codeLen) && PageOf(a) == p
  {
    if p in CodePages(code, codeLen) {
      assert code <= p * PAGE_SIZE < code + RoundUpToPageSize(codeLen);
      assert PageOf(p * PAGE_SIZE) == p;
    }
  }

  function StackBegin(backing: U64Word): nat { RoundUpToPageSize(backing) }

  function StackEnd(backing: nat): nat {
    var top := (backing + STACK_SIZE) % U64;
    top - top % 16
  }

  function StackLowerBound(backing: U64Word): nat { StackBegin(backing) + STACK_GUARD_SIZE + 8192 }

  /** Pages made read-only below the guest stack. */
  function GuardPages(backing: U64Word): set<nat> {
    PageRange(PageOf(StackBegin(backing)), STACK_GUARD_SIZE / PAGE_SIZE)
  }

  /** Guard, usable stack and the nine-word first frame lie in this order, disjoint,
      inside the backing; the frame's top is 16-byte aligned. */
  lemma StackLayoutInOrder(backing: U64Word)
    requires 0 < backing && backing + STACK_SIZE < U64
    ensures backing <= StackBegin(backing) < backing + PAGE_SIZE
    ensures StackBegin(backing) + STACK_GUARD_SIZE < StackLowerBound(backing)
    ensures StackLowerBound(backing) < StackEnd(backing) - 72
    ensures backing + STACK_SIZE - 16 < StackEnd(backing) <= backing + STACK_SIZE
    ensures StackEnd(backing) % 16 == 0
    ensures forall a: nat :: PageOf(a) in GuardPages(backing) ==>
      backing <= a < StackLowerBound(backing) && a < StackEnd(backing) - 72
  {
  }
}
