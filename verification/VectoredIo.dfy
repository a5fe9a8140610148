/** `__wasi_fd_write` and `__wasi_fd_read` of wasi/ext.c: loops over guest iovecs, each an
    8-byte little-endian (address, length) pair, found at 32-bit truncated addresses and
    checked by `vmctx_get_memory_slice`. The results of `kernel_write` and `kernel_read`
    are parameters: a negative grant is an error, any other is the most bytes the kernel
    is willing to move in that call. */
module VectoredIo {
  import opened VmLayout

  datatype Status = ESUCCESS | EFAULT | EBADF | EPIPE

  /** Guest memory, file bytes and file position. */
  datatype Store = Store(mem: seq<Byte>, content: seq<Byte>, pos: nat)

  /** What every loaded engine's context satisfies. */
  predicate Context(base: nat, bound: nat) {
    base + bound < U64 && bound <= STATIC_MEMORY_AVAILABLE && (base == 0 ==> bound == 0)
  }

  predicate Fits(bound: nat, offset: nat, len: nat) { offset < bound && offset + len <= bound }

  predicate Slice(base: nat, bound: nat, offset: U32Word, len: U32Word)
    requires Context(base, bound)
    ensures Slice(base, bound, offset, len) <==> Fits(bound, offset, len)
  {
    GetMemorySlice(base, bound, offset, len) != 0
  }

  function Word(b0: nat, b1: nat, b2: nat, b3: nat): nat {
    b0 + 0x100 * b1 + 0x1_0000 * b2 + 0x100_0000 * b3
  }

  function Le32(mem: seq<Byte>, a: nat): U32Word
    requires a + 4 <= |mem|
  {
    Word(mem[a], mem[a + 1], mem[a + 2], mem[a + 3])
  }

  function PutLe32(mem: seq<Byte>, a: nat, v: U32Word): (r: seq<Byte>)
    requires a + 4 <= |mem|
    ensures |r| == |mem| && Le32(r, a) == v
    ensures forall x :: 0 <= x < |mem| && !(a <= x < a + 4) ==> r[x] == mem[x]
  {
    mem[a := v % 0x100][a + 1 := v / 0x100 % 0x100][a + 2 := v / 0x100 / 0x100 % 0x100][a + 3 := v / 0x100 / 0x100 / 0x100]
  }

  function Min(a: nat, b: nat): nat { if a < b then a else b }

  /** A file after data was written at pos; nothing happens for no data, and a gap past
      the old end reads as zeros. */
  function WriteAt(content: seq<Byte>, pos: nat, data: seq<Byte>): (r: seq<Byte>)
    ensures data != [] ==> pos + |data| <= |r| && r[pos..pos + |data|] == data
  {
    if data == [] then content
    else
      var padded := if |content| < pos then content + seq(pos - |content|, i => 0) else content;
      padded[..pos] + data + (if pos + |data| < |padded| then padded[pos + |data|..] else [])
  }

  /** Two adjacent writes are one write. */
  lemma WriteAtJoins(content: seq<Byte>, pos: nat, a: seq<Byte>, b: seq<Byte>)
    ensures WriteAt(WriteAt(content, pos, a), pos + |a|, b) == WriteAt(content, pos, a + b)
  {
    if a == [] {
      assert a + b == b;
    } else if b == [] {
      assert a + b == a;
    } else {
      var l, r := WriteAt(WriteAt(content, pos, a), pos + |a|, b), WriteAt(content, pos, a + b);
      assert |l| == |r|;
      assert forall x :: 0 <= x < |l| ==> l[x] == r[x];
    }
  }

  // ---------------------------------------------------------------- the loops as functions

  /** Truncated address of iovec i, as the C expression passes it. */
  function IovecAt(iovs: U32Word, i: nat): U32Word { (iovs + 8 * i) % U32 }

  /** One pass through the body of the write loop. */
  function WriteOne(base: nat, st: Store, cell: nat, iovs: U32Word, i: nat, grant: int): (r: (Store, Status))
    requires Context(base, |st.mem|) && cell + 4 <= |st.mem|
    ensures |r.0.mem| == |st.mem|
  {
    var a := IovecAt(iovs, i);
    if !Slice(base, |st.mem|, a, 8) then (st, EFAULT)
    else
      var buf, len := Le32(st.mem, a), Le32(st.mem, a + 4);
      if !Slice(base, |st.mem|, buf, len) then (st, EFAULT)
      else if grant < 0 then (st, EPIPE)
      else
        var n := Min(grant, len);
        (Store(PutLe32(st.mem, cell, (Le32(st.mem, cell) + n) % U32),
               WriteAt(st.content, st.pos, st.mem[buf..buf + n]), st.pos + n), ESUCCESS)
  }

  function WriteFrom(base: nat, st: Store, cell: nat, iovs: U32Word, count: nat, i: nat, grants: nat -> int): (r: (Store, Status))
    requires Context(base, |st.mem|) && cell + 4 <= |st.mem|
    ensures |r.0.mem| == |st.mem|
    decreases count - i
  {
    if i >= count then (st, ESUCCESS)
    else
      var (next, status) := WriteOne(base, st, cell, iovs, i, grants(i));
      if status != ESUCCESS then (next, status) else WriteFrom(base, next, cell, iovs, count, i + 1, grants)
  }

  function Remaining(content: seq<Byte>, pos: nat): nat { if pos < |content| then |content| - pos else 0 }

  function ReadOne(base: nat, st: Store, cell: nat, iovs: U32Word, i: nat, grant: int): (r: (Store, Status))
    requires Context(base, |st.mem|) && cell + 4 <= |st.mem|
    ensures |r.0.mem| == |st.mem|
  {
    var a := IovecAt(iovs, i);
    if !Slice(base, |st.mem|, a, 8) then (st, EFAULT)
    else
      var buf, len := Le32(st.mem, a), Le32(st.mem, a + 4);
      if !Slice(base, |st.mem|, buf, len) then (st, EFAULT)
      else if grant < 0 then (st, EPIPE)
      else
        var n := Min(grant, Min(len, Remaining(st.content, st.pos)));
        var filled := Fill(st.mem, buf, st.content, st.pos, n);
        (Store(PutLe32(filled, cell, (Le32(filled, cell) + n) % U32), st.content, st.pos + n), ESUCCESS)
  }

  /** Memory after n file bytes from pos were copied to buf. */
  function Fill(mem: seq<Byte>, buf: nat, content: seq<Byte>, pos: nat, n: nat): (r: seq<Byte>)
    requires buf + n <= |mem| && (n > 0 ==> pos + n <= |content|)
    ensures |r| == |mem|
    ensures forall x :: 0 <= x < |mem| ==> r[x] == if buf <= x < buf + n then content[pos + x - buf] else mem[x]
  {
    if n == 0 then mem else mem[..buf] + content[pos..pos + n] + mem[buf + n..]
  }

  function ReadFrom(base: nat, st: Store, cell: nat, iovs: U32Word, count: nat, i: nat, grants: nat -> int): (r: (Store, Status))
    requires Context(base, |st.mem|) && cell + 4 <= |st.mem|
    ensures |r.0.mem| == |st.mem|
    decreases count - i
  {
    if i >= count then (st, ESUCCESS)
    else
      var (next, status) := ReadOne(base, st, cell, iovs, i, grants(i));
      if status != ESUCCESS then (next, status) else ReadFrom(base, next, cell, iovs, count, i + 1, grants)
  }

  // ---------------------------------------------------------------- the loops as methods

  class File {
    var content: seq<Byte>
    var pos: nat
    var refs: nat

    /** `kernel_write` at a position the caller keeps. */
    method KernelWrite(data: seq<Byte>, grant: int, at: nat) returns (ret: int, newPos: nat)
      modifies this`content
      ensures grant < 0 ==> ret < 0 && newPos == at && content == old(content)
      ensures grant >= 0 ==> ret == Min(grant, |data|) && newPos == at + ret
      ensures grant >= 0 ==> content == WriteAt(old(content), at, data[..ret])
    {
      if grant < 0 {
        return -1, at;
      }
      ret := Min(grant, |data|);
      newPos := at + ret;
      content := WriteAt(content, at, data[..ret]);
    }
  }

  /** Guest memory seen through `vmctx`: memory_base and memory_bound bytes. */
  class Vmctx {
    const base: nat
    const mem: array<Byte>

    ghost predicate Valid() { Context(base, mem.Length) }

    ghost function With(f: File): Store
      reads mem, f
    {
      Store(mem[..], f.content, f.pos)
    }

    method Read32(a: nat) returns (v: U32Word)
      requires a + 4 <= mem.Length
      ensures v == Le32(mem[..], a)
    {
      v := Word(mem[a], mem[a + 1], mem[a + 2], mem[a + 3]);
    }

    method Write32(a: nat, v: U32Word)
      requires a + 4 <= mem.Length
      modifies mem
      ensures mem[..] == PutLe32(old(mem[..]), a, v)
    {
      mem[a], mem[a + 1], mem[a + 2], mem[a + 3] := v % 0x100, v / 0x100 % 0x100, v / 0x100 / 0x100 % 0x100, v / 0x100 / 0x100 / 0x100;
    }

    /** The body of the write loop for one iovec. */
    method WriteIovec(f: File, nwritten: nat, iovs: U32Word, i: nat, grant: int) returns (status: Status)
      requires Valid() && nwritten + 4 <= mem.Length
      modifies mem, f`content, f`pos
      ensures (With(f), status) == WriteOne(base, old(With(f)), nwritten, iovs, i, grant)
    {
      hide PutLe32, Le32, WriteAt;
      var a := IovecAt(iovs, i);
      if !Slice(base, mem.Length, a, 8) {
        return EFAULT;
      }
      var buf := Read32(a);
      var len := Read32(a + 4);
      if !Slice(base, mem.Length, buf, len) {
        return EFAULT;
      }
      var ret, pos := f.KernelWrite(mem[buf..buf + len], grant, f.pos);
      if ret < 0 {
        return EPIPE;
      }
      assert mem[buf..buf + len][..ret] == mem[..][buf..buf + ret];
      var soFar := Read32(nwritten);
      Write32(nwritten, (soFar + ret) % U32);
      f.pos := pos;
      return ESUCCESS;
    }

    method FdWrite(f: File?, iovs: U32Word, iovsLen: U32Word, nwritten: U32Word, grants: nat -> int) returns (status: Status)
      requires Valid()
      modifies mem, f
      ensures !Fits(mem.Length, nwritten, 4) ==> status == EFAULT && mem[..] == old(mem[..])
      ensures !Fits(mem.Length, nwritten, 4) && f != null ==> f.content == old(f.content) && f.pos == old(f.pos)
      ensures Fits(mem.Length, nwritten, 4) && f == null ==>
        status == EBADF && mem[..] == PutLe32(old(mem[..]), nwritten, 0)
      ensures Fits(mem.Length, nwritten, 4) && f != null ==>
        (With(f), status) == WriteFrom(base, Cleared(old(With(f)), nwritten), nwritten, iovs, iovsLen, 0, grants)
      ensures f != null ==> f.refs == old(f.refs)
    {
      hide PutLe32, WriteOne;
      if !Slice(base, mem.Length, nwritten, 4) {
        return EFAULT;
      }
      Write32(nwritten, 0);
      if f == null {
        return EBADF;
      }
      f.refs := f.refs + 1;
      ghost var start := With(f);
      var i := 0;
      while i < iovsLen
        invariant 0 <= i <= iovsLen && f.refs == old(f.refs) + 1
        invariant WriteFrom(base, With(f), nwritten, iovs, iovsLen, i, grants)
               == WriteFrom(base, start, nwritten, iovs, iovsLen, 0, grants)
      {
        status := WriteIovec(f, nwritten, iovs, i, grants(i));
        if status != ESUCCESS {
          f.refs := f.refs - 1;
          return;
        }
        i := i + 1;
      }
      f.refs := f.refs - 1;
      return ESUCCESS;
    }

    /** `kernel_read` into guest memory at a position the caller keeps. */
    method KernelRead(f: File, buf: nat, len: nat, grant: int, at: nat) returns (ret: int, newPos: nat)
      requires buf + len <= mem.Length
      modifies mem
      ensures grant < 0 ==> ret < 0 && newPos == at && mem[..] == old(mem[..])
      ensures grant >= 0 ==> ret == Min(grant, Min(len, Remaining(f.content, at))) && newPos == at + ret
      ensures grant >= 0 ==> mem[..] == Fill(old(mem[..]), buf, f.content, at, ret)
    {
      if grant < 0 {
        return -1, at;
      }
      ret := Min(grant, Min(len, Remaining(f.content, at)));
      newPos := at + ret;
      forall x | buf <= x < buf + ret {
        mem[x] := f.content[at + x - buf];
      }
    }

    /** The body of the read loop for one iovec. */
    method ReadIovec(f: File, nread: nat, iovs: U32Word, i: nat, grant: int) returns (status: Status)
      requires Valid() && nread + 4 <= mem.Length
      modifies mem, f`pos
      ensures (With(f), status) == ReadOne(base, old(With(f)), nread, iovs, i, grant)
    {
      hide PutLe32, Le32, Fill;
      var a := IovecAt(iovs, i);
      if !Slice(base, mem.Length, a, 8) {
        return EFAULT;
      }
      var buf := Read32(a);
      var len := Read32(a + 4);
      if !Slice(base, mem.Length, buf, len) {
        return EFAULT;
      }
      var ret, pos := KernelRead(f, buf, len, grant, f.pos);
      if ret < 0 {
        return EPIPE;
      }
      var soFar := Read32(nread);
      Write32(nread, (soFar + ret) % U32);
      f.pos := pos;
      return ESUCCESS;
    }

    method FdRead(f: File?, iovs: U32Word, iovsLen: U32Word, nread: U32Word, grants: nat -> int) returns (status: Status)
      requires Valid()
      modifies mem, f
      ensures !Fits(mem.Length, nread, 4) ==> status == EFAULT && mem[..] == old(mem[..])
      ensures !Fits(mem.Length, nread, 4) && f != null ==> f.content == old(f.content) && f.pos == old(f.pos)
      ensures Fits(mem.Length, nread, 4) && f == null ==>
        status == EBADF && mem[..] == PutLe32(old(mem[..]), nread, 0)
      ensures Fits(mem.Length, nread, 4) && f != null ==>
        (With(f), status) == ReadFrom(base, Cleared(old(With(f)), nread), nread, iovs, iovsLen, 0, grants)
      ensures f != null ==> f.refs == old(f.refs)
    {
      hide PutLe32, ReadOne;
      if !Slice(base, mem.Length, nread, 4) {
        return EFAULT;
      }
      Write32(nread, 0);
      if f == null {
        return EBADF;
      }
      f.refs := f.refs + 1;
      ghost var start := With(f);
      var i := 0;
      while i < iovsLen
        invariant 0 <= i <= iovsLen && f.refs == old(f.refs) + 1
        invariant ReadFrom(base, With(f), nread, iovs, iovsLen, i, grants)
               == ReadFrom(base, start, nread, iovs, iovsLen, 0, grants)
      {
        status := ReadIovec(f, nread, iovs, i, grants(i));
        if status != ESUCCESS {
          f.refs := f.refs - 1;
          return;
        }
        i := i + 1;
      }
      f.refs := f.refs - 1;
      return ESUCCESS;
    }
  }

  function Cleared(st: Store, cell: nat): Store
    requires cell + 4 <= |st.mem|
  {
    st.(mem := PutLe32(st.mem, cell, 0))
  }
}
