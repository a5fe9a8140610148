/** Meaning of the two iovec loops: what one call does to the file, the counter and guest
    memory, said without the loops, from the iovecs as they stood before the call. */
module IoTheorems {
  import opened VmLayout
  import opened VectoredIo

  type Grants = nat -> int

  // ---------------------------------------------------------------- addresses

  /** Iteration at which the write loop stops, whatever overlaps what. */
  function WriteStop(base: nat, st: Store, cell: nat, iovs: U32Word, count: nat, i: nat, grants: Grants): (stop: nat)
    requires Context(base, |st.mem|) && cell + 4 <= |st.mem| && i <= count
    ensures i <= stop <= count
    decreases count - i
  {
    if i == count then i
    else
      var (next, status) := WriteOne(base, st, cell, iovs, i, grants(i));
      if status != ESUCCESS then i else WriteStop(base, next, cell, iovs, count, i + 1, grants)
  }

  function ReadStop(base: nat, st: Store, cell: nat, iovs: U32Word, count: nat, i: nat, grants: Grants): (stop: nat)
    requires Context(base, |st.mem|) && cell + 4 <= |st.mem| && i <= count
    ensures i <= stop <= count
    decreases count - i
  {
    if i == count then i
    else
      var (next, status) := ReadOne(base, st, cell, iovs, i, grants(i));
      if status != ESUCCESS then i else ReadStop(base, next, cell, iovs, count, i + 1, grants)
  }

  /** Every iteration before i was in bounds at its true address. */
  predicate Reached(bound: nat, iovs: U32Word, i: nat) { i == 0 || iovs + 8 * i <= bound }

  lemma NextAddress(base: nat, bound: nat, iovs: U32Word, i: nat)
    requires Context(base, bound) && Reached(bound, iovs, i)
    ensures IovecAt(iovs, i) == iovs + 8 * i
    ensures Slice(base, bound, IovecAt(iovs, i), 8) ==> Reached(bound, iovs, i + 1)
  {
  }

  lemma WriteOneInBounds(base: nat, st: Store, cell: nat, iovs: U32Word, i: nat, grant: int)
    requires Context(base, |st.mem|) && cell + 4 <= |st.mem|
    ensures WriteOne(base, st, cell, iovs, i, grant).1 == ESUCCESS ==> Slice(base, |st.mem|, IovecAt(iovs, i), 8)
  {
    hide IovecAt, PutLe32, WriteAt;
  }

  lemma ReadOneInBounds(base: nat, st: Store, cell: nat, iovs: U32Word, i: nat, grant: int)
    requires Context(base, |st.mem|) && cell + 4 <= |st.mem|
    ensures ReadOne(base, st, cell, iovs, i, grant).1 == ESUCCESS ==> Slice(base, |st.mem|, IovecAt(iovs, i), 8)
  {
    hide IovecAt, PutLe32, Fill;
  }

  /** For every iovs, every count and every overlap: the truncated address of the iovec
      does not wrap in any iteration the write loop reaches, and all completed iterations
      together fit the memory bound. */
  lemma {:induction false} WriteAddressesNeverWrap(
    base: nat, st: Store, cell: nat, iovs: U32Word, count: nat, i: nat, j: nat, grants: Grants)
    requires Context(base, |st.mem|) && cell + 4 <= |st.mem| && i <= j <= count && Reached(|st.mem|, iovs, i)
    requires j <= WriteStop(base, st, cell, iovs, count, i, grants)
    ensures IovecAt(iovs, j) == iovs + 8 * j && 8 * j <= |st.mem|
    decreases count - i
  {
    hide IovecAt, Slice, WriteOne;
    NextAddress(base, |st.mem|, iovs, i);
    if i < j {
      var (next, status) := WriteOne(base, st, cell, iovs, i, grants(i));
      WriteOneInBounds(base, st, cell, iovs, i, grants(i));
      WriteAddressesNeverWrap(base, next, cell, iovs, count, i + 1, j, grants);
    }
  }

  lemma {:induction false} ReadAddressesNeverWrap(
    base: nat, st: Store, cell: nat, iovs: U32Word, count: nat, i: nat, j: nat, grants: Grants)
    requires Context(base, |st.mem|) && cell + 4 <= |st.mem| && i <= j <= count && Reached(|st.mem|, iovs, i)
    requires j <= ReadStop(base, st, cell, iovs, count, i, grants)
    ensures IovecAt(iovs, j) == iovs + 8 * j && 8 * j <= |st.mem|
    decreases count - i
  {
    hide IovecAt, Slice, ReadOne;
    NextAddress(base, |st.mem|, iovs, i);
    if i < j {
      var (next, status) := ReadOne(base, st, cell, iovs, i, grants(i));
      ReadOneInBounds(base, st, cell, iovs, i, grants(i));
      ReadAddressesNeverWrap(base, next, cell, iovs, count, i + 1, j, grants);
    }
  }

  // ---------------------------------------------------------------- iovecs without the loop

  predicate IovecFits(mem: seq<Byte>, iovs: nat, j: nat) { Fits(|mem|, iovs + 8 * j, 8) }

  function Buf(mem: seq<Byte>, iovs: nat, j: nat): nat {
    if IovecFits(mem, iovs, j) then Le32(mem, iovs + 8 * j) else 0
  }
  function Len(mem: seq<Byte>, iovs: nat, j: nat): nat {
    if IovecFits(mem, iovs, j) then Le32(mem, iovs + 8 * j + 4) else 0
  }

  /** Iovec j and its buffer are in bounds. */
  predicate Usable(mem: seq<Byte>, iovs: nat, j: nat) {
    IovecFits(mem, iovs, j) && Fits(|mem|, Buf(mem, iovs, j), Len(mem, iovs, j))
  }

  predicate Goes(mem: seq<Byte>, iovs: nat, j: nat, grants: Grants) { Usable(mem, iovs, j) && grants(j) >= 0 }

  /** The first iovec from i on that cannot be served, or count. */
  function StopsAt(mem: seq<Byte>, iovs: nat, count: nat, i: nat, grants: Grants): (m: nat)
    requires i <= count
    ensures i <= m <= count && (forall j :: i <= j < m ==> Goes(mem, iovs, j, grants))
    ensures m < count ==> !Goes(mem, iovs, m, grants)
    decreases count - i
  {
    if i == count || !Goes(mem, iovs, i, grants) then i else StopsAt(mem, iovs, count, i + 1, grants)
  }

  function StatusAt(mem: seq<Byte>, iovs: nat, count: nat, m: nat): Status {
    if m == count then ESUCCESS else if Usable(mem, iovs, m) then EPIPE else EFAULT
  }

  predicate Disjoint(a: nat, n: nat, b: nat, m: nat) { n == 0 || m == 0 || a + n <= b || b + m <= a }

  /** Iovecs a loop that serves m of count looks at: the one that stops it is the last. */
  function Looked(count: nat, m: nat): nat { if m < count then m + 1 else count }

  /** The counter overlaps no iovec looked at and no buffer served. */
  ghost predicate CellApart(mem: seq<Byte>, iovs: nat, count: nat, m: nat, cell: nat) {
    && (forall j: nat :: j < Looked(count, m) && IovecFits(mem, iovs, j) ==> Disjoint(cell, 4, iovs + 8 * j, 8))
    && (forall j: nat :: j < m ==> Disjoint(cell, 4, Buf(mem, iovs, j), Len(mem, iovs, j)))
  }

  /** Bytes accepted from the first m buffers, in order. */
  function Gathered(mem: seq<Byte>, iovs: nat, grants: Grants, m: nat): (data: seq<Byte>) {
    if m == 0 then [] else Gathered(mem, iovs, grants, m - 1) + Accepted(mem, iovs, m - 1, grants(m - 1))
  }

  function Accepted(mem: seq<Byte>, iovs: nat, j: nat, grant: int): seq<Byte> {
    if !Usable(mem, iovs, j) || grant < 0 then []
    else mem[Buf(mem, iovs, j)..Buf(mem, iovs, j) + Min(grant, Len(mem, iovs, j))]
  }

  ghost predicate SameOutsideCell(a: seq<Byte>, b: seq<Byte>, cell: nat) {
    |a| == |b| && forall x :: 0 <= x < |a| && !(cell <= x < cell + 4) ==> b[x] == a[x]
  }

  lemma SameIovec(a: seq<Byte>, b: seq<Byte>, cell: nat, iovs: nat, count: nat, m: nat, j: nat, grant: int)
    requires SameOutsideCell(a, b, cell) && CellApart(a, iovs, count, m, cell) && j < Looked(count, m)
    ensures IovecFits(a, iovs, j) == IovecFits(b, iovs, j)
    ensures Buf(b, iovs, j) == Buf(a, iovs, j) && Len(b, iovs, j) == Len(a, iovs, j)
    ensures j < m ==> Accepted(b, iovs, j, grant) == Accepted(a, iovs, j, grant)
  {
  }

  /** What holds when i iovecs of a write have been served, told from the start. */
  ghost predicate WriteProgress(start: Store, st: Store, cell: nat, iovs: nat, grants: Grants, i: nat) {
    var data := Gathered(start.mem, iovs, grants, i);
    && SameOutsideCell(start.mem, st.mem, cell) && cell + 4 <= |st.mem|
    && st.content == WriteAt(start.content, start.pos, data)
    && st.pos == start.pos + |data|
    && Le32(st.mem, cell) == |data| % U32
  }

  lemma WriteOneMeaning(base: nat, st: Store, cell: nat, iovs: U32Word, i: nat, grant: int)
    requires Context(base, |st.mem|) && cell + 4 <= |st.mem| && Reached(|st.mem|, iovs, i)
    ensures var chunk := Accepted(st.mem, iovs, i, grant);
      WriteOne(base, st, cell, iovs, i, grant) ==
      if !Usable(st.mem, iovs, i) then (st, EFAULT)
      else if grant < 0 then (st, EPIPE)
      else (Store(PutLe32(st.mem, cell, (Le32(st.mem, cell) + |chunk|) % U32),
                  WriteAt(st.content, st.pos, chunk), st.pos + |chunk|), ESUCCESS)
  {
    hide IovecAt, PutLe32, Le32, WriteAt;
    NextAddress(base, |st.mem|, iovs, i);
  }

  lemma WriteStep(base: nat, start: Store, st: Store, cell: nat, iovs: U32Word, count: nat, m: nat, i: nat, grants: Grants)
    requires Context(base, |start.mem|) && CellApart(start.mem, iovs, count, m, cell)
    requires WriteProgress(start, st, cell, iovs, grants, i) && Reached(|st.mem|, iovs, i) && i < count
    requires m == StopsAt(start.mem, iovs, count, i, grants)
    ensures var (next, status) := WriteOne(base, st, cell, iovs, i, grants(i));
      if Goes(start.mem, iovs, i, grants) then status == ESUCCESS && WriteProgress(start, next, cell, iovs, grants, i + 1)
      else next == st && status == StatusAt(start.mem, iovs, count, i)
  {
    hide WriteOne, WriteAt, PutLe32, Le32, Accepted, CellApart, StopsAt, Buf, Len, IovecFits, WriteProgress;
    WriteProgressShape(start, st, cell, iovs, grants, i);
    SameIovec(start.mem, st.mem, cell, iovs, count, m, i, grants(i));
    WriteOneMeaning(base, st, cell, iovs, i, grants(i));
    if Goes(start.mem, iovs, i, grants) {
      WriteAdvances(start, st, cell, iovs, grants, i);
    }
  }

  lemma WriteAdvances(start: Store, st: Store, cell: nat, iovs: nat, grants: Grants, i: nat)
    requires WriteProgress(start, st, cell, iovs, grants, i) && cell + 4 <= |st.mem|
    ensures var chunk := Accepted(start.mem, iovs, i, grants(i));
      var counter := (Le32(st.mem, cell) + |chunk|) % U32;
      WriteProgress(start, Store(PutLe32(st.mem, cell, counter), WriteAt(st.content, st.pos, chunk), st.pos + |chunk|), cell, iovs, grants, i + 1)
  {
    hide WriteAt, PutLe32, Le32, Accepted;
    var data := Gathered(start.mem, iovs, grants, i);
    var chunk := Accepted(start.mem, iovs, i, grants(i));
    WriteAtJoins(start.content, start.pos, data, chunk);
    CounterAdds(|data|, |chunk|);
  }

  lemma CounterAdds(a: nat, b: nat)
    ensures (a % U32 + b) % U32 == (a + b) % U32
  {
  }

  lemma {:induction false} WriteLoop(base: nat, start: Store, st: Store, cell: nat, iovs: U32Word, count: nat, m: nat, i: nat, grants: Grants)
    requires Context(base, |start.mem|) && CellApart(start.mem, iovs, count, m, cell)
    requires WriteProgress(start, st, cell, iovs, grants, i) && Reached(|st.mem|, iovs, i) && i <= count
    requires m == StopsAt(start.mem, iovs, count, i, grants)
    ensures var (end, status) := WriteFrom(base, st, cell, iovs, count, i, grants);
      WriteProgress(start, end, cell, iovs, grants, m) && status == StatusAt(start.mem, iovs, count, m)
    decreases count - i
  {
    hide WriteProgress, WriteOne, CellApart;
    assert |st.mem| == |start.mem| && cell + 4 <= |st.mem| by { WriteProgressShape(start, st, cell, iovs, grants, i); }
    if i < count {
      WriteStep(base, start, st, cell, iovs, count, m, i, grants);
      if Goes(start.mem, iovs, i, grants) {
        var (next, status) := WriteOne(base, st, cell, iovs, i, grants(i));
        WriteLoop(base, start, next, cell, iovs, count, m, i + 1, grants);
      }
    }
  }

  lemma WriteProgressShape(start: Store, st: Store, cell: nat, iovs: nat, grants: Grants, i: nat)
    requires WriteProgress(start, st, cell, iovs, grants, i)
    ensures |st.mem| == |start.mem| && cell + 4 <= |st.mem| && SameOutsideCell(start.mem, st.mem, cell)
  {
  }

  /** A call of fd_write is one contiguous write at the initial position, of the accepted
      prefixes of the buffers in order. At every exit of the loop the counter is the sum of
      the transfers modulo 2^32, the position has moved by the true sum, and nothing else
      in guest memory has changed; the status names the iovec that stopped it. */
  lemma FdWriteIsOneWrite(base: nat, start: Store, cell: nat, iovs: U32Word, count: nat, grants: Grants)
    requires Context(base, |start.mem|) && Fits(|start.mem|, cell, 4)
    requires CellApart(start.mem, iovs, count, StopsAt(start.mem, iovs, count, 0, grants), cell)
    ensures var (end, status) := WriteFrom(base, Cleared(start, cell), cell, iovs, count, 0, grants);
      var m := StopsAt(start.mem, iovs, count, 0, grants);
      var data := Gathered(start.mem, iovs, grants, m);
      && end.content == WriteAt(start.content, start.pos, data)
      && end.pos == start.pos + |data|
      && Le32(end.mem, cell) == |data| % U32
      && SameOutsideCell(start.mem, end.mem, cell)
      && status == StatusAt(start.mem, iovs, count, m)
  {
    hide PutLe32, Le32, WriteFrom, CellApart, StopsAt;
    assert WriteProgress(start, Cleared(start, cell), cell, iovs, grants, 0);
    WriteLoop(base, start, Cleared(start, cell), cell, iovs, count, StopsAt(start.mem, iovs, count, 0, grants), 0, grants);
  }

  // ---------------------------------------------------------------- reading

  /** Bytes read into the first m buffers together: for each, what the kernel grants, the
      buffer holds and the file still has. */
  function Total(start: Store, iovs: nat, grants: Grants, m: nat): nat {
    if m == 0 then 0
    else var t := Total(start, iovs, grants, m - 1); t + Amount(start, iovs, grants, m - 1, t)
  }

  /** Bytes read into buffer j after t bytes were read before. */
  function Amount(start: Store, iovs: nat, grants: Grants, j: nat, t: nat): (n: nat)
    ensures n <= Len(start.mem, iovs, j)
    ensures n > 0 ==> start.pos + t + n <= |start.content| && Usable(start.mem, iovs, j)
  {
    if !Goes(start.mem, iovs, j, grants) then 0
    else Min(grants(j), Min(Len(start.mem, iovs, j), Remaining(start.content, start.pos + t)))
  }

  /** Bytes placed in buffer j. */
  function Placed(start: Store, iovs: nat, grants: Grants, j: nat): nat {
    Amount(start, iovs, grants, j, Total(start, iovs, grants, j))
  }

  predicate InFilled(start: Store, iovs: nat, grants: Grants, j: nat, x: nat) {
    Buf(start.mem, iovs, j) <= x < Buf(start.mem, iovs, j) + Placed(start, iovs, grants, j)
  }

  /** Memory byte x after i buffers were filled: the last buffer that covers it wins. */
  function Expected(start: Store, iovs: nat, grants: Grants, i: nat, x: nat): Byte
    requires x < |start.mem|
  {
    if i == 0 then start.mem[x]
    else if InFilled(start, iovs, grants, i - 1, x) then
      start.content[start.pos + Total(start, iovs, grants, i - 1) + (x - Buf(start.mem, iovs, i - 1))]
    else Expected(start, iovs, grants, i - 1, x)
  }

  /** No buffer served overlaps an iovec looked at. */
  ghost predicate BuffersAvoidIovecs(mem: seq<Byte>, iovs: nat, count: nat, m: nat) {
    forall j: nat :: j < m ==> Disjoint(Buf(mem, iovs, j), Len(mem, iovs, j), iovs, 8 * Looked(count, m))
  }

  /** No two buffers served overlap. */
  ghost predicate BuffersApart(mem: seq<Byte>, iovs: nat, m: nat) {
    forall j: nat, l: nat :: j < l < m ==>
      Disjoint(Buf(mem, iovs, j), Len(mem, iovs, j), Buf(mem, iovs, l), Len(mem, iovs, l))
  }

  ghost predicate MemoryAsExpected(start: Store, mem: seq<Byte>, cell: nat, iovs: nat, grants: Grants, i: nat) {
    && |mem| == |start.mem|
    && forall x :: 0 <= x < |mem| && !(cell <= x < cell + 4) ==> mem[x] == Expected(start, iovs, grants, i, x)
  }

  ghost predicate ReadProgress(start: Store, st: Store, cell: nat, iovs: nat, grants: Grants, i: nat) {
    && MemoryAsExpected(start, st.mem, cell, iovs, grants, i) && cell + 4 <= |st.mem|
    && st.content == start.content
    && st.pos == start.pos + Total(start, iovs, grants, i)
    && Le32(st.mem, cell) == Total(start, iovs, grants, i) % U32
  }

  lemma {:induction false} IovecBytesKept(start: Store, iovs: nat, grants: Grants, count: nat, m: nat, i: nat, x: nat)
    requires BuffersAvoidIovecs(start.mem, iovs, count, m) && i <= m && x < |start.mem| && iovs <= x < iovs + 8 * Looked(count, m)
    ensures Expected(start, iovs, grants, i, x) == start.mem[x]
  {
    hide Amount, Buf, Len, Usable;
    if i > 0 {
      IovecBytesKept(start, iovs, grants, count, m, i - 1, x);
    }
  }

  lemma IovecKept(start: Store, mem: seq<Byte>, cell: nat, iovs: nat, grants: Grants, count: nat, m: nat, i: nat)
    requires MemoryAsExpected(start, mem, cell, iovs, grants, i)
    requires BuffersAvoidIovecs(start.mem, iovs, count, m) && CellApart(start.mem, iovs, count, m, cell) && i <= m && i < Looked(count, m)
    ensures IovecFits(mem, iovs, i) == IovecFits(start.mem, iovs, i)
    ensures Buf(mem, iovs, i) == Buf(start.mem, iovs, i) && Len(mem, iovs, i) == Len(start.mem, iovs, i)
  {
    if IovecFits(start.mem, iovs, i) {
      forall x | iovs + 8 * i <= x < iovs + 8 * i + 8
        ensures mem[x] == start.mem[x]
      {
        IovecBytesKept(start, iovs, grants, count, m, i, x);
      }
      assert Disjoint(cell, 4, iovs + 8 * i, 8);
    }
    hide Expected;
  }

  lemma ReadOneMeaning(base: nat, st: Store, cell: nat, iovs: U32Word, i: nat, grant: int)
    requires Context(base, |st.mem|) && cell + 4 <= |st.mem| && Reached(|st.mem|, iovs, i)
    ensures ReadOne(base, st, cell, iovs, i, grant) ==
      if !Usable(st.mem, iovs, i) then (st, EFAULT)
      else if grant < 0 then (st, EPIPE)
      else
        var n := Min(grant, Min(Len(st.mem, iovs, i), Remaining(st.content, st.pos)));
        var filled := Fill(st.mem, Buf(st.mem, iovs, i), st.content, st.pos, n);
        (Store(PutLe32(filled, cell, (Le32(filled, cell) + n) % U32), st.content, st.pos + n), ESUCCESS)
  {
    hide IovecAt, PutLe32, Le32, Fill;
    NextAddress(base, |st.mem|, iovs, i);
  }

  lemma FilledAsExpected(start: Store, mem: seq<Byte>, cell: nat, iovs: nat, grants: Grants, i: nat, v: U32Word)
    requires MemoryAsExpected(start, mem, cell, iovs, grants, i) && Usable(start.mem, iovs, i) && cell + 4 <= |mem|
    requires Disjoint(cell, 4, Buf(start.mem, iovs, i), Len(start.mem, iovs, i))
    ensures var n := Placed(start, iovs, grants, i);
      var filled := Fill(mem, Buf(start.mem, iovs, i), start.content, start.pos + Total(start, iovs, grants, i), n);
      && Le32(filled, cell) == Le32(mem, cell)
      && MemoryAsExpected(start, PutLe32(filled, cell, v), cell, iovs, grants, i + 1)
  {
    hide Fill, PutLe32, Amount, Total, Buf, Len, IovecFits;
    var n := Placed(start, iovs, grants, i);
    var filled := Fill(mem, Buf(start.mem, iovs, i), start.content, start.pos + Total(start, iovs, grants, i), n);
    var after := PutLe32(filled, cell, v);
    forall x | 0 <= x < |mem| && !(cell <= x < cell + 4)
      ensures after[x] == Expected(start, iovs, grants, i + 1, x)
    {
      assert after[x] == filled[x];
    }
  }

  lemma CellApartAt(mem: seq<Byte>, iovs: nat, count: nat, m: nat, cell: nat, i: nat)
    requires CellApart(mem, iovs, count, m, cell) && i < m
    ensures Disjoint(cell, 4, Buf(mem, iovs, i), Len(mem, iovs, i))
  {
  }

  lemma ReadStep(base: nat, start: Store, st: Store, cell: nat, iovs: U32Word, count: nat, m: nat, i: nat, grants: Grants)
    requires Context(base, |start.mem|) && CellApart(start.mem, iovs, count, m, cell) && BuffersAvoidIovecs(start.mem, iovs, count, m)
    requires ReadProgress(start, st, cell, iovs, grants, i) && Reached(|st.mem|, iovs, i) && i < count
    requires m == StopsAt(start.mem, iovs, count, i, grants)
    ensures var (next, status) := ReadOne(base, st, cell, iovs, i, grants(i));
      if Goes(start.mem, iovs, i, grants) then status == ESUCCESS && ReadProgress(start, next, cell, iovs, grants, i + 1)
      else next == st && status == StatusAt(start.mem, iovs, count, i)
  {
    hide ReadOne, Fill, PutLe32, Le32, BuffersAvoidIovecs, CellApart, Expected, Buf, Len, IovecFits, StopsAt;
    IovecKept(start, st.mem, cell, iovs, grants, count, m, i);
    ReadOneMeaning(base, st, cell, iovs, i, grants(i));
    if Goes(start.mem, iovs, i, grants) {
      CellApartAt(start.mem, iovs, count, m, cell, i);
      ReadAdvances(start, st, cell, iovs, grants, i);
    }
  }

  lemma ReadAdvances(start: Store, st: Store, cell: nat, iovs: nat, grants: Grants, i: nat)
    requires ReadProgress(start, st, cell, iovs, grants, i) && Goes(start.mem, iovs, i, grants) && cell + 4 <= |st.mem|
    requires Disjoint(cell, 4, Buf(start.mem, iovs, i), Len(start.mem, iovs, i))
    ensures var n := Placed(start, iovs, grants, i);
      var filled := Fill(st.mem, Buf(start.mem, iovs, i), st.content, st.pos, n);
      ReadProgress(start, Store(PutLe32(filled, cell, (Le32(filled, cell) + n) % U32), st.content, st.pos + n), cell, iovs, grants, i + 1)
  {
    hide Fill, PutLe32, Le32, Expected, Buf, Len, IovecFits;
    var n := Placed(start, iovs, grants, i);
    CounterAdds(Total(start, iovs, grants, i), n);
    FilledAsExpected(start, st.mem, cell, iovs, grants, i, (Le32(st.mem, cell) + n) % U32);
  }

  lemma {:induction false} ReadLoop(base: nat, start: Store, st: Store, cell: nat, iovs: U32Word, count: nat, m: nat, i: nat, grants: Grants)
    requires Context(base, |start.mem|) && CellApart(start.mem, iovs, count, m, cell) && BuffersAvoidIovecs(start.mem, iovs, count, m)
    requires ReadProgress(start, st, cell, iovs, grants, i) && |st.mem| == |start.mem| && cell + 4 <= |st.mem|
    requires Reached(|st.mem|, iovs, i) && i <= count && m == StopsAt(start.mem, iovs, count, i, grants)
    ensures var (end, status) := ReadFrom(base, st, cell, iovs, count, i, grants);
      ReadProgress(start, end, cell, iovs, grants, m) && status == StatusAt(start.mem, iovs, count, m)
    decreases count - i
  {
    hide ReadProgress, ReadOne, CellApart, BuffersAvoidIovecs;
    if i < count {
      ReadStep(base, start, st, cell, iovs, count, m, i, grants);
      if Goes(start.mem, iovs, i, grants) {
        var (next, status) := ReadOne(base, st, cell, iovs, i, grants(i));
        ReadLoop(base, start, next, cell, iovs, count, m, i + 1, grants);
      }
    }
  }

  /** The bytes that lie in the filled prefixes of the first m buffers, in order. */
  function Collected(mem: seq<Byte>, start: Store, iovs: nat, grants: Grants, m: nat): seq<Byte>
    requires |mem| == |start.mem|
  {
    if m == 0 then []
    else Collected(mem, start, iovs, grants, m - 1) + InBuffer(mem, start, iovs, grants, m - 1)
  }

  function InBuffer(mem: seq<Byte>, start: Store, iovs: nat, grants: Grants, j: nat): seq<Byte>
    requires |mem| == |start.mem|
  {
    if Placed(start, iovs, grants, j) == 0 then []
    else mem[Buf(start.mem, iovs, j)..Buf(start.mem, iovs, j) + Placed(start, iovs, grants, j)]
  }

  /** With disjoint buffers, what was put into buffer j is not overwritten later. */
  lemma {:induction false} ChunkStays(start: Store, iovs: nat, grants: Grants, n: nat, j: nat, m: nat, x: nat)
    requires BuffersApart(start.mem, iovs, n) && j < m <= n && x < |start.mem| && InFilled(start, iovs, grants, j, x)
    ensures Expected(start, iovs, grants, m, x)
      == start.content[start.pos + Total(start, iovs, grants, j) + (x - Buf(start.mem, iovs, j))]
  {
    hide Amount, Total, Buf, Len, Usable;
    if j + 1 < m {
      ChunkStays(start, iovs, grants, n, j, m - 1, x);
    }
  }

  lemma InBufferIsFileSlice(start: Store, mem: seq<Byte>, cell: nat, iovs: nat, grants: Grants, count: nat, j: nat, m: nat)
    requires MemoryAsExpected(start, mem, cell, iovs, grants, m)
    requires BuffersApart(start.mem, iovs, m) && CellApart(start.mem, iovs, count, m, cell) && j < m <= count
    ensures var t, n := Total(start, iovs, grants, j), Placed(start, iovs, grants, j);
      if n > 0 then InBuffer(mem, start, iovs, grants, j) == start.content[start.pos + t..start.pos + t + n]
      else InBuffer(mem, start, iovs, grants, j) == []
  {
    hide Total, Amount, Buf, Len, Expected, BuffersApart, CellApart;
    var t, n, b := Total(start, iovs, grants, j), Placed(start, iovs, grants, j), Buf(start.mem, iovs, j);
    if n > 0 {
      CellApartAt(start.mem, iovs, count, m, cell, j);
      forall x | b <= x < b + n
        ensures mem[x] == start.content[start.pos + t + (x - b)]
      {
        ChunkStays(start, iovs, grants, m, j, m, x);
      }
    }
  }

  lemma SlicesJoin(s: seq<Byte>, p: nat, a: nat, b: nat)
    ensures p + a + b <= |s| ==> s[p..p + a] + s[p + a..p + a + b] == s[p..p + a + b]
  {
  }

  lemma TotalWithinFile(start: Store, iovs: nat, grants: Grants, m: nat)
    ensures Total(start, iovs, grants, m) > 0 ==> start.pos + Total(start, iovs, grants, m) <= |start.content|
  {
  }

  lemma {:induction false} CollectedIsFileSlice(start: Store, mem: seq<Byte>, cell: nat, iovs: nat, grants: Grants, count: nat, j: nat, m: nat)
    requires MemoryAsExpected(start, mem, cell, iovs, grants, m)
    requires BuffersApart(start.mem, iovs, m) && CellApart(start.mem, iovs, count, m, cell) && j <= m <= count
    ensures |Collected(mem, start, iovs, grants, j)| == Total(start, iovs, grants, j)
    ensures var t := Total(start, iovs, grants, j);
      t > 0 ==> start.pos + t <= |start.content| && Collected(mem, start, iovs, grants, j) == start.content[start.pos..start.pos + t]
  {
    hide Amount, Buf, Len, Expected, BuffersApart, CellApart, InBuffer;
    if j > 0 {
      CollectedIsFileSlice(start, mem, cell, iovs, grants, count, j - 1, m);
      InBufferIsFileSlice(start, mem, cell, iovs, grants, count, j - 1, m);
      TotalWithinFile(start, iovs, grants, j);
      SlicesJoin(start.content, start.pos, Total(start, iovs, grants, j - 1), Placed(start, iovs, grants, j - 1));
    }
  }

  /** Of what the read loop looks at and serves, nothing overlaps. */
  ghost predicate Scatters(mem: seq<Byte>, cell: nat, iovs: nat, count: nat, grants: Grants) {
    var m := StopsAt(mem, iovs, count, 0, grants);
    CellApart(mem, iovs, count, m, cell) && BuffersAvoidIovecs(mem, iovs, count, m) && BuffersApart(mem, iovs, m)
  }

  /** A call of fd_read is one contiguous read, scattered: with disjoint buffers that avoid
      iovecs and counter, the filled prefixes concatenate to the file bytes from the old
      position. The file is not changed, the position has moved by the true total, the
      counter is the total modulo 2^32, and no byte outside counter and prefixes changes. */
  lemma FdReadIsOneRead(base: nat, start: Store, cell: nat, iovs: U32Word, count: nat, grants: Grants)
    requires Context(base, |start.mem|) && Fits(|start.mem|, cell, 4)
    requires Scatters(start.mem, cell, iovs, count, grants)
    ensures var (end, status) := ReadFrom(base, Cleared(start, cell), cell, iovs, count, 0, grants);
      var m := StopsAt(start.mem, iovs, count, 0, grants);
      var t := Total(start, iovs, grants, m);
      && end.content == start.content && end.pos == start.pos + t
      && Le32(end.mem, cell) == t % U32
      && (t > 0 ==> start.pos + t <= |start.content|)
      && (t > 0 ==> Collected(end.mem, start, iovs, grants, m) == start.content[start.pos..start.pos + t])
      && MemoryAsExpected(start, end.mem, cell, iovs, grants, m)
      && status == StatusAt(start.mem, iovs, count, m)
  {
    hide PutLe32, Le32, ReadFrom, CellApart, BuffersAvoidIovecs, BuffersApart, Amount;
    var st := Cleared(start, cell);
    assert ReadProgress(start, st, cell, iovs, grants, 0);
    var m := StopsAt(start.mem, iovs, count, 0, grants);
    ReadLoop(base, start, st, cell, iovs, count, m, 0, grants);
    var (end, status) := ReadFrom(base, st, cell, iovs, count, 0, grants);
    CollectedIsFileSlice(start, end.mem, cell, iovs, grants, count, m, m);
  }

  /** Untouched bytes: outside every buffer, a byte keeps its value. */
  lemma {:induction false} OthersUntouched(start: Store, iovs: nat, grants: Grants, m: nat, x: nat)
    requires x < |start.mem| && forall j: nat :: j < m ==> !InFilled(start, iovs, grants, j, x)
    ensures Expected(start, iovs, grants, m, x) == start.mem[x]
  {
    if m > 0 {
      OthersUntouched(start, iovs, grants, m - 1, x);
    }
  }

  /** Round trip: data written under one iovec partition and read back in full from the
      same position under another is the same stream. */
  lemma WriteThenReadIsIdentity(
    base: nat, w: Store, wCell: nat, wIovs: U32Word, wCount: nat, wGrants: Grants,
    base': nat, rMem: seq<Byte>, rCell: nat, rIovs: U32Word, rCount: nat, rGrants: Grants)
    requires Context(base, |w.mem|) && Fits(|w.mem|, wCell, 4)
    requires CellApart(w.mem, wIovs, wCount, StopsAt(w.mem, wIovs, wCount, 0, wGrants), wCell)
    requires Context(base', |rMem|) && Fits(|rMem|, rCell, 4) && Scatters(rMem, rCell, rIovs, rCount, rGrants)
    ensures var written := WriteFrom(base, Cleared(w, wCell), wCell, wIovs, wCount, 0, wGrants).0;
      var r := Store(rMem, written.content, w.pos);
      var read := ReadFrom(base', Cleared(r, rCell), rCell, rIovs, rCount, 0, rGrants).0;
      read.pos == written.pos ==>
        Collected(read.mem, r, rIovs, rGrants, StopsAt(rMem, rIovs, rCount, 0, rGrants))
          == Gathered(w.mem, wIovs, wGrants, StopsAt(w.mem, wIovs, wCount, 0, wGrants))
  {
    hide Le32, WriteFrom, ReadFrom, Cleared, CellApart, BuffersAvoidIovecs, BuffersApart, StopsAt, Total, Gathered;
    FdWriteIsOneWrite(base, w, wCell, wIovs, wCount, wGrants);
    var written := WriteFrom(base, Cleared(w, wCell), wCell, wIovs, wCount, 0, wGrants).0;
    var r := Store(rMem, written.content, w.pos);
    FdReadIsOneRead(base', r, rCell, rIovs, rCount, rGrants);
    var read := ReadFrom(base', Cleared(r, rCell), rCell, rIovs, rCount, 0, rGrants).0;
    var m := StopsAt(rMem, rIovs, rCount, 0, rGrants);
    CollectedIsFileSlice(r, read.mem, rCell, rIovs, rGrants, rCount, m, m);
  }
}
