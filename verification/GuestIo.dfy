/** What the iovec loops do to guest memory, as stores of a running guest: every call of
    fd_write or fd_read on a session's memory is a list of moves of its run. */
module GuestIo {
  import opened VmLayout
  import opened Kernel
  import opened VectoredIo
  import RunPlan
  import RunProtocol
  import FlatModel

  type Stores = seq<RunPlan.Move>

  function Stored(bytes: seq<Byte>, m: RunPlan.Move): (r: seq<Byte>)
    ensures |r| == |bytes|
  {
    if m.GuestStore? && FlatModel.InRange(bytes, m.offset, |m.data|) then Splice(bytes, m.offset, m.data) else bytes
  }

  function StoreAll(bytes: seq<Byte>, ms: Stores): (r: seq<Byte>)
    ensures |r| == |bytes|
    decreases |ms|
  {
    if ms == [] then bytes else StoreAll(Stored(bytes, ms[0]), ms[1..])
  }

  /** Made while the guest runs, a store moves the flat model like this. */
  lemma StoreIsMove(f: FlatModel.Flat, cfg: RunProtocol.Config, s: RunProtocol.State, m: RunPlan.Move, refused: bool, r: int, f': FlatModel.Flat)
    requires f.Ready? && m.GuestStore? && s.r.InGuest? && FlatModel.FlatMove(f, cfg, s, m, refused, r, f')
    ensures f' == f.(bytes := Stored(f.bytes, m))
  {
  }

  lemma CellStore(mem: seq<Byte>, cell: nat, v: U32Word) returns (m: RunPlan.Move)
    requires cell + 4 <= |mem| < U32
    ensures m.GuestStore? && m.offset == cell && |m.data| == 4 && Stored(mem, m) == PutLe32(mem, cell, v)
  {
    var after := PutLe32(mem, cell, v);
    m := RunPlan.GuestStore(cell, after[cell..cell + 4]);
    hide PutLe32;
    assert forall x :: 0 <= x < |mem| ==> Stored(mem, m)[x] == after[x];
  }

  lemma FillStore(mem: seq<Byte>, buf: nat, content: seq<Byte>, pos: nat, n: nat) returns (m: RunPlan.Move)
    requires buf < |mem| < U32 && buf + n <= |mem| && (n > 0 ==> pos + n <= |content|)
    ensures m.GuestStore? && Stored(mem, m) == Fill(mem, buf, content, pos, n)
  {
    m := RunPlan.GuestStore(buf, if n == 0 then [] else content[pos..pos + n]);
    assert forall x :: 0 <= x < |mem| ==> Stored(mem, m)[x] == Fill(mem, buf, content, pos, n)[x];
  }

  lemma TwoStores(mem: seq<Byte>, a: RunPlan.Move, b: RunPlan.Move, rest: Stores)
    ensures StoreAll(mem, [a, b] + rest) == StoreAll(Stored(Stored(mem, a), b), rest)
  {
    hide Stored;
    assert ([a, b] + rest)[1..] == [b] + rest && ([b] + rest)[1..] == rest;
  }

  lemma ReadOneStores(base: nat, st: Store, cell: nat, iovs: U32Word, i: nat, grant: int) returns (a: RunPlan.Move, b: RunPlan.Move)
    requires Context(base, |st.mem|) && cell + 4 <= |st.mem| && ReadOne(base, st, cell, iovs, i, grant).1 == ESUCCESS
    ensures a.GuestStore? && b.GuestStore? && Stored(Stored(st.mem, a), b) == ReadOne(base, st, cell, iovs, i, grant).0.mem
  {
    hide PutLe32, Le32, Fill, Stored;
    var at := IovecAt(iovs, i);
    var buf, len := Le32(st.mem, at), Le32(st.mem, at + 4);
    var n := Min(grant, Min(len, Remaining(st.content, st.pos)));
    a := FillStore(st.mem, buf, st.content, st.pos, n);
    var filled := Fill(st.mem, buf, st.content, st.pos, n);
    b := CellStore(filled, cell, (Le32(filled, cell) + n) % U32);
  }

  lemma NoChangeOnError(base: nat, st: Store, cell: nat, iovs: U32Word, i: nat, grant: int)
    requires Context(base, |st.mem|) && cell + 4 <= |st.mem|
    ensures ReadOne(base, st, cell, iovs, i, grant).1 != ESUCCESS ==> ReadOne(base, st, cell, iovs, i, grant).0 == st
    ensures WriteOne(base, st, cell, iovs, i, grant).1 != ESUCCESS ==> WriteOne(base, st, cell, iovs, i, grant).0 == st
  {
    hide PutLe32, Le32, Fill, WriteAt;
  }

  /** Whatever overlaps what, a read loop changes guest memory only by stores in range. */
  lemma {:induction false} ReadIsStores(base: nat, st: Store, cell: nat, iovs: U32Word, count: nat, i: nat, grants: nat -> int) returns (ms: Stores)
    requires Context(base, |st.mem|) && cell + 4 <= |st.mem| && i <= count
    ensures (forall m :: m in ms ==> m.GuestStore?) && StoreAll(st.mem, ms) == ReadFrom(base, st, cell, iovs, count, i, grants).0.mem
    decreases count - i
  {
    hide ReadOne, Stored;
    ms := [];
    if i < count {
      NoChangeOnError(base, st, cell, iovs, i, grants(i));
      var (next, status) := ReadOne(base, st, cell, iovs, i, grants(i));
      if status == ESUCCESS {
        var a, b := ReadOneStores(base, st, cell, iovs, i, grants(i));
        var rest := ReadIsStores(base, next, cell, iovs, count, i + 1, grants);
        TwoStores(st.mem, a, b, rest);
        ms := [a, b] + rest;
      }
    }
  }

  /** And a write loop changes it only by stores to the counter. */
  lemma {:induction false} WriteIsStores(base: nat, st: Store, cell: nat, iovs: U32Word, count: nat, i: nat, grants: nat -> int) returns (ms: Stores)
    requires Context(base, |st.mem|) && cell + 4 <= |st.mem| && i <= count
    ensures forall m :: m in ms ==> m.GuestStore? && m.offset == cell && |m.data| == 4
    ensures StoreAll(st.mem, ms) == WriteFrom(base, st, cell, iovs, count, i, grants).0.mem
    decreases count - i
  {
    hide WriteOne, Stored;
    ms := [];
    if i < count {
      NoChangeOnError(base, st, cell, iovs, i, grants(i));
      var (next, status) := WriteOne(base, st, cell, iovs, i, grants(i));
      if status == ESUCCESS {
        var a := WriteOneStore(base, st, cell, iovs, i, grants(i));
        var rest := WriteIsStores(base, next, cell, iovs, count, i + 1, grants);
        assert ([a] + rest)[1..] == rest;
        ms := [a] + rest;
      }
    }
  }

  lemma WriteOneStore(base: nat, st: Store, cell: nat, iovs: U32Word, i: nat, grant: int) returns (a: RunPlan.Move)
    requires Context(base, |st.mem|) && cell + 4 <= |st.mem| && WriteOne(base, st, cell, iovs, i, grant).1 == ESUCCESS
    ensures a.GuestStore? && a.offset == cell && |a.data| == 4 && Stored(st.mem, a) == WriteOne(base, st, cell, iovs, i, grant).0.mem
  {
    hide PutLe32, Le32, WriteAt, Stored;
    var at := IovecAt(iovs, i);
    var n := Min(grant, Le32(st.mem, at + 4));
    a := CellStore(st.mem, cell, (Le32(st.mem, cell) + n) % U32);
  }
}
