/** The import resolver registry of kapi.c: a circular doubly linked list with a separate
    count, the snapshot an engine takes of it at load, and the first-match lookup. */
module Kapi {
  import opened VmLayout
  import opened Kernel

  /** `struct import_resolver`, by what its get_instance yields; None is an error. */
  datatype Provider = Provider(instance: Option<Instance>)

  // ---------------------------------------------------------------- lookup

  predicate Knows(x: Instance, name: string) { x.resolve.Some? && x.resolve.value(name).Some? }

  /** `module_resolver_resolve_import` on a list of instances; 0 is NULL. */
  function Lookup(instances: seq<Instance>, name: string, paramCount: int): nat {
    if instances == [] then 0
    else if Knows(instances[0], name) then
      var info := instances[0].resolve.value(name).value;
      if info.paramCount == paramCount then info.fn else 0
    else Lookup(instances[1..], name, paramCount)
  }

  /** Instance i is the first that knows the name. */
  ghost predicate FirstToKnow(instances: seq<Instance>, name: string, i: nat) {
    && i < |instances| && Knows(instances[i], name)
    && forall j :: 0 <= j < i ==> !Knows(instances[j], name)
  }

  /** A lookup gives the function f exactly when the first instance that knows the name
      offers f with the demanded arity; a later instance never makes up for it. */
  lemma {:induction false} LookupTakesFirst(instances: seq<Instance>, name: string, paramCount: int, f: nat)
    requires f != 0
    ensures Lookup(instances, name, paramCount) == f <==>
      exists i: nat :: FirstToKnow(instances, name, i) && instances[i].resolve.value(name).value == ImportInfo(f, paramCount)
  {
    if instances != [] {
      var rest := instances[1..];
      if Knows(instances[0], name) {
        assert FirstToKnow(instances, name, 0);
        assert forall i: nat :: FirstToKnow(instances, name, i) ==> i == 0;
      } else {
        LookupTakesFirst(rest, name, paramCount, f);
        forall i: nat | i < |rest|
          ensures FirstToKnow(rest, name, i) <==> FirstToKnow(instances, name, i + 1)
        {
          assert forall j :: 0 < j <= i ==> instances[j] == rest[j - 1];
          assert forall j :: 0 <= j < i ==> rest[j] == instances[j + 1];
        }
        if i: nat :| FirstToKnow(rest, name, i) && rest[i].resolve.value(name).value == ImportInfo(f, paramCount) {
          assert FirstToKnow(instances, name, i + 1);
        }
        if i: nat :| FirstToKnow(instances, name, i) && instances[i].resolve.value(name).value == ImportInfo(f, paramCount) {
          assert FirstToKnow(rest, name, i - 1);
        }
      }
    }
  }

  /** The instances that have a release callback, each as often as it occurs. */
  ghost function Owed(instances: seq<Instance>): multiset<Instance> {
    if instances == [] then multiset{}
    else
      var last := instances[|instances| - 1];
      Owed(instances[..|instances| - 1]) + (if last.hasRelease then multiset{last} else multiset{})
  }

  /** Index of the first provider whose get_instance fails, or the number of providers. */
  function FirstFailing(providers: seq<Provider>): (n: nat)
    ensures n <= |providers| && (n < |providers| ==> providers[n].instance.None?)
    ensures forall i :: 0 <= i < n ==> providers[i].instance.Some?
  {
    if providers == [] || providers[0].instance.None? then 0 else 1 + FirstFailing(providers[1..])
  }

  /** The instances of the first n providers. */
  function InstancesOf(providers: seq<Provider>, n: nat): (r: seq<Instance>)
    requires n <= FirstFailing(providers)
    ensures |r| == n && forall i :: 0 <= i < n ==> r[i] == providers[i].instance.value
  {
    if n == 0 then [] else InstancesOf(providers, n - 1) + [providers[n - 1].instance.value]
  }

  /** Instances that a load leaves unreleased when it meets these providers: those obtained
      before the one whose get_instance fails. */
  ghost function Stranded(providers: seq<Provider>): multiset<Instance> {
    var n := FirstFailing(providers);
    if n < |providers| then Owed(InstancesOf(providers, n)) else multiset{}
  }

  lemma {:induction false} OwedIff(instances: seq<Instance>)
    ensures Owed(instances) != multiset{} <==> exists i :: 0 <= i < |instances| && instances[i].hasRelease
  {
    if instances != [] {
      var n := |instances| - 1;
      OwedIff(instances[..n]);
      assert instances[n].hasRelease ==> instances[n] in Owed(instances);
      if i :| 0 <= i < |instances| && instances[i].hasRelease {
        assert i < n ==> instances[..n][i].hasRelease;
      }
      if !instances[n].hasRelease {
        assert Owed(instances) == Owed(instances[..n]);
      }
    }
  }

  /** Something is left unreleased exactly when a provider fails behind one whose instance
      has a release callback. */
  lemma StrandedIff(providers: seq<Provider>)
    ensures Stranded(providers) != multiset{} <==>
      FirstFailing(providers) < |providers| && exists i :: 0 <= i < FirstFailing(providers) && providers[i].instance.value.hasRelease
  {
    var n := FirstFailing(providers);
    OwedIff(InstancesOf(providers, n));
    assert forall i :: 0 <= i < n ==> InstancesOf(providers, n)[i] == providers[i].instance.value;
  }

  /** A provider that works, then one that fails: the instance of the first stays. */
  lemma TwoProvidersStrandOne(x: Instance)
    requires x.hasRelease
    ensures Stranded([Provider(Some(x)), Provider(None)]) == multiset{x}
  {
    var ps := [Provider(Some(x)), Provider(None)];
    assert ps[1..] == [Provider(None)];
    assert FirstFailing(ps) == 1;
    assert InstancesOf(ps, 1) == [x];
    assert [x][..0] == [] && Owed([]) == multiset{};
    assert Owed([x]) == Owed([]) + multiset{x};
  }

  /** Import names arrive in 64-byte fields whose last byte is overwritten with NUL. */
  function CString(field: seq<char>): string {
    if field == [] || field[0] == '\0' then [] else [field[0]] + CString(field[1..])
  }

  datatype ImportRequest = ImportRequest(name: seq<char>, paramCount: U32Word) {
    function Name(): string { CString(if |name| > 63 then name[..63] else name) }
    function Arity(): int { if paramCount < 0x8000_0000 then paramCount else paramCount - U32 }
  }

  /** Every requested import has a function in the instances. */
  ghost predicate AllFound(instances: seq<Instance>, requests: seq<ImportRequest>) {
    forall i :: 0 <= i < |requests| ==> Lookup(instances, requests[i].Name(), requests[i].Arity()) != 0
  }

  /** `struct module_resolver`: the snapshot that belongs to one engine. */
  class ModuleResolver {
    var buf: nat                      // address of the instance array, 0 when NULL
    var instances: array<Instance>
    var resolverCount: nat

    constructor ()
      ensures buf == 0 && resolverCount == 0 && instances.Length == 0 && fresh(instances)
    {
      buf, resolverCount := 0, 0;
      instances := new Instance[0];
    }

    method ResolveImport(name: string, paramCount: int) returns (fn: nat)
      requires resolverCount == instances.Length
      ensures fn == Lookup(instances[..], name, paramCount)
    {
      var i := 0;
      while i < resolverCount
        invariant 0 <= i <= resolverCount
        invariant Lookup(instances[..], name, paramCount) == Lookup(instances[..][i..], name, paramCount)
      {
        if instances[i].resolve.Some? {
          var answer := instances[i].resolve.value(name);
          if answer.Some? {
            return if answer.value.paramCount == paramCount then answer.value.fn else 0;
          }
        }
        assert instances[..][i..][1..] == instances[..][i + 1..];
        i := i + 1;
      }
      return 0;
    }

    /** The import loop of `init_execution_engine`: every import is resolved against this
        snapshot, and one that is not found fails the load. */
    method ResolveImports(k: Machine, requests: seq<ImportRequest>) returns (ok: bool, funcs: array<nat>)
      requires resolverCount == instances.Length
      modifies k`refusals
      ensures fresh(funcs) && funcs.Length == |requests| && old(k.refusals) <= k.refusals
      ensures ok <==> k.refusals == old(k.refusals) && AllFound(instances[..], requests)
      ensures ok ==> forall i :: 0 <= i < |requests| ==>
        funcs[i] == Lookup(instances[..], requests[i].Name(), requests[i].Arity()) && funcs[i] != 0
    {
      funcs := new nat[|requests|];
      var i := 0;
      while i < |requests|
        invariant 0 <= i <= |requests| && k.refusals == old(k.refusals) && fresh(funcs)
        invariant forall j :: 0 <= j < i ==>
          funcs[j] == Lookup(instances[..], requests[j].Name(), requests[j].Arity()) && funcs[j] != 0
      {
        var fault := k.CopyFaults();
        if fault {
          return false, funcs;
        }
        var fn := ResolveImport(requests[i].Name(), requests[i].Arity());
        if fn == 0 {
          return false, funcs;
        }
        funcs[i] := fn;
        i := i + 1;
      }
      return true, funcs;
    }

    /** `release_module_resolver`. */
    method Release(k: Machine)
      requires k.Valid() && (buf == 0 || buf in k.buffers)
      requires resolverCount == instances.Length && Owed(instances[..]) <= k.instances
      modifies k`buffers, k`instances
      ensures k.Valid() && k.buffers == old(k.buffers) - {buf}
      ensures k.instances == old(k.instances) - Owed(instances[..])
    {
      hide Owed, Injective, MappedWithin;
      NothingOwed();
      var i := 0;
      while i < resolverCount
        invariant 0 <= i <= resolverCount && k.Valid() && k.buffers == old(k.buffers)
        invariant k.instances == old(k.instances) - Owed(instances[..][..i])
      {
        OneLessOwed(old(k.instances), instances[..], i);
        if instances[i].hasRelease {
          k.ReleaseInstance(instances[i]);
        }
        i := i + 1;
      }
      assert instances[..][..i] == instances[..];
      k.Free(buf);
    }
  }

  lemma NothingOwed()
    ensures Owed([]) == multiset{}
  {
  }

  /** After the first i releases the next instance is still held, and releasing it leaves
      what the first i + 1 releases leave. */
  lemma OneLessOwed(held: multiset<Instance>, s: seq<Instance>, i: nat)
    requires i < |s| && Owed(s) <= held
    ensures var left := held - Owed(s[..i]);
      if s[i].hasRelease then s[i] in left && left - multiset{s[i]} == held - Owed(s[..i + 1]) else left == held - Owed(s[..i + 1])
  {
    PrefixReleases(s, i + 1);
    assert s[..i + 1][..i] == s[..i];
    var all, more := Owed(s), Owed(s[..i + 1]);
    assert more[s[i]] <= all[s[i]] <= held[s[i]];
  }

  lemma {:induction false} PrefixReleases(s: seq<Instance>, i: nat)
    requires i <= |s|
    ensures Owed(s[..i]) <= Owed(s)
    decreases |s| - i
  {
    if i < |s| {
      assert s[..i + 1][..i] == s[..i];
      PrefixReleases(s, i + 1);
    } else {
      assert s[..i] == s;
    }
  }

  lemma NoInstancesYet(providers: seq<Provider>)
    ensures InstancesOf(providers, 0) == [] && Owed([]) == multiset{}
  {
  }

  lemma OneMoreInstance(providers: seq<Provider>, i: nat)
    requires i <= FirstFailing(providers) && i < |providers| && providers[i].instance.Some?
    ensures i + 1 <= FirstFailing(providers)
    ensures InstancesOf(providers, i + 1) == InstancesOf(providers, i) + [providers[i].instance.value]
    ensures Owed(InstancesOf(providers, i + 1))
      == Owed(InstancesOf(providers, i)) + (if providers[i].instance.value.hasRelease then multiset{providers[i].instance.value} else multiset{})
  {
    var longer := InstancesOf(providers, i + 1);
    assert longer[..i] == InstancesOf(providers, i);
  }

  // ---------------------------------------------------------------- the list

  class Node {
    var next: Node
    var prev: Node
    const inner: Provider

    /** INIT_LIST_HEAD: a ring of one. */
    constructor (inner: Provider)
      ensures next == this && prev == this && this.inner == inner
    {
      this.inner := inner;
      next := this;
      prev := this;
    }
  }

  function Succ(i: nat, n: nat): nat
    requires i < n
  {
    if i + 1 == n then 0 else i + 1
  }

  /** ring[0] is the list head; the links lead around in this order and back. */
  ghost predicate Linked(ring: seq<Node>)
    reads set x | x in ring
  {
    && (forall i, j :: 0 <= i < j < |ring| ==> ring[i] != ring[j])
    && (forall i :: 0 <= i < |ring| ==> ring[i].next == ring[Succ(i, |ring|)] && ring[Succ(i, |ring|)].prev == ring[i])
  }

  ghost function Inners(nodes: seq<Node>): (r: seq<Provider>)
    ensures |r| == |nodes| && forall i :: 0 <= i < |r| ==> r[i] == nodes[i].inner
  {
    if nodes == [] then [] else Inners(nodes[..|nodes| - 1]) + [nodes[|nodes| - 1].inner]
  }

  /** The sequence without its element at a position. */
  function CutAt<T>(s: seq<T>, at: nat): (r: seq<T>)
    requires at < |s|
    ensures |r| == |s| - 1 && forall i :: 0 <= i < |r| ==> r[i] == s[if i < at then i else i + 1]
  {
    s[..at] + s[at + 1..]
  }

  datatype RegistryCall = Add(provider: Provider) | Remove(at: nat)

  /** Registered providers after a sequence of calls, of which those with false failed for
      want of memory; removing what is not there is not a call anyone makes and leaves the
      list alone. */
  function Replay(contents: seq<Provider>, calls: seq<RegistryCall>, done: seq<bool>): seq<Provider>
    requires |calls| == |done|
    decreases |calls|
  {
    if calls == [] then contents else Replay(AfterCall(contents, calls[0], done[0]), calls[1..], done[1..])
  }

  function AfterCall(contents: seq<Provider>, call: RegistryCall, done: bool): seq<Provider> {
    match call
    case Add(p) => if done then [p] + contents else contents
    case Remove(at) => if at < |contents| then CutAt(contents, at) else contents
  }

  lemma EmptyReplay(contents: seq<Provider>)
    ensures Replay(contents, [], []) == contents
  {
  }

  /** One more call at the end of a replay. */
  lemma {:induction false} ReplayMore(contents: seq<Provider>, calls: seq<RegistryCall>, done: seq<bool>, call: RegistryCall, d: bool)
    requires |calls| == |done|
    ensures Replay(contents, calls + [call], done + [d]) == AfterCall(Replay(contents, calls, done), call, d)
    decreases |calls|
  {
    if calls == [] {
      assert [call][1..] == [] && [d][1..] == [];
      assert calls + [call] == [call] && done + [d] == [d];
    } else {
      ReplayMore(AfterCall(contents, calls[0], done[0]), calls[1..], done[1..], call, d);
      assert (calls + [call])[1..] == calls[1..] + [call] && (done + [d])[1..] == done[1..] + [d];
    }
  }

  ghost function NodeSet(nodes: seq<Node>): set<Node> { set x | x in nodes }

  lemma CutInners(ring: seq<Node>, at: nat)
    requires 0 < at < |ring|
    ensures Inners(CutAt(ring, at)[1..]) == CutAt(Inners(ring[1..]), at - 1)
  {
    hide CutAt;
    assert forall i :: 0 <= i < |ring| - 2 ==> CutAt(ring, at)[1..][i] == ring[1..][if i < at - 1 then i else i + 1];
  }

  lemma CutNodes(ring: seq<Node>, at: nat)
    requires 0 < at < |ring| && Linked(ring)
    ensures CutAt(ring, at)[0] == ring[0] && NodeSet(CutAt(ring, at)[1..]) == NodeSet(ring[1..]) - {ring[at]}
  {
    var left, all := CutAt(ring, at)[1..], ring[1..];
    hide CutAt;
    forall x | x in NodeSet(all) && x != ring[at]
      ensures x in NodeSet(left)
    {
      var i :| 0 <= i < |all| && all[i] == x;
      assert left[if i < at - 1 then i else i - 1] == x;
    }
    forall x | x in NodeSet(left)
      ensures x in NodeSet(all) && x != ring[at]
    {
      var i :| 0 <= i < |left| && left[i] == x;
      assert all[if i < at - 1 then i else i + 1] == x;
    }
  }

  lemma NodeSetGrows(nodes: seq<Node>, x: Node)
    ensures NodeSet([x] + nodes) == NodeSet(nodes) + {x}
  {
  }

  class Registry {
    var head: Node
    var resolverCount: int
    ghost var ring: seq<Node>
    ghost var live: set<Node>   // entries allocated and not freed

    ghost predicate Valid()
      reads this, set x | x in ring
    {
      && |ring| > 0 && ring[0] == head && Linked(ring)
      && resolverCount == |ring| - 1
      && live == NodeSet(ring[1..])
    }

    /** Registered providers, newest first. */
    ghost function Contents(): seq<Provider>
      reads this`ring
    {
      if ring == [] then [] else Inners(ring[1..])
    }

    constructor ()
      ensures Valid() && Contents() == [] && fresh(ring)
    {
      var h := new Node(Provider(None));
      head, resolverCount := h, 0;
      ring, live := [h], {};
    }

    /** `kwasm_resolver_register`: a new entry right behind the head, or null when there is
        no memory for it. */
    method Register(p: Provider) returns (entry: Node?)
      requires Valid()
      modifies this, set x | x in ring
      ensures Valid() && (entry == null ==> ring == old(ring))
      ensures entry != null ==> fresh(entry) && ring == [old(head), entry] + old(ring)[1..]
      ensures Contents() == AfterCall(old(Contents()), Add(p), entry != null)
    {
      hide Inners, Succ, Linked, NodeSet;
      var granted: bool := *;
      if !granted {
        return null;
      }
      ghost var was := ring;
      entry := new Node(p);
      ListAdd(entry, head, was);
      resolverCount := resolverCount + 1;
      ring := [head, entry] + was[1..];
      live := live + {entry};
      assert ring[1..] == [entry] + was[1..];
      NodeSetGrows(was[1..], entry);
    }

    /** `kwasm_resolver_deregister` of a registered entry. */
    method Deregister(entry: Node, ghost at: nat)
      requires Valid() && 0 < at < |ring| && ring[at] == entry
      modifies this, set x | x in ring
      ensures Valid() && ring == CutAt(old(ring), at) && Contents() == CutAt(old(Contents()), at - 1)
    {
      hide Inners, Succ, Linked, NodeSet, CutAt;
      ghost var was := ring;
      CutInners(was, at);
      CutNodes(was, at);
      ListDel(entry, was, at);
      resolverCount := resolverCount - 1;
      ring := CutAt(was, at);
      live := live - {entry};
    }

    /** `get_module_resolver`: an instance of every provider, in list order. The array is
        sized by the count and filled exactly. When get_instance fails the array goes back,
        and the instances obtained before stay unreleased. */
    method GetModuleResolver(k: Machine, out: ModuleResolver) returns (ok: bool)
      requires Valid() && k.Valid() && out.buf == 0 && out.resolverCount == 0 && out.instances.Length == 0
      modifies out, k`buffers, k`instances, k`refusals
      ensures k.Valid() && out.resolverCount == out.instances.Length && old(k.refusals) <= k.refusals
      ensures ok <==> k.refusals == old(k.refusals) && FirstFailing(Contents()) == |Contents()|
      ensures fresh(out.instances) || out.instances == old(out.instances)
      ensures ok ==> out.buf != 0 && out.buf !in old(k.buffers) && k.buffers == old(k.buffers) + {out.buf}
      ensures ok ==> FirstFailing(Contents()) == |Contents()| && out.instances[..] == InstancesOf(Contents(), |Contents()|)
      ensures ok ==> k.instances == old(k.instances) + Owed(out.instances[..])
      ensures !ok ==> out.buf == 0 && out.instances.Length == 0 && k.buffers == old(k.buffers)
      ensures !ok ==> k.instances == old(k.instances) + if k.refusals == old(k.refusals) then Stranded(Contents()) else multiset{}
    {
      hide Inners, Linked, Succ, InstancesOf, Owed, FirstFailing, PageRange, Injective, MappedWithin, NodeSet;
      var buf := k.Alloc(24 * resolverCount);
      if buf == 0 {
        return false;
      }
      var filled := new Instance[resolverCount](_ => Instance(None, false));
      ok := FillInstances(k, filled);
      if !ok {
        k.Free(buf);
        return;
      }
      out.buf, out.instances, out.resolverCount := buf, filled, resolverCount;
    }

    /** The loop over the list: slot i of the array gets the instance of entry i. */
    method FillInstances(k: Machine, filled: array<Instance>) returns (ok: bool)
      requires Valid() && filled.Length == resolverCount
      modifies filled, k`instances
      ensures ok <==> FirstFailing(Contents()) == |Contents()|
      ensures ok ==> filled[..] == InstancesOf(Contents(), |Contents()|)
      ensures k.instances == old(k.instances) + Owed(InstancesOf(Contents(), FirstFailing(Contents())))
    {
      hide Inners, Linked, NodeSet, Succ, InstancesOf, Owed, FirstFailing;
      ghost var all, entries := Contents(), ring;
      NoInstancesYet(all);
      var i := 0;
      var x := FirstEntry();
      while x != head
        invariant 0 <= i <= resolverCount && (x == head <==> i == resolverCount) && x == if i < resolverCount then entries[i + 1] else head
        invariant i <= FirstFailing(all) && filled[..i] == InstancesOf(all, i)
        invariant k.instances == old(k.instances) + Owed(InstancesOf(all, i))
        decreases resolverCount - i
      {
        assert x.inner == all[i] by { assert entries[1..][i] == x; }
        if x.inner.instance.None? {
          return false;
        }
        OneMoreInstance(all, i);
        Obtain(k, filled, i, x.inner.instance.value);
        x := After(x, i + 1);
        i := i + 1;
      }
      assert filled[..] == filled[..i];
      return true;
    }

    /** A successful get_instance for slot i of the array. */
    method Obtain(k: Machine, filled: array<Instance>, i: nat, made: Instance)
      requires i < filled.Length
      modifies filled, k`instances
      ensures filled[..i + 1] == old(filled[..i]) + [made]
      ensures k.instances == old(k.instances) + if made.hasRelease then multiset{made} else multiset{}
    {
      filled[i] := made;
      if made.hasRelease {
        k.instances := k.instances + multiset{made};
      }
    }

    /** Any sequence of registrations and deregistrations: the count stays the length of
        the list, and the list is what the calls say, newest first. */
    method Serve(calls: seq<RegistryCall>) returns (done: seq<bool>)
      requires Valid()
      modifies this, set x | x in ring
      ensures Valid() && |done| == |calls| && fresh(NodeSet(ring) - old(NodeSet(ring)))
      ensures Contents() == Replay(old(Contents()), calls, done) && resolverCount == |Contents()|
    {
      hide Linked, Inners, Replay, AfterCall;
      done := [];
      EmptyReplay(Contents());
      var i := 0;
      while i < |calls|
        invariant 0 <= i <= |calls| && |done| == i && Valid()
        invariant Contents() == Replay(old(Contents()), calls[..i], done)
        invariant fresh(NodeSet(ring) - old(NodeSet(ring)))
      {
        ReplayMore(old(Contents()), calls[..i], done, calls[i], false);
        ReplayMore(old(Contents()), calls[..i], done, calls[i], true);
        var d := Perform(calls[i]);
        assert calls[..i + 1] == calls[..i] + [calls[i]];
        done := done + [d];
        i := i + 1;
      }
      assert calls[..i] == calls;
    }

    method Perform(call: RegistryCall) returns (done: bool)
      requires Valid()
      modifies this, set x | x in ring
      ensures Valid() && fresh(NodeSet(ring) - old(NodeSet(ring)))
      ensures Contents() == AfterCall(old(Contents()), call, done)
    {
      hide Linked, Inners;
      match call {
        case Add(p) =>
          var entry := Register(p);
          return entry != null;
        case Remove(at) =>
          if at < resolverCount {
            var entry := EntryAt(at);
            Deregister(entry, at + 1);
          }
          return true;
      }
    }

    /** The entry at a position, counted from the newest. */
    method EntryAt(at: nat) returns (entry: Node)
      requires Valid() && at < resolverCount
      ensures entry == ring[at + 1]
    {
      hide Linked, Inners, NodeSet;
      entry := FirstEntry();
      var i := 0;
      while i < at
        invariant 0 <= i <= at && entry == ring[i + 1]
      {
        entry := After(entry, i + 1);
        i := i + 1;
      }
    }

    method FirstEntry() returns (x: Node)
      requires Valid()
      ensures x == (if |ring| == 1 then head else ring[1]) && (x == head <==> |ring| == 1)
    {
      assert ring[0] == head;
      x := head.next;
    }

    method After(x: Node, ghost at: nat) returns (y: Node)
      requires Valid() && at < |ring| && x == ring[at]
      ensures y == (if at + 1 == |ring| then head else ring[at + 1]) && (y == head <==> at + 1 == |ring|)
    {
      y := x.next;
    }

    /** `destroy_global_registry`: frees each entry one step after passing it, so that no
        link is read out of a freed entry. */
    method Destroy()
      requires Valid()
      modifies this`live
      ensures live == {}
    {
      hide Inners;
      var last: Node? := null;
      assert ring[0] == head;
      var x := head.next;
      ghost var i := Succ(0, |ring|);  // x is ring[i]; last is the entry before it
      ghost var freed := 0;            // entries 1 .. freed are freed
      while x != head
        invariant 0 <= i < |ring| && x == ring[i] && (i == 0 <==> x == head)
        invariant freed == (if i == 0 then (if |ring| >= 2 then |ring| - 2 else 0) else if i >= 2 then i - 2 else 0)
        invariant last == (if i == 1 || |ring| == 1 then null else if i == 0 then ring[|ring| - 1] else ring[i - 1])
        invariant live == NodeSet(ring[1 + freed..])
        decreases if i == 0 then 0 else |ring| - i
      {
        if last != null {
          Kfree(last, 1 + freed);
          freed := freed + 1;
        }
        last := x;
        x := NextOf(x);
        i := Succ(i, |ring|);
      }
      if last != null {
        Kfree(last, 1 + freed);
      }
    }

    /** Reads a link, which only an entry that is still allocated has. */
    method NextOf(x: Node) returns (y: Node)
      requires x in live
      ensures y == x.next
    {
      y := x.next;
    }

    /** kfree of an allocated entry. */
    method Kfree(entry: Node, ghost at: nat)
      requires |ring| > at >= 1 && ring[at] == entry && live == NodeSet(ring[at..])
      requires forall i, j :: 0 <= i < j < |ring| ==> ring[i] != ring[j]
      requires entry in live
      modifies this`live
      ensures live == NodeSet(ring[at + 1..])
    {
      live := live - {entry};
      assert ring[at..] == [entry] + ring[at + 1..];
    }
  }

  /** list_add: the entry goes between the head and the first element. */
  method ListAdd(entry: Node, head: Node, ghost ring: seq<Node>)
    requires Linked(ring) && |ring| > 0 && ring[0] == head && entry !in ring
    modifies (set x | x in ring)`next, (set x | x in ring)`prev, entry`next, entry`prev
    ensures Linked([head, entry] + ring[1..])
  {
    assert head.next == ring[Succ(0, |ring|)];
    var first := head.next;
    first.prev := entry;
    entry.next := first;
    entry.prev := head;
    head.next := entry;
    ghost var longer := [head, entry] + ring[1..];
    forall i | 0 <= i < |longer|
      ensures longer[i].next == longer[Succ(i, |longer|)] && longer[Succ(i, |longer|)].prev == longer[i]
    {
      if i >= 2 {
        assert longer[i] == ring[i - 1] && longer[Succ(i, |longer|)] == ring[Succ(i - 1, |ring|)];
      }
    }
  }

  /** list_del: the neighbours of the entry are linked to each other. */
  method ListDel(entry: Node, ghost ring: seq<Node>, ghost at: nat)
    requires Linked(ring) && 0 < at < |ring| && ring[at] == entry
    modifies (set x | x in ring)`next, (set x | x in ring)`prev
    ensures Linked(CutAt(ring, at))
  {
    hide CutAt;
    ghost var n := |ring|;
    assert Succ(at - 1, n) == at && entry.prev == ring[at - 1] && entry.next == ring[Succ(at, n)];
    entry.prev.next := entry.next;
    entry.next.prev := entry.prev;
    ghost var left := CutAt(ring, at);
    forall i | 0 <= i < |left|
      ensures left[i].next == left[Succ(i, |left|)] && left[Succ(i, |left|)].prev == left[i]
    {
      var j := if i < at then i else i + 1;
      assert left[i] == ring[j] && ring[j] in ring;
      if i != at - 1 {
        assert left[Succ(i, |left|)] == ring[Succ(j, n)];
      }
    }
  }
}
