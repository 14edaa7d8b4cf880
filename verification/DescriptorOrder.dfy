/** Descriptor files in dependency order (grpcmcp/server.go:116-151 and 363-379)
    and the registration that needs that order (main.go:146-158 and
    grpcmcp/server.go:185-195). */
module DescriptorOrder {
  import opened Json
  import opened ProtoFiles
  import opened Chains

  /** Files keyed by their paths. */
  type Files = map<string, FileProto>

  predicate Keyed(all: Files) {
    forall n | n in all :: all[n].path == n
  }

  predicate NothingMissing(all: Files) {
    forall n, k | n in all && 0 <= k < |all[n].deps| :: all[n].deps[k] in all
  }

  /** Some file imports `dep`, which is not there. */
  predicate Missing(all: Files, dep: string) {
    dep !in all && exists n | n in all :: dep in all[n].deps
  }

  predicate DependsOn(all: Files, a: string, b: string)
    requires a in all
  {
    b in all[a].deps
  }

  function Imports(all: Files): Graph {
    map n | n in all :: set dep | dep in all[n].deps
  }

  ghost predicate Acyclic(all: Files) {
    forall n | n in all :: !ReachesCycle(Imports(all), n)
  }

  // ----- Collecting

  function Flat(responses: seq<seq<FileProto>>): seq<FileProto> {
    if responses == [] then []
    else Flat(responses[..|responses| - 1]) + responses[|responses| - 1]
  }

  predicate IsLast(files: seq<FileProto>, i: nat)
    requires i < |files|
  {
    forall k | i < k < |files| :: files[k].path != files[i].path
  }

  function Kept(files: seq<FileProto>): Files {
    if files == [] then map[]
    else Kept(files[..|files| - 1])[files[|files| - 1].path := files[|files| - 1]]
  }

  lemma KeptStep(files: seq<FileProto>, f: FileProto)
    ensures Kept(files + [f]) == Kept(files)[f.path := f]
  {
    assert (files + [f])[..|files|] == files;
  }

  lemma {:induction false} KeptPaths(files: seq<FileProto>)
    ensures Keyed(Kept(files))
    ensures forall n :: n in Kept(files) <==> n in Paths(files)
  {
    if files != [] {
      var init, last := files[..|files| - 1], files[|files| - 1];
      KeptPaths(init);
      PathsAppend(init, last);
      assert files == init + [last];
    }
  }

  lemma {:induction false} KeptIsLast(files: seq<FileProto>, i: nat)
    requires i < |files| && IsLast(files, i)
    ensures files[i].path in Kept(files) && Kept(files)[files[i].path] == files[i]
  {
    var n := |files| - 1;
    if i < n {
      assert files[n].path != files[i].path;
      assert forall k | i < k < n :: files[..n][k] == files[k];
      KeptIsLast(files[..n], i);
    }
  }

  lemma FlatStep(responses: seq<seq<FileProto>>, i: nat)
    requires i < |responses|
    ensures Flat(responses[..i + 1]) == Flat(responses[..i]) + responses[i]
  {
    assert responses[..i + 1][..i] == responses[..i];
  }

  lemma OneMore(before: seq<FileProto>, more: seq<FileProto>, j: nat)
    requires j < |more|
    ensures before + more[..j + 1] == before + more[..j] + [more[j]]
  {
  }

  /** grpcmcp/server.go:129-137: exactly the paths of the responses, in the order of
      which the last descriptor of a path wins. */
  method CollectFiles(responses: seq<seq<FileProto>>) returns (all: Files)
    ensures Keyed(all)
    ensures forall n :: n in all <==> n in Paths(Flat(responses))
    ensures forall i | 0 <= i < |Flat(responses)| && IsLast(Flat(responses), i) ::
              var f := Flat(responses)[i]; f.path in all && all[f.path] == f
  {
    all := map[];
    for i := 0 to |responses|
      invariant all == Kept(Flat(responses[..i]))
    {
      FlatStep(responses, i);
      all := KeepResponse(all, responses[i], Flat(responses[..i]));
    }
    assert responses[..|responses|] == responses;
    ghost var flat := Flat(responses);
    KeptPaths(flat);
    forall i | 0 <= i < |flat| && IsLast(flat, i)
      ensures flat[i].path in all && all[flat[i].path] == flat[i]
    {
      KeptIsLast(flat, i);
    }
  }

  /** The inner loop, grpcmcp/server.go:134-136. */
  method KeepResponse(collected: Files, response: seq<FileProto>, ghost before: seq<FileProto>) returns (all: Files)
    requires collected == Kept(before)
    ensures all == Kept(before + response)
  {
    all := collected;
    assert before + response[..0] == before;
    for j := 0 to |response|
      invariant all == Kept(before + response[..j])
    {
      OneMore(before, response, j);
      KeptStep(before + response[..j], response[j]);
      all := all[response[j].path := response[j]];
    }
    assert response[..|response|] == response;
  }

  // ----- Depth-first order

  /** Every import of a listed file is listed before it, or leads back to it. */
  ghost predicate Ordered(all: Files, ds: seq<FileProto>) {
    forall i, k | 0 <= i < |ds| && 0 <= k < |ds[i].deps| :: Settled(all, ds, i, ds[i].deps[k])
  }

  ghost predicate Settled(all: Files, ds: seq<FileProto>, i: nat, dep: string)
    requires i < |ds|
  {
    dep in all && (dep in Paths(ds[..i]) || Reaches(Imports(all), dep, ds[i].path))
  }

  predicate Distinct(names: seq<string>) {
    forall i, j | 0 <= i < j < |names| :: names[i] != names[j]
  }

  /** The files seen are those listed and those on the stack, which have been
      entered and not yet listed. */
  ghost predicate Progress(all: Files, seen: set<string>, ds: seq<FileProto>, stack: set<string>) {
    && Keyed(all)
    && Distinct(Paths(ds))
    && (forall n :: n in seen <==> n in stack || n in Paths(ds))
    && (forall n | n in stack :: n in all && n !in Paths(ds))
    && (forall i | 0 <= i < |ds| :: ds[i].path in all && ds[i] == all[ds[i].path])
    && Ordered(all, ds)
  }

  ghost predicate AllReach(all: Files, stack: set<string>, n: string) {
    forall e | e in stack :: Reaches(Imports(all), e, n)
  }

  predicate AllIn(names: seq<string>, count: nat, s: set<string>)
    requires count <= |names|
  {
    forall h | 0 <= h < count :: names[h] in s
  }

  lemma AllInGrows(names: seq<string>, count: nat, before: set<string>, after: set<string>)
    requires count < |names| && AllIn(names, count, before) && before <= after && names[count] in after
    ensures AllIn(names, count + 1, after)
  {
  }

  /** The shared state of one sort: the `seen` map and the output slice. */
  class Sorter {
    var seen: set<string>
    var ds: seq<FileProto>

    constructor ()
      ensures seen == {} && ds == []
    {
      seen, ds := {}, [];
    }

    /** grpcmcp/server.go:363-379. The measure is the number of files not seen,
        so the walk ends on cyclic imports too. */
    method TopSort(d: FileProto, all: Files, ghost stack: set<string>) returns (missing: Option<string>)
      requires Progress(all, seen, ds, stack) && d.path in all && all[d.path] == d
      requires AllReach(all, stack, d.path)
      modifies this
      ensures old(seen) <= seen
      ensures missing.Some? ==> Missing(all, missing.value)
      ensures missing == None ==> Progress(all, seen, ds, stack) && d.path in seen
      decreases |all.Keys - seen|
    {
      if d.path in seen {
        return None;
      }
      Enter(all, seen, ds, stack, d);
      seen := seen + {d.path};
      for k := 0 to |d.deps|
        invariant Progress(all, seen, ds, stack + {d.path})
        invariant old(seen) <= seen
        invariant d.path in seen
        invariant AllIn(d.deps, k, seen)
      {
        var dep := d.deps[k];
        if dep !in all {
          return Some(dep);
        }
        ReachTheImport(all, stack + {d.path}, d.path, dep);
        UnseenShrinks(all.Keys, old(seen), seen, d.path);
        ghost var before := seen;
        missing := TopSort(all[dep], all, stack + {d.path});
        if missing.Some? {
          return;
        }
        AllInGrows(d.deps, k, before, seen);
      }
      AppendKeepsProgress(all, seen, ds, stack, d);
      ds := ds + [d];
      return None;
    }
  }

  lemma PathsAppend(ds: seq<FileProto>, d: FileProto)
    ensures Paths(ds + [d]) == Paths(ds) + [d.path]
  {
  }

  /** Entering a file: it reaches itself, as every file on the stack reaches it. */
  lemma Enter(all: Files, seen: set<string>, ds: seq<FileProto>, stack: set<string>, d: FileProto)
    requires Progress(all, seen, ds, stack) && d.path in all && d.path !in seen
    requires AllReach(all, stack, d.path)
    ensures Progress(all, seen + {d.path}, ds, stack + {d.path})
    ensures AllReach(all, stack + {d.path}, d.path)
    ensures d.path !in stack
  {
    ReachesSelf(Imports(all), d.path);
  }

  lemma ReachTheImport(all: Files, stack: set<string>, n: string, dep: string)
    requires n in all && dep in all && DependsOn(all, n, dep) && AllReach(all, stack, n)
    ensures AllReach(all, stack, dep)
  {
    forall e | e in stack
      ensures Reaches(Imports(all), e, dep)
    {
      ReachesNext(Imports(all), e, n, dep);
    }
  }

  lemma UnseenShrinks(keys: set<string>, before: set<string>, after: set<string>, n: string)
    requires n in keys && n !in before && before <= after && n in after
    ensures |keys - after| < |keys - before|
  {
    Subset(keys - after, keys - before - {n});
  }

  lemma {:induction false} Subset(a: set<string>, b: set<string>)
    requires a <= b
    ensures |a| <= |b|
    decreases a
  {
    if a != {} {
      var x :| x in a;
      Subset(a - {x}, b - {x});
    }
  }

  /** A file is listed when each of its imports is listed, or is on the stack and
      then leads to it. */
  lemma AppendKeepsProgress(all: Files, seen: set<string>, ds: seq<FileProto>, stack: set<string>, d: FileProto)
    requires Progress(all, seen, ds, stack + {d.path}) && d.path in all && all[d.path] == d && d.path !in stack
    requires AllReach(all, stack + {d.path}, d.path)
    requires AllIn(d.deps, |d.deps|, seen)
    ensures Progress(all, seen, ds + [d], stack)
  {
    var more := ds + [d];
    PathsAppend(ds, d);
    assert d.path in stack + {d.path};
    forall i, k | 0 <= i < |more| && 0 <= k < |more[i].deps|
      ensures Settled(all, more, i, more[i].deps[k])
    {
      assert more[..i] == ds[..i];
      if i < |ds| {
        assert Settled(all, ds, i, ds[i].deps[k]);
      } else {
        assert ds[..i] == ds;
        assert d.deps[k] in Paths(ds) || d.deps[k] in stack + {d.path};
      }
    }
  }

  /** Every key once, in any order. */
  ghost predicate Enumerates(order: seq<string>, all: Files) {
    (forall n :: n in all <==> n in order) && Distinct(order)
  }

  /** grpcmcp/server.go:144-151. The order of the loop is that of a map, that is
      any order. */
  method SortFiles(all: Files, order: seq<string>) returns (r: Option<seq<FileProto>>)
    requires Keyed(all) && Enumerates(order, all)
    ensures r.Some? <==> NothingMissing(all)
    ensures r.Some? ==> Sorted(all, r.value)
  {
    var sorter := new Sorter();
    for i := 0 to |order|
      invariant fresh(sorter)
      invariant Progress(all, sorter.seen, sorter.ds, {})
      invariant forall k | 0 <= k < i :: order[k] in sorter.seen
    {
      var missing := sorter.TopSort(all[order[i]], all, {});
      if missing.Some? {
        return None;
      }
    }
    forall n, k | n in all && 0 <= k < |all[n].deps|
      ensures all[n].deps[k] in all
    {
      var i := ListedAt(all, sorter.seen, sorter.ds, n);
      assert Settled(all, sorter.ds, i, sorter.ds[i].deps[k]);
    }
    forall n | n in all
      ensures n in Paths(sorter.ds)
    {
      var i := ListedAt(all, sorter.seen, sorter.ds, n);
    }
    return Some(sorter.ds);
  }

  lemma ListedAt(all: Files, seen: set<string>, ds: seq<FileProto>, n: string) returns (i: nat)
    requires Progress(all, seen, ds, {}) && n in seen
    ensures i < |ds| && ds[i] == all[n] && n in Paths(ds)
  {
    i :| 0 <= i < |Paths(ds)| && Paths(ds)[i] == n;
  }

  /** What a successful sort returns: every file once, in order. */
  ghost predicate Sorted(all: Files, ds: seq<FileProto>) {
    && Distinct(Paths(ds))
    && (forall n :: n in all <==> n in Paths(ds))
    && (forall i | 0 <= i < |ds| :: ds[i].path in all && ds[i] == all[ds[i].path])
    && Ordered(all, ds)
  }

  lemma NotEarlier(ds: seq<FileProto>, i: nat, k: nat)
    requires Distinct(Paths(ds)) && i <= k < |ds|
    ensures ds[k].path !in Paths(ds[..i])
  {
    forall a | 0 <= a < i
      ensures Paths(ds[..i])[a] != ds[k].path
    {
      assert Paths(ds)[a] != Paths(ds)[k];
    }
  }

  /** An import that comes after its file lies on a cycle with it, whatever the
      graph. */
  lemma LateImportIsCycle(all: Files, ds: seq<FileProto>, i: nat, k: nat)
    requires Sorted(all, ds) && i <= k < |ds| && DependsOn(all, ds[i].path, ds[k].path)
    ensures Reaches(Imports(all), ds[k].path, ds[i].path)
    ensures ReachesCycle(Imports(all), ds[i].path)
  {
    var h :| 0 <= h < |ds[i].deps| && ds[i].deps[h] == ds[k].path;
    assert Settled(all, ds, i, ds[i].deps[h]);
    NotEarlier(ds, i, k);
    BackEdgeIsCycle(Imports(all), ds[i].path, ds[k].path);
  }

  // ----- Registration

  /** The library refuses a file whose imports are not all registered. */
  predicate Resolves(reg: seq<FileProto>, f: FileProto) {
    forall k | 0 <= k < |f.deps| :: f.deps[k] in Paths(reg)
  }

  /** It refuses to register a file that shares a name with one already there. */
  predicate Unconflicted(reg: seq<FileProto>, f: FileProto) {
    forall i | 0 <= i < |reg| :: !NameConflict(reg[i], f)
  }

  function Registered(reg: seq<FileProto>, f: FileProto): seq<FileProto> {
    if Resolves(reg, f) && f.path !in Paths(reg) && Unconflicted(reg, f) then reg + [f] else reg
  }

  /** The registry after a fold over the files that skips those refused and those
      already there. */
  function Registry(files: seq<FileProto>): seq<FileProto> {
    if files == [] then [] else Registered(Registry(files[..|files| - 1]), files[|files| - 1])
  }

  lemma RegistryStep(files: seq<FileProto>, i: nat)
    requires i < |files|
    ensures Registry(files[..i + 1]) == Registered(Registry(files[..i]), files[i])
  {
    assert files[..i + 1][..i] == files[..i];
  }

  /** main.go:146-158 */
  method BuildRegistry(files: seq<FileProto>) returns (reg: seq<FileProto>)
    ensures reg == Registry(files)
  {
    reg := [];
    for i := 0 to |files|
      invariant reg == Registry(files[..i])
    {
      var f := files[i];
      RegistryStep(files, i);
      if !Resolves(reg, f) {
        continue;
      }
      if f.path !in Paths(reg) {
        if Unconflicted(reg, f) {
          reg := reg + [f];
        }
      }
    }
    assert files[..|files|] == files;
  }

  /** Each registered file comes after its imports, and no path comes twice. */
  ghost predicate ImportsFirst(reg: seq<FileProto>) {
    && Distinct(Paths(reg))
    && forall i, k | 0 <= i < |reg| && 0 <= k < |reg[i].deps| :: reg[i].deps[k] in Paths(reg[..i])
  }

  lemma ImportsFirstAppend(reg: seq<FileProto>, f: FileProto)
    requires ImportsFirst(reg) && Resolves(reg, f) && f.path !in Paths(reg)
    ensures ImportsFirst(reg + [f])
  {
    var more := reg + [f];
    PathsAppend(reg, f);
    forall i, k | 0 <= i < |more| && 0 <= k < |more[i].deps|
      ensures more[i].deps[k] in Paths(more[..i])
    {
      assert more[..i] == reg[..i];
      if i == |reg| {
        assert reg[..i] == reg;
      }
    }
  }

  lemma {:induction false} RegistryImportsFirst(files: seq<FileProto>)
    ensures ImportsFirst(Registry(files))
  {
    if files != [] {
      var init, f := files[..|files| - 1], files[|files| - 1];
      RegistryImportsFirst(init);
      if Registered(Registry(init), f) != Registry(init) {
        ImportsFirstAppend(Registry(init), f);
      }
    }
  }

  lemma {:induction false} RegistryIsPart(files: seq<FileProto>)
    ensures forall f | f in Registry(files) :: f in files
  {
    if files != [] {
      RegistryIsPart(files[..|files| - 1]);
    }
  }

  /** Chains of imports descend in the registry, so they never repeat. */
  lemma {:induction false} ChainDescends(all: Files, reg: seq<FileProto>, p: seq<string>, k: nat) returns (at: seq<nat>)
    requires ImportsFirst(reg) && Chain(Imports(all), p) && k < |p| && p[0] in Paths(reg)
    requires forall i | 0 <= i < |reg| :: reg[i].path in all && reg[i] == all[reg[i].path]
    ensures |at| == k + 1
    ensures forall i | 0 <= i <= k :: at[i] < |reg| && reg[at[i]].path == p[i]
    ensures forall i, j | 0 <= i < j <= k :: at[j] < at[i]
  {
    if k == 0 {
      var i :| 0 <= i < |Paths(reg)| && Paths(reg)[i] == p[0];
      return [i];
    }
    at := ChainDescends(all, reg, p, k - 1);
    var a := at[k - 1];
    assert DependsOn(all, p[k - 1], p[k - 1 + 1]);
    var h :| 0 <= h < |reg[a].deps| && reg[a].deps[h] == p[k];
    var b :| 0 <= b < |Paths(reg[..a])| && Paths(reg[..a])[b] == p[k];
    at := at + [b];
  }

  lemma RegisteredReachesNoCycle(all: Files, reg: seq<FileProto>, n: string)
    requires ImportsFirst(reg) && n in Paths(reg)
    requires forall i | 0 <= i < |reg| :: reg[i].path in all && reg[i] == all[reg[i].path]
    ensures !ReachesCycle(Imports(all), n)
  {
    forall p | Chain(Imports(all), p) && p[0] == n
      ensures !Repeats(p)
    {
      var at := ChainDescends(all, reg, p, |p| - 1);
      forall i, j | 0 <= i < j < |p|
        ensures p[i] != p[j]
      {
        assert Paths(reg)[at[i]] == p[i] && Paths(reg)[at[j]] == p[j];
      }
    }
  }

  lemma {:induction false} RegistryGrows(files: seq<FileProto>, i: nat, n: string)
    requires i <= |files| && n in Paths(Registry(files[..i]))
    ensures n in Paths(Registry(files))
    decreases |files| - i
  {
    if i < |files| {
      RegistryStep(files, i);
      PathsAppend(Registry(files[..i]), files[i]);
      RegistryGrows(files, i + 1, n);
    } else {
      assert files[..i] == files;
    }
  }

  /** One file declares a name that the other declares or has as a package. */
  predicate SharesName(f: FileProto, g: FileProto) {
    || (exists n | n in f.declared :: n in g.declared || n in g.packages)
    || (exists n | n in g.declared :: n in f.packages)
  }

  lemma ConflictIff(f: FileProto, g: FileProto)
    ensures NameConflict(f, g) <==> SharesName(f, g)
  {
    if NameConflict(f, g) {
      var n :| n in f.declared * g.declared || n in f.declared * g.packages || n in f.packages * g.declared;
    }
    if n :| n in f.declared && n in g.declared {
      assert n in f.declared * g.declared;
    }
    if n :| n in f.declared && n in g.packages {
      assert n in f.declared * g.packages;
    }
    if n :| n in g.declared && n in f.packages {
      assert n in f.packages * g.declared;
    }
  }

  /** No two files share a name. */
  predicate Compatible(all: Files) {
    forall a, b | a in all && b in all && a != b :: !SharesName(all[a], all[b])
  }

  /** The turn of one file, in any list: its path is registered after it if it was
      before, or if its imports are registered and it shares no name with a file
      that is; and the registry then holds this file. */
  lemma RegistryTurn(files: seq<FileProto>, i: nat)
    requires i < |files|
    ensures var reg, f := Registry(files[..i]), files[i];
            var enters := (forall k | 0 <= k < |f.deps| :: f.deps[k] in Paths(reg)) && f.path !in Paths(reg) &&
                          forall k | 0 <= k < |reg| :: !SharesName(reg[k], f);
            Registry(files[..i + 1]) == if enters then reg + [f] else reg
  {
    RegistryStep(files, i);
    forall k | 0 <= k < |Registry(files[..i])|
      ensures NameConflict(Registry(files[..i])[k], files[i]) <==> SharesName(Registry(files[..i])[k], files[i])
    {
      ConflictIff(Registry(files[..i])[k], files[i]);
    }
  }

  /** A file from which no cycle is reached has its imports listed before it. */
  lemma ImportListedEarlier(all: Files, ds: seq<FileProto>, i: nat, k: nat) returns (a: nat)
    requires Sorted(all, ds) && i < |ds| && k < |ds[i].deps| && !ReachesCycle(Imports(all), ds[i].path)
    ensures a < i && ds[a].path == ds[i].deps[k] && !ReachesCycle(Imports(all), ds[a].path)
  {
    var v := ds[i].deps[k];
    assert Settled(all, ds, i, v);
    if Reaches(Imports(all), v, ds[i].path) {
      BackEdgeIsCycle(Imports(all), ds[i].path, v);
    }
    if ReachesCycle(Imports(all), v) {
      CycleBehind(Imports(all), ds[i].path, v);
    }
    a :| 0 <= a < |Paths(ds[..i])| && Paths(ds[..i])[a] == v;
  }

  lemma PathAt(ds: seq<FileProto>, n: string) returns (i: nat)
    requires n in Paths(ds)
    ensures i < |ds| && ds[i].path == n
  {
    i :| 0 <= i < |Paths(ds)| && Paths(ds)[i] == n;
  }

  /** Sorted files that share no names meet no conflict at their turn. */
  lemma UnconflictedEarlier(all: Files, ds: seq<FileProto>, i: nat, reg: seq<FileProto>)
    requires Sorted(all, ds) && Compatible(all) && i < |ds| && forall f | f in reg :: f in ds[..i]
    ensures Unconflicted(reg, ds[i])
  {
    forall h | 0 <= h < |reg|
      ensures !NameConflict(reg[h], ds[i])
    {
      assert reg[h] in ds[..i];
      var k :| 0 <= k < i && ds[..i][k] == reg[h];
      assert Paths(ds)[k] != Paths(ds)[i];
      ConflictIff(reg[h], ds[i]);
    }
  }

  lemma OnceAccepted(reg: seq<FileProto>, f: FileProto)
    requires Resolves(reg, f) && Unconflicted(reg, f)
    ensures f.path in Paths(Registered(reg, f))
  {
    PathsAppend(reg, f);
  }

  /** In sorted output without conflicts, a file from which no cycle is reached is
      registered by the time it has been processed. */
  lemma {:induction false} AcyclicPartRegisters(all: Files, ds: seq<FileProto>, i: nat)
    requires Sorted(all, ds) && Compatible(all) && i < |ds| && !ReachesCycle(Imports(all), ds[i].path)
    ensures ds[i].path in Paths(Registry(ds[..i + 1]))
    decreases i
  {
    forall k | 0 <= k < |ds[i].deps|
      ensures ds[i].deps[k] in Paths(Registry(ds[..i]))
    {
      var a := ImportListedEarlier(all, ds, i, k);
      AcyclicPartRegisters(all, ds, a);
      assert ds[..i][..a + 1] == ds[..a + 1];
      RegistryGrows(ds[..i], a + 1, ds[a].path);
    }
    RegistryIsPart(ds[..i]);
    UnconflictedEarlier(all, ds, i, Registry(ds[..i]));
    OnceAccepted(Registry(ds[..i]), ds[i]);
    RegistryStep(ds, i);
  }

  lemma RegisteredIsAcyclic(all: Files, ds: seq<FileProto>, n: string)
    requires Sorted(all, ds) && n in Paths(Registry(ds))
    ensures n in all && !ReachesCycle(Imports(all), n)
  {
    RegistryImportsFirst(ds);
    RegistryIsPart(ds);
    var reg := Registry(ds);
    forall i | 0 <= i < |reg|
      ensures reg[i].path in all && reg[i] == all[reg[i].path]
    {
      assert reg[i] in ds;
    }
    RegisteredReachesNoCycle(all, reg, n);
    var i := PathAt(reg, n);
  }

  lemma AcyclicIsRegistered(all: Files, ds: seq<FileProto>, n: string)
    requires Sorted(all, ds) && Compatible(all) && n in all && !ReachesCycle(Imports(all), n)
    ensures n in Paths(Registry(ds))
  {
    var i := PathAt(ds, n);
    AcyclicPartRegisters(all, ds, i);
    RegistryGrows(ds, i + 1, n);
  }

  /** After a successful sort, the registry holds only files from which following
      imports never leads in a circle, and without name conflicts all of them,
      whatever the map order was. */
  lemma RegistersExactlyAcyclicPart(all: Files, ds: seq<FileProto>, n: string)
    requires Sorted(all, ds)
    ensures n in Paths(Registry(ds)) ==> n in all && !ReachesCycle(Imports(all), n)
    ensures Compatible(all) ==> (n in Paths(Registry(ds)) <==> n in all && !ReachesCycle(Imports(all), n))
  {
    if n in Paths(Registry(ds)) {
      RegisteredIsAcyclic(all, ds, n);
    }
    if Compatible(all) && n in all && !ReachesCycle(Imports(all), n) {
      AcyclicIsRegistered(all, ds, n);
    }
  }

  /** A file is refused unless its imports are registered and it is already there
      or shares no name. */
  predicate Accepted(reg: seq<FileProto>, f: FileProto) {
    Resolves(reg, f) && (f.path in Paths(reg) || Unconflicted(reg, f))
  }

  predicate AcceptedAt(files: seq<FileProto>, i: nat)
    requires i < |files|
  {
    Accepted(Registry(files[..i]), files[i])
  }

  /** No file is refused while the fold runs over the list. */
  predicate NeverRefused(files: seq<FileProto>) {
    forall i | 0 <= i < |files| :: AcceptedAt(files, i)
  }

  predicate AcceptedNext(ds: seq<FileProto>, k: nat)
    requires k < |ds|
  {
    Accepted(ds[..k], ds[k])
  }

  /** Each file is accepted when those before it are registered. */
  predicate AcceptedInOrder(ds: seq<FileProto>, n: nat)
    requires n <= |ds|
  {
    forall k | 0 <= k < n :: AcceptedNext(ds, k)
  }

  lemma NewIsRegistered(reg: seq<FileProto>, f: FileProto)
    requires Accepted(reg, f) && f.path !in Paths(reg)
    ensures Registered(reg, f) == reg + [f]
  {
  }

  /** With distinct paths, files accepted one after the other are registered as
      they come. */
  lemma {:induction false} PrefixFolds(ds: seq<FileProto>, n: nat)
    requires Distinct(Paths(ds)) && n <= |ds| && AcceptedInOrder(ds, n)
    ensures Registry(ds[..n]) == ds[..n]
  {
    if n > 0 {
      PrefixFolds(ds, n - 1);
      RegistryStep(ds, n - 1);
      NotEarlier(ds, n - 1, n - 1);
      assert AcceptedNext(ds, n - 1);
      NewIsRegistered(ds[..n - 1], ds[n - 1]);
    }
  }

  lemma {:induction false} NeverRefusedFolds(ds: seq<FileProto>, n: nat)
    requires Distinct(Paths(ds)) && n <= |ds| && NeverRefused(ds)
    ensures AcceptedInOrder(ds, n)
  {
    if n > 0 {
      NeverRefusedFolds(ds, n - 1);
      PrefixFolds(ds, n - 1);
      assert AcceptedAt(ds, n - 1);
    }
  }

  lemma PrefixAccepts(all: Files, ds: seq<FileProto>, i: nat)
    requires Sorted(all, ds) && Acyclic(all) && Compatible(all) && i < |ds|
    ensures AcceptedNext(ds, i)
  {
    forall k | 0 <= k < |ds[i].deps|
      ensures ds[i].deps[k] in Paths(ds[..i])
    {
      var a := ImportListedEarlier(all, ds, i, k);
      assert Paths(ds[..i])[a] == ds[i].deps[k];
    }
    UnconflictedEarlier(all, ds, i, ds[..i]);
  }

  lemma AcceptedInOrderCompatible(all: Files, ds: seq<FileProto>)
    requires Sorted(all, ds) && AcceptedInOrder(ds, |ds|)
    ensures Compatible(all)
  {
    forall a, b | a in all && b in all && a != b
      ensures !SharesName(all[a], all[b])
    {
      var i := PathAt(ds, a);
      var j := PathAt(ds, b);
      var low, high := if i < j then i else j, if i < j then j else i;
      NotEarlier(ds, high, high);
      assert AcceptedNext(ds, high) && ds[..high][low] == ds[low];
      assert !NameConflict(ds[low], ds[high]);
      ConflictIff(ds[low], ds[high]);
    }
  }

  /** After a successful sort, registration refuses no file if and only if the
      imports are acyclic and no two files share a name; it then registers every
      file in order. */
  lemma NeverRefusedIffAcyclic(all: Files, ds: seq<FileProto>)
    requires Sorted(all, ds)
    ensures NeverRefused(ds) <==> Acyclic(all) && Compatible(all)
    ensures NeverRefused(ds) ==> Registry(ds) == ds
  {
    assert ds[..|ds|] == ds;
    if Acyclic(all) && Compatible(all) {
      AcyclicNeverRefused(all, ds);
    }
    if NeverRefused(ds) {
      NeverRefusedFolds(ds, |ds|);
      PrefixFolds(ds, |ds|);
      AcceptedInOrderCompatible(all, ds);
      forall n | n in all
        ensures !ReachesCycle(Imports(all), n)
      {
        RegisteredIsAcyclic(all, ds, n);
      }
    }
  }

  lemma InOrderNeverRefused(ds: seq<FileProto>)
    requires Distinct(Paths(ds)) && AcceptedInOrder(ds, |ds|)
    ensures NeverRefused(ds)
  {
    forall i | 0 <= i < |ds|
      ensures AcceptedAt(ds, i)
    {
      PrefixFolds(ds, i);
      assert AcceptedNext(ds, i);
    }
  }

  lemma AcyclicNeverRefused(all: Files, ds: seq<FileProto>)
    requires Sorted(all, ds) && Acyclic(all) && Compatible(all)
    ensures NeverRefused(ds)
  {
    forall i | 0 <= i < |ds|
      ensures AcceptedNext(ds, i)
    {
      PrefixAccepts(all, ds, i);
    }
    InOrderNeverRefused(ds);
  }
}
