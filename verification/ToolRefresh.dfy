/** Building the tools of a set of descriptors (grpcmcp/server.go:168-259) and
    refreshing the live tool set (refresh.go:34-71, main.go:472-499). */
module ToolRefresh {
  import opened Json
  import opened ProtoFiles
  import opened DescriptorOrder
  import opened ToolNaming

  /** A tool, by its name and the method it calls. */
  datatype Tool = Tool(name: string, entry: Entry)

  /** The operator's choice of services and methods, fixed for the process. */
  datatype Config = Config(services: set<string>, filter: Filter)

  function Named(c: Config, reg: seq<FileProto>, es: seq<Entry>): seq<Tool> {
    seq(|es|, i requires 0 <= i < |es| =>
      Tool(ToolName(c.services, c.filter, reg, es[i].service, es[i].rpc), es[i]))
  }

  /** The tools of a list of files, or nothing when the build fails: without
      descriptors, or when a file is refused: it imports one that is not registered
      yet, or is new and shares a name with one that is. */
  function Build(c: Config, files: seq<FileProto>): Option<seq<Tool>> {
    if files == [] || !NeverRefused(files) then None
    else Some(Named(c, Registry(files), Exposure(c.services, c.filter, files)))
  }

  /** The first `n` files are not refused. */
  predicate AcceptedBefore(files: seq<FileProto>, n: nat)
    requires n <= |files|
  {
    forall k | 0 <= k < n :: AcceptedAt(files, k)
  }

  /** The registry and the tools after the first `n` files, none of them refused. */
  predicate BuiltSoFar(c: Config, files: seq<FileProto>, n: nat, reg: seq<FileProto>, built: seq<Tool>)
    requires n <= |files|
  {
    && AcceptedBefore(files, n)
    && reg == Registry(files[..n])
    && built == Named(c, Registry(files), Exposure(c.services, c.filter, files[..n]))
  }

  /** grpcmcp/server.go:168-259 with the namer of main.go:106-144. `order` is the
      order in which the registry is ranged over. */
  method Tools(c: Config, files: seq<FileProto>, order: seq<FileProto>) returns (tools: Option<seq<Tool>>)
    requires multiset(order) == multiset(Registry(files))
    ensures tools == Build(c, files)
    ensures tools.Some? ==>
              forall s, m :: HasTool(tools.value, s, m) <==>
                && (exists f | 0 <= f < |files| :: s in files[f].services) && m in s.methods
                && !m.clientStreaming && !m.serverStreaming && c.filter(m)
                && (c.services == {} || Join(s.pkg + [s.name], '.') in c.services)
  {
    var namer := BuildToolNamer(c.services, c.filter, order, Registry(files));
    if |files| == 0 {
      return None;
    }
    var built: seq<Tool> := [];
    var reg: seq<FileProto> := [];
    for i := 0 to |files|
      invariant BuiltSoFar(c, files, i, reg, built)
    {
      var f := files[i];
      BuildRefused(c, files, i, reg);
      if !Resolves(reg, f) {
        return None;
      }
      ghost var before := reg;
      if f.path !in Paths(reg) {
        if !Unconflicted(reg, f) {
          return None;
        }
        reg := reg + [f];
      }
      var more := ServiceTools(c, namer, f.services, Registry(files));
      BuildStep(c, files, i, before, built, more);
      built := built + more;
    }
    AllFilesBuild(c, files);
    forall s, m
      ensures HasTool(built, s, m) <==>
              && (exists f | 0 <= f < |files| :: s in files[f].services) && m in s.methods
              && !m.clientStreaming && !m.serverStreaming && c.filter(m)
              && (c.services == {} || Join(s.pkg + [s.name], '.') in c.services)
    {
      ToolsIff(c, files, s, m);
    }
    return Some(built);
  }

  lemma BuildRefused(c: Config, files: seq<FileProto>, i: nat, reg: seq<FileProto>)
    requires i < |files| && reg == Registry(files[..i])
    ensures !Accepted(reg, files[i]) ==> Build(c, files) == None
  {
    assert AcceptedAt(files, i) <==> Accepted(reg, files[i]);
  }

  /** What one file adds to the registry and to the tools. */
  lemma BuildStep(c: Config, files: seq<FileProto>, i: nat, reg: seq<FileProto>, built: seq<Tool>, more: seq<Tool>)
    requires i < |files| && BuiltSoFar(c, files, i, reg, built) && Accepted(reg, files[i])
    requires more == Named(c, Registry(files), Entries(c.services, c.filter, files[i].services))
    ensures BuiltSoFar(c, files, i + 1, Registered(reg, files[i]), built + more)
  {
    RegistryStep(files, i);
    ExposureStep(c, files, i);
    NamedUnion(c, Registry(files), Exposure(c.services, c.filter, files[..i]),
               Entries(c.services, c.filter, files[i].services));
    assert AcceptedAt(files, i);
  }

  lemma ExposureStep(c: Config, files: seq<FileProto>, i: nat)
    requires i < |files|
    ensures Exposure(c.services, c.filter, files[..i + 1]) ==
            Exposure(c.services, c.filter, files[..i]) + Entries(c.services, c.filter, files[i].services)
  {
    assert files[..i + 1][..i] == files[..i];
  }

  lemma AllFilesBuild(c: Config, files: seq<FileProto>)
    requires files != [] && AcceptedBefore(files, |files|)
    ensures files[..|files|] == files
    ensures Build(c, files) == Some(Named(c, Registry(files), Exposure(c.services, c.filter, files)))
  {
  }

  lemma NamedUnion(c: Config, reg: seq<FileProto>, a: seq<Entry>, b: seq<Entry>)
    ensures Named(c, reg, a + b) == Named(c, reg, a) + Named(c, reg, b)
  {
  }

  /** The namer gives the names of the registry. */
  ghost predicate Names(namer: Namer, c: Config, reg: seq<FileProto>) {
    forall s, m :: namer.Name(s, m) == ToolName(c.services, c.filter, reg, s, m)
  }

  predicate HasTool(tools: seq<Tool>, s: Service, m: Method) {
    exists i | 0 <= i < |tools| :: tools[i].entry == Entry(s, m)
  }

  lemma NamedHas(c: Config, reg: seq<FileProto>, es: seq<Entry>, s: Service, m: Method)
    ensures HasTool(Named(c, reg, es), s, m) <==> Entry(s, m) in es
  {
    if Entry(s, m) in es {
      var i :| 0 <= i < |es| && es[i] == Entry(s, m);
      assert Named(c, reg, es)[i].entry == es[i];
    }
  }

  /** A build has a tool for a method if and only if the method is in some file,
      does not stream in either direction, passes the filter, and its service is
      chosen: the selection is empty or has its dotted full name. */
  lemma ToolsIff(c: Config, files: seq<FileProto>, s: Service, m: Method)
    requires Build(c, files).Some?
    ensures HasTool(Build(c, files).value, s, m) <==>
            && (exists f | 0 <= f < |files| :: s in files[f].services) && m in s.methods
            && !m.clientStreaming && !m.serverStreaming && c.filter(m)
            && (c.services == {} || Join(s.pkg + [s.name], '.') in c.services)
  {
    NamedHas(c, Registry(files), Exposure(c.services, c.filter, files), s, m);
    ExposedIff(c.services, c.filter, files, Entry(s, m));
  }

  /** The loop over services, grpcmcp/server.go:196-255. */
  method ServiceTools(c: Config, namer: Namer, ss: seq<Service>, ghost reg: seq<FileProto>)
    returns (tools: seq<Tool>)
    requires Names(namer, c, reg)
    ensures tools == Named(c, reg, Entries(c.services, c.filter, ss))
  {
    tools := [];
    ghost var es: seq<Entry> := [];
    for i := 0 to |ss|
      invariant es == Entries(c.services, c.filter, ss[..i])
      invariant tools == Named(c, reg, es)
    {
      var s := ss[i];
      ServiceStep(c.services, c.filter, ss, i);
      if c.services != {} && FullName(s) !in c.services {
        continue;
      }
      var more := MethodTools(c, namer, s, reg);
      ghost var exposed := MethodEntries(c.filter, s, s.methods);
      NamedUnion(c, reg, es, exposed);
      tools, es := tools + more, es + exposed;
    }
    assert ss[..|ss|] == ss;
  }

  /** The loop over the methods of one service, grpcmcp/server.go:204-254. */
  method MethodTools(c: Config, namer: Namer, s: Service, ghost reg: seq<FileProto>)
    returns (tools: seq<Tool>)
    requires Names(namer, c, reg)
    ensures tools == Named(c, reg, MethodEntries(c.filter, s, s.methods))
    ensures forall m :: HasTool(tools, s, m) <==>
              m in s.methods && !m.clientStreaming && !m.serverStreaming && c.filter(m)
  {
    tools := [];
    ghost var es: seq<Entry> := [];
    for j := 0 to |s.methods|
      invariant es == MethodEntries(c.filter, s, s.methods[..j])
      invariant tools == Named(c, reg, es)
    {
      var m := s.methods[j];
      assert s.methods[..j + 1][..j] == s.methods[..j];
      if m.clientStreaming || m.serverStreaming {
        continue;
      }
      if !c.filter(m) {
        continue;
      }
      NamedUnion(c, reg, es, [Entry(s, m)]);
      tools, es := tools + [Tool(namer.Name(s, m), Entry(s, m))], es + [Entry(s, m)];
    }
    assert s.methods[..|s.methods|] == s.methods;
    forall m
      ensures HasTool(tools, s, m) <==>
              m in s.methods && !m.clientStreaming && !m.serverStreaming && c.filter(m)
    {
      NamedHas(c, reg, es, s, m);
      MethodEntriesIff(c.filter, s, s.methods, Entry(s, m));
    }
  }

  // ----- The live set

  /** Tools keyed by name; a later tool replaces an earlier one of its name. */
  function ByName(tools: seq<Tool>): map<string, Tool> {
    if tools == [] then map[]
    else ByName(tools[..|tools| - 1])[tools[|tools| - 1].name := tools[|tools| - 1]]
  }

  class Server {
    var tools: map<string, Tool>

    constructor ()
      ensures tools == map[]
    {
      tools := map[];
    }

    /** The library replaces the whole set. */
    method SetTools(ts: seq<Tool>)
      modifies this
      ensures tools == ByName(ts)
    {
      var replacement: map<string, Tool> := map[];
      for i := 0 to |ts|
        invariant replacement == ByName(ts[..i])
      {
        assert ts[..i + 1][..i] == ts[..i];
        replacement := replacement[ts[i].name := ts[i]];
      }
      assert ts[..|ts|] == ts;
      tools := replacement;
    }

    /** refresh.go:34-71. `reflected` is what reflection returned, nothing if it
        failed. */
    method RefreshTools(c: Config, reflected: Option<seq<FileProto>>, order: seq<FileProto>, previousToolLen: nat)
      returns (count: Option<nat>)
      requires reflected.Some? ==> multiset(order) == multiset(Registry(reflected.value))
      modifies this
      ensures var next := Step(c, Live(old(tools), previousToolLen), reflected);
              tools == next.tools && count.GetOr(previousToolLen) == next.count
      ensures count == None ==> tools == old(tools)
      ensures var build := if reflected.Some? then Build(c, reflected.value) else None;
              if build.Some? && (build.value != [] || previousToolLen == 0)
              then tools == ByName(build.value) && count == Some(|build.value|)
              else tools == old(tools) && count == None
    {
      if reflected == None {
        return None;
      }
      var built := Tools(c, reflected.value, order);
      if built == None {
        return None;
      }
      if |built.value| == 0 && previousToolLen > 0 {
        return None;
      }
      SetTools(built.value);
      return Some(|built.value|);
    }

    /** The refresh loop of main.go:475-498, over the outcomes of its ticks. */
    method RefreshLoop(c: Config, outcomes: seq<Option<seq<FileProto>>>, orders: seq<seq<FileProto>>)
      returns (toolCount: nat)
      requires |orders| == |outcomes|
      requires forall i | 0 <= i < |outcomes| && outcomes[i].Some? ::
                 multiset(orders[i]) == multiset(Registry(outcomes[i].value))
      modifies this
      ensures Live(tools, toolCount) == Run(c, Live(old(tools), |old(tools)|), outcomes)
    {
      toolCount := |tools|;
      for i := 0 to |outcomes|
        invariant Live(tools, toolCount) == Run(c, Live(old(tools), |old(tools)|), outcomes[..i])
      {
        assert outcomes[..i + 1][..i] == outcomes[..i];
        var count := RefreshTools(c, outcomes[i], orders[i], toolCount);
        if count == None {
          continue;
        }
        toolCount := count.value;
      }
      assert outcomes[..|outcomes|] == outcomes;
    }
  }

  /** grpcmcp/server.go:155-163: the first build, or no server. */
  method NewServer(c: Config, files: seq<FileProto>, order: seq<FileProto>) returns (server: Option<Server>)
    requires multiset(order) == multiset(Registry(files))
    ensures server.Some? <==> Build(c, files).Some?
    ensures server.Some? ==> fresh(server.value) && server.value.tools == ByName(Build(c, files).value)
  {
    var tools := Tools(c, files, order);
    if tools == None {
      return None;
    }
    var s := new Server();
    s.SetTools(tools.value);
    return Some(s);
  }

  datatype Live = Live(tools: map<string, Tool>, count: nat)

  /** What a refresh applies: a build that does not empty a counted set. */
  predicate Applies(c: Config, count: nat, reflected: Option<seq<FileProto>>) {
    reflected.Some? && Build(c, reflected.value).Some? && (Build(c, reflected.value).value != [] || count == 0)
  }

  function Step(c: Config, l: Live, reflected: Option<seq<FileProto>>): Live {
    if Applies(c, l.count, reflected)
    then Live(ByName(Build(c, reflected.value).value), |Build(c, reflected.value).value|)
    else l
  }

  function Run(c: Config, l: Live, outcomes: seq<Option<seq<FileProto>>>): Live {
    if outcomes == [] then l else Step(c, Run(c, l, outcomes[..|outcomes| - 1]), outcomes[|outcomes| - 1])
  }

  /** The server as it starts: the first build and the number of its names. */
  function Start(c: Config, files: seq<FileProto>): Live
    requires Build(c, files).Some?
  {
    Live(ByName(Build(c, files).value), |ByName(Build(c, files).value)|)
  }

  /** The files whose build is live after a run. */
  function LastApplied(c: Config, first: seq<FileProto>, outcomes: seq<Option<seq<FileProto>>>): seq<FileProto>
    requires Build(c, first).Some?
  {
    if outcomes == [] then first
    else
      var init, last := outcomes[..|outcomes| - 1], outcomes[|outcomes| - 1];
      if Applies(c, Run(c, Start(c, first), init).count, last) then last.value else LastApplied(c, first, init)
  }

  lemma KeyCounts(tools: map<string, Tool>, n: string, t: Tool)
    ensures |tools[n := t]| == if n in tools then |tools| else |tools| + 1
  {
    assert tools[n := t].Keys == tools.Keys + {n};
  }

  lemma {:induction false} ByNameNames(tools: seq<Tool>)
    ensures forall n :: n in ByName(tools) <==> exists i | 0 <= i < |tools| :: tools[i].name == n
    ensures forall n | n in ByName(tools) :: ByName(tools)[n] in tools && ByName(tools)[n].name == n
    ensures |ByName(tools)| <= |tools|
    ensures |ByName(tools)| > 0 <==> tools != []
  {
    if tools != [] {
      var init, last := tools[..|tools| - 1], tools[|tools| - 1];
      ByNameNames(init);
      assert tools == init + [last];
      assert last.name in ByName(tools);
      KeyCounts(ByName(init), last.name, last);
    }
  }

  /** Over any run of failed, empty and successful refreshes, the live set is one
      complete build: that of the last files applied. */
  lemma {:induction false} LiveIsOneBuild(c: Config, first: seq<FileProto>, outcomes: seq<Option<seq<FileProto>>>)
    requires Build(c, first).Some?
    ensures Build(c, LastApplied(c, first, outcomes)).Some?
    ensures Run(c, Start(c, first), outcomes).tools == ByName(Build(c, LastApplied(c, first, outcomes)).value)
    ensures LastApplied(c, first, outcomes) == first ||
            exists i | 0 <= i < |outcomes| :: outcomes[i] == Some(LastApplied(c, first, outcomes))
  {
    if outcomes != [] {
      var init, last := outcomes[..|outcomes| - 1], outcomes[|outcomes| - 1];
      LiveIsOneBuild(c, first, init);
      if !Applies(c, Run(c, Start(c, first), init).count, last) && LastApplied(c, first, init) != first {
        var i :| 0 <= i < |init| && init[i] == Some(LastApplied(c, first, init));
        assert outcomes[i] == Some(LastApplied(c, first, outcomes));
      }
    }
  }

  predicate CountsLive(l: Live) {
    l.count > 0 <==> l.tools != map[]
  }

  lemma StepNeverEmpties(c: Config, l: Live, reflected: Option<seq<FileProto>>)
    requires CountsLive(l)
    ensures CountsLive(Step(c, l, reflected))
    ensures l.tools != map[] ==> Step(c, l, reflected).tools != map[]
  {
    if Applies(c, l.count, reflected) {
      ByNameNames(Build(c, reflected.value).value);
    }
  }

  /** The refresh as a whole: after a run that ends in an attempt, the live set is the
      new build and the count its length if reflection and the build succeeded and
      the build is not both empty and in place of a set that is not; in every other
      case set and count are what they were before the attempt. */
  lemma RefreshTakesEffect(
      c: Config, first: seq<FileProto>, outcomes: seq<Option<seq<FileProto>>>, last: Option<seq<FileProto>>)
    requires Build(c, first).Some?
    ensures var before, after := Run(c, Start(c, first), outcomes), Run(c, Start(c, first), outcomes + [last]);
            if last.Some? && Build(c, last.value).Some? && (Build(c, last.value).value != [] || before.tools == map[])
            then after == Live(ByName(Build(c, last.value).value), |Build(c, last.value).value|)
            else after == before
  {
    CountZeroWhenEmpty(c, first, outcomes);
    assert (outcomes + [last])[..|outcomes|] == outcomes;
  }

  /** A tool is found under its name unless a later one has the same name. */
  lemma {:induction false} LastOfNameWins(tools: seq<Tool>, i: nat)
    requires i < |tools| && forall k | i < k < |tools| :: tools[k].name != tools[i].name
    ensures tools[i].name in ByName(tools) && ByName(tools)[tools[i].name] == tools[i]
  {
    var n := |tools| - 1;
    if i < n {
      assert tools[n].name != tools[i].name;
      assert forall k | i < k < n :: tools[..n][k] == tools[k];
      LastOfNameWins(tools[..n], i);
    }
  }

  /** The count is zero exactly when the live set is empty. */
  lemma {:induction false} CountZeroWhenEmpty(c: Config, first: seq<FileProto>, outcomes: seq<Option<seq<FileProto>>>)
    requires Build(c, first).Some?
    ensures CountsLive(Run(c, Start(c, first), outcomes))
  {
    if outcomes != [] {
      var init, last := outcomes[..|outcomes| - 1], outcomes[|outcomes| - 1];
      CountZeroWhenEmpty(c, first, init);
      StepNeverEmpties(c, Run(c, Start(c, first), init), last);
    }
  }

  /** A live set that is not empty at some point of a run is never empty after. */
  lemma {:induction false} NeverEmptied(c: Config, first: seq<FileProto>, outcomes: seq<Option<seq<FileProto>>>, i: nat)
    requires Build(c, first).Some? && i <= |outcomes|
    requires Run(c, Start(c, first), outcomes[..i]).tools != map[]
    ensures Run(c, Start(c, first), outcomes).tools != map[]
    decreases |outcomes|
  {
    if i < |outcomes| {
      var init, last := outcomes[..|outcomes| - 1], outcomes[|outcomes| - 1];
      assert init[..i] == outcomes[..i];
      NeverEmptied(c, first, init, i);
      CountZeroWhenEmpty(c, first, init);
      StepNeverEmpties(c, Run(c, Start(c, first), init), last);
    } else {
      assert outcomes[..i] == outcomes;
    }
  }

  // ----- One entry per exposed method

  /** What the theorems ask of descriptors: distinct paths, and method names without
      dots, as identifiers are. */
  ghost predicate Declared(c: Config, files: seq<FileProto>) {
    var es := Exposure(c.services, c.filter, files);
    && Distinct(Paths(files))
    && (forall i | 0 <= i < |es| :: Without(es[i].rpc.name, '.'))
  }

  predicate NoneClash(c: Config, files: seq<FileProto>) {
    var es := Exposure(c.services, c.filter, files);
    forall i, j | 0 <= i < j < |es| :: !Clash(c.services, c.filter, files, es[i], es[j])
  }

  predicate DistinctNames(tools: seq<Tool>) {
    forall i, j | 0 <= i < j < |tools| :: tools[i].name != tools[j].name
  }

  lemma DistinctSnoc(tools: seq<Tool>, last: Tool)
    ensures DistinctNames(tools + [last]) <==>
            DistinctNames(tools) && forall i | 0 <= i < |tools| :: tools[i].name != last.name
  {
    var more := tools + [last];
    assert forall i | 0 <= i < |tools| :: more[i] == tools[i];
    if DistinctNames(more) {
      assert forall i | 0 <= i < |tools| :: more[i].name != more[|tools|].name;
    }
  }

  lemma NameLost(tools: seq<Tool>, last: Tool)
    ensures last.name in ByName(tools) <==> !(forall i | 0 <= i < |tools| :: tools[i].name != last.name)
    ensures |ByName(tools)| <= |tools|
  {
    ByNameNames(tools);
  }

  /** No name is lost exactly when the names are distinct. */
  lemma {:induction false} SizeIffDistinct(tools: seq<Tool>)
    ensures |ByName(tools)| == |tools| <==> DistinctNames(tools)
  {
    if tools != [] {
      var init, last := tools[..|tools| - 1], tools[|tools| - 1];
      SizeIffDistinct(init);
      NameLost(init, last);
      DistinctSnoc(init, last);
      KeyCounts(ByName(init), last.name, last);
      assert tools == init + [last];
    }
  }

  lemma {:induction false} DistinctNamesKept(tools: seq<Tool>)
    requires DistinctNames(tools)
    ensures forall i | 0 <= i < |tools| :: tools[i].name in ByName(tools) && ByName(tools)[tools[i].name] == tools[i]
  {
    if tools != [] {
      var init := tools[..|tools| - 1];
      assert forall i | 0 <= i < |init| :: init[i] == tools[i];
      DistinctNamesKept(init);
    }
  }

  lemma DistinctIffNoneClash(c: Config, files: seq<FileProto>)
    requires Build(c, files).Some? && Declared(c, files)
    ensures var tools, es := Build(c, files).value, Exposure(c.services, c.filter, files);
            && |tools| == |es|
            && (forall i | 0 <= i < |es| :: tools[i] ==
                  Tool(ToolName(c.services, c.filter, files, es[i].service, es[i].rpc), es[i]))
            && (DistinctNames(tools) <==> NoneClash(c, files))
  {
    var tools, es := Build(c, files).value, Exposure(c.services, c.filter, files);
    NeverRefusedFolds(files, |files|);
    PrefixFolds(files, |files|);
    assert files[..|files|] == files;
    forall i, j | 0 <= i < j < |es|
      ensures tools[i].name == tools[j].name <==> Clash(c.services, c.filter, files, es[i], es[j])
    {
      NamesClashIff(c.services, c.filter, files, i, j);
    }
  }

  /** A build has as many names as exposed methods if and only if no two of those
      clash, and then every exposed method is found under its name. */
  lemma BuildHasAllMethods(c: Config, files: seq<FileProto>)
    requires Build(c, files).Some? && Declared(c, files)
    ensures var tools, es := Build(c, files).value, Exposure(c.services, c.filter, files);
            && |tools| == |es|
            && (|ByName(tools)| == |es| <==> NoneClash(c, files))
            && (NoneClash(c, files) ==> forall i | 0 <= i < |es| ::
                  var n := ToolName(c.services, c.filter, files, es[i].service, es[i].rpc);
                  n in ByName(tools) && ByName(tools)[n] == Tool(n, es[i]))
  {
    var tools := Build(c, files).value;
    DistinctIffNoneClash(c, files);
    SizeIffDistinct(tools);
    if DistinctNames(tools) {
      DistinctNamesKept(tools);
    }
  }

  ghost predicate PlainDescriptors(c: Config, files: seq<FileProto>) {
    Declared(c, files) && NoneClash(c, files)
  }

  /** Over any run in which the descriptors are plain, the count is the size of the
      live set, and the live set holds each exposed method of the last files
      applied under its name, and nothing else. */
  lemma CountIsSize(c: Config, first: seq<FileProto>, outcomes: seq<Option<seq<FileProto>>>)
    requires Build(c, first).Some? && PlainDescriptors(c, first)
    requires forall i | 0 <= i < |outcomes| && outcomes[i].Some? :: PlainDescriptors(c, outcomes[i].value)
    ensures var live, files := Run(c, Start(c, first), outcomes), LastApplied(c, first, outcomes);
            var es := Exposure(c.services, c.filter, files);
            && live.count == |live.tools| == |es|
            && forall i | 0 <= i < |es| ::
                 var n := ToolName(c.services, c.filter, files, es[i].service, es[i].rpc);
                 n in live.tools && live.tools[n] == Tool(n, es[i])
  {
    LiveIsOneBuild(c, first, outcomes);
    BuildHasAllMethods(c, LastApplied(c, first, outcomes));
    CountIsBuildSize(c, first, outcomes);
  }

  lemma {:induction false} CountIsBuildSize(c: Config, first: seq<FileProto>, outcomes: seq<Option<seq<FileProto>>>)
    requires Build(c, first).Some? && PlainDescriptors(c, first)
    requires forall i | 0 <= i < |outcomes| && outcomes[i].Some? :: PlainDescriptors(c, outcomes[i].value)
    ensures Build(c, LastApplied(c, first, outcomes)).Some?
    ensures Run(c, Start(c, first), outcomes).count == |Build(c, LastApplied(c, first, outcomes)).value|
  {
    if outcomes == [] {
      BuildHasAllMethods(c, first);
    } else {
      CountIsBuildSize(c, first, outcomes[..|outcomes| - 1]);
    }
  }

  /** From reflection to tools: whatever the map order, sorted files build exactly
      when there are files, their imports are acyclic and no two share a name. */
  lemma SortedFilesBuild(c: Config, all: Files, ds: seq<FileProto>)
    requires Sorted(all, ds)
    ensures Build(c, ds).Some? <==> all != map[] && Acyclic(all) && Compatible(all)
  {
    NeverRefusedIffAcyclic(all, ds);
    if ds == [] {
      assert forall n :: n !in all;
    } else {
      assert ds[0].path in all;
    }
  }
}
