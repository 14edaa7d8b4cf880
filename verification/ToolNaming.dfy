/** Tool names (main.go:93-144): the shortest of three forms that stays unique. */
module ToolNaming {
  import opened ProtoFiles

  // ----- Names as joined parts

  function Join(parts: seq<string>, sep: char): string {
    if parts == [] then ""
    else if |parts| == 1 then parts[0]
    else parts[0] + [sep] + Join(parts[1..], sep)
  }

  predicate Without(s: string, c: char) {
    forall i | 0 <= i < |s| :: s[i] != c
  }

  predicate AllWithout(parts: seq<string>, c: char) {
    forall i | 0 <= i < |parts| :: Without(parts[i], c)
  }

  function ReplaceAll(s: string, from: char, to: char): string {
    seq(|s|, i requires 0 <= i < |s| => if s[i] == from then to else s[i])
  }

  function FullName(s: Service): string {
    Join(s.pkg + [s.name], '.')
  }

  /** main.go:93-101 */
  function GenerateToolName(hasShortCollision: bool, hasVeryShortCollision: bool,
                            fullServiceName: string, simpleServiceName: string, methodName: string): string {
    if !hasVeryShortCollision then methodName
    else if !hasShortCollision then simpleServiceName + "__" + methodName
    else ReplaceAll(fullServiceName + "__" + methodName, '.', '_')
  }

  /** Joining loses nothing when the separator occurs in no part. */
  lemma {:induction false} JoinInjective(a: seq<string>, b: seq<string>, sep: char)
    requires a != [] && b != [] && AllWithout(a, sep) && AllWithout(b, sep)
    requires Join(a, sep) == Join(b, sep)
    ensures a == b
  {
    var s := Join(a, sep);
    FirstPart(a, sep);
    FirstPart(b, sep);
    assert |a[0]| == |b[0]|;
    assert a[0] == s[..|a[0]|] && b[0] == s[..|b[0]|];
    if |a| > 1 {
      assert Join(a[1..], sep) == s[|a[0]| + 1..] == Join(b[1..], sep);
      JoinInjective(a[1..], b[1..], sep);
      assert a == [a[0]] + a[1..] && b == [b[0]] + b[1..];
    }
  }

  /** The first part ends at the first separator. */
  lemma FirstPart(a: seq<string>, sep: char)
    requires a != [] && AllWithout(a, sep)
    ensures var s := Join(a, sep);
            && |a[0]| <= |s| && s[..|a[0]|] == a[0]
            && (forall k | 0 <= k < |a[0]| :: s[k] != sep)
            && (|a| == 1 <==> |s| == |a[0]|)
            && (|s| > |a[0]| ==> s[|a[0]|] == sep && s[|a[0]| + 1..] == Join(a[1..], sep))
  {
    if |a| > 1 {
      assert Join(a, sep) == a[0] + [sep] + Join(a[1..], sep);
    }
  }

  lemma {:induction false} ReplaceJoin(parts: seq<string>, from: char, to: char)
    requires AllWithout(parts, from)
    ensures ReplaceAll(Join(parts, from), from, to) == Join(parts, to)
  {
    if |parts| > 1 {
      ReplaceJoin(parts[1..], from, to);
      assert ReplaceAll(parts[0] + [from] + Join(parts[1..], from), from, to) ==
             parts[0] + [to] + ReplaceAll(Join(parts[1..], from), from, to);
    }
  }

  // ----- What is exposed

  type Filter = Method -> bool

  datatype Entry = Entry(service: Service, rpc: Method)

  predicate Exposes(filter: Filter, m: Method) {
    !m.clientStreaming && !m.serverStreaming && filter(m)
  }

  /** An empty selection selects every service. */
  predicate Selected(services: set<string>, s: Service) {
    services == {} || FullName(s) in services
  }

  function MethodEntries(filter: Filter, s: Service, ms: seq<Method>): seq<Entry> {
    if ms == [] then []
    else
      var m := ms[|ms| - 1];
      MethodEntries(filter, s, ms[..|ms| - 1]) + if Exposes(filter, m) then [Entry(s, m)] else []
  }

  function ServiceEntries(services: set<string>, filter: Filter, s: Service): seq<Entry> {
    if Selected(services, s) then MethodEntries(filter, s, s.methods) else []
  }

  function Entries(services: set<string>, filter: Filter, ss: seq<Service>): seq<Entry> {
    if ss == [] then []
    else Entries(services, filter, ss[..|ss| - 1]) + ServiceEntries(services, filter, ss[|ss| - 1])
  }

  /** The exposed methods of a list of files, in order. */
  function Exposure(services: set<string>, filter: Filter, files: seq<FileProto>): seq<Entry> {
    if files == [] then []
    else Exposure(services, filter, files[..|files| - 1]) + Entries(services, filter, files[|files| - 1].services)
  }

  // ----- Which methods are exposed, and how often

  /** The selection is empty, or names the service by its dotted full name. */
  predicate Chosen(services: set<string>, s: Service) {
    services == {} || Join(s.pkg + [s.name], '.') in services
  }

  lemma {:induction false} MethodEntriesIff(filter: Filter, s: Service, ms: seq<Method>, e: Entry)
    ensures e in MethodEntries(filter, s, ms) <==>
            e.service == s && e.rpc in ms && !e.rpc.clientStreaming && !e.rpc.serverStreaming && filter(e.rpc)
  {
    if ms != [] {
      MethodEntriesIff(filter, s, ms[..|ms| - 1], e);
      assert ms == ms[..|ms| - 1] + [ms[|ms| - 1]];
    }
  }

  lemma {:induction false} EntriesIff(services: set<string>, filter: Filter, ss: seq<Service>, e: Entry)
    ensures e in Entries(services, filter, ss) <==>
            && e.service in ss && e.rpc in e.service.methods
            && !e.rpc.clientStreaming && !e.rpc.serverStreaming && filter(e.rpc) && Chosen(services, e.service)
  {
    if ss != [] {
      var init, last := ss[..|ss| - 1], ss[|ss| - 1];
      EntriesIff(services, filter, init, e);
      MethodEntriesIff(filter, last, last.methods, e);
      assert ss == init + [last];
    }
  }

  /** A method is exposed if and only if it is in some file, does not stream in
      either direction, passes the filter, and its service is chosen. */
  lemma {:induction false} ExposedIff(services: set<string>, filter: Filter, files: seq<FileProto>, e: Entry)
    ensures e in Exposure(services, filter, files) <==>
            && (exists f | 0 <= f < |files| :: e.service in files[f].services) && e.rpc in e.service.methods
            && !e.rpc.clientStreaming && !e.rpc.serverStreaming && filter(e.rpc) && Chosen(services, e.service)
  {
    if files != [] {
      var init, last := files[..|files| - 1], files[|files| - 1];
      ExposedIff(services, filter, init, e);
      EntriesIff(services, filter, last.services, e);
      InFilesSnoc(files, e.service);
    }
  }

  lemma InFilesSnoc(files: seq<FileProto>, s: Service)
    requires files != []
    ensures var init := files[..|files| - 1];
            (exists f | 0 <= f < |files| :: s in files[f].services) <==>
            (exists f | 0 <= f < |init| :: s in init[f].services) || s in files[|files| - 1].services
  {
    var init := files[..|files| - 1];
    if f :| 0 <= f < |init| && s in init[f].services {
      assert s in files[f].services;
    }
    if f :| 0 <= f < |files| && s in files[f].services {
      assert f < |init| ==> s in init[f].services;
    }
  }

  predicate NoRepeat<T(==)>(s: seq<T>) {
    forall i, j | 0 <= i < j < |s| :: s[i] != s[j]
  }

  lemma NoRepeatSplit<T>(s: seq<T>)
    requires s != [] && NoRepeat(s)
    ensures NoRepeat(s[..|s| - 1]) && s[|s| - 1] !in s[..|s| - 1]
  {
  }

  lemma NoRepeatUnion<T>(a: seq<T>, b: seq<T>)
    requires NoRepeat(a) && NoRepeat(b) && forall x | x in a :: x !in b
    ensures NoRepeat(a + b)
  {
    forall i, j | 0 <= i < |a| && 0 <= j < |b|
      ensures a[i] != b[j]
    {
      assert a[i] in a;
    }
  }

  lemma {:induction false} MethodEntriesOnce(filter: Filter, s: Service, ms: seq<Method>)
    requires NoRepeat(ms)
    ensures NoRepeat(MethodEntries(filter, s, ms))
  {
    if ms != [] {
      var init, last := ms[..|ms| - 1], ms[|ms| - 1];
      NoRepeatSplit(ms);
      MethodEntriesOnce(filter, s, init);
      MethodEntriesIff(filter, s, init, Entry(s, last));
      NoRepeatUnion(MethodEntries(filter, s, init), if Exposes(filter, last) then [Entry(s, last)] else []);
    }
  }

  lemma {:induction false} EntriesOnce(services: set<string>, filter: Filter, ss: seq<Service>)
    requires NoRepeat(ss) && forall s | s in ss :: NoRepeat(s.methods)
    ensures NoRepeat(Entries(services, filter, ss))
  {
    if ss != [] {
      var init, last := ss[..|ss| - 1], ss[|ss| - 1];
      NoRepeatSplit(ss);
      assert last in ss;
      EntriesOnce(services, filter, init);
      MethodEntriesOnce(filter, last, last.methods);
      var a, b := Entries(services, filter, init), ServiceEntries(services, filter, last);
      forall e | e in a
        ensures e !in b
      {
        EntriesIff(services, filter, init, e);
        MethodEntriesIff(filter, last, last.methods, e);
      }
      NoRepeatUnion(a, b);
    }
  }

  function AllServices(files: seq<FileProto>): seq<Service> {
    if files == [] then [] else AllServices(files[..|files| - 1]) + files[|files| - 1].services
  }

  /** Every service is declared once, and every method once in its service. */
  predicate DeclaredOnce(files: seq<FileProto>) {
    NoRepeat(AllServices(files)) && forall s | s in AllServices(files) :: NoRepeat(s.methods)
  }

  lemma DeclaredOnceSplit(files: seq<FileProto>)
    requires files != [] && DeclaredOnce(files)
    ensures var init, last := files[..|files| - 1], files[|files| - 1].services;
            && DeclaredOnce(init) && NoRepeat(last) && (forall s | s in last :: NoRepeat(s.methods))
            && forall s | s in AllServices(init) :: s !in last
  {
    var a, b := AllServices(files[..|files| - 1]), files[|files| - 1].services;
    assert AllServices(files) == a + b;
    assert forall i | 0 <= i < |a| :: (a + b)[i] == a[i];
    assert forall i | 0 <= i < |b| :: (a + b)[|a| + i] == b[i];
  }

  lemma {:induction false} InAllServices(files: seq<FileProto>, s: Service)
    ensures s in AllServices(files) <==> exists f | 0 <= f < |files| :: s in files[f].services
  {
    if files != [] {
      InAllServices(files[..|files| - 1], s);
      InFilesSnoc(files, s);
    }
  }

  /** No method is exposed twice. */
  lemma {:induction false} ExposedOnce(services: set<string>, filter: Filter, files: seq<FileProto>)
    requires DeclaredOnce(files)
    ensures NoRepeat(Exposure(services, filter, files))
  {
    if files != [] {
      var init, last := files[..|files| - 1], files[|files| - 1].services;
      DeclaredOnceSplit(files);
      ExposedOnce(services, filter, init);
      EntriesOnce(services, filter, last);
      var a, b := Exposure(services, filter, init), Entries(services, filter, last);
      forall e | e in a
        ensures e !in b
      {
        ExposedIff(services, filter, init, e);
        InAllServices(init, e.service);
        EntriesIff(services, filter, last, e);
      }
      NoRepeatUnion(a, b);
    }
  }

  // ----- Counting names

  function NameCount(es: seq<Entry>, n: string): nat {
    if es == [] then 0
    else NameCount(es[..|es| - 1], n) + if es[|es| - 1].rpc.name == n then 1 else 0
  }

  /** Services of simple name `n` that contribute at least one tool. */
  function ContributorCount(services: set<string>, filter: Filter, ss: seq<Service>, n: string): nat {
    if ss == [] then 0
    else
      var s := ss[|ss| - 1];
      ContributorCount(services, filter, ss[..|ss| - 1], n) +
      if s.name == n && ServiceEntries(services, filter, s) != [] then 1 else 0
  }

  function MethodTotal(services: set<string>, filter: Filter, files: seq<FileProto>, n: string): nat {
    if files == [] then 0
    else
      MethodTotal(services, filter, files[..|files| - 1], n) +
      NameCount(Entries(services, filter, files[|files| - 1].services), n)
  }

  function SimpleTotal(services: set<string>, filter: Filter, files: seq<FileProto>, n: string): nat {
    if files == [] then 0
    else
      SimpleTotal(services, filter, files[..|files| - 1], n) +
      ContributorCount(services, filter, files[|files| - 1].services, n)
  }

  /** The name that the namer built from `files` gives to a method. */
  function ToolName(services: set<string>, filter: Filter, files: seq<FileProto>, s: Service, m: Method): string {
    GenerateToolName(SimpleTotal(services, filter, files, s.name) > 1, MethodTotal(services, filter, files, m.name) > 1,
                     FullName(s), s.name, m.name)
  }

  // ----- The namer

  function Lookup(counts: map<string, nat>, n: string): nat {
    if n in counts then counts[n] else 0
  }

  /** The namer: both count maps, and the function that main.go:139-143 returns. */
  datatype Namer = Namer(simpleNameCount: map<string, nat>, methodNameCount: map<string, nat>) {
    function Name(s: Service, m: Method): string {
      GenerateToolName(Lookup(simpleNameCount, s.name) > 1, Lookup(methodNameCount, m.name) > 1,
                       FullName(s), s.name, m.name)
    }
  }

  /** The pre-scan of main.go:106-138, over the registered files in any order; the
      names are those of the registry whatever the order. */
  method BuildToolNamer(services: set<string>, filter: Filter, order: seq<FileProto>, ghost reg: seq<FileProto>)
    returns (namer: Namer)
    requires multiset(order) == multiset(reg)
    ensures forall s, m :: namer.Name(s, m) == ToolName(services, filter, reg, s, m)
  {
    var simpleNameCount: map<string, nat>, methodNameCount: map<string, nat> := map[], map[];
    for f := 0 to |order|
      invariant forall n :: Lookup(simpleNameCount, n) == SimpleTotal(services, filter, order[..f], n)
      invariant forall n :: Lookup(methodNameCount, n) == MethodTotal(services, filter, order[..f], n)
    {
      assert order[..f + 1][..f] == order[..f];
      simpleNameCount, methodNameCount :=
        CountServices(services, filter, order[f].services, simpleNameCount, methodNameCount);
    }
    assert order[..|order|] == order;
    forall n
      ensures SimpleTotal(services, filter, order, n) == SimpleTotal(services, filter, reg, n)
      ensures MethodTotal(services, filter, order, n) == MethodTotal(services, filter, reg, n)
    {
      OrderIrrelevant(services, filter, order, reg, n);
    }
    namer := Namer(simpleNameCount, methodNameCount);
  }

  /** `counts` is `before` with the method names of `es` counted on top. */
  ghost predicate Tallies(counts: map<string, nat>, before: map<string, nat>, es: seq<Entry>) {
    forall n :: Lookup(counts, n) == Lookup(before, n) + NameCount(es, n)
  }

  /** The service loop of one file, main.go:111-136. */
  method CountServices(services: set<string>, filter: Filter, ss: seq<Service>,
                       simpleBefore: map<string, nat>, methodsBefore: map<string, nat>)
    returns (simpleNameCount: map<string, nat>, methodNameCount: map<string, nat>)
    ensures SimpleTallies(simpleNameCount, simpleBefore, services, filter, ss)
    ensures Tallies(methodNameCount, methodsBefore, Entries(services, filter, ss))
  {
    simpleNameCount, methodNameCount := simpleBefore, methodsBefore;
    for i := 0 to |ss|
      invariant SimpleTallies(simpleNameCount, simpleBefore, services, filter, ss[..i])
      invariant Tallies(methodNameCount, methodsBefore, Entries(services, filter, ss[..i]))
    {
      var s := ss[i];
      ServiceStep(services, filter, ss, i);
      SimpleStep(simpleNameCount, simpleBefore, services, filter, ss, i);
      if services != {} && FullName(s) !in services {
        continue;
      }
      var exposed, counted := CountMethods(filter, s, methodNameCount);
      TallyMore(counted, methodNameCount, methodsBefore,
                Entries(services, filter, ss[..i]), ServiceEntries(services, filter, s));
      methodNameCount := counted;
      if exposed {
        simpleNameCount := simpleNameCount[s.name := Lookup(simpleNameCount, s.name) + 1];
      }
    }
    assert ss[..|ss|] == ss;
  }

  /** `counts` is `before` with the contributing services of `ss` counted on top. */
  ghost predicate SimpleTallies(counts: map<string, nat>, before: map<string, nat>,
                                services: set<string>, filter: Filter, ss: seq<Service>) {
    forall n :: Lookup(counts, n) == Lookup(before, n) + ContributorCount(services, filter, ss, n)
  }

  /** One service: its simple name is counted if it contributes. */
  lemma SimpleStep(counts: map<string, nat>, before: map<string, nat>,
                   services: set<string>, filter: Filter, ss: seq<Service>, i: nat)
    requires i < |ss| && SimpleTallies(counts, before, services, filter, ss[..i])
    ensures var n := ss[i].name;
            var more := counts[n := Lookup(counts, n) + 1];
            SimpleTallies(if ServiceEntries(services, filter, ss[i]) != [] then more else counts,
                          before, services, filter, ss[..i + 1])
  {
    assert ss[..i + 1][..i] == ss[..i];
  }

  predicate AnyExposed(filter: Filter, s: Service) {
    exists j | 0 <= j < |s.methods| ::
      !s.methods[j].clientStreaming && !s.methods[j].serverStreaming && filter(s.methods[j])
  }

  /** The method loop of one service, main.go:118-129. */
  method CountMethods(filter: Filter, s: Service, before: map<string, nat>)
    returns (exposed: bool, methodNameCount: map<string, nat>)
    ensures exposed <==> MethodEntries(filter, s, s.methods) != []
    ensures exposed <==> AnyExposed(filter, s)
    ensures Tallies(methodNameCount, before, MethodEntries(filter, s, s.methods))
  {
    exposed, methodNameCount := false, before;
    for j := 0 to |s.methods|
      invariant exposed <==> MethodEntries(filter, s, s.methods[..j]) != []
      invariant Tallies(methodNameCount, before, MethodEntries(filter, s, s.methods[..j]))
    {
      var m := s.methods[j];
      CountStep(filter, s, j, methodNameCount, before);
      if m.clientStreaming || m.serverStreaming {
        continue;
      }
      if !filter(m) {
        continue;
      }
      exposed := true;
      methodNameCount := methodNameCount[m.name := Lookup(methodNameCount, m.name) + 1];
    }
    assert s.methods[..|s.methods|] == s.methods;
    SomeMethodExposed(filter, s);
  }

  lemma SomeMethodExposed(filter: Filter, s: Service)
    ensures MethodEntries(filter, s, s.methods) != [] <==> AnyExposed(filter, s)
  {
    var es := MethodEntries(filter, s, s.methods);
    if es != [] {
      assert es[0] in es;
      MethodEntriesIff(filter, s, s.methods, es[0]);
    }
    if AnyExposed(filter, s) {
      var j :| 0 <= j < |s.methods| &&
               !s.methods[j].clientStreaming && !s.methods[j].serverStreaming && filter(s.methods[j]);
      MethodEntriesIff(filter, s, s.methods, Entry(s, s.methods[j]));
    }
  }

  lemma MethodStep(filter: Filter, s: Service, j: nat)
    requires j < |s.methods|
    ensures MethodEntries(filter, s, s.methods[..j + 1]) ==
            var es := MethodEntries(filter, s, s.methods[..j]);
            if Exposes(filter, s.methods[j]) then es + [Entry(s, s.methods[j])] else es
  {
    assert s.methods[..j + 1][..j] == s.methods[..j];
  }

  /** One method: its name is counted if it is exposed. */
  lemma CountStep(filter: Filter, s: Service, j: nat, counts: map<string, nat>, before: map<string, nat>)
    requires j < |s.methods| && Tallies(counts, before, MethodEntries(filter, s, s.methods[..j]))
    ensures MethodEntries(filter, s, s.methods[..j + 1]) != [] <==>
            Exposes(filter, s.methods[j]) || MethodEntries(filter, s, s.methods[..j]) != []
    ensures var n := s.methods[j].name;
            Tallies(if Exposes(filter, s.methods[j]) then counts[n := Lookup(counts, n) + 1] else counts,
                    before, MethodEntries(filter, s, s.methods[..j + 1]))
  {
    MethodStep(filter, s, j);
    if Exposes(filter, s.methods[j]) {
      TallyStep(counts, before, MethodEntries(filter, s, s.methods[..j]), Entry(s, s.methods[j]));
    }
  }

  lemma TallyStep(counts: map<string, nat>, before: map<string, nat>, es: seq<Entry>, e: Entry)
    requires Tallies(counts, before, es)
    ensures Tallies(counts[e.rpc.name := Lookup(counts, e.rpc.name) + 1], before, es + [e])
  {
    assert (es + [e])[..|es|] == es;
  }

  lemma TallyMore(more: map<string, nat>, counts: map<string, nat>, before: map<string, nat>,
                  a: seq<Entry>, b: seq<Entry>)
    requires Tallies(counts, before, a) && Tallies(more, counts, b)
    ensures Tallies(more, before, a + b)
  {
    NameCountUnion(a, b);
  }

  lemma ServiceStep(services: set<string>, filter: Filter, ss: seq<Service>, i: nat)
    requires i < |ss|
    ensures Entries(services, filter, ss[..i + 1]) ==
            Entries(services, filter, ss[..i]) + ServiceEntries(services, filter, ss[i])
    ensures !Selected(services, ss[i]) ==> Entries(services, filter, ss[..i + 1]) == Entries(services, filter, ss[..i])
  {
    assert ss[..i + 1][..i] == ss[..i];
  }

  lemma {:induction false} NameCountUnion(a: seq<Entry>, b: seq<Entry>)
    ensures forall n :: NameCount(a + b, n) == NameCount(a, n) + NameCount(b, n)
  {
    if b == [] {
      assert a + b == a;
    } else {
      assert (a + b)[..|a + b| - 1] == a + b[..|b| - 1];
      NameCountUnion(a, b[..|b| - 1]);
    }
  }

  // ----- Counting does not depend on the order

  lemma TotalSnoc(services: set<string>, filter: Filter, files: seq<FileProto>, f: FileProto, n: string)
    ensures SimpleTotal(services, filter, files + [f], n) ==
            SimpleTotal(services, filter, files, n) + ContributorCount(services, filter, f.services, n)
    ensures MethodTotal(services, filter, files + [f], n) ==
            MethodTotal(services, filter, files, n) + NameCount(Entries(services, filter, f.services), n)
  {
    assert (files + [f])[..|files|] == files;
  }

  lemma Regroup<T>(a: seq<T>, b: seq<T>, c: seq<T>)
    ensures a + b + c == a + (b + c)
  {
  }

  /** One list counts as the other with `f` on top. */
  predicate CountsMore(services: set<string>, filter: Filter, more: seq<FileProto>, files: seq<FileProto>,
                       f: FileProto, n: string) {
    && SimpleTotal(services, filter, more, n) ==
       SimpleTotal(services, filter, files, n) + ContributorCount(services, filter, f.services, n)
    && MethodTotal(services, filter, more, n) ==
       MethodTotal(services, filter, files, n) + NameCount(Entries(services, filter, f.services), n)
  }

  lemma CountsMoreSnoc(services: set<string>, filter: Filter, more: seq<FileProto>, files: seq<FileProto>,
                       f: FileProto, last: FileProto, n: string)
    requires CountsMore(services, filter, more, files, f, n)
    ensures CountsMore(services, filter, more + [last], files + [last], f, n)
  {
    TotalSnoc(services, filter, more, last, n);
    TotalSnoc(services, filter, files, last, n);
  }

  /** A file counts the same wherever it stands. */
  lemma {:induction false} TotalMiddle(
      services: set<string>, filter: Filter, before: seq<FileProto>, f: FileProto, after: seq<FileProto>, n: string)
    ensures CountsMore(services, filter, before + [f] + after, before + after, f, n)
    decreases |after|
  {
    if after == [] {
      TotalSnoc(services, filter, before, f, n);
      assert before + [f] + after == before + [f] && before + after == before;
    } else {
      var init, last := after[..|after| - 1], after[|after| - 1];
      TotalMiddle(services, filter, before, f, init, n);
      CountsMoreSnoc(services, filter, before + [f] + init, before + init, f, last, n);
      Regroup(before + [f], init, [last]);
      Regroup(before, init, [last]);
      assert after == init + [last];
    }
  }

  lemma WithoutElement<T>(b: seq<T>, i: nat)
    requires i < |b|
    ensures b == b[..i] + [b[i]] + b[i + 1..]
    ensures multiset(b) == multiset(b[..i] + b[i + 1..]) + multiset{b[i]}
  {
    assert b == b[..i] + [b[i]] + b[i + 1..];
  }

  lemma RemoveElement<T>(a: seq<T>, b: seq<T>) returns (i: nat)
    requires a != [] && multiset(a) == multiset(b)
    ensures i < |b| && b == b[..i] + [a[|a| - 1]] + b[i + 1..]
    ensures multiset(a[..|a| - 1]) == multiset(b[..i] + b[i + 1..])
  {
    var n := |a| - 1;
    WithoutElement(a, n);
    assert a[..n] + a[n + 1..] == a[..n];
    assert a[n] in multiset(a);
    i :| 0 <= i < |b| && b[i] == a[n];
    WithoutElement(b, i);
    SameRest(multiset(a[..n]), multiset(b[..i] + b[i + 1..]), a[n]);
  }

  lemma SameRest<T>(a: multiset<T>, b: multiset<T>, x: T)
    requires a + multiset{x} == b + multiset{x}
    ensures a == b
  {
    assert a == a + multiset{x} - multiset{x} && b == b + multiset{x} - multiset{x};
  }

  predicate SameTotals(services: set<string>, filter: Filter, a: seq<FileProto>, b: seq<FileProto>, n: string) {
    && SimpleTotal(services, filter, a, n) == SimpleTotal(services, filter, b, n)
    && MethodTotal(services, filter, a, n) == MethodTotal(services, filter, b, n)
  }

  lemma SameTotalsStep(services: set<string>, filter: Filter, init: seq<FileProto>, f: FileProto,
                       before: seq<FileProto>, after: seq<FileProto>, n: string)
    requires SameTotals(services, filter, init, before + after, n)
    ensures SameTotals(services, filter, init + [f], before + [f] + after, n)
  {
    TotalSnoc(services, filter, init, f, n);
    TotalMiddle(services, filter, before, f, after, n);
  }

  lemma {:induction false} OrderIrrelevant(
      services: set<string>, filter: Filter, a: seq<FileProto>, b: seq<FileProto>, n: string)
    requires multiset(a) == multiset(b)
    ensures SameTotals(services, filter, a, b, n)
    decreases |a|
  {
    if a == [] {
      assert |multiset(b)| == 0;
    } else {
      var init, last := a[..|a| - 1], a[|a| - 1];
      var i := RemoveElement(a, b);
      OrderIrrelevant(services, filter, init, b[..i] + b[i + 1..], n);
      SameTotalsStep(services, filter, init, last, b[..i], b[i + 1..], n);
      assert a == init + [last];
    }
  }

  /** The method totals count the exposed methods. */
  lemma {:induction false} TotalCountsExposure(services: set<string>, filter: Filter, files: seq<FileProto>, n: string)
    ensures MethodTotal(services, filter, files, n) == NameCount(Exposure(services, filter, files), n)
  {
    if files != [] {
      var init := files[..|files| - 1];
      TotalCountsExposure(services, filter, init, n);
      NameCountUnion(Exposure(services, filter, init), Entries(services, filter, files[|files| - 1].services));
    }
  }

  // ----- The names are unique

  lemma {:induction false} CountedOnce(es: seq<Entry>, n: string)
    ensures NameCount(es, n) >= 1 <==> exists j | 0 <= j < |es| :: es[j].rpc.name == n
  {
    if es != [] {
      CountedOnce(es[..|es| - 1], n);
    }
  }

  /** A name is counted more than once exactly when two entries have it. */
  lemma {:induction false} CountedTwice(es: seq<Entry>, i: nat)
    requires i < |es|
    ensures NameCount(es, es[i].rpc.name) > 1 <==>
            exists j | 0 <= j < |es| && j != i :: es[j].rpc.name == es[i].rpc.name
  {
    var n, init, last := es[i].rpc.name, es[..|es| - 1], es[|es| - 1];
    CountedOnce(init, n);
    if i < |init| {
      CountedTwice(init, i);
      assert init[i] == es[i];
      if last.rpc.name == n {
        assert es[|init|].rpc.name == n;
      }
      assert forall j | 0 <= j < |init| :: es[j] == init[j];
    }
  }

  lemma {:induction false} ContributorCounted(services: set<string>, filter: Filter, ss: seq<Service>, p: Entry)
    requires p in Entries(services, filter, ss)
    ensures ContributorCount(services, filter, ss, p.service.name) >= 1
  {
    var init, last := ss[..|ss| - 1], ss[|ss| - 1];
    if p in Entries(services, filter, init) {
      ContributorCounted(services, filter, init, p);
    } else {
      EntryOfService(filter, last, last.methods, p);
    }
  }

  /** Entries of two different services with one simple name: it is counted twice. */
  lemma {:induction false} ContributorsCounted(
      services: set<string>, filter: Filter, ss: seq<Service>, p: Entry, q: Entry)
    requires p in Entries(services, filter, ss) && q in Entries(services, filter, ss)
    requires p.service != q.service && p.service.name == q.service.name
    ensures ContributorCount(services, filter, ss, p.service.name) > 1
  {
    var init, last := ss[..|ss| - 1], ss[|ss| - 1];
    var pFirst, qFirst := p in Entries(services, filter, init), q in Entries(services, filter, init);
    if !pFirst {
      EntryOfService(filter, last, last.methods, p);
    }
    if !qFirst {
      EntryOfService(filter, last, last.methods, q);
    }
    if pFirst && qFirst {
      ContributorsCounted(services, filter, init, p, q);
    } else if pFirst {
      ContributorCounted(services, filter, init, p);
    } else {
      ContributorCounted(services, filter, init, q);
    }
  }

  lemma {:induction false} ExposedCounted(services: set<string>, filter: Filter, files: seq<FileProto>, p: Entry)
    requires p in Exposure(services, filter, files)
    ensures SimpleTotal(services, filter, files, p.service.name) >= 1
  {
    var init, last := files[..|files| - 1], files[|files| - 1];
    if p in Exposure(services, filter, init) {
      ExposedCounted(services, filter, init, p);
    } else {
      ContributorCounted(services, filter, last.services, p);
    }
  }

  lemma {:induction false} ExposedTwice(
      services: set<string>, filter: Filter, files: seq<FileProto>, p: Entry, q: Entry)
    requires p in Exposure(services, filter, files) && q in Exposure(services, filter, files)
    requires p.service != q.service && p.service.name == q.service.name
    ensures SimpleTotal(services, filter, files, p.service.name) > 1
  {
    var init, last := files[..|files| - 1], files[|files| - 1];
    var pFirst, qFirst := p in Exposure(services, filter, init), q in Exposure(services, filter, init);
    if pFirst && qFirst {
      ExposedTwice(services, filter, init, p, q);
    } else if pFirst {
      ExposedCounted(services, filter, init, p);
      ContributorCounted(services, filter, last.services, q);
    } else if qFirst {
      ExposedCounted(services, filter, init, q);
      ContributorCounted(services, filter, last.services, p);
    } else {
      ContributorsCounted(services, filter, last.services, p, q);
    }
  }

  lemma {:induction false} EntryOfService(filter: Filter, s: Service, ms: seq<Method>, e: Entry)
    requires e in MethodEntries(filter, s, ms)
    ensures e.service == s
  {
    if e in MethodEntries(filter, s, ms[..|ms| - 1]) {
      EntryOfService(filter, s, ms[..|ms| - 1], e);
    }
  }

  /** What stands before the method name when that does not stand alone. */
  function Qualified(short: bool, s: Service): string {
    if short then ReplaceAll(FullName(s), '.', '_') else s.name
  }

  function Qualifier(services: set<string>, filter: Filter, files: seq<FileProto>, s: Service): string {
    Qualified(SimpleTotal(services, filter, files, s.name) > 1, s)
  }

  /** What stands before the method name: nothing if no other exposed method has
      the name. */
  function Lead(services: set<string>, filter: Filter, files: seq<FileProto>, e: Entry): string {
    if MethodTotal(services, filter, files, e.rpc.name) > 1 then Qualifier(services, filter, files, e.service) + "__"
    else ""
  }

  lemma NameForm(services: set<string>, filter: Filter, files: seq<FileProto>, e: Entry)
    requires Without(e.rpc.name, '.')
    ensures ToolName(services, filter, files, e.service, e.rpc) == Lead(services, filter, files, e) + e.rpc.name
  {
    var s, m := e.service, e.rpc;
    assert ReplaceAll(FullName(s) + "__" + m.name, '.', '_') == ReplaceAll(FullName(s), '.', '_') + "__" + m.name;
  }

  /** One method name spells, before the other's name, what that has more in front. */
  predicate Spells(lead: string, name: string, longer: string, other: string) {
    |lead| < |longer| && lead <= longer && name == longer[|lead|..] + other
  }

  /** The methods are named alike behind equal qualifiers, or the name of one
      spells the qualifier of the other. */
  predicate Clash(services: set<string>, filter: Filter, files: seq<FileProto>, e: Entry, f: Entry) {
    var a, b := Lead(services, filter, files, e), Lead(services, filter, files, f);
    || (e.rpc.name == f.rpc.name &&
        Qualifier(services, filter, files, e.service) == Qualifier(services, filter, files, f.service))
    || Spells(a, e.rpc.name, b, f.rpc.name)
    || Spells(b, f.rpc.name, a, e.rpc.name)
  }

  lemma SplitTwice(a: string, m: string, b: string, n: string)
    ensures a + m == b + n <==> (a == b && m == n) || Spells(a, m, b, n) || Spells(b, n, a, m)
  {
    if a + m == b + n {
      if |a| <= |b| {
        assert a == (b + n)[..|a|] == b[..|a|] && m == (a + m)[|a|..] == b[|a|..] + n;
      } else {
        assert b == (a + m)[..|b|] == a[..|b|] && n == (b + n)[|b|..] == a[|b|..] + m;
      }
    }
    if Spells(a, m, b, n) {
      assert b == a + b[|a|..];
    }
    if Spells(b, n, a, m) {
      assert a == b + a[|b|..];
    }
  }

  lemma SameLeads(q: string, r: string)
    ensures q + "__" == r + "__" <==> q == r
  {
    assert q == (q + "__")[..|q|] && r == (r + "__")[..|r|];
  }

  /** Two exposed methods get one tool name if and only if they clash. */
  lemma NamesClashIff(services: set<string>, filter: Filter, files: seq<FileProto>, i: nat, j: nat)
    requires var es := Exposure(services, filter, files);
             i < |es| && j < |es| && Without(es[i].rpc.name, '.') && Without(es[j].rpc.name, '.')
    ensures var es := Exposure(services, filter, files);
            ToolName(services, filter, files, es[i].service, es[i].rpc) ==
            ToolName(services, filter, files, es[j].service, es[j].rpc) <==>
            Clash(services, filter, files, es[i], es[j])
  {
    if i != j {
      var es := Exposure(services, filter, files);
      var p, q := es[i], es[j];
      NameForm(services, filter, files, p);
      NameForm(services, filter, files, q);
      SplitTwice(Lead(services, filter, files, p), p.rpc.name, Lead(services, filter, files, q), q.rpc.name);
      SameLeads(Qualifier(services, filter, files, p.service), Qualifier(services, filter, files, q.service));
      if p.rpc.name == q.rpc.name {
        TotalCountsExposure(services, filter, files, p.rpc.name);
        CountedTwice(es, i);
      }
    }
  }

  // ----- Method names that spell no qualifier

  predicate NoDouble(s: string) {
    forall i | 0 <= i < |s| - 1 :: !(s[i] == '_' && s[i + 1] == '_')
  }

  /** A method name that can be told from what stands before it: no dot, no two
      underscores in a row, none in front. */
  predicate Segment(name: string) {
    Without(name, '.') && NoDouble(name) && (name == "" || name[0] != '_')
  }

  predicate IsLead(lead: string) {
    lead == "" || (|lead| >= 2 && lead[|lead| - 2] == '_' && lead[|lead| - 1] == '_')
  }

  /** A name that spells a qualifier spells its underscores too. */
  lemma SpellsUnderscores(lead: string, name: string, longer: string, other: string)
    requires IsLead(lead) && IsLead(longer) && Spells(lead, name, longer, other)
    ensures !Segment(name)
  {
    var more := longer[|lead|..];
    assert name[|more| - 1] == '_' && (|more| > 1 ==> name[|more| - 2] == '_');
  }

  /** Of methods with such names, two get one tool name if and only if their method
      names and their qualifiers are equal. */
  lemma SegmentNamesClashIff(services: set<string>, filter: Filter, files: seq<FileProto>, i: nat, j: nat)
    requires var es := Exposure(services, filter, files);
             i < |es| && j < |es| && Segment(es[i].rpc.name) && Segment(es[j].rpc.name)
    ensures var es := Exposure(services, filter, files);
            ToolName(services, filter, files, es[i].service, es[i].rpc) ==
            ToolName(services, filter, files, es[j].service, es[j].rpc) <==>
            && es[i].rpc.name == es[j].rpc.name
            && Qualifier(services, filter, files, es[i].service) == Qualifier(services, filter, files, es[j].service)
  {
    var es := Exposure(services, filter, files);
    var a, b := Lead(services, filter, files, es[i]), Lead(services, filter, files, es[j]);
    NamesClashIff(services, filter, files, i, j);
    if Spells(a, es[i].rpc.name, b, es[j].rpc.name) {
      SpellsUnderscores(a, es[i].rpc.name, b, es[j].rpc.name);
    }
    if Spells(b, es[j].rpc.name, a, es[i].rpc.name) {
      SpellsUnderscores(b, es[j].rpc.name, a, es[i].rpc.name);
    }
  }

  // ----- Services named without underscores

  predicate Plain(s: string) {
    Without(s, '.') && Without(s, '_')
  }

  /** The package with a dot behind each component, every dot an underscore. */
  function FlatPackage(s: Service): string {
    ReplaceAll(Join(s.pkg + [""], '.'), '.', '_')
  }

  /** Nothing, or text that ends in an underscore. */
  predicate EndsSegment(x: string) {
    x == "" || x[|x| - 1] == '_'
  }

  lemma {:induction false} FullNameIsPrefixed(pkg: seq<string>, name: string)
    ensures Join(pkg + [name], '.') == Join(pkg + [""], '.') + name
    ensures var x := Join(pkg + [""], '.'); x == "" || x[|x| - 1] == '.'
  {
    if pkg == [] {
      assert pkg + [name] == [name] && pkg + [""] == [""];
    } else {
      assert (pkg + [name])[1..] == pkg[1..] + [name] && (pkg + [""])[1..] == pkg[1..] + [""];
      FullNameIsPrefixed(pkg[1..], name);
    }
  }

  lemma FlatFullName(s: Service)
    requires Plain(s.name)
    ensures Qualified(true, s) == FlatPackage(s) + s.name && EndsSegment(FlatPackage(s))
  {
    FullNameIsPrefixed(s.pkg, s.name);
    var x := Join(s.pkg + [""], '.');
    assert ReplaceAll(x + s.name, '.', '_') == ReplaceAll(x, '.', '_') + s.name;
  }

  lemma NoUnderscoreBehind(x: string, s: string)
    requires EndsSegment(x) && Without(s, '_')
    ensures forall k | |x| <= k < |x + s| :: (x + s)[k] != '_'
    ensures x != "" ==> (x + s)[|x| - 1] == '_'
  {
  }

  /** What follows the last underscore is determined. */
  lemma SameTail(x: string, s: string, y: string, t: string)
    requires EndsSegment(x) && EndsSegment(y) && Without(s, '_') && Without(t, '_')
    ensures x + s == y + t <==> x == y && s == t
  {
    if x + s == y + t {
      NoUnderscoreBehind(x, s);
      NoUnderscoreBehind(y, t);
      assert |x| == |y|;
      assert x == (x + s)[..|x|] && s == (x + s)[|x|..];
      assert y == (y + t)[..|y|] && t == (y + t)[|y|..];
    }
  }

  lemma QualifierParts(short: bool, s: Service) returns (x: string)
    requires Plain(s.name)
    ensures x == if short then FlatPackage(s) else ""
    ensures Qualified(short, s) == x + s.name && EndsSegment(x)
  {
    FlatFullName(s);
    x := if short then FlatPackage(s) else "";
  }

  /** For services named without underscores, two different methods get one tool
      name if and only if method and service are named alike and the packages
      differ only in dots for underscores. */
  lemma PlainNamesClashIff(services: set<string>, filter: Filter, files: seq<FileProto>, i: nat, j: nat)
    requires var es := Exposure(services, filter, files);
             && i < |es| && j < |es|
             && Plain(es[i].service.name) && Plain(es[j].service.name)
             && Segment(es[i].rpc.name) && Segment(es[j].rpc.name)
             && (FullName(es[i].service) != FullName(es[j].service) || es[i].rpc.name != es[j].rpc.name)
    ensures var es := Exposure(services, filter, files);
            ToolName(services, filter, files, es[i].service, es[i].rpc) ==
            ToolName(services, filter, files, es[j].service, es[j].rpc) <==>
            && es[i].rpc.name == es[j].rpc.name
            && es[i].service.name == es[j].service.name
            && FlatPackage(es[i].service) == FlatPackage(es[j].service)
  {
    var es := Exposure(services, filter, files);
    var p, q := es[i], es[j];
    SegmentNamesClashIff(services, filter, files, i, j);
    var x := QualifierParts(SimpleTotal(services, filter, files, p.service.name) > 1, p.service);
    var y := QualifierParts(SimpleTotal(services, filter, files, q.service.name) > 1, q.service);
    SameTail(x, p.service.name, y, q.service.name);
    if p.rpc.name == q.rpc.name && p.service.name == q.service.name {
      ExposedTwice(services, filter, files, p, q);
    }
  }

  /** Package components and service names free of dots and underscores. */
  predicate PlainNames(e: Entry) {
    && AllWithout(e.service.pkg, '.') && AllWithout(e.service.pkg, '_')
    && Plain(e.service.name) && Segment(e.rpc.name)
  }

  lemma PlainPackagesApart(s: Service, t: Service)
    requires AllWithout(s.pkg, '.') && AllWithout(s.pkg, '_') && AllWithout(t.pkg, '.') && AllWithout(t.pkg, '_')
    requires FlatPackage(s) == FlatPackage(t)
    ensures s.pkg == t.pkg
  {
    ReplaceJoin(s.pkg + [""], '.', '_');
    ReplaceJoin(t.pkg + [""], '.', '_');
    JoinInjective(s.pkg + [""], t.pkg + [""], '_');
    assert s.pkg == (s.pkg + [""])[..|s.pkg|] && t.pkg == (t.pkg + [""])[..|t.pkg|];
  }

  /** With plain packages too, two exposed methods of different service or method
      name never get the same tool name, in any of the three forms and also for
      services in the empty package. */
  lemma NamesInjective(services: set<string>, filter: Filter, files: seq<FileProto>, i: nat, j: nat)
    requires var es := Exposure(services, filter, files);
             && i < |es| && j < |es|
             && PlainNames(es[i]) && PlainNames(es[j])
             && (FullName(es[i].service) != FullName(es[j].service) || es[i].rpc.name != es[j].rpc.name)
    ensures var es := Exposure(services, filter, files);
            ToolName(services, filter, files, es[i].service, es[i].rpc) !=
            ToolName(services, filter, files, es[j].service, es[j].rpc)
  {
    var es := Exposure(services, filter, files);
    PlainNamesClashIff(services, filter, files, i, j);
    if FlatPackage(es[i].service) == FlatPackage(es[j].service) {
      PlainPackagesApart(es[i].service, es[j].service);
    }
  }

  /** A bare method name is used exactly when no other exposed method has it. */
  lemma BareNameWhenUnique(services: set<string>, filter: Filter, files: seq<FileProto>, i: nat)
    requires i < |Exposure(services, filter, files)|
    ensures var es := Exposure(services, filter, files);
            ToolName(services, filter, files, es[i].service, es[i].rpc) == es[i].rpc.name <==>
            forall j | 0 <= j < |es| && j != i :: es[j].rpc.name != es[i].rpc.name
  {
    var es := Exposure(services, filter, files);
    var e := es[i];
    TotalCountsExposure(services, filter, files, e.rpc.name);
    CountedTwice(es, i);
    if MethodTotal(services, filter, files, e.rpc.name) > 1 {
      assert |ToolName(services, filter, files, e.service, e.rpc)| > |e.rpc.name|;
    }
  }

  lemma {:induction false} CountedService(services: set<string>, filter: Filter, ss: seq<Service>, n: string)
    returns (e: Entry)
    requires ContributorCount(services, filter, ss, n) >= 1
    ensures e in Entries(services, filter, ss) && e.service.name == n
  {
    var s := ss[|ss| - 1];
    if s.name == n && ServiceEntries(services, filter, s) != [] {
      e := ServiceEntries(services, filter, s)[0];
      assert e in MethodEntries(filter, s, s.methods);
      EntryOfService(filter, s, s.methods, e);
    } else {
      e := CountedService(services, filter, ss[..|ss| - 1], n);
    }
  }

  lemma {:induction false} CountedServices(services: set<string>, filter: Filter, ss: seq<Service>, n: string)
    returns (e: Entry, f: Entry)
    requires NoRepeat(ss) && ContributorCount(services, filter, ss, n) > 1
    ensures e in Entries(services, filter, ss) && f in Entries(services, filter, ss)
    ensures e.service != f.service && e.service.name == n && f.service.name == n
  {
    var init, s := ss[..|ss| - 1], ss[|ss| - 1];
    NoRepeatSplit(ss);
    if s.name == n && ServiceEntries(services, filter, s) != [] {
      e := CountedService(services, filter, init, n);
      EntriesIff(services, filter, init, e);
      f := ServiceEntries(services, filter, s)[0];
      assert f in MethodEntries(filter, s, s.methods);
      EntryOfService(filter, s, s.methods, f);
    } else {
      e, f := CountedServices(services, filter, init, n);
    }
  }

  lemma {:induction false} TotalService(services: set<string>, filter: Filter, files: seq<FileProto>, n: string)
    returns (e: Entry)
    requires SimpleTotal(services, filter, files, n) >= 1
    ensures e in Exposure(services, filter, files) && e.service.name == n
  {
    var last := files[|files| - 1].services;
    if ContributorCount(services, filter, last, n) >= 1 {
      e := CountedService(services, filter, last, n);
    } else {
      e := TotalService(services, filter, files[..|files| - 1], n);
    }
  }

  lemma {:induction false} TotalServices(services: set<string>, filter: Filter, files: seq<FileProto>, n: string)
    returns (e: Entry, f: Entry)
    requires DeclaredOnce(files) && SimpleTotal(services, filter, files, n) > 1
    ensures e in Exposure(services, filter, files) && f in Exposure(services, filter, files)
    ensures e.service != f.service && e.service.name == n && f.service.name == n
  {
    var init, last := files[..|files| - 1], files[|files| - 1].services;
    DeclaredOnceSplit(files);
    if ContributorCount(services, filter, last, n) > 1 {
      e, f := CountedServices(services, filter, last, n);
    } else if ContributorCount(services, filter, last, n) == 1 {
      e := TotalService(services, filter, init, n);
      f := CountedService(services, filter, last, n);
      ExposedIff(services, filter, init, e);
      InAllServices(init, e.service);
      EntriesIff(services, filter, last, f);
    } else {
      e, f := TotalServices(services, filter, init, n);
    }
  }

  /** The three forms: the method name alone if no other exposed method has it; the
      service and the method if no other service of that simple name exposes a
      method; and otherwise the full name, with every dot an underscore. */
  lemma NameTiers(services: set<string>, filter: Filter, files: seq<FileProto>, i: nat)
    requires DeclaredOnce(files) && i < |Exposure(services, filter, files)|
    ensures var es := Exposure(services, filter, files);
            var s, m := es[i].service, es[i].rpc.name;
            ToolName(services, filter, files, s, es[i].rpc) ==
            if forall j | 0 <= j < |es| && j != i :: es[j].rpc.name != m then m
            else if forall e | e in es && e.service != s :: e.service.name != s.name then s.name + "__" + m
            else ReplaceAll(Join(s.pkg + [s.name], '.') + "__" + m, '.', '_')
  {
    var es := Exposure(services, filter, files);
    var s := es[i].service;
    TotalCountsExposure(services, filter, files, es[i].rpc.name);
    CountedTwice(es, i);
    if SimpleTotal(services, filter, files, s.name) > 1 {
      var e, f := TotalServices(services, filter, files, s.name);
      assert e.service != s || f.service != s;
    }
    if e :| e in es && e.service != s && e.service.name == s.name {
      ExposedTwice(services, filter, files, es[i], e);
    }
  }

  function OneFile(path: string, s: Service): FileProto {
    FileProto(path, [], {}, {}, [s])
  }

  /** Two files, each with one service that has one exposed method. */
  lemma TwoServices(filter: Filter, s: Service, t: Service, m: Method)
    requires s.methods == [m] && t.methods == [m] && Exposes(filter, m)
    ensures Exposure({}, filter, [OneFile("x", s), OneFile("y", t)]) == [Entry(s, m), Entry(t, m)]
  {
    var f, g := OneFile("x", s), OneFile("y", t);
    OneService(filter, s, m);
    OneService(filter, t, m);
    assert [f, g][..1] == [f] && [f][..0] == [];
    assert Exposure({}, filter, [f]) == [Entry(s, m)];
  }

  lemma OneService(filter: Filter, s: Service, m: Method)
    requires s.methods == [m] && Exposes(filter, m)
    ensures Entries({}, filter, [s]) == [Entry(s, m)]
  {
    assert [m][..0] == [] && [s][..0] == [];
    assert MethodEntries(filter, s, [m]) == [Entry(s, m)];
  }

  lemma FlatAlike()
    ensures FlatPackage(Service(["a_b"], "S", [])) == FlatPackage(Service(["a", "b"], "S", []))
    ensures FullName(Service(["a_b"], "S", [])) == "a_b.S" && FullName(Service(["a", "b"], "S", [])) == "a.b.S"
  {
    assert ["a_b"] + ["S"] == ["a_b", "S"] && ["a", "b"] + ["S"] == ["a", "b", "S"];
    assert ["a_b", "S"][1..] == ["S"] && ["a", "b", "S"][1..] == ["b", "S"] && ["b", "S"][1..] == ["S"];
    assert ["a_b"] + [""] == ["a_b", ""] && ["a", "b"] + [""] == ["a", "b", ""];
    assert ["a_b", ""][1..] == [""] && ["a", "b", ""][1..] == ["b", ""] && ["b", ""][1..] == [""];
    assert Join(["a_b", ""], '.') == "a_b." && Join(["a", "b", ""], '.') == "a.b.";
  }

  /** Names do clash: a_b.S and a.b.S both give a_b_S__M. */
  lemma UnderscoresClash(filter: Filter, m: Method)
    requires m.name == "M" && Exposes(filter, m)
    ensures var s, t := Service(["a_b"], "S", [m]), Service(["a", "b"], "S", [m]);
            var files := [OneFile("x", s), OneFile("y", t)];
            && Exposure({}, filter, files) == [Entry(s, m), Entry(t, m)] && FullName(s) != FullName(t)
            && ToolName({}, filter, files, s, m) == ToolName({}, filter, files, t, m)
  {
    var s, t := Service(["a_b"], "S", [m]), Service(["a", "b"], "S", [m]);
    TwoServices(filter, s, t, m);
    FlatAlike();
    PlainNamesClashIff({}, filter, [OneFile("x", s), OneFile("y", t)], 0, 1);
  }

  lemma OneContributor(filter: Filter, s: Service, m: Method, x: string)
    requires s.methods == [m] && Exposes(filter, m)
    ensures ContributorCount({}, filter, [s], x) == if s.name == x then 1 else 0
  {
    assert [m][..0] == [] && [s][..0] == [];
    assert MethodEntries(filter, s, [m]) == [Entry(s, m)];
  }

  /** One more file with one service that has one exposed method. */
  lemma OneMoreFile(filter: Filter, files: seq<FileProto>, path: string, s: Service, m: Method, x: string)
    requires s.methods == [m] && Exposes(filter, m)
    ensures var more := files + [OneFile(path, s)];
            && Exposure({}, filter, more) == Exposure({}, filter, files) + [Entry(s, m)]
            && SimpleTotal({}, filter, more, x) == SimpleTotal({}, filter, files, x) + if s.name == x then 1 else 0
  {
    OneService(filter, s, m);
    OneContributor(filter, s, m, x);
    TotalSnoc({}, filter, files, OneFile(path, s), x);
    assert (files + [OneFile(path, s)])[..|files|] == files;
  }

  lemma ThreeFiles(filter: Filter, s: Service, t: Service, u: Service, m: Method, n: Method)
    returns (files: seq<FileProto>)
    requires s.methods == [m] && t.methods == [m] && u.methods == [n] && Exposes(filter, m) && Exposes(filter, n)
    ensures files == [OneFile("x", s), OneFile("y", t), OneFile("z", u)]
    ensures Exposure({}, filter, files) == [Entry(s, m), Entry(t, m), Entry(u, n)]
    ensures s.name != t.name && s.name != u.name ==> SimpleTotal({}, filter, files, s.name) == 1
  {
    var one, two := [OneFile("x", s)], [OneFile("x", s), OneFile("y", t)];
    files := [OneFile("x", s), OneFile("y", t), OneFile("z", u)];
    OneMoreFile(filter, [], "x", s, m, s.name);
    OneMoreFile(filter, one, "y", t, m, s.name);
    OneMoreFile(filter, two, "z", u, n, s.name);
    assert one == [] + [OneFile("x", s)] && two == one + [OneFile("y", t)] && files == two + [OneFile("z", u)];
  }

  /** Two exposed methods of one name whose first service has a simple name of its
      own, and a third of another name: the tools are named by service and method,
      and by the bare method. */
  lemma QualifiedAndBare(filter: Filter, files: seq<FileProto>, p: Entry, q: Entry, r: Entry)
    requires Exposure({}, filter, files) == [p, q, r]
    requires p.rpc.name == q.rpc.name != r.rpc.name
    requires SimpleTotal({}, filter, files, p.service.name) == 1
    ensures ToolName({}, filter, files, p.service, p.rpc) == p.service.name + "__" + p.rpc.name
    ensures ToolName({}, filter, files, r.service, r.rpc) == r.rpc.name
  {
    var es := [p, q, r];
    TotalCountsExposure({}, filter, files, p.rpc.name);
    assert es[1].rpc.name == es[0].rpc.name;
    CountedTwice(es, 0);
    assert forall j | 0 <= j < |es| && j != 2 :: es[j].rpc.name == p.rpc.name;
    BareNameWhenUnique({}, filter, files, 2);
  }

  /** A method name with two underscores in a row can clash too: S__M is the bare
      name of one method and the qualified name of another. */
  lemma DoubleUnderscoreClash(filter: Filter, m: Method, n: Method)
    requires m.name == "M" && n.name == "S__M" && Exposes(filter, m) && Exposes(filter, n)
    ensures var s, t, u := Service(["p"], "S", [m]), Service(["p"], "T", [m]), Service(["p"], "U", [n]);
            var files := [OneFile("x", s), OneFile("y", t), OneFile("z", u)];
            && Exposure({}, filter, files) == [Entry(s, m), Entry(t, m), Entry(u, n)]
            && ToolName({}, filter, files, s, m) == ToolName({}, filter, files, u, n) == "S__M"
  {
    var s, t, u := Service(["p"], "S", [m]), Service(["p"], "T", [m]), Service(["p"], "U", [n]);
    var files := ThreeFiles(filter, s, t, u, m, n);
    assert |"M"| != |"S__M"| && "S" + "__" + "M" == "S__M";
    QualifiedAndBare(filter, files, Entry(s, m), Entry(t, m), Entry(u, n));
  }
}
