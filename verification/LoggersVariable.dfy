/** The configuration variable `loggers` and the manager that listens to it: from the text of
    a configuration to what every event is emitted to (server/log.cpp, server/config.h). */
module LoggersVariable {
  import opened Wrappers
  import opened Yaml
  import opened ConfigTree
  import Vars = ConfigVars
  import Configuration
  import opened LogDefines
  import opened LoggerSpec
  import Reloading = LoggerReload

  type Defines = seq<LogDefine>

  // ----- The variable: std::set<LogDefine> -----

  /** Equality of two sets, element by element with operator==. */
  predicate SameSet(a: Defines, b: Defines) {
    |a| == |b| && forall i :: 0 <= i < |a| ==> SameDefine(a[i], b[i])
  }

  /** `emit` and `load` are the library's renderer and parser. */
  function RulesFor(emit: Node -> string, load: string -> Node): Vars.Rules<Defines> {
    Vars.Rules(text => DecodedSet(load(text), emit, load), (a, b) => SameSet(a, b))
  }

  /** The variable's equality is coarser than equality, but loading it twice is still loading
      it once. */
  lemma SameSetIsEquivalence(emit: Node -> string, load: string -> Node)
    ensures Configuration.Equivalence(RulesFor(emit, load).same)
  {}

  // ----- The manager as the listener with id 1 -----

  const LISTENER_ID := 1

  /** What the manager becomes when its listener receives the calls in turn. */
  function Hear(m: Loggers, calls: seq<Vars.Call<Defines>>): Loggers
    decreases |calls|
  {
    if calls == [] then m else Hear(Reloading.Reload(m, calls[0].newValue), calls[1..])
  }

  /** The loggers that a set of definitions denotes. */
  function Denoted(ds: Defines): Loggers {
    Reloading.Reload(map[], ds)
  }

  lemma ReloadForgets(m: Loggers, ds: Defines)
    requires SortedByName(ds)
    ensures Reloading.Reload(m, ds) == Denoted(ds)
  {
    Reloading.ReloadReachesTheDefinitions(m, ds);
    Reloading.ReloadReachesTheDefinitions(map[], ds);
    forall name | name in Reloading.Names(ds) ensures Reloading.Reload(m, ds)[name] == Denoted(ds)[name] {
      var i :| 0 <= i < |ds| && ds[i].name == name;
      assert Reloading.Reload(m, ds)[ds[i].name] == Denote(ds[i]);
    }
  }

  lemma {:induction false} OnlyTheLastCallMatters(m: Loggers, calls: seq<Vars.Call<Defines>>)
    requires calls != [] && SortedByName(calls[|calls| - 1].newValue)
    ensures Hear(m, calls) == Denoted(calls[|calls| - 1].newValue)
    decreases |calls|
  {
    var m1 := Reloading.Reload(m, calls[0].newValue);
    if |calls| == 1 {
      assert Hear(m1, calls[1..]) == m1;
      ReloadForgets(m, calls[0].newValue);
    } else {
      OnlyTheLastCallMatters(m1, calls[1..]);
    }
  }

  lemma {:induction false} LastChangeIsTheValue(start: Defines, cs: seq<Vars.Change<Defines>>, end: Defines,
                                                rules: Vars.Rules<Defines>)
    requires Vars.Chained(start, cs, end, rules) && cs != []
    ensures cs[|cs| - 1].newValue == end
    decreases |cs|
  {
    if |cs| > 1 {
      LastChangeIsTheValue(cs[0].newValue, cs[1..], end, rules);
    }
  }

  ghost predicate SetsAreSets(ops: seq<Vars.Op<Defines>>) {
    forall i :: 0 <= i < |ops| && ops[i].Set? ==> SortedByName(ops[i].value)
  }

  lemma DecodedIsSorted(node: Node, emit: Node -> string, load: string -> Node)
    requires DecodedSet(node, emit, load).Some?
    ensures SortedByName(DecodedSet(node, emit, load).value)
  {
    SetKeepsFirst([], DecodeAll(ItemsOf(Some(node)).value, emit, load).value, "");
  }

  lemma {:induction false} ValueStaysASet(s: Vars.VarState<Defines>, ops: seq<Vars.Op<Defines>>,
                                          emit: Node -> string, load: string -> Node)
    requires SortedByName(s.value) && SetsAreSets(ops)
    ensures SortedByName(Vars.RunOps(s, ops, RulesFor(emit, load)).value)
    decreases |ops|
  {
    if ops != [] {
      var s1 := Vars.RunOp(s, ops[0], RulesFor(emit, load));
      if ops[0].FromText? && DecodedSet(load(ops[0].text), emit, load).Some? {
        DecodedIsSorted(load(ops[0].text), emit, load);
      }
      ValueStaysASet(s1, ops[1..], emit, load);
    }
  }

  /** Over any operations on the variable that leave its listener in place, the manager ends
      up as what the variable's final value denotes, from whatever state it was in; and it is
      untouched if there was no change. */
  lemma ManagerFollowsVariable(s: Vars.VarState<Defines>, ops: seq<Vars.Op<Defines>>,
                               emit: Node -> string, load: string -> Node, m: Loggers)
    requires SortedByName(s.value) && SetsAreSets(ops)
    requires Vars.Sorted(s.listeners) && Vars.Lookup(s.listeners, LISTENER_ID).Some? && Vars.Keeps(ops, LISTENER_ID)
    ensures var cs := Vars.Changes(s, ops, RulesFor(emit, load));
            Hear(m, Vars.CallsTo(Vars.Announced(cs), LISTENER_ID))
            == if cs == [] then m else Denoted(Vars.RunOps(s, ops, RulesFor(emit, load)).value)
  {
    var rules := RulesFor(emit, load);
    var cs := Vars.Changes(s, ops, rules);
    var calls := Vars.CallsTo(Vars.Announced(cs), LISTENER_ID);
    Vars.ListenerHearsEveryChange(s, ops, rules, LISTENER_ID);
    if cs != [] {
      var end := Vars.RunOps(s, ops, rules).value;
      Vars.HistoriesTelescope(s, ops, rules);
      LastChangeIsTheValue(s.value, cs, end, rules);
      ValueStaysASet(s, ops, emit, load);
      OnlyTheLastCallMatters(m, calls);
    }
  }

  // ----- A change that setValue does not see -----

  function EffectiveAppenders(d: LogDefine): seq<AppenderState> {
    DenoteAppenders(d.appenders, d.level, d.formatter)
  }

  ghost predicate SameEffect(a: Defines, b: Defines)
    requires |a| == |b|
  {
    forall i :: 0 <= i < |a| ==> EffectiveAppenders(a[i]) == EffectiveAppenders(b[i])
  }

  /** What the manager is after setValue, given that it is what the old value denotes. */
  function AfterSet(s: Vars.VarState<Defines>, value: Defines, rules: Vars.Rules<Defines>): Loggers {
    var s' := Vars.RunOp(s, Vars.Set(value), rules);
    var seen := |s.calls|;
    if seen <= |s'.calls| then Hear(Denoted(s.value), Vars.CallsTo(s'.calls[seen..], LISTENER_ID)) else Denoted(s.value)
  }

  lemma SetIsHeard(s: Vars.VarState<Defines>, value: Defines, emit: Node -> string, load: string -> Node)
    requires SortedByName(s.value) && SortedByName(value)
    requires Vars.Sorted(s.listeners) && Vars.Lookup(s.listeners, LISTENER_ID).Some?
    ensures s.calls <= Vars.RunOp(s, Vars.Set(value), RulesFor(emit, load)).calls
    ensures AfterSet(s, value, RulesFor(emit, load)) == Denoted(if SameSet(s.value, value) then s.value else value)
  {
    var rules, ops := RulesFor(emit, load), [Vars.Set(value)];
    Configuration.RunOne(s, ops[0], rules);
    Vars.HistoriesTelescope(s, ops, rules);
    ManagerFollowsVariable(s, ops, emit, load, Denoted(s.value));
  }

  /** setValue brings a manager that is what the old value denotes to what the new one denotes
      if and only if operator== sees a difference, or there is none that takes effect. */
  lemma SetTakesEffectExactly(s: Vars.VarState<Defines>, value: Defines, emit: Node -> string, load: string -> Node)
    requires SortedByName(s.value) && SortedByName(value)
    requires Vars.Sorted(s.listeners) && Vars.Lookup(s.listeners, LISTENER_ID).Some?
    ensures AfterSet(s, value, RulesFor(emit, load)) == Denoted(value)
            <==> !SameSet(s.value, value) || SameEffect(s.value, value)
  {
    SetIsHeard(s, value, emit, load);
    if SameSet(s.value, value) {
      hide AfterSet;
      SameSetsDenote(s.value, value);
    }
  }

  lemma SameSetsDenote(a: Defines, b: Defines)
    requires SortedByName(a) && SortedByName(b) && SameSet(a, b)
    ensures Denoted(a) == Denoted(b) <==> SameEffect(a, b)
  {
    Reloading.ReloadReachesTheDefinitions(map[], a);
    Reloading.ReloadReachesTheDefinitions(map[], b);
    forall i | 0 <= i < |a|
      ensures a[i].name == b[i].name
      ensures Denoted(a)[a[i].name] == Denoted(b)[a[i].name] <==> EffectiveAppenders(a[i]) == EffectiveAppenders(b[i])
    {
      assert SameDefine(a[i], b[i]);
      assert Denoted(a)[a[i].name] == Denote(a[i]) && Denoted(b)[b[i].name] == Denote(b[i]);
    }
    if SameEffect(a, b) {
      EqualByName(a, b);
    }
  }

  lemma EqualByName(a: Defines, b: Defines)
    requires SortedByName(a) && SortedByName(b) && |a| == |b|
    requires forall i :: 0 <= i < |a| ==> a[i].name == b[i].name && Denote(a[i]) == Denote(b[i])
    ensures Denoted(a) == Denoted(b)
  {
    Reloading.ReloadReachesTheDefinitions(map[], a);
    Reloading.ReloadReachesTheDefinitions(map[], b);
    forall name | name in Reloading.Names(a) ensures name in Reloading.Names(b) && Denoted(a)[name] == Denoted(b)[name] {
      var i :| 0 <= i < |a| && a[i].name == name;
      assert Denoted(a)[a[i].name] == Denote(a[i]) && Denoted(b)[b[i].name] == Denote(b[i]);
    }
    forall name | name in Reloading.Names(b) ensures name in Reloading.Names(a) {
      var i :| 0 <= i < |b| && b[i].name == name;
      assert a[i].name == name;
    }
  }

  /** The input that shows it: only the level of an appender is new, so the set counts as
      unchanged, and the logger keeps emitting what it should not. */
  lemma AppenderLevelChangeIsMissed(name: string, pattern: string)
    ensures var d := LogDefine(name, DEBUG, pattern, [AppenderDefine("stdout", "", DEBUG, "")]);
            var d' := d.(appenders := [AppenderDefine("stdout", "", ERROR, "")]);
            && SameSet([d], [d'])
            && Emissions(Denote(d), INFO) == [Emission(Stdout, "", pattern)]
            && Emissions(Denote(d'), INFO) == []
  {
    var a, a' := AppenderDefine("stdout", "", DEBUG, ""), AppenderDefine("stdout", "", ERROR, "");
    DenoteOne(a, DEBUG, pattern);
    DenoteOne(a', DEBUG, pattern);
    EmittedByOne(AppenderState(Stdout, "", DEBUG, pattern, false, None), INFO);
    EmittedByOne(AppenderState(Stdout, "", ERROR, pattern, false, None), INFO);
  }

  lemma DenoteOne(a: AppenderDefine, level: Level, pattern: string)
    ensures DenoteAppenders([a], level, pattern) == DenoteAppender(a, level, pattern)
  {}

  lemma EmittedByOne(a: AppenderState, level: Level)
    ensures EmittedBy([a], level) == if Rank(level) >= Rank(a.level) then [Emission(a.kind, Target(a), a.pattern)] else []
  {}

  // ----- The dump, loaded through the configuration -----

  /** The sequence that the dump has under the name of the variable. */
  function DumpItems(ds: Defines, emit: Node -> string, load: string -> Node): Node {
    Sequence(EncodeAll(ds, emit, load))
  }

  lemma FlattenedDump(ds: Defines, emit: Node -> string, load: string -> Node)
    ensures var node := Reloading.DumpNode(ds, emit, load);
            Flatten(node, "")
            == if ds == [] then [Member("", Null)] else [Member("", node), Member("loggers", DumpItems(ds, emit, load))]
  {
    if ds != [] {
      var es := [Entry("loggers", DumpItems(ds, emit, load))];
      assert es[1..] == [];
      assert ChildName("", "loggers") == "loggers";
      assert Flatten(es[0].value, "loggers") == [Member("loggers", es[0].value)];
      assert FlattenEntries(es, "") == [Member("loggers", es[0].value)];
    }
  }

  lemma OpsForDump(ds: Defines, emit: Node -> string, load: string -> Node)
    ensures Configuration.OpsFor<Defines>(Flatten(Reloading.DumpNode(ds, emit, load), ""), "loggers", emit)
            == if ds == [] then [] else [Vars.FromText(emit(DumpItems(ds, emit, load)))]
  {
    FlattenedDump(ds, emit, load);
    var ms := Flatten(Reloading.DumpNode(ds, emit, load), "");
    if ds != [] {
      assert ms[1..][1..] == [];
      assert Configuration.OpsFor<Defines>(ms[1..], "loggers", emit) == [Vars.FromText(emit(DumpItems(ds, emit, load)))];
    } else {
      assert ms[1..] == [];
    }
  }

  type Registry = map<string, Configuration.Var<Defines>>

  /** The registry after loading the dump. */
  function Loaded(ds: Defines, reg: Registry, emit: Node -> string, load: string -> Node): Registry {
    Configuration.LoadAll(reg, Flatten(Reloading.DumpNode(ds, emit, load), ""), emit)
  }

  /** A load only adds to the calls that the variable has made. */
  ghost predicate OnlyAddsCalls(reg: Registry, after: Registry)
    requires "loggers" in reg
  {
    "loggers" in after && reg["loggers"].state.calls <= after["loggers"].state.calls
  }

  /** What the listener makes of a manager by the calls that were added. */
  ghost function Listening(m: Loggers, reg: Registry, after: Registry): Loggers
    requires "loggers" in reg && OnlyAddsCalls(reg, after)
  {
    Hear(m, Vars.CallsTo(after["loggers"].state.calls[|reg["loggers"].state.calls|..], LISTENER_ID))
  }

  /** The variable `loggers` with its listener. */
  ghost predicate HasListener(reg: Registry, emit: Node -> string, load: string -> Node) {
    && "loggers" in reg && reg["loggers"].rules == RulesFor(emit, load)
    && var s := reg["loggers"].state;
       SortedByName(s.value) && Vars.Sorted(s.listeners) && Vars.Lookup(s.listeners, LISTENER_ID).Some?
  }

  /** The library reads back the nodes that it has written: each definition, and the sequence. */
  ghost predicate ReadsBack(ds: Defines, emit: Node -> string, load: string -> Node) {
    && (forall i :: 0 <= i < |ds| ==> Reparse(Encode(ds[i]), emit, load) == Encode(ds[i]))
    && Reparse(DumpItems(ds, emit, load), emit, load) == DumpItems(ds, emit, load)
  }

  /** The listener reloads the manager from the dump, unless the variable counts as unchanged. */
  lemma DumpIsHeard(m: Loggers, ds: Defines, reg: Registry, emit: Node -> string, load: string -> Node)
    requires DecodedSet(load(emit(DumpItems(ds, emit, load))), emit, load) == Some(ds) && SortedByName(ds)
    requires HasListener(reg, emit, load)
    ensures OnlyAddsCalls(reg, Loaded(ds, reg, emit, load))
    ensures Listening(m, reg, Loaded(ds, reg, emit, load))
            == if ds == [] || SameSet(reg["loggers"].state.value, ds) then m else Reloading.Reload(m, ds)
  {
    var s, rules := reg["loggers"].state, RulesFor(emit, load);
    var ms := Flatten(Reloading.DumpNode(ds, emit, load), "");
    var texts: seq<Vars.Op<Defines>> := Configuration.OpsFor(ms, "loggers", emit);
    Configuration.LoadIsPerVariable(reg, ms, emit, "loggers");
    Vars.HistoriesTelescope(s, texts, rules);
    OpsForDump(ds, emit, load);
    ManagerFollowsVariable(s, texts, emit, load, m);
    ReloadForgets(m, ds);
    hide Reloading.Reload, Flatten, Configuration.LoadAll, Configuration.OpsFor;
    if ds != [] {
      Configuration.RunOne(s, texts[0], rules);
    }
  }

  /** For one manager of which the reload is known. */
  lemma LoadingOneDump(m: Loggers, ds: Defines, reg: Registry, emit: Node -> string, load: string -> Node)
    requires Reloading.Sound(m) && Reloading.DumpOf(ds, m)
    requires Reloading.SameEmissions(m, Reloading.Reload(m, ds)) <==> Reloading.AllInPlace(m)
    requires ReadsBack(ds, emit, load) && HasListener(reg, emit, load)
    ensures OnlyAddsCalls(reg, Loaded(ds, reg, emit, load))
    ensures Reloading.SameEmissions(m, Listening(m, reg, Loaded(ds, reg, emit, load)))
            <==> SameSet(reg["loggers"].state.value, ds) || Reloading.AllInPlace(m)
  {
    Reloading.DumpDecodes(m, ds, emit, load);
    DumpIsHeard(m, ds, reg, emit, load);
    hide Reloading.Sound, Reloading.Reload, Listening, Loaded, Emissions, OnlyAddsCalls, ReadsBack, SameSet;
    if ds == [] {
      assert m.Keys == {};
    }
  }

  /** Whatever a manager has become through its operations, the logging of events among them,
      and whatever the variable holds: loading the manager's own dump through the configuration
      keeps what every event is emitted to if and only if the dump counts as no change of the
      variable, or no file is open on a path other than its own. */
  lemma LoadingTheDumpPreservesMeaningExactly(m: Loggers, ds: Defines, reg: Registry,
                                              emit: Node -> string, load: string -> Node)
    requires Reloading.Reachable(m) && Reloading.DumpOf(ds, m)
    requires ReadsBack(ds, emit, load) && HasListener(reg, emit, load)
    ensures OnlyAddsCalls(reg, Loaded(ds, reg, emit, load))
    ensures Reloading.SameEmissions(m, Listening(m, reg, Loaded(ds, reg, emit, load)))
            <==> SameSet(reg["loggers"].state.value, ds) || Reloading.AllInPlace(m)
  {
    Reloading.ReachableIsSound(m);
    Reloading.DumpAndReloadPreservesMeaningExactly(m, ds);
    hide *;
    LoadingOneDump(m, ds, reg, emit, load);
  }
}
