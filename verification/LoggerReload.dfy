/** Reconciling a manager with a set of definitions, and reloading its own dump
    (server/log.cpp, LogInit and LoggerManager::toYamlString). */
module LoggerReload {
  import opened Wrappers
  import opened Strings
  import opened Yaml
  import opened LogDefines
  import opened LoggerSpec

  // ----- The listener of the loggers variable -----

  function Names(ds: seq<LogDefine>): set<string> {
    set i | 0 <= i < |ds| :: ds[i].name
  }

  function KeepNamed(m: Loggers, names: set<string>): Loggers {
    map name | name in m && name in names :: m[name]
  }

  function ConfigureAll(m: Loggers, ds: seq<LogDefine>): Loggers
    decreases |ds|
  {
    if ds == [] then m else ConfigureAll(Configure(m, ds[0]), ds[1..])
  }

  /** Removes the loggers that are not named, then configures each definition in turn. */
  function Reload(m: Loggers, ds: seq<LogDefine>): Loggers {
    ConfigureAll(KeepNamed(m, Names(ds)), ds)
  }

  lemma NamesOfCons(d: LogDefine, ds: seq<LogDefine>)
    ensures Names([d] + ds) == {d.name} + Names(ds)
  {
    var all := [d] + ds;
    assert all[0] == d;
    assert forall i :: 0 <= i < |ds| ==> all[i + 1] == ds[i];
    assert forall i :: 1 <= i < |all| ==> all[i] == ds[i - 1];
  }

  /** In a sorted list the first name does not come again. */
  lemma FirstNameIsUnique(ds: seq<LogDefine>)
    requires ds != [] && SortedByName(ds)
    ensures SortedByName(ds[1..]) && Names(ds) == {ds[0].name} + Names(ds[1..]) && ds[0].name !in Names(ds[1..])
  {
    SortedTail(ds);
    assert ds == [ds[0]] + ds[1..];
    NamesOfCons(ds[0], ds[1..]);
    forall i | 0 <= i < |ds[1..]| ensures ds[1..][i].name != ds[0].name {
      assert ds[1..][i] in ds[1..];
      LessIsTotal(ds[0].name, ds[0].name);
    }
  }

  lemma {:induction false} ConfigureAllDenotes(m: Loggers, ds: seq<LogDefine>)
    requires SortedByName(ds)
    ensures ConfigureAll(m, ds).Keys == m.Keys + Names(ds)
    ensures forall name :: name in m && name !in Names(ds) ==> ConfigureAll(m, ds)[name] == m[name]
    ensures forall i :: 0 <= i < |ds| ==> ConfigureAll(m, ds)[ds[i].name] == Denote(ds[i])
    decreases |ds|
  {
    hide Denote;
    if ds != [] {
      FirstNameIsUnique(ds);
      ConfigureAllDenotes(Configure(m, ds[0]), ds[1..]);
      forall i | 0 <= i < |ds| ensures ConfigureAll(m, ds)[ds[i].name] == Denote(ds[i]) {
        if i > 0 {
          assert ds[1..][i - 1] == ds[i];
        }
      }
    }
  }

  /** From any prior state the listener reaches the state that the set denotes. */
  lemma ReloadReachesTheDefinitions(m: Loggers, ds: seq<LogDefine>)
    requires SortedByName(ds)
    ensures Reload(m, ds).Keys == Names(ds)
    ensures forall i :: 0 <= i < |ds| ==> Reload(m, ds)[ds[i].name] == Denote(ds[i])
  {
    ConfigureAllDenotes(KeepNamed(m, Names(ds)), ds);
  }

  // ----- States reached through manager operations -----

  datatype Op =
    | GetLogger(name: string)
    | CreateLogger(name: string, level: Level, pattern: string, kinds: seq<string>, path: string)
    | UpdateLogger(name: string, level: Level, pattern: string, kinds: seq<string>, path: string)
    | ConfigureLogger(d: LogDefine)
    | RemoveLogger(name: string)
    | ReloadLoggers(ds: seq<LogDefine>)
    | LogEvent(name: string, level: Level)

  function Run(m: Loggers, op: Op): Loggers {
    match op
    case GetLogger(name) => GetOrCreate(m, name)
    case CreateLogger(name, level, pattern, kinds, path) => Create(m, name, level, pattern, kinds, path)
    case UpdateLogger(name, level, pattern, kinds, path) => UpdateIn(m, name, level, pattern, kinds, path)
    case ConfigureLogger(d) => Configure(m, d)
    case RemoveLogger(name) => m - {name}
    case ReloadLoggers(ds) => Reload(m, ds)
    case LogEvent(name, level) => LogIn(m, name, level)
  }

  function RunAll(m: Loggers, ops: seq<Op>): Loggers
    decreases |ops|
  {
    if ops == [] then m else RunAll(Run(m, ops[0]), ops[1..])
  }

  /** What the constructor of LoggerManager leaves. */
  const INITIAL: Loggers :=
    map["root" := LoggerState("root", DEBUG, DEFAULT_PATTERN, [AppenderState(Stdout, "", DEBUG, DEFAULT_PATTERN, false, None)])]

  /** What a manager can become through its operations. */
  ghost predicate Reachable(m: Loggers) {
    exists ops :: m == RunAll(INITIAL, ops)
  }

  ghost predicate SoundLogger(l: LoggerState) {
    Faithful(l) && StdoutsOk(l)
  }

  ghost predicate Sound(m: Loggers) {
    forall name :: name in m ==> m[name].name == name && SoundLogger(m[name])
  }

  lemma {:induction false} DenotedAppendersAreSound(appenders: seq<AppenderDefine>, level: Level, pattern: string)
    ensures forall i :: 0 <= i < |DenoteAppenders(appenders, level, pattern)| ==>
              var a := DenoteAppenders(appenders, level, pattern)[i];
              FaithfulAppender(a, pattern) && StdoutOk(a)
  {
    if appenders != [] {
      DenotedAppendersAreSound(appenders[1..], level, pattern);
    }
  }

  lemma DenotedIsSound(d: LogDefine)
    ensures SoundLogger(Denote(d))
  {
    DenotedAppendersAreSound(d.appenders, d.level, d.formatter);
  }

  lemma RequestKeepsSound(l: LoggerState, kind: string, path: string)
    requires SoundLogger(l)
    ensures SoundLogger(Request(l, kind, path)) && Request(l, kind, path).name == l.name
  {}

  lemma {:induction false} RequestAllKeepsSound(l: LoggerState, kinds: seq<string>, path: string)
    requires SoundLogger(l)
    ensures SoundLogger(RequestAll(l, kinds, path)) && RequestAll(l, kinds, path).name == l.name
    decreases |kinds|
  {
    if kinds != [] {
      RequestKeepsSound(l, kinds[0], path);
      RequestAllKeepsSound(Request(l, kinds[0], path), kinds[1..], path);
    }
  }

  lemma LoggingKeepsSound(l: LoggerState, level: Level)
    requires SoundLogger(l)
    ensures SoundLogger(AfterLog(l, level)) && AfterLog(l, level).name == l.name
  {
    forall i | 0 <= i < |l.appenders|
      ensures FaithfulAppender(Opened(l.appenders[i], level), l.pattern) && StdoutOk(Opened(l.appenders[i], level))
    {
      assert FaithfulAppender(l.appenders[i], l.pattern) && StdoutOk(l.appenders[i]);
    }
  }

  lemma UpdateKeepsSound(l: LoggerState, level: Level, pattern: string, kinds: seq<string>, path: string)
    requires SoundLogger(l)
    ensures SoundLogger(Update(l, level, pattern, kinds, path)) && Update(l, level, pattern, kinds, path).name == l.name
  {
    var l1 := l.(level := level);
    assert SoundLogger(l1) by {
      assert forall i :: 0 <= i < |l.appenders| ==> FaithfulAppender(l.appenders[i], l.pattern);
    }
    RequestAllKeepsSound(SetPattern(l1, pattern), kinds, path);
  }

  lemma {:induction false} NewAppendersAreSound(kinds: seq<string>, level: Level, pattern: string, path: string)
    ensures forall i :: 0 <= i < |NewAppenders(kinds, level, pattern, path)| ==>
              var a := NewAppenders(kinds, level, pattern, path)[i];
              FaithfulAppender(a, pattern) && StdoutOk(a)
  {
    if kinds != [] {
      NewAppendersAreSound(kinds[1..], level, pattern, path);
    }
  }

  lemma {:induction false} ConfigureAllKeepsSound(m: Loggers, ds: seq<LogDefine>)
    requires Sound(m)
    ensures Sound(ConfigureAll(m, ds))
    decreases |ds|
  {
    if ds != [] {
      DenotedIsSound(ds[0]);
      ConfigureAllKeepsSound(Configure(m, ds[0]), ds[1..]);
    }
  }

  lemma RunKeepsSound(m: Loggers, op: Op)
    requires Sound(m)
    ensures Sound(Run(m, op))
  {
    match op
    case CreateLogger(name, level, pattern, kinds, path) =>
      if name in m {
        UpdateKeepsSound(m[name], level, pattern, kinds, path);
      } else {
        NewAppendersAreSound(kinds, level, pattern, path);
      }
    case UpdateLogger(name, level, pattern, kinds, path) =>
      if name in m {
        UpdateKeepsSound(m[name], level, pattern, kinds, path);
      }
    case ConfigureLogger(d) => DenotedIsSound(d);
    case LogEvent(name, level) =>
      if name in m {
        LoggingKeepsSound(m[name], level);
      }
    case ReloadLoggers(ds) => ConfigureAllKeepsSound(KeepNamed(m, Names(ds)), ds);
    case _ =>
  }

  lemma {:induction false} RunAllKeepsSound(m: Loggers, ops: seq<Op>)
    requires Sound(m)
    ensures Sound(RunAll(m, ops))
    decreases |ops|
  {
    if ops != [] {
      RunKeepsSound(m, ops[0]);
      RunAllKeepsSound(Run(m, ops[0]), ops[1..]);
    }
  }

  lemma ReachableIsSound(m: Loggers)
    requires Reachable(m)
    ensures Sound(m)
  {
    var ops :| m == RunAll(INITIAL, ops);
    InitialIsSound();
    hide Sound;
    RunAllKeepsSound(INITIAL, ops);
  }

  lemma InitialIsSound()
    ensures Sound(INITIAL)
  {}

  // ----- Reloading a dump -----

  /** `ds` lists the loggers of m as toYamlString does: in name order, each turned into its
      definition. */
  ghost predicate DumpOf(ds: seq<LogDefine>, m: Loggers) {
    && SortedByName(ds)
    && Names(ds) == m.Keys
    && forall i :: 0 <= i < |ds| ==> ds[i].name in m && ds[i] == Dump(m[ds[i].name])
  }

  /** The node that toYamlString renders. */
  function DumpNode(ds: seq<LogDefine>, emit: Node -> string, load: string -> Node): Node {
    if ds == [] then Null else Map([Entry("loggers", Sequence(EncodeAll(ds, emit, load)))])
  }

  /** No file of the manager is open on a path other than its own. */
  ghost predicate AllInPlace(m: Loggers) {
    forall name :: name in m ==> InPlace(m[name])
  }

  ghost predicate SameEmissions(m: Loggers, m': Loggers) {
    m'.Keys == m.Keys && forall name, level :: name in m ==> Emissions(m'[name], level) == Emissions(m[name], level)
  }

  lemma DumpIsSound(m: Loggers, ds: seq<LogDefine>, i: nat)
    requires Sound(m) && DumpOf(ds, m) && i < |ds|
    ensures Decode(Encode(ds[i])) == Some(ds[i])
    ensures (forall level :: Emissions(Denote(ds[i]), level) == Emissions(m[ds[i].name], level)) <==> InPlace(m[ds[i].name])
  {
    DefineRoundTrip(ds[i]);
    DumpPreservesMeaningExactly(m[ds[i].name]);
  }

  /** Reloading the dump of any manager that its operations can make, the logging of events
      among them, keeps the loggers and what every event of every level is emitted to, if and
      only if no file is open on a path other than its own. */
  lemma DumpAndReloadPreservesMeaningExactly(m: Loggers, ds: seq<LogDefine>)
    requires Reachable(m) && DumpOf(ds, m)
    ensures SameEmissions(m, Reload(m, ds)) <==> AllInPlace(m)
  {
    ReachableIsSound(m);
    hide Reachable, Emissions, Denote, Sound;
    ReloadReachesTheDefinitions(m, ds);
    var m' := Reload(m, ds);
    forall name | name in m
      ensures (forall level :: Emissions(m'[name], level) == Emissions(m[name], level)) <==> InPlace(m[name])
    {
      assert name in Names(ds);
      var i :| 0 <= i < |ds| && ds[i].name == name;
      DumpIsSound(m, ds, i);
    }
  }

  /** The dump decodes to itself, as a sequence and as a set, if the library reads back the
      definitions that it has written. */
  lemma DumpDecodes(m: Loggers, ds: seq<LogDefine>, emit: Node -> string, load: string -> Node)
    requires Sound(m) && DumpOf(ds, m)
    requires forall i :: 0 <= i < |ds| ==> Reparse(Encode(ds[i]), emit, load) == Encode(ds[i])
    ensures DecodedSet(Sequence(EncodeAll(ds, emit, load)), emit, load) == Some(ds)
  {
    hide Sound, Decode, Encode, Reparse, DecodeAll, SetFrom;
    forall i | 0 <= i < |ds| ensures Decode(Encode(ds[i])) == Some(ds[i]) {
      DumpIsSound(m, ds, i);
    }
    DecodeAllRoundTrip(ds, emit, load);
    assert [] + ds == ds;
    SortedIsItsSet([], ds);
  }

  // ----- The input that shows an open file -----

  function OneFile(name: string, pattern: string, path: string, stream: Option<string>): LoggerState {
    LoggerState(name, DEBUG, pattern, [AppenderState(File, path, DEBUG, pattern, false, stream)])
  }

  lemma OneFileIsMade(name: string, pattern: string, path: string)
    ensures LoggerState(name, DEBUG, pattern, NewAppenders(["file"], DEBUG, pattern, path))
            == OneFile(name, pattern, path, None)
  {
    assert ["file"][1..] == [];
  }

  lemma OneFileIsMoved(name: string, pattern: string, path: string, stream: Option<string>, other: string)
    ensures Update(OneFile(name, pattern, path, stream), DEBUG, pattern, ["file"], other)
            == OneFile(name, pattern, other, stream)
  {
    var l, kinds := OneFile(name, pattern, path, stream), ["file"];
    assert IsKind(l.appenders[0], File);
    assert SetPaths(l.appenders, other) == OneFile(name, pattern, other, stream).appenders;
    var l' := Request(l, kinds[0], other);
    assert l' == OneFile(name, pattern, other, stream);
    assert kinds[1..] == [] && RequestAll(l', kinds[1..], other) == l';
    assert l.(level := DEBUG) == l && SetPattern(l, pattern) == l;
  }

  lemma OneFileIsDumped(name: string, pattern: string, path: string, stream: Option<string>)
    ensures Denote(Dump(OneFile(name, pattern, path, stream))) == OneFile(name, pattern, path, None)
  {
    var a := AppenderDefine("file", path, DEBUG, "");
    assert DumpAppenders(OneFile(name, pattern, path, stream).appenders) == [a];
    assert [a][1..] == [] && DenoteAppenders([a][1..], DEBUG, pattern) == [];
    assert DenoteAppenders([a], DEBUG, pattern) == DenoteAppender(a, DEBUG, pattern);
  }

  lemma OneFileEmits(name: string, pattern: string, path: string, stream: Option<string>)
    ensures Emissions(OneFile(name, pattern, path, stream), INFO)
            == [Emission(File, if stream.Some? then stream.value else path, pattern)]
  {
    var appenders := OneFile(name, pattern, path, stream).appenders;
    assert appenders[1..] == [] && EmittedBy(appenders[1..], INFO) == [];
    assert EmittedBy(appenders, INFO) == [Emission(File, Target(appenders[0]), pattern)];
  }

  /** The operations that show it: a logger that has written to one file, and is then given
      another, writes on to the first, and after a reload to the second. */
  lemma OpenFileStaysOpen(m: Loggers, name: string, pattern: string, first: string, second: string)
    requires name !in m && first != second
    ensures var m' := RunAll(m, [CreateLogger(name, DEBUG, pattern, ["file"], first), LogEvent(name, INFO),
                                 UpdateLogger(name, DEBUG, pattern, ["file"], second)]);
            && name in m' && !InPlace(m'[name])
            && Emissions(m'[name], INFO) == [Emission(File, first, pattern)]
            && Emissions(Denote(Dump(m'[name])), INFO) == [Emission(File, second, pattern)]
  {
    OneFileIsMade(name, pattern, first);
    OneFileIsMoved(name, pattern, first, Some(first), second);
    OneFileIsDumped(name, pattern, second, Some(first));
    OneFileEmits(name, pattern, second, Some(first));
    OneFileEmits(name, pattern, second, None);
    assert AfterLog(OneFile(name, pattern, first, None), INFO) == OneFile(name, pattern, first, Some(first));
    hide AfterLog, Update, NewAppenders, Denote, Dump, Emissions;
    var ops := [CreateLogger(name, DEBUG, pattern, ["file"], first), LogEvent(name, INFO),
                UpdateLogger(name, DEBUG, pattern, ["file"], second)];
    var m1 := Run(m, ops[0]);
    var m2 := Run(m1, ops[1]);
    var m3 := Run(m2, ops[2]);
    assert m3[name] == OneFile(name, pattern, second, Some(first));
    var last := ops[1..][1..];
    assert last[0] == ops[2] && last[1..] == [] && RunAll(m3, last[1..]) == m3;
    assert RunAll(m2, last) == m3;
    assert RunAll(m1, ops[1..]) == m3;
    assert !InPlaceAppender(m3[name].appenders[0]);
  }
}
