/** What the operations of the manager mean, spelled out: which events pass which level, what
    updateLogger and createLogger leave, what a definition denotes (server/log.h,
    server/log.cpp). */
module LoggerMeaning {
  import opened Wrappers
  import opened LogDefines
  import opened LoggerSpec
  import Reloading = LoggerReload

  // ----- Levels -----

  /** The events that a logger or an appender at a level lets through. */
  function Passing(threshold: Level): set<Level> {
    match threshold
    case UNKNOW => {UNKNOW, DEBUG, INFO, WARN, ERROR, FATAL}
    case DEBUG => {DEBUG, INFO, WARN, ERROR, FATAL}
    case INFO => {INFO, WARN, ERROR, FATAL}
    case WARN => {WARN, ERROR, FATAL}
    case ERROR => {ERROR, FATAL}
    case FATAL => {FATAL}
  }

  lemma RankIsPassing(threshold: Level, event: Level)
    ensures Rank(event) >= Rank(threshold) <==> event in Passing(threshold)
  {
    match threshold
    case UNKNOW => assert event in {UNKNOW, DEBUG, INFO, WARN, ERROR, FATAL};
    case DEBUG =>
    case INFO =>
    case WARN =>
    case ERROR =>
    case FATAL =>
  }

  /** What the appenders emit that let an event through, in order: the stream is written to where
      it was opened, and otherwise to the path. */
  function PassedOn(appenders: seq<AppenderState>, event: Level): seq<Emission> {
    if appenders == [] then []
    else
      var a := appenders[0];
      (if event !in Passing(a.level) then []
       else [Emission(a.kind, if a.stream == None then a.path else a.stream.value, a.pattern)])
      + PassedOn(appenders[1..], event)
  }

  lemma {:induction false} EmittedIsPassedOn(appenders: seq<AppenderState>, event: Level)
    ensures EmittedBy(appenders, event) == PassedOn(appenders, event)
  {
    if appenders != [] {
      RankIsPassing(appenders[0].level, event);
      EmittedIsPassedOn(appenders[1..], event);
    }
  }

  /** A logger emits an event exactly if both its level and the appender's let it through. */
  lemma EmissionsExactly(l: LoggerState, event: Level)
    ensures Emissions(l, event) == if event in Passing(l.level) then PassedOn(l.appenders, event) else []
  {
    RankIsPassing(l.level, event);
    EmittedIsPassedOn(l.appenders, event);
  }

  /** One logger with one appender, level by level. */
  lemma OneAppenderEmits(name: string, pattern: string, logger: Level, a: AppenderState, event: Level)
    ensures Emissions(LoggerState(name, logger, pattern, [a]), event)
            == if event in Passing(logger) && event in Passing(a.level)
               then [Emission(a.kind, if a.stream == None then a.path else a.stream.value, a.pattern)] else []
  {
    EmissionsExactly(LoggerState(name, logger, pattern, [a]), event);
    assert [a][1..] == [] && PassedOn([a][1..], event) == [];
  }

  /** An event opens exactly the files that it is the first to reach, on their paths, and changes
      nothing else. */
  lemma LoggingOpensExactly(l: LoggerState, event: Level)
    ensures var l' := AfterLog(l, event);
            && l'.name == l.name && l'.level == l.level && l'.pattern == l.pattern && |l'.appenders| == |l.appenders|
            && forall i :: 0 <= i < |l.appenders| ==>
                 var a := l.appenders[i];
                 l'.appenders[i]
                 == if event in Passing(l.level) && event in Passing(a.level) && a.kind == File && a.stream == None
                    then a.(stream := Some(a.path)) else a
  {
    RankIsPassing(l.level, event);
    forall i | 0 <= i < |l.appenders|
      ensures Rank(event) >= Rank(l.appenders[i].level) <==> event in Passing(l.appenders[i].level)
    {
      RankIsPassing(l.appenders[i].level, event);
    }
  }

  // ----- updateLogger -----

  /** What becomes of an appender that is there. */
  function Kept(a: AppenderState, changed: bool, pattern: string, kinds: seq<string>, path: string): AppenderState {
    a.(pattern := if changed then pattern else a.pattern,
       custom := !changed && a.custom,
       path := if a.kind == File && "file" in kinds then path else a.path)
  }

  function KeptAll(appenders: seq<AppenderState>, changed: bool, pattern: string, kinds: seq<string>, path: string)
    : seq<AppenderState>
  {
    seq(|appenders|, i requires 0 <= i < |appenders| => Kept(appenders[i], changed, pattern, kinds, path))
  }

  predicate HasNo(appenders: seq<AppenderState>, kind: Kind) {
    forall i :: 0 <= i < |appenders| ==> appenders[i].kind != kind
  }

  predicate StdoutFirst(kinds: seq<string>) {
    kinds != [] && (kinds[0] == "stdout" || (kinds[0] != "file" && StdoutFirst(kinds[1..])))
  }

  /** The appenders that are added: one of each kind that is asked for and not there, in the
      order in which the kinds are first asked for. */
  function Added(appenders: seq<AppenderState>, kinds: seq<string>, path: string, pattern: string): seq<AppenderState> {
    var stdout := if "stdout" in kinds && HasNo(appenders, Stdout)
                  then [AppenderState(Stdout, "", DEBUG, pattern, false, None)] else [];
    var file := if "file" in kinds && HasNo(appenders, File)
                then [AppenderState(File, path, DEBUG, pattern, false, None)] else [];
    if StdoutFirst(kinds) then stdout + file else file + stdout
  }

  lemma HasNoIs(appenders: seq<AppenderState>, kind: Kind)
    ensures HasNo(appenders, kind) <==> !HasKind(appenders, kind)
  {
    if !HasKind(appenders, kind) {
      forall i | 0 <= i < |appenders| ensures appenders[i].kind != kind {
        assert !IsKind(appenders[i], kind);
      }
    }
  }

  lemma {:induction false} RequestsInClosedForm(l: LoggerState, kinds: seq<string>, path: string)
    ensures RequestAll(l, kinds, path)
            == l.(appenders := KeptAll(l.appenders, false, l.pattern, kinds, path) + Added(l.appenders, kinds, path, l.pattern))
    decreases |kinds|
  {
    if kinds == [] {
      assert KeptAll(l.appenders, false, l.pattern, kinds, path) == l.appenders;
      assert l.appenders + [] == l.appenders;
    } else {
      RequestsInClosedForm(Request(l, kinds[0], path), kinds[1..], path);
      FirstRequest(l, kinds, path);
    }
  }

  /** The closed form after the first request is the closed form before it. */
  lemma FirstRequest(l: LoggerState, kinds: seq<string>, path: string)
    requires kinds != []
    ensures var l1 := Request(l, kinds[0], path);
            && l1.name == l.name && l1.level == l.level && l1.pattern == l.pattern
            && KeptAll(l1.appenders, false, l.pattern, kinds[1..], path) + Added(l1.appenders, kinds[1..], path, l.pattern)
               == KeptAll(l.appenders, false, l.pattern, kinds, path) + Added(l.appenders, kinds, path, l.pattern)
  {
    HasNoIs(l.appenders, Stdout);
    HasNoIs(l.appenders, File);
    assert kinds == [kinds[0]] + kinds[1..];
    if kinds[0] == "stdout" {
      FirstStdout(l, kinds[1..], path);
    } else if kinds[0] == "file" {
      FirstFile(l, kinds[1..], path);
    } else {
      assert Added(l.appenders, kinds[1..], path, l.pattern) == Added(l.appenders, kinds, path, l.pattern);
      assert KeptAll(l.appenders, false, l.pattern, kinds[1..], path) == KeptAll(l.appenders, false, l.pattern, kinds, path);
    }
  }

  lemma FirstStdout(l: LoggerState, rest: seq<string>, path: string)
    ensures var l1 := Request(l, "stdout", path);
            && l1.name == l.name && l1.level == l.level && l1.pattern == l.pattern
            && KeptAll(l1.appenders, false, l.pattern, rest, path) + Added(l1.appenders, rest, path, l.pattern)
               == KeptAll(l.appenders, false, l.pattern, ["stdout"] + rest, path)
                  + Added(l.appenders, ["stdout"] + rest, path, l.pattern)
  {
    var kinds := ["stdout"] + rest;
    var l1 := Request(l, "stdout", path);
    HasNoIs(l.appenders, Stdout);
    assert kinds[0] == "stdout" && ("file" in kinds <==> "file" in rest);
    var kept := KeptAll(l.appenders, false, l.pattern, kinds, path);
    assert kept == KeptAll(l.appenders, false, l.pattern, rest, path);
    var more := [AppenderState(Stdout, "", DEBUG, l.pattern, false, None)];
    if HasNo(l.appenders, Stdout) {
      assert l1.appenders == l.appenders + more && l1.appenders[|l.appenders|] == more[0];
      assert KeptAll(l1.appenders, false, l.pattern, rest, path) == kept + more;
      AddingKeepsOther(l.appenders, more[0], File);
      assert !HasNo(l1.appenders, Stdout);
    }
  }

  lemma FirstFile(l: LoggerState, rest: seq<string>, path: string)
    ensures var l1 := Request(l, "file", path);
            && l1.name == l.name && l1.level == l.level && l1.pattern == l.pattern
            && KeptAll(l1.appenders, false, l.pattern, rest, path) + Added(l1.appenders, rest, path, l.pattern)
               == KeptAll(l.appenders, false, l.pattern, ["file"] + rest, path)
                  + Added(l.appenders, ["file"] + rest, path, l.pattern)
  {
    var kinds := ["file"] + rest;
    var l1 := Request(l, "file", path);
    HasNoIs(l.appenders, File);
    assert kinds[0] == "file" && ("stdout" in kinds <==> "stdout" in rest);
    var kept := KeptAll(l.appenders, false, l.pattern, kinds, path);
    var more := [AppenderState(File, path, DEBUG, l.pattern, false, None)];
    if HasNo(l.appenders, File) {
      assert l1.appenders == l.appenders + more && l1.appenders[|l.appenders|] == more[0];
      assert KeptAll(l1.appenders, false, l.pattern, rest, path) == kept + more;
      AddingKeepsOther(l.appenders, more[0], Stdout);
      assert !HasNo(l1.appenders, File);
    } else {
      assert l1.appenders == SetPaths(l.appenders, path);
      assert KeptAll(l1.appenders, false, l.pattern, rest, path) == kept;
      assert forall i :: 0 <= i < |l.appenders| ==> l1.appenders[i].kind == l.appenders[i].kind;
      assert HasNo(l1.appenders, Stdout) == HasNo(l.appenders, Stdout) && HasNo(l1.appenders, File) == HasNo(l.appenders, File);
    }
  }

  lemma AddingKeepsOther(appenders: seq<AppenderState>, a: AppenderState, kind: Kind)
    requires a.kind != kind
    ensures HasNo(appenders + [a], kind) == HasNo(appenders, kind)
  {
    if HasNo(appenders + [a], kind) {
      forall i | 0 <= i < |appenders| ensures appenders[i].kind != kind {
        assert (appenders + [a])[i] == appenders[i];
      }
    }
  }

  /** What updateLogger leaves, for all arguments: the given level and pattern and the old name;
      every appender that was there, in its place, with its kind, level and stream, the new
      pattern if that is another, and the given path if it is a file and a file is asked for;
      and then what is added. */
  lemma UpdateExactly(l: LoggerState, level: Level, pattern: string, kinds: seq<string>, path: string)
    ensures var l', n := Update(l, level, pattern, kinds, path), |l.appenders|;
            && l'.name == l.name && l'.level == level && l'.pattern == pattern
            && |l'.appenders| >= n
            && (forall i :: 0 <= i < n ==> l'.appenders[i] == Kept(l.appenders[i], pattern != l.pattern, pattern, kinds, path))
            && l'.appenders[n..] == Added(l.appenders, kinds, path, pattern)
  {
    var l0 := SetPattern(l.(level := level), pattern);
    RequestsInClosedForm(l0, kinds, path);
    assert forall i :: 0 <= i < |l.appenders| ==> l0.appenders[i].kind == l.appenders[i].kind;
    assert HasNo(l0.appenders, Stdout) == HasNo(l.appenders, Stdout) && HasNo(l0.appenders, File) == HasNo(l.appenders, File);
  }

  /** At most one appender of each kind is added, and only of a kind that is asked for. */
  lemma AddedAtMostOnce(appenders: seq<AppenderState>, kinds: seq<string>, path: string, pattern: string)
    ensures var added := Added(appenders, kinds, path, pattern);
            && |added| <= 2 && (|added| == 2 ==> added[0].kind != added[1].kind)
            && forall a :: a in added ==>
                 && HasNo(appenders, a.kind) && (if a.kind == File then "file" in kinds else "stdout" in kinds)
                 && a == AppenderState(a.kind, if a.kind == File then path else "", DEBUG, pattern, false, None)
  {}

  // ----- The other loggers -----

  /** updateLogger and createLogger on a registered name do the same, to that logger alone; on
      another name updateLogger does nothing.  Logging touches the one logger alone. */
  lemma OneLoggerAlone(m: Loggers, name: string, level: Level, pattern: string, kinds: seq<string>, path: string, event: Level)
    ensures name in m ==>
              && UpdateIn(m, name, level, pattern, kinds, path) == m[name := Update(m[name], level, pattern, kinds, path)]
              && Create(m, name, level, pattern, kinds, path) == UpdateIn(m, name, level, pattern, kinds, path)
              && LogIn(m, name, event) == m[name := AfterLog(m[name], event)]
    ensures name !in m ==> UpdateIn(m, name, level, pattern, kinds, path) == m && LogIn(m, name, event) == m
  {}

  // ----- createLogger -----

  /** The kinds of appenders there are. */
  predicate IsKnown(kind: string) {
    kind == "stdout" || kind == "file"
  }

  function Known(kinds: seq<string>): seq<string> {
    if kinds == [] then [] else (if IsKnown(kinds[0]) then [kinds[0]] else []) + Known(kinds[1..])
  }

  /** The appender of a new logger. */
  function Fresh(kind: string, path: string, level: Level, pattern: string): AppenderState {
    if kind == "file" then AppenderState(File, path, level, pattern, false, None)
    else AppenderState(Stdout, "", level, pattern, false, None)
  }

  lemma {:induction false} NewAppendersExactly(kinds: seq<string>, level: Level, pattern: string, path: string)
    ensures var made := NewAppenders(kinds, level, pattern, path);
            |made| == |Known(kinds)| && forall i :: 0 <= i < |made| ==> made[i] == Fresh(Known(kinds)[i], path, level, pattern)
  {
    if kinds != [] {
      NewAppendersExactly(kinds[1..], level, pattern, path);
      NewAppenderExactly(kinds[0], level, pattern, path);
      hide Fresh, NewAppender, IsKnown;
      var made, known := NewAppenders(kinds, level, pattern, path), Known(kinds);
      var first := if IsKnown(kinds[0]) then 1 else 0;
      forall i | 0 <= i < |made| ensures made[i] == Fresh(known[i], path, level, pattern) {
        if i >= first {
          assert made[i] == NewAppenders(kinds[1..], level, pattern, path)[i - first] && known[i] == Known(kinds[1..])[i - first];
        }
      }
    }
  }

  lemma NewAppenderExactly(kind: string, level: Level, pattern: string, path: string)
    ensures NewAppender(kind, level, pattern, path) == if IsKnown(kind) then [Fresh(kind, path, level, pattern)] else []
  {}

  /** A new logger has one appender for each known kind that is asked for, in that order, with
      the logger's level and pattern; unknown kinds are skipped; the others stay. */
  lemma CreateExactly(m: Loggers, name: string, level: Level, pattern: string, kinds: seq<string>, path: string)
    requires name !in m
    ensures var m' := Create(m, name, level, pattern, kinds, path);
            && name in m' && m' == m[name := m'[name]]
            && m'[name].name == name && m'[name].level == level && m'[name].pattern == pattern
            && |m'[name].appenders| == |Known(kinds)|
            && forall i :: 0 <= i < |Known(kinds)| ==> m'[name].appenders[i] == Fresh(Known(kinds)[i], path, level, pattern)
  {
    NewAppendersExactly(kinds, level, pattern, path);
  }

  lemma {:induction false} FreshEmitAll(appenders: seq<AppenderState>, level: Level, event: Level)
    requires event in Passing(level) && forall i :: 0 <= i < |appenders| ==> appenders[i].level == level
    ensures |PassedOn(appenders, event)| == |appenders|
    ensures forall i :: 0 <= i < |appenders| ==>
              var e, a := PassedOn(appenders, event)[i], appenders[i];
              e.kind == a.kind && e.pattern == a.pattern && (a.stream == None ==> e.path == a.path)
  {
    if appenders != [] {
      FreshEmitAll(appenders[1..], level, event);
    }
  }

  /** So an event that passes the level of a new logger is emitted once to each of them. */
  lemma NewLoggerEmits(m: Loggers, name: string, level: Level, pattern: string, kinds: seq<string>, path: string, event: Level)
    requires name !in m
    ensures var es := Emissions(Create(m, name, level, pattern, kinds, path)[name], event);
            if event !in Passing(level) then es == []
            else
              && |es| == |Known(kinds)|
              && forall i :: 0 <= i < |es| ==>
                   es[i] == if Known(kinds)[i] == "file" then Emission(File, path, pattern) else Emission(Stdout, "", pattern)
  {
    var l := Create(m, name, level, pattern, kinds, path)[name];
    CreateExactly(m, name, level, pattern, kinds, path);
    EmissionsExactly(l, event);
    if event in Passing(level) {
      FreshEmitAll(l.appenders, level, event);
    }
  }

  // ----- getLogger and the root logger -----

  /** A logger that getLogger makes is at DEBUG, has the default pattern and emits nothing. */
  lemma GottenExactly(m: Loggers, name: string, event: Level)
    ensures var m' := GetOrCreate(m, name);
            && name in m' && (name in m ==> m' == m) && (name !in m ==> m' == m[name := m'[name]])
            && (name !in m ==>
                  && m'[name] == LoggerState(name, DEBUG, "%d{%Y-%m-%d %H:%M:%S}%T%t%T%F%T[%p]%T[%c]%T%f:%l%T%m", [])
                  && Emissions(m'[name], event) == [])
  {}

  /** A fresh manager has the root logger alone, which writes every event but those of unknown
      level to standard output. */
  lemma RootExactly(event: Level)
    ensures Reloading.INITIAL.Keys == {"root"} && Reloading.INITIAL["root"].name == "root"
    ensures Emissions(Reloading.INITIAL["root"], event)
            == if event == UNKNOW then []
               else [Emission(Stdout, "", "%d{%Y-%m-%d %H:%M:%S}%T%t%T%F%T[%p]%T[%c]%T%f:%l%T%m")]
  {
    var root := Reloading.INITIAL["root"];
    OneAppenderEmits("root", root.pattern, DEBUG, root.appenders[0], event);
    assert root.appenders == [root.appenders[0]];
  }

  // ----- What a definition denotes -----

  function KnownDefines(ds: seq<AppenderDefine>): seq<AppenderDefine> {
    if ds == [] then [] else (if IsKnown(ds[0].kind) then [ds[0]] else []) + KnownDefines(ds[1..])
  }

  /** The appender that a definition of a known kind denotes. */
  function Defined(d: AppenderDefine, level: Level, pattern: string): AppenderState {
    var l := if d.level == UNKNOW then level else d.level;
    var p := if d.formatter == "" then pattern else d.formatter;
    if d.kind == "file" then AppenderState(File, d.path, l, p, d.formatter != "", None)
    else AppenderState(Stdout, "", l, p, d.formatter != "", None)
  }

  lemma {:induction false} DefinedExactly(ds: seq<AppenderDefine>, level: Level, pattern: string)
    ensures var r := DenoteAppenders(ds, level, pattern);
            && |r| == |KnownDefines(ds)|
            && forall i :: 0 <= i < |r| ==> r[i] == Defined(KnownDefines(ds)[i], level, pattern)
  {
    if ds != [] {
      DefinedExactly(ds[1..], level, pattern);
      DefinedOneExactly(ds[0], level, pattern);
      hide Defined, DenoteAppender, IsKnown;
      var r, known := DenoteAppenders(ds, level, pattern), KnownDefines(ds);
      var first := if IsKnown(ds[0].kind) then 1 else 0;
      forall i | 0 <= i < |r| ensures r[i] == Defined(known[i], level, pattern) {
        if i >= first {
          assert r[i] == DenoteAppenders(ds[1..], level, pattern)[i - first] && known[i] == KnownDefines(ds[1..])[i - first];
        }
      }
    }
  }

  lemma DefinedOneExactly(d: AppenderDefine, level: Level, pattern: string)
    ensures DenoteAppender(d, level, pattern) == if IsKnown(d.kind) then [Defined(d, level, pattern)] else []
  {}

  /** A definition denotes the logger with its name, level and formatter, and one appender for
      each definition of a known kind, in order, with what that says or the logger says. */
  lemma DenoteExactly(d: LogDefine)
    ensures var l := Denote(d);
            && l.name == d.name && l.level == d.level && l.pattern == d.formatter
            && |l.appenders| == |KnownDefines(d.appenders)|
            && forall i :: 0 <= i < |l.appenders| ==>
                 l.appenders[i] == Defined(KnownDefines(d.appenders)[i], d.level, d.formatter)
  {
    DefinedExactly(d.appenders, d.level, d.formatter);
  }

  // ----- What the dump keeps -----

  /** Dumping a logger and configuring it again keeps its name, level and pattern, and of every
      appender its kind, its path, its level unless that is unknown, its pattern and the mark
      that the pattern is its own; an appender without the mark gets the logger's pattern, and
      no file is open. */
  lemma DumpKeeps(l: LoggerState)
    requires StdoutsOk(l)
    ensures var l' := Denote(Dump(l));
            && l'.name == l.name && l'.level == l.level && l'.pattern == l.pattern && |l'.appenders| == |l.appenders|
            && forall i :: 0 <= i < |l.appenders| ==> Redumped(l.appenders[i], l'.appenders[i], l)
  {
    RedoneAppenders(l.appenders, l.level, l.pattern);
  }

  predicate Redumped(a: AppenderState, b: AppenderState, l: LoggerState) {
    && b.kind == a.kind && b.path == a.path && b.stream == None
    && b.level == (if a.level == UNKNOW then l.level else a.level)
    && b.custom == (a.custom && a.pattern != "")
    && b.pattern == (if b.custom then a.pattern else l.pattern)
  }
}
