/** The meaning of a logger manager as values: states, what the manager's operations do to
    them, and what an event is emitted to (server/log.h, server/log.cpp). */
module LoggerSpec {
  import opened Wrappers
  import opened LogDefines

  datatype Kind = Stdout | File

  /** `custom` is m_hasCustomFomatter and `stream` the path on which the stream was opened, if it
      is open; a stdout appender has the empty path and no stream. */
  datatype AppenderState = AppenderState(
    kind: Kind, path: string, level: Level, pattern: string, custom: bool, stream: Option<string>)

  datatype LoggerState = LoggerState(name: string, level: Level, pattern: string, appenders: seq<AppenderState>)

  type Loggers = map<string, LoggerState>

  const DEFAULT_PATTERN := "%d{%Y-%m-%d %H:%M:%S}%T%t%T%F%T[%p]%T[%c]%T%f:%l%T%m"

  // ----- What an event is emitted to -----

  datatype Emission = Emission(kind: Kind, path: string, pattern: string)

  /** An open stream goes on writing where it was opened. */
  function Target(a: AppenderState): string {
    if a.stream.Some? then a.stream.value else a.path
  }

  function EmittedBy(appenders: seq<AppenderState>, level: Level): seq<Emission> {
    if appenders == [] then []
    else
      var a := appenders[0];
      (if Rank(level) >= Rank(a.level) then [Emission(a.kind, Target(a), a.pattern)] else [])
      + EmittedBy(appenders[1..], level)
  }

  /** Logger::log: the sinks an event of a level goes to, in order, with their patterns. */
  function Emissions(l: LoggerState, level: Level): seq<Emission> {
    if Rank(level) >= Rank(l.level) then EmittedBy(l.appenders, level) else []
  }

  /** An appender that lets an event through opens its file, if it is not open. */
  function Opened(a: AppenderState, level: Level): AppenderState {
    if Rank(level) >= Rank(a.level) && a.kind == File && a.stream == None then a.(stream := Some(a.path)) else a
  }

  function OpenedAll(appenders: seq<AppenderState>, level: Level): seq<AppenderState> {
    seq(|appenders|, i requires 0 <= i < |appenders| => Opened(appenders[i], level))
  }

  /** The logger after an event of a level. */
  function AfterLog(l: LoggerState, level: Level): LoggerState {
    if Rank(level) >= Rank(l.level) then l.(appenders := OpenedAll(l.appenders, level)) else l
  }

  function LogIn(m: Loggers, name: string, level: Level): Loggers {
    if name in m then m[name := AfterLog(m[name], level)] else m
  }

  lemma {:induction false} OpeningKeepsTargets(appenders: seq<AppenderState>, level: Level, later: Level)
    ensures EmittedBy(OpenedAll(appenders, level), later) == EmittedBy(appenders, later)
  {
    if appenders != [] {
      assert OpenedAll(appenders, level)[1..] == OpenedAll(appenders[1..], level);
      OpeningKeepsTargets(appenders[1..], level, later);
    }
  }

  /** Logging an event changes nothing about what later events are emitted to. */
  lemma LoggingKeepsEmissions(l: LoggerState, level: Level, later: Level)
    ensures Emissions(AfterLog(l, level), later) == Emissions(l, later)
  {
    OpeningKeepsTargets(l.appenders, level, later);
  }

  // ----- configureLogger -----

  function DenoteAppender(a: AppenderDefine, level: Level, pattern: string): seq<AppenderState> {
    if a.kind != "file" && a.kind != "stdout" then []
    else
      var l := if a.level != UNKNOW then a.level else level;
      var custom := a.formatter != "";
      var p := if custom then a.formatter else pattern;
      [if a.kind == "file" then AppenderState(File, a.path, l, p, custom, None)
       else AppenderState(Stdout, "", l, p, custom, None)]
  }

  function DenoteAppenders(appenders: seq<AppenderDefine>, level: Level, pattern: string): seq<AppenderState> {
    if appenders == [] then []
    else DenoteAppender(appenders[0], level, pattern) + DenoteAppenders(appenders[1..], level, pattern)
  }

  /** The logger that a definition denotes. */
  function Denote(d: LogDefine): LoggerState {
    LoggerState(d.name, d.level, d.formatter, DenoteAppenders(d.appenders, d.level, d.formatter))
  }

  function Configure(m: Loggers, d: LogDefine): Loggers {
    m[d.name := Denote(d)]
  }

  // ----- updateLogger and createLogger -----

  function IsKind(a: AppenderState, kind: Kind): bool {
    a.kind == kind
  }

  predicate HasKind(appenders: seq<AppenderState>, kind: Kind) {
    exists i :: 0 <= i < |appenders| && IsKind(appenders[i], kind)
  }

  function SetPaths(appenders: seq<AppenderState>, path: string): seq<AppenderState> {
    seq(|appenders|, i requires 0 <= i < |appenders| => Moved(appenders[i], path))
  }

  function Moved(a: AppenderState, path: string): AppenderState {
    if a.kind == File then a.(path := path) else a
  }

  function SetPatterns(appenders: seq<AppenderState>, pattern: string): seq<AppenderState> {
    seq(|appenders|, i requires 0 <= i < |appenders| => appenders[i].(pattern := pattern, custom := false))
  }

  /** One requested appender of updateLogger. */
  function Request(l: LoggerState, kind: string, path: string): LoggerState {
    if kind == "stdout" then
      if HasKind(l.appenders, Stdout) then l
      else l.(appenders := l.appenders + [AppenderState(Stdout, "", DEBUG, l.pattern, false, None)])
    else if kind == "file" then
      if HasKind(l.appenders, File) then l.(appenders := SetPaths(l.appenders, path))
      else l.(appenders := l.appenders + [AppenderState(File, path, DEBUG, l.pattern, false, None)])
    else l
  }

  function RequestAll(l: LoggerState, kinds: seq<string>, path: string): LoggerState
    decreases |kinds|
  {
    if kinds == [] then l else RequestAll(Request(l, kinds[0], path), kinds[1..], path)
  }

  function SetPattern(l: LoggerState, pattern: string): LoggerState {
    if pattern == l.pattern then l else l.(pattern := pattern, appenders := SetPatterns(l.appenders, pattern))
  }

  /** The state that updateLogger leaves. */
  function Update(l: LoggerState, level: Level, pattern: string, kinds: seq<string>, path: string): LoggerState {
    RequestAll(SetPattern(l.(level := level), pattern), kinds, path)
  }

  function NewAppender(kind: string, level: Level, pattern: string, path: string): seq<AppenderState> {
    if kind == "stdout" then [AppenderState(Stdout, "", level, pattern, false, None)]
    else if kind == "file" then [AppenderState(File, path, level, pattern, false, None)]
    else []
  }

  function NewAppenders(kinds: seq<string>, level: Level, pattern: string, path: string): seq<AppenderState> {
    if kinds == [] then []
    else NewAppender(kinds[0], level, pattern, path) + NewAppenders(kinds[1..], level, pattern, path)
  }

  function Create(m: Loggers, name: string, level: Level, pattern: string, kinds: seq<string>, path: string): Loggers {
    m[name := if name in m then Update(m[name], level, pattern, kinds, path)
              else LoggerState(name, level, pattern, NewAppenders(kinds, level, pattern, path))]
  }

  function UpdateIn(m: Loggers, name: string, level: Level, pattern: string, kinds: seq<string>, path: string): Loggers {
    if name in m then m[name := Update(m[name], level, pattern, kinds, path)] else m
  }

  function GetOrCreate(m: Loggers, name: string): Loggers {
    if name in m then m else m[name := LoggerState(name, DEBUG, DEFAULT_PATTERN, [])]
  }

  // ----- updateLogger detects changes, and only once -----

  /** Repeating a request changes nothing. */
  predicate Satisfied(l: LoggerState, kind: string, path: string) {
    && (kind == "stdout" ==> HasKind(l.appenders, Stdout))
    && (kind == "file" ==> HasKind(l.appenders, File) && forall i :: 0 <= i < |l.appenders| ==> HasPath(l.appenders[i], path))
  }

  predicate HasPath(a: AppenderState, path: string) {
    a.kind == File ==> a.path == path
  }

  lemma SatisfiedExactly(l: LoggerState, kind: string, path: string)
    ensures Request(l, kind, path) == l <==> Satisfied(l, kind, path)
  {}

  lemma RequestKeepsKinds(l: LoggerState, kind: string, path: string, k: Kind)
    requires HasKind(l.appenders, k)
    ensures HasKind(Request(l, kind, path).appenders, k)
  {
    var i :| 0 <= i < |l.appenders| && IsKind(l.appenders[i], k);
    assert IsKind(Request(l, kind, path).appenders[i], k);
  }

  lemma RequestSatisfies(l: LoggerState, kind: string, path: string)
    ensures Satisfied(Request(l, kind, path), kind, path)
  {
    var l' := Request(l, kind, path);
    if kind == "file" {
      if HasKind(l.appenders, File) {
        RequestKeepsKinds(l, kind, path, File);
      } else {
        assert IsKind(l'.appenders[|l.appenders|], File);
        forall i | 0 <= i < |l.appenders| ensures HasPath(l'.appenders[i], path) {
          assert !IsKind(l.appenders[i], File);
        }
      }
    } else if kind == "stdout" && !HasKind(l.appenders, Stdout) {
      assert IsKind(l'.appenders[|l.appenders|], Stdout);
    }
  }

  lemma RequestKeepsSatisfied(l: LoggerState, kind: string, kind': string, path: string)
    requires Satisfied(l, kind, path)
    ensures Satisfied(Request(l, kind', path), kind, path)
  {
    var l' := Request(l, kind', path);
    if kind == "stdout" {
      RequestKeepsKinds(l, kind', path, Stdout);
    } else if kind == "file" {
      RequestKeepsKinds(l, kind', path, File);
      forall i | 0 <= i < |l'.appenders| ensures HasPath(l'.appenders[i], path) {
        if i < |l.appenders| {
          assert HasPath(l.appenders[i], path);
        }
      }
    }
  }

  lemma {:induction false} RequestAllKeepsSatisfied(l: LoggerState, kind: string, kinds: seq<string>, path: string)
    requires Satisfied(l, kind, path)
    ensures Satisfied(RequestAll(l, kinds, path), kind, path)
    decreases |kinds|
  {
    if kinds != [] {
      RequestKeepsSatisfied(l, kind, kinds[0], path);
      RequestAllKeepsSatisfied(Request(l, kinds[0], path), kind, kinds[1..], path);
    }
  }

  lemma {:induction false} RequestAllSatisfies(l: LoggerState, kinds: seq<string>, path: string, k: nat)
    requires k < |kinds|
    ensures Satisfied(RequestAll(l, kinds, path), kinds[k], path)
    decreases |kinds|
  {
    if k == 0 {
      RequestSatisfies(l, kinds[0], path);
      RequestAllKeepsSatisfied(Request(l, kinds[0], path), kinds[0], kinds[1..], path);
    } else {
      RequestAllSatisfies(Request(l, kinds[0], path), kinds[1..], path, k - 1);
    }
  }

  lemma {:induction false} SatisfiedAllIsStable(l: LoggerState, kinds: seq<string>, path: string)
    requires forall k :: 0 <= k < |kinds| ==> Satisfied(l, kinds[k], path)
    ensures RequestAll(l, kinds, path) == l
    decreases |kinds|
  {
    if kinds != [] {
      SatisfiedExactly(l, kinds[0], path);
      SatisfiedAllIsStable(l, kinds[1..], path);
    }
  }

  lemma {:induction false} RequestAllKeepsHead(l: LoggerState, kinds: seq<string>, path: string)
    ensures var l' := RequestAll(l, kinds, path);
            l'.name == l.name && l'.level == l.level && l'.pattern == l.pattern
    decreases |kinds|
  {
    if kinds != [] {
      RequestAllKeepsHead(Request(l, kinds[0], path), kinds[1..], path);
    }
  }

  /** updateLogger repeated with the same arguments changes nothing. */
  lemma UpdateIsIdempotent(l: LoggerState, level: Level, pattern: string, kinds: seq<string>, path: string)
    ensures var l' := Update(l, level, pattern, kinds, path);
            Update(l', level, pattern, kinds, path) == l'
  {
    var l0 := SetPattern(l.(level := level), pattern);
    var l' := Update(l, level, pattern, kinds, path);
    RequestAllKeepsHead(l0, kinds, path);
    forall k | 0 <= k < |kinds| ensures Satisfied(l', kinds[k], path) {
      RequestAllSatisfies(l0, kinds, path, k);
    }
    SatisfiedAllIsStable(l', kinds, path);
  }

  /** Requests never undo each other: the list never gets shorter, kinds stay, and a path that
      was set stays set, so going back to the starting state means nothing was changed. */
  lemma {:induction false} NoChangeIsUndone(l: LoggerState, kinds: seq<string>, path: string)
    ensures |RequestAll(l, kinds, path).appenders| >= |l.appenders|
    ensures RequestAll(l, kinds, path) == l ==> forall k :: 0 <= k < |kinds| ==> Satisfied(l, kinds[k], path)
    decreases |kinds|
  {
    if kinds != [] {
      var l1 := Request(l, kinds[0], path);
      NoChangeIsUndone(l1, kinds[1..], path);
      if RequestAll(l, kinds, path) == l {
        RequestSatisfies(l, kinds[0], path);
        RequestAllKeepsSatisfied(l1, kinds[0], kinds[1..], path);
        SatisfiedExactly(l, kinds[0], path);
        assert l1 == l;
        forall k | 0 <= k < |kinds| ensures Satisfied(l, kinds[k], path) {
          assert k > 0 ==> kinds[1..][k - 1] == kinds[k];
        }
      }
    }
  }

  /** The same on the manager: a second call with the same arguments changes nothing. */
  lemma UpdateInIsIdempotent(m: Loggers, name: string, level: Level, pattern: string, kinds: seq<string>, path: string)
    ensures var m' := UpdateIn(m, name, level, pattern, kinds, path);
            UpdateIn(m', name, level, pattern, kinds, path) == m'
  {
    if name in m {
      UpdateIsIdempotent(m[name], level, pattern, kinds, path);
    }
  }

  // ----- Turning a logger into a definition and back -----

  function DumpAppender(a: AppenderState): AppenderDefine {
    AppenderDefine(if a.kind == File then "file" else "stdout", if a.kind == File then a.path else "",
                   a.level, if a.custom then a.pattern else "")
  }

  function DumpAppenders(appenders: seq<AppenderState>): seq<AppenderDefine> {
    seq(|appenders|, i requires 0 <= i < |appenders| => DumpAppender(appenders[i]))
  }

  /** The definition that toYamlString makes of a logger. */
  function Dump(l: LoggerState): LogDefine {
    LogDefine(l.name, l.level, l.pattern, DumpAppenders(l.appenders))
  }

  /** The pattern an appender uses is its own and marked so, or the logger's. */
  predicate FaithfulAppender(a: AppenderState, pattern: string) {
    (a.custom && a.pattern != "") || a.pattern == pattern
  }

  ghost predicate Faithful(l: LoggerState) {
    forall i :: 0 <= i < |l.appenders| ==> FaithfulAppender(l.appenders[i], l.pattern)
  }

  /** Only a file has a path, and a stream. */
  predicate StdoutOk(a: AppenderState) {
    a.kind == Stdout ==> a.path == "" && a.stream == None
  }

  ghost predicate StdoutsOk(l: LoggerState) {
    forall i :: 0 <= i < |l.appenders| ==> StdoutOk(l.appenders[i])
  }

  /** A stream that is open is open on the appender's own path. */
  predicate InPlaceAppender(a: AppenderState) {
    a.stream.Some? ==> a.stream.value == a.path
  }

  ghost predicate InPlace(l: LoggerState) {
    forall i :: 0 <= i < |l.appenders| ==> InPlaceAppender(l.appenders[i])
  }

  /** One appender after the round trip: its level may change from UNKNOW to the logger's, and
      its file is not open. */
  function Redone(a: AppenderState, level: Level, pattern: string): AppenderState {
    var custom := a.custom && a.pattern != "";
    a.(level := if a.level != UNKNOW then a.level else level,
       pattern := if custom then a.pattern else pattern,
       custom := custom,
       stream := None)
  }

  lemma {:induction false} RedoneAppenders(appenders: seq<AppenderState>, level: Level, pattern: string)
    requires forall i :: 0 <= i < |appenders| ==> StdoutOk(appenders[i])
    ensures var r := DenoteAppenders(DumpAppenders(appenders), level, pattern);
            |r| == |appenders| && forall i :: 0 <= i < |appenders| ==> r[i] == Redone(appenders[i], level, pattern)
  {
    if appenders != [] {
      assert StdoutOk(appenders[0]);
      assert DumpAppenders(appenders)[1..] == DumpAppenders(appenders[1..]);
      RedoneAppenders(appenders[1..], level, pattern);
      var r := DenoteAppenders(DumpAppenders(appenders), level, pattern);
      assert r == [Redone(appenders[0], level, pattern)] + DenoteAppenders(DumpAppenders(appenders[1..]), level, pattern);
    }
  }

  lemma {:induction false} EmittedTheSame(before: seq<AppenderState>, after: seq<AppenderState>,
                                          logger: Level, pattern: string, level: Level)
    requires Rank(level) >= Rank(logger) && |before| == |after|
    requires forall i :: 0 <= i < |before| ==>
               after[i] == Redone(before[i], logger, pattern)
               && FaithfulAppender(before[i], pattern) && InPlaceAppender(before[i])
    ensures EmittedBy(before, level) == EmittedBy(after, level)
  {
    if before != [] {
      assert InPlaceAppender(before[0]) && FaithfulAppender(before[0], pattern);
      EmittedTheSame(before[1..], after[1..], logger, pattern, level);
    }
  }

  /** At FATAL every appender emits, so the emissions show every target and pattern. */
  lemma {:induction false} FatalShowsAll(appenders: seq<AppenderState>)
    ensures |EmittedBy(appenders, FATAL)| == |appenders|
    ensures forall i :: 0 <= i < |appenders| ==>
              EmittedBy(appenders, FATAL)[i] == Emission(appenders[i].kind, Target(appenders[i]), appenders[i].pattern)
  {
    if appenders != [] {
      FatalShowsAll(appenders[1..]);
    }
  }

  /** Dumping a logger and configuring it again preserves the emissions for every level if
      and only if every appender's pattern is marked custom or is the logger's, and no file is
      open on a path other than its own. */
  lemma DumpPreservesMeaningExactly(l: LoggerState)
    requires StdoutsOk(l)
    ensures (forall level :: Emissions(Denote(Dump(l)), level) == Emissions(l, level)) <==> Faithful(l) && InPlace(l)
  {
    var l' := Denote(Dump(l));
    RedoneAppenders(l.appenders, l.level, l.pattern);
    if Faithful(l) && InPlace(l) {
      forall level ensures Emissions(l', level) == Emissions(l, level) {
        if Rank(level) >= Rank(l.level) {
          EmittedTheSame(l.appenders, l'.appenders, l.level, l.pattern, level);
        }
      }
    }
    if forall level :: Emissions(l', level) == Emissions(l, level) {
      assert Emissions(l', FATAL) == Emissions(l, FATAL);
      FatalShowsAll(l.appenders);
      FatalShowsAll(l'.appenders);
      forall i | 0 <= i < |l.appenders|
        ensures FaithfulAppender(l.appenders[i], l.pattern) && InPlaceAppender(l.appenders[i])
      {
        assert EmittedBy(l'.appenders, FATAL)[i] == EmittedBy(l.appenders, FATAL)[i];
      }
    }
  }
}
