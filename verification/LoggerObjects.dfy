/** Loggers, appenders and the manager as the objects they are (server/log.h, server/log.cpp).

    A formatter is replaced, never changed, by these operations, so it is represented by its
    pattern.  The ghost field `owner` says which logger an appender belongs to: the operations
    of the manager create an appender for one logger and never share it. */
module LoggerHeap {
  import opened Wrappers
  import opened Strings
  import opened LogDefines
  import opened LoggerSpec

  class LogAppender {
    const kind: Kind
    var path: string
    var level: Level
    var formatter: Option<string>
    var custom: bool
    var stream: Option<string>   // the path on which the file stream is open
    ghost var owner: Logger?

    ghost function View(): AppenderState
      reads this
    {
      AppenderState(kind, path, level, if formatter.Some? then formatter.value else "", custom, stream)
    }

    constructor (kind: Kind, path: string)
      ensures this.kind == kind && owner == null && formatter == None
      ensures View() == AppenderState(kind, if kind == File then path else "", DEBUG, "", false, None)
    {
      this.kind := kind;
      this.path := if kind == File then path else "";
      this.level, this.formatter, this.custom, this.stream := DEBUG, None, false, None;
      this.owner := null;
    }

    /** Emits an event that the level lets through; a file is opened on the first one. */
    method Log(event: Level) returns (es: seq<Emission>)
      requires formatter.Some?
      modifies this`stream
      ensures es == EmittedBy([old(View())], event) && View() == Opened(old(View()), event)
    {
      es := [];
      assert [View()][1..] == [];
      if Rank(event) >= Rank(level) {
        if kind == File && stream == None {
          stream := Some(path);
        }
        es := [Emission(kind, if stream.Some? then stream.value else path, formatter.value)];
      }
    }

    /** Sets the path of a file appender, and reports whether it was another. */
    method MoveTo(path: string) returns (changed: bool)
      modifies this`path
      ensures View() == Moved(old(View()), path)
      ensures changed <==> View() != old(View())
    {
      changed := kind == File && this.path != path;
      if changed {
        this.path := path;
      }
    }
  }

  ghost function Views(appenders: seq<LogAppender>): seq<AppenderState>
    reads appenders
  {
    seq(|appenders|, i requires 0 <= i < |appenders| reads appenders => appenders[i].View())
  }

  class Logger {
    var name: string
    var level: Level
    var pattern: string
    var appenders: seq<LogAppender>

    ghost predicate Valid()
      reads this, Own()
    {
      && (forall i :: 0 <= i < |appenders| ==> appenders[i].owner == this && appenders[i].formatter.Some?)
      && (forall i, j :: 0 <= i < j < |appenders| ==> appenders[i] != appenders[j])
    }

    ghost function Own(): set<LogAppender>
      reads this
    {
      set a | a in appenders
    }

    ghost function View(): LoggerState
      reads this, Own()
    {
      LoggerState(name, level, pattern, Views(appenders))
    }

    constructor (name: string, level: Level, pattern: string)
      ensures Valid() && appenders == [] && View() == LoggerState(name, level, pattern, [])
    {
      this.name, this.level, this.pattern, this.appenders := name, level, pattern, [];
    }

    /** An appender without a formatter gets the logger's. */
    method AddAppender(a: LogAppender)
      requires Valid() && a.owner == null
      modifies this`appenders, a`formatter, a`owner
      ensures Valid() && appenders == old(appenders) + [a]
      ensures View() == old(View()).(appenders := old(View()).appenders
                + [if old(a.formatter) == None then old(a.View()).(pattern := pattern) else old(a.View())])
    {
      if a.formatter == None {
        a.formatter := Some(pattern);
      }
      a.owner := this;
      appenders := appenders + [a];
    }

    /** What an event of a level is emitted to. */
    method Log(event: Level) returns (es: seq<Emission>)
      requires Valid()
      modifies Own()
      ensures Valid() && es == Emissions(old(View()), event) && View() == AfterLog(old(View()), event)
    {
      es := [];
      if Rank(event) >= Rank(level) {
        es := LogToAll(event);
      }
    }

    /** The loop in log. */
    method LogToAll(event: Level) returns (es: seq<Emission>)
      requires Valid()
      modifies Own()
      ensures Valid() && es == EmittedBy(old(View()).appenders, event)
      ensures View() == old(View()).(appenders := OpenedAll(old(View()).appenders, event))
    {
      hide EmittedBy, Opened;
      ghost var before := View().appenders;
      assert before[0..] == before;
      es := [];
      var k := 0;
      while k < |appenders|
        invariant 0 <= k <= |appenders|
        invariant Valid()
        invariant forall i :: 0 <= i < k ==> appenders[i].View() == Opened(before[i], event)
        invariant forall i :: k <= i < |appenders| ==> appenders[i].View() == before[i]
        invariant es + EmittedBy(before[k..], event) == EmittedBy(before, event)
      {
        EmitStep(before, k, event);
        var one := appenders[k].Log(event);
        Reassociate(es, one, EmittedBy(before[k + 1..], event));
        es := es + one;
        k := k + 1;
      }
      NothingEmitted(before[k..], event);
      assert View().appenders == OpenedAll(before, event);
    }

    /** The definition that toYamlString makes of this logger. */
    method ToDefine() returns (d: LogDefine)
      requires Valid()
      ensures d == Dump(View())
    {
      var defs: seq<AppenderDefine> := [];
      var k := 0;
      while k < |appenders|
        invariant 0 <= k <= |appenders|
        invariant defs == DumpAppenders(View().appenders[..k])
      {
        var a := appenders[k];
        var def := AppenderDefine(if a.kind == File then "file" else "stdout", "", a.level, "");
        if a.kind == File {
          def := def.(path := a.path);
        }
        if a.custom {
          def := def.(formatter := a.formatter.value);
        }
        assert def == DumpAppender(View().appenders[k]);
        assert View().appenders[..k + 1] == View().appenders[..k] + [View().appenders[k]];
        defs := defs + [def];
        k := k + 1;
      }
      assert View().appenders[..k] == View().appenders;
      d := LogDefine(name, level, pattern, defs);
    }

    // ----- The parts of updateLogger that work on one logger -----

    /** Gives all appenders the pattern, as no longer custom. */
    method SetPatterns(p: string)
      requires Valid()
      modifies Own()
      ensures Valid() && View() == old(View()).(appenders := LoggerSpec.SetPatterns(old(View()).appenders, p))
    {
      var k := 0;
      while k < |appenders|
        invariant 0 <= k <= |appenders|
        invariant Valid()
        invariant forall i :: 0 <= i < |appenders| ==>
                    && appenders[i].path == old(appenders[i].path) && appenders[i].level == old(appenders[i].level)
                    && appenders[i].stream == old(appenders[i].stream)
        invariant forall i :: 0 <= i < k ==> appenders[i].formatter == Some(p) && !appenders[i].custom
      {
        appenders[k].custom := false;
        appenders[k].formatter := Some(p);
        k := k + 1;
      }
    }

    /** Gives all file appenders the path, and reports whether there are any and whether one
        had another path. */
    method SetPaths(path: string) returns (hasFile: bool, changed: bool)
      requires Valid()
      modifies Own()
      ensures Valid() && hasFile == HasKind(old(View()).appenders, File)
      ensures View() == old(View()).(appenders := LoggerSpec.SetPaths(old(View()).appenders, path))
      ensures changed <==> View() != old(View())
    {
      hide Moved, HasKind, LoggerSpec.SetPaths;
      SetPathsOfNone(path);
      ghost var before := View().appenders;
      hasFile, changed := false, false;
      var k := 0;
      while k < |appenders|
        invariant 0 <= k <= |appenders|
        invariant Valid()
        invariant forall i :: 0 <= i < k ==> appenders[i].View() == Moved(before[i], path)
        invariant forall i :: k <= i < |appenders| ==> appenders[i].View() == before[i]
        invariant hasFile <==> HasKind(before[..k], File)
        invariant changed <==> LoggerSpec.SetPaths(before[..k], path) != before[..k]
      {
        var moved := appenders[k].MoveTo(path);
        SetPathsOfOneMore(before, k, path);
        hasFile := hasFile || appenders[k].kind == File;
        changed := changed || moved;
        k := k + 1;
      }
      assert before[..k] == before;
      SetPathsIs(before, View().appenders, path);
    }

    method HasStdout() returns (found: bool)
      requires Valid()
      ensures found == HasKind(View().appenders, Stdout)
    {
      found := false;
      var k := 0;
      while k < |appenders|
        invariant 0 <= k <= |appenders|
        invariant found <==> exists i :: 0 <= i < k && IsKind(View().appenders[i], Stdout)
      {
        if appenders[k].kind == Stdout {
          assert IsKind(View().appenders[k], Stdout);
          found := true;
        }
        k := k + 1;
      }
    }

    /** One requested appender. */
    method RequestAppender(kind: string, path: string) returns (changed: bool)
      requires Valid()
      modifies this`appenders, Own()
      ensures Valid() && View() == Request(old(View()), kind, path)
      ensures changed <==> View() != old(View())
      ensures fresh(Own() - old(Own()))
    {
      changed := false;
      ghost var before := View();
      if kind == "stdout" {
        var has := HasStdout();
        if !has {
          var a := new LogAppender(Stdout, "");
          AddAppender(a);
          changed := true;
          assert |View().appenders| == |before.appenders| + 1;
        }
      } else if kind == "file" {
        var has, moved := SetPaths(path);
        changed := moved;
        if !has {
          NoFileNoPaths(before.appenders, path);
          assert View() == before;
          var a := new LogAppender(File, path);
          AddAppender(a);
          changed := true;
          assert |View().appenders| == |before.appenders| + 1;
        }
      }
    }

    /** updateLogger on the logger it has found. */
    method Update(newLevel: Level, newPattern: string, kinds: seq<string>, path: string) returns (changed: bool)
      requires Valid()
      modifies this`level, this`pattern, this`appenders, Own()
      ensures Valid() && View() == LoggerSpec.Update(old(View()), newLevel, newPattern, kinds, path)
      ensures level == newLevel && pattern == newPattern && name == old(name)
      ensures changed <==> View() != old(View())
      ensures fresh(Own() - old(Own()))
    {
      changed := false;
      ghost var start := View();
      if newLevel != level {
        level := newLevel;
        changed := true;
      }
      if newPattern != pattern {
        pattern := newPattern;
        SetPatterns(newPattern);
        changed := true;
      }
      ghost var middle := View();
      assert middle == SetPattern(start.(level := newLevel), newPattern);
      assert changed <==> middle != start;
      var more := RequestAppenders(kinds, path);
      RequestAllKeepsHead(middle, kinds, path);
      changed := changed || more;
    }

    method RequestAppenders(kinds: seq<string>, path: string) returns (changed: bool)
      requires Valid()
      modifies this`appenders, Own()
      ensures Valid() && View() == RequestAll(old(View()), kinds, path)
      ensures changed <==> View() != old(View())
      ensures fresh(Own() - old(Own()))
    {
      changed := false;
      ghost var start := View();
      var k := 0;
      assert kinds[0..] == kinds;
      while k < |kinds|
        invariant 0 <= k <= |kinds|
        invariant Valid()
        invariant RequestAll(View(), kinds[k..], path) == RequestAll(start, kinds, path)
        invariant !changed ==> View() == start
        invariant changed ==> RequestAll(View(), kinds[k..], path) != start
        invariant fresh(Own() - old(Own()))
      {
        assert kinds[k..][0] == kinds[k] && kinds[k..][1..] == kinds[k + 1..];
        ghost var here := View();
        var c := RequestAppender(kinds[k], path);
        if c && !changed {
          ChangeIsSeen(here, kinds[k..], path);
        }
        changed := changed || c;
        k := k + 1;
      }
    }

    // ----- The parts of configureLogger and createLogger that work on one logger -----

    /** The new appender of a definition, with its own level and formatter or the logger's. */
    static method NewDefined(def: AppenderDefine, inherited: Level, pattern: string) returns (a: LogAppender)
      requires def.kind == "file" || def.kind == "stdout"
      ensures fresh(a) && a.owner == null && a.formatter.Some?
      ensures [a.View()] == DenoteAppender(def, inherited, pattern)
    {
      a := new LogAppender(if def.kind == "file" then File else Stdout, def.path);
      a.level := if def.level != UNKNOW then def.level else inherited;
      if def.formatter != "" {
        a.formatter := Some(def.formatter);
        a.custom := true;
      } else {
        a.formatter := Some(pattern);
        a.custom := false;
      }
    }

    /** One appender of a definition, in updateAppender; unknown kinds are skipped. */
    method AddDefined(def: AppenderDefine, inherited: Level)
      requires Valid()
      modifies this`appenders
      ensures Valid() && fresh(Own() - old(Own()))
      ensures View() == old(View()).(appenders := old(View()).appenders + DenoteAppender(def, inherited, pattern))
    {
      if def.kind == "file" || def.kind == "stdout" {
        hide DenoteAppender;
        var a := NewDefined(def, inherited, pattern);
        AddAppender(a);
      }
    }

    /** updateAppender: rebuilds the appenders from a definition. */
    method UpdateAppender(d: LogDefine)
      requires Valid()
      modifies this`appenders
      ensures Valid() && fresh(Own())
      ensures View() == old(View()).(appenders := DenoteAppenders(d.appenders, d.level, pattern))
    {
      hide DenoteAppender;
      appenders := [];
      ghost var all := DenoteAppenders(d.appenders, d.level, pattern);
      var k := 0;
      assert d.appenders[0..] == d.appenders;
      while k < |d.appenders|
        invariant 0 <= k <= |d.appenders|
        invariant Valid() && fresh(Own())
        invariant View().appenders + DenoteAppenders(d.appenders[k..], d.level, pattern) == all
      {
        assert d.appenders[k..][0] == d.appenders[k] && d.appenders[k..][1..] == d.appenders[k + 1..];
        Reassociate(View().appenders, DenoteAppender(d.appenders[k], d.level, pattern),
                    DenoteAppenders(d.appenders[k + 1..], d.level, pattern));
        AddDefined(d.appenders[k], d.level);
        k := k + 1;
      }
      assert d.appenders[k..] == [];
    }

    /** configureLogger on the logger it has found or created. */
    method SetFrom(d: LogDefine)
      requires Valid()
      modifies this`level, this`pattern, this`appenders
      ensures Valid() && fresh(Own()) && View() == Denote(d).(name := name)
    {
      level := d.level;
      pattern := d.formatter;
      UpdateAppender(d);
    }

    /** One name in the constructor's loop. */
    method AddNamed(kind: string, path: string)
      requires Valid()
      modifies this`appenders
      ensures Valid() && fresh(Own() - old(Own()))
      ensures View() == old(View()).(appenders := old(View()).appenders + NewAppender(kind, DEBUG, pattern, path))
    {
      if kind == "stdout" {
        var a := new LogAppender(Stdout, "");
        AddAppender(a);
      } else if kind == "file" {
        var a := new LogAppender(File, path);
        AddAppender(a);
      }
    }

    /** The constructor that takes the names of appenders. */
    constructor WithAppenders(name: string, level: Level, pattern: string, kinds: seq<string>, path: string)
      ensures Valid() && fresh(Own())
      ensures View() == LoggerState(name, level, pattern, NewAppenders(kinds, DEBUG, pattern, path))
    {
      this.name, this.level, this.pattern, this.appenders := name, level, pattern, [];
      new;
      AddByName(kinds, path);
    }

    /** The loop of that constructor. */
    method AddByName(kinds: seq<string>, path: string)
      requires Valid() && appenders == []
      modifies this`appenders
      ensures Valid() && fresh(Own())
      ensures View() == old(View()).(appenders := NewAppenders(kinds, DEBUG, pattern, path))
    {
      hide NewAppender;
      ghost var all := NewAppenders(kinds, DEBUG, pattern, path);
      var k := 0;
      assert kinds[0..] == kinds;
      while k < |kinds|
        invariant 0 <= k <= |kinds|
        invariant Valid() && fresh(Own())
        invariant View().appenders + NewAppenders(kinds[k..], DEBUG, pattern, path) == all
      {
        assert kinds[k..][0] == kinds[k] && kinds[k..][1..] == kinds[k + 1..];
        Reassociate(View().appenders, NewAppender(kinds[k], DEBUG, pattern, path),
                    NewAppenders(kinds[k + 1..], DEBUG, pattern, path));
        AddNamed(kinds[k], path);
        k := k + 1;
      }
      assert kinds[k..] == [];
    }

    /** createLogger's loop: every appender inherits the logger's level and formatter. */
    method InheritAll()
      requires Valid()
      modifies Own()
      ensures Valid() && View() == old(View()).(appenders := WithLevel(old(View()).appenders, level, pattern))
    {
      var k := 0;
      while k < |appenders|
        invariant 0 <= k <= |appenders|
        invariant Valid()
        invariant forall i :: 0 <= i < |appenders| ==>
                    && appenders[i].path == old(appenders[i].path) && appenders[i].custom == old(appenders[i].custom)
                    && appenders[i].stream == old(appenders[i].stream)
        invariant forall i :: 0 <= i < k ==> appenders[i].formatter == Some(pattern) && appenders[i].level == level
      {
        appenders[k].level := level;
        appenders[k].formatter := Some(pattern);
        k := k + 1;
      }
    }
  }

  function WithLevel(appenders: seq<AppenderState>, level: Level, pattern: string): seq<AppenderState> {
    seq(|appenders|, i requires 0 <= i < |appenders| => appenders[i].(level := level, pattern := pattern))
  }

  lemma {:induction false} InheritedIsNew(kinds: seq<string>, level: Level, pattern: string, path: string)
    ensures WithLevel(NewAppenders(kinds, DEBUG, pattern, path), level, pattern) == NewAppenders(kinds, level, pattern, path)
  {
    if kinds != [] {
      InheritedIsNew(kinds[1..], level, pattern, path);
    }
  }

  lemma NothingEmitted(views: seq<AppenderState>, event: Level)
    requires views == []
    ensures EmittedBy(views, event) == []
  {}

  /** The emissions of a list are those of its first appender and of the rest. */
  lemma EmitStep(views: seq<AppenderState>, k: nat, event: Level)
    requires k < |views|
    ensures EmittedBy(views[k..], event) == EmittedBy([views[k]], event) + EmittedBy(views[k + 1..], event)
  {
    assert views[k..][0] == views[k] && views[k..][1..] == views[k + 1..];
    assert [views[k]][1..] == [] && [Opened(views[k], event)][1..] == [];
  }

  lemma SetPathsOfNone(path: string)
    ensures LoggerSpec.SetPaths([], path) == [] && !HasKind([], File)
  {}

  lemma SetPathsOfOneMore(views: seq<AppenderState>, k: nat, path: string)
    requires k < |views|
    ensures LoggerSpec.SetPaths(views[..k + 1], path) == views[..k + 1]
            <==> LoggerSpec.SetPaths(views[..k], path) == views[..k] && Moved(views[k], path) == views[k]
    ensures HasKind(views[..k + 1], File) <==> HasKind(views[..k], File) || views[k].kind == File
  {
    hide Moved;
    var more := views[..k + 1];
    assert more == views[..k] + [views[k]];
    assert LoggerSpec.SetPaths(more, path) == LoggerSpec.SetPaths(views[..k], path) + [Moved(views[k], path)];
    if LoggerSpec.SetPaths(more, path) == more {
      assert LoggerSpec.SetPaths(views[..k], path) == LoggerSpec.SetPaths(more, path)[..k] == more[..k];
      assert LoggerSpec.SetPaths(more, path)[k] == more[k];
    }
    if HasKind(views[..k], File) {
      var i :| 0 <= i < k && IsKind(views[..k][i], File);
      assert IsKind(more[i], File);
    }
    assert IsKind(more[k], File) <==> views[k].kind == File;
  }

  lemma SetPathsIs(views: seq<AppenderState>, moved: seq<AppenderState>, path: string)
    requires |moved| == |views| && forall i :: 0 <= i < |views| ==> moved[i] == Moved(views[i], path)
    ensures LoggerSpec.SetPaths(views, path) == moved
  {}

  lemma NoFileNoPaths(appenders: seq<AppenderState>, path: string)
    requires !HasKind(appenders, File)
    ensures LoggerSpec.SetPaths(appenders, path) == appenders
  {}

  lemma ChangeIsSeen(l: LoggerState, kinds: seq<string>, path: string)
    requires kinds != [] && Request(l, kinds[0], path) != l
    ensures RequestAll(l, kinds, path) != l
  {
    SatisfiedExactly(l, kinds[0], path);
    NoChangeIsUndone(l, kinds, path);
  }
}
