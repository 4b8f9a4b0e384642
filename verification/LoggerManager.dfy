/** LoggerManager and the listener of the loggers variable (server/log.h, server/log.cpp). */
module LoggerManagement {
  import opened Strings
  import opened Yaml
  import opened LogDefines
  import opened LoggerSpec
  import opened LoggerReload
  import opened LoggerHeap

  class LoggerManager {
    var loggers: map<string, Logger>
    var root: Logger

    /** The appenders of all loggers. */
    ghost function Appenders(): set<LogAppender>
      reads this, loggers.Values
    {
      set n, a | n in loggers && a in loggers[n].appenders :: a
    }

    /** Every logger is registered under its own name. */
    ghost predicate Valid()
      reads this, loggers.Values, Appenders()
    {
      forall n :: n in loggers ==> loggers[n].name == n && loggers[n].Valid()
    }

    ghost function State(): Loggers
      reads this, loggers.Values, Appenders()
    {
      map n | n in loggers :: loggers[n].View()
    }

    constructor ()
      ensures Valid() && State() == INITIAL
      ensures "root" in loggers && loggers["root"] == root
    {
      var r := new Logger("root", DEBUG, DEFAULT_PATTERN);
      var a := new LogAppender(Stdout, "");
      r.AddAppender(a);
      root := r;
      loggers := map["root" := r];
      new;
      assert State()["root"] == INITIAL["root"];
    }

    /** Different loggers have no appender in common. */
    lemma AppendersAreDisjoint(name: string)
      requires Valid() && name in loggers
      ensures forall n :: n in loggers && n != name ==>
                loggers[n] != loggers[name] && loggers[n].Own() !! loggers[name].Own()
    {}

    method Register(l: Logger)
      requires Valid() && l.Valid() && l.name !in loggers
      modifies this`loggers
      ensures Valid() && loggers == old(loggers)[l.name := l]
      ensures State() == old(State())[l.name := l.View()]
    {
      ghost var before := State();
      loggers := loggers[l.name := l];
      assert forall n :: n in loggers && n != l.name ==> loggers[n].View() == before[n];
    }

    /** Finds a logger, or registers one with the default level and pattern. */
    method GetLogger(name: string) returns (l: Logger)
      requires Valid()
      modifies this`loggers
      ensures Valid() && State() == GetOrCreate(old(State()), name)
      ensures name in loggers && loggers[name] == l
      ensures forall n :: n in old(loggers) ==> n in loggers && loggers[n] == old(loggers[n])
    {
      if name in loggers {
        return loggers[name];
      }
      l := new Logger(name, DEBUG, DEFAULT_PATTERN);
      assert Valid() && State() == old(State());
      Register(l);
    }

    /** An event of the named logger. */
    method Log(name: string, event: Level) returns (es: seq<Emission>)
      requires Valid()
      modifies Appenders()
      ensures Valid() && loggers == old(loggers) && State() == LogIn(old(State()), name, event)
      ensures es == if name in old(State()) then Emissions(old(State())[name], event) else []
    {
      es := [];
      hide AfterLog, Emissions;
      if name in loggers {
        es := LogOn(name, event);
      }
    }

    method LogOn(name: string, event: Level) returns (es: seq<Emission>)
      requires Valid() && name in loggers
      modifies loggers[name].Own()
      ensures Valid() && loggers == old(loggers)
      ensures State() == old(State())[name := AfterLog(old(loggers[name].View()), event)]
      ensures es == Emissions(old(loggers[name].View()), event)
    {
      hide AfterLog, Emissions;
      AppendersAreDisjoint(name);
      ghost var before := State();
      es := loggers[name].Log(event);
      assert forall n :: n in loggers && n != name ==> loggers[n].Valid() && loggers[n].View() == before[n];
    }

    /** Returns whether anything was changed, exactly. */
    method UpdateLogger(name: string, level: Level, pattern: string, kinds: seq<string>, path: string)
      returns (changed: bool)
      requires Valid()
      modifies loggers.Values, Appenders()
      ensures Valid() && loggers == old(loggers)
      ensures State() == UpdateIn(old(State()), name, level, pattern, kinds, path)
      ensures name in loggers ==> loggers[name].level == level && loggers[name].pattern == pattern
      ensures changed <==> State() != old(State())
    {
      changed := false;
      if name in loggers {
        var l := loggers[name];
        AppendersAreDisjoint(name);
        ghost var before := State();
        assert before[name] == l.View();
        changed := l.Update(level, pattern, kinds, path);
        assert forall n :: n in loggers && n != name ==> loggers[n].Valid() && loggers[n].View() == before[n];
        assert State() == before[name := l.View()];
      }
    }

    method CreateLogger(name: string, level: Level, pattern: string, kinds: seq<string>, path: string)
      returns (l: Logger)
      requires Valid()
      modifies this`loggers, loggers.Values, Appenders()
      ensures Valid() && State() == Create(old(State()), name, level, pattern, kinds, path)
      ensures name in loggers && loggers[name] == l
      ensures forall n :: n in old(loggers) ==> n in loggers && loggers[n] == old(loggers[n])
    {
      hide NewAppenders, WithLevel, LoggerSpec.Update;
      if name in loggers {
        var _ := UpdateLogger(name, level, pattern, kinds, path);
        return loggers[name];
      }
      l := new Logger.WithAppenders(name, level, pattern, kinds, path);
      l.InheritAll();
      InheritedIsNew(kinds, level, pattern, path);
      assert Valid() && State() == old(State());
      Register(l);
    }

    method ConfigureLogger(d: LogDefine)
      requires Valid()
      modifies this`loggers, loggers.Values
      ensures Valid() && State() == Configure(old(State()), d)
      ensures d.name in loggers && loggers.Keys == old(loggers).Keys + {d.name}
      ensures forall n :: n in old(loggers) ==> n in loggers && loggers[n] == old(loggers[n])
      ensures forall n :: n in loggers && n !in old(loggers) ==> fresh(loggers[n])
    {
      if d.name in loggers {
        Reconfigure(d);
      } else {
        AddConfigured(d);
      }
    }

    /** configureLogger for a registered name. */
    method Reconfigure(d: LogDefine)
      requires Valid() && d.name in loggers
      modifies loggers.Values
      ensures Valid() && loggers == old(loggers) && State() == Configure(old(State()), d)
    {
      hide Denote;
      var l := loggers[d.name];
      AppendersAreDisjoint(d.name);
      ghost var before := State();
      l.SetFrom(d);
      assert l.View() == Denote(d) by {
        DenoteHasName(d);
      }
      assert forall n :: n in loggers && n != d.name ==> loggers[n].Valid() && loggers[n].View() == before[n];
    }

    /** configureLogger for a name that is not registered. */
    method AddConfigured(d: LogDefine)
      requires Valid() && d.name !in loggers
      modifies this`loggers
      ensures Valid() && State() == Configure(old(State()), d)
      ensures d.name in loggers && loggers == old(loggers)[d.name := loggers[d.name]] && fresh(loggers[d.name])
    {
      hide Denote;
      var l := NewConfigured(d);
      DenoteHasName(d);
      assert Valid() && State() == old(State());
      Register(l);
    }

    static method NewConfigured(d: LogDefine) returns (l: Logger)
      ensures fresh(l) && l.Valid() && l.View() == Denote(d)
    {
      hide Denote;
      l := new Logger(d.name, d.level, d.formatter);
      assert l.name == d.name == l.View().name;
      DenoteHasName(d);
      l.SetFrom(d);
    }

    method RemoveLogger(name: string)
      requires Valid()
      modifies this`loggers
      ensures Valid() && loggers == old(loggers) - {name} && State() == old(State()) - {name}
    {
      if name in loggers {
        loggers := loggers - {name};
      }
    }

    /** The listener: removes the loggers that are no longer defined, then configures each
        definition.  Loggers that stay keep their identity. */
    method OnLoggersChanged(defines: seq<LogDefine>)
      requires Valid()
      modifies this`loggers, loggers.Values
      ensures Valid() && State() == Reload(old(State()), defines)
      ensures forall n :: n in old(loggers) && n in Names(defines) ==> n in loggers && loggers[n] == old(loggers[n])
    {
      RemoveUndefined(defines);
      ConfigureEach(defines);
    }

    method RemoveUndefined(defines: seq<LogDefine>)
      requires Valid()
      modifies this`loggers
      ensures Valid() && State() == KeepNamed(old(State()), Names(defines))
      ensures loggers == map n | n in old(loggers) && n in Names(defines) :: old(loggers)[n]
    {
      var names := set k | 0 <= k < |defines| :: defines[k].name;
      var all := loggers;
      var remaining := all.Keys;
      while remaining != {}
        invariant remaining <= all.Keys
        invariant Valid()
        invariant loggers == map n | n in all && (n in names || n in remaining) :: all[n]
        decreases remaining
      {
        var n :| n in remaining;
        if n !in names {
          RemoveLogger(n);
        }
        remaining := remaining - {n};
      }
      assert forall n :: n in loggers ==> loggers[n].View() == old(loggers[n].View());
    }

    method ConfigureEach(defines: seq<LogDefine>)
      requires Valid()
      modifies this`loggers, loggers.Values
      ensures Valid() && State() == ConfigureAll(old(State()), defines)
      ensures forall n :: n in old(loggers) ==> n in loggers && loggers[n] == old(loggers[n])
    {
      var k := 0;
      assert defines[0..] == defines;
      while k < |defines|
        invariant 0 <= k <= |defines|
        invariant Valid()
        invariant forall n :: n in old(loggers) ==> n in loggers && loggers[n] == old(loggers[n])
        invariant forall n :: n in loggers && n !in old(loggers) ==> fresh(loggers[n])
        invariant ConfigureAll(State(), defines[k..]) == ConfigureAll(old(State()), defines)
      {
        assert defines[k..][0] == defines[k] && defines[k..][1..] == defines[k + 1..];
        ConfigureLogger(defines[k]);
        k := k + 1;
      }
    }

    /** The definitions that toYamlString writes.  The source visits the map in name order;
        here the names are visited in any order and each definition is put in its place. */
    method ToDefines() returns (ds: seq<LogDefine>)
      requires Valid()
      ensures DumpOf(ds, State())
    {
      ds := [];
      var remaining := loggers.Keys;
      while remaining != {}
        invariant remaining <= loggers.Keys
        invariant SortedByName(ds) && Names(ds) == loggers.Keys - remaining
        invariant forall i :: 0 <= i < |ds| ==> ds[i].name in loggers && ds[i] == Dump(State()[ds[i].name])
        decreases remaining
      {
        var n :| n in remaining;
        var l := loggers[n];
        var d := l.ToDefine();
        assert d == Dump(State()[n]);
        InsertKeepsSorted(ds, d);
        InsertAddsName(ds, d);
        ghost var before := ds;
        ds := InsertDefine(ds, d);
        forall i | 0 <= i < |ds| ensures ds[i].name in loggers && ds[i] == Dump(State()[ds[i].name]) {
          assert ds[i] in ds;
        }
        remaining := remaining - {n};
      }
    }

    /** toYamlString, up to the library's rendering of the whole node. */
    method ToYaml(emit: Node -> string, load: string -> Node) returns (node: Node)
      requires Valid()
      ensures exists ds :: DumpOf(ds, State()) && node == DumpNode(ds, emit, load)
    {
      var ds := ToDefines();
      node := DumpNode(ds, emit, load);
    }
  }

  lemma DenoteHasName(d: LogDefine)
    ensures Denote(d).name == d.name
  {}

  lemma {:induction false} InsertAddsName(ds: seq<LogDefine>, d: LogDefine)
    ensures Names(InsertDefine(ds, d)) == Names(ds) + {d.name}
  {
    if ds != [] && !Less(d.name, ds[0].name) && d.name != ds[0].name {
      InsertAddsName(ds[1..], d);
      NamesOfCons(ds[0], ds[1..]);
      NamesOfCons(ds[0], InsertDefine(ds[1..], d));
      assert [ds[0]] + ds[1..] == ds;
    } else if ds == [] || Less(d.name, ds[0].name) {
      NamesOfCons(d, ds);
    }
  }
}
