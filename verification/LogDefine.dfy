/** Logger definitions: their YAML form, their equality and order, and the set of them
    (server/log.h, server/log.cpp, server/config.h). */
module LogDefines {
  import opened Wrappers
  import opened Strings
  import opened Yaml

  datatype Level = UNKNOW | DEBUG | INFO | WARN | ERROR | FATAL

  function Rank(level: Level): nat {
    match level
    case UNKNOW => 0
    case DEBUG => 1
    case INFO => 2
    case WARN => 3
    case ERROR => 4
    case FATAL => 5
  }

  function LevelToString(level: Level): string {
    match level
    case DEBUG => "DEBUG"
    case INFO => "INFO"
    case WARN => "WARN"
    case ERROR => "ERROR"
    case FATAL => "FATAL"
    case UNKNOW => "UNKNOWN"
  }

  function LevelFromString(s: string): Level {
    if s == "debug" then DEBUG
    else if s == "info" then INFO
    else if s == "warn" then WARN
    else if s == "error" then ERROR
    else if s == "fatal" then FATAL
    else UNKNOW
  }

  function ToLower(s: string): string {
    seq(|s|, i requires 0 <= i < |s| => if 'A' <= s[i] <= 'Z' then s[i] - 'A' + 'a' else s[i])
  }

  /** A level survives being written in lower case and read back. */
  lemma LevelRoundTrip(level: Level)
    ensures LevelFromString(ToLower(ToLower(LevelToString(level)))) == level
  {
    assert ToLower("DEBUG") == "debug" && ToLower("debug") == "debug";
    assert ToLower("INFO") == "info" && ToLower("info") == "info";
    assert ToLower("WARN") == "warn" && ToLower("warn") == "warn";
    assert ToLower("ERROR") == "error" && ToLower("error") == "error";
    assert ToLower("FATAL") == "fatal" && ToLower("fatal") == "fatal";
    assert ToLower("UNKNOWN") == "unknown" && ToLower("unknown") == "unknown";
  }

  /** UNKNOW and the empty formatter stand for "as the logger". */
  datatype AppenderDefine = AppenderDefine(kind: string, path: string, level: Level, formatter: string)

  datatype LogDefine = LogDefine(name: string, level: Level, formatter: string, appenders: seq<AppenderDefine>)

  // ----- Encoding -----

  function LevelNode(level: Level): Node {
    Scalar(ToLower(LevelToString(level)))
  }

  function EncodeAppender(a: AppenderDefine): Node {
    Map([Entry("type", Scalar(a.kind))]
        + (if a.kind == "file" then [Entry("file", Scalar(a.path))] else [])
        + (if a.level != UNKNOW then [Entry("level", LevelNode(a.level))] else [])
        + (if a.formatter != "" then [Entry("formatter", Scalar(a.formatter))] else []))
  }

  function EncodeAppenders(appenders: seq<AppenderDefine>): seq<Node> {
    seq(|appenders|, i requires 0 <= i < |appenders| => EncodeAppender(appenders[i]))
  }

  function Encode(d: LogDefine): Node {
    Map([Entry("name", Scalar(d.name)), Entry("level", LevelNode(d.level)), Entry("formatter", Scalar(d.formatter))]
        + (if d.appenders == [] then [] else [Entry("appender", Sequence(EncodeAppenders(d.appenders)))]))
  }

  // ----- Decoding -----

  function Find(es: seq<Entry>, key: string): Option<Node> {
    if es == [] then None else if es[0].key == key then Some(es[0].value) else Find(es[1..], key)
  }

  function Get(node: Node, key: string): Option<Node> {
    if node.Map? then Find(node.entries, key) else None
  }

  /** as<std::string>() throws on anything but a scalar. */
  function AsString(node: Option<Node>): Option<string> {
    if node.Some? && node.value.Scalar? then Some(node.value.text) else None
  }

  /** A field that may be absent but must be a string when it is there. */
  function Optional(node: Option<Node>): Option<string> {
    if node == None then Some("") else AsString(node)
  }

  function ToLevel(text: string): Level {
    LevelFromString(ToLower(text))
  }

  function DecodeAppender(node: Node): Option<AppenderDefine> {
    var kind := AsString(Get(node, "type"));
    if kind == None then None else
    var path := if kind.value == "file" then AsString(Get(node, "file")) else Some("");
    var level := Optional(Get(node, "level"));
    var formatter := Optional(Get(node, "formatter"));
    if path == None || level == None || formatter == None then None
    else Some(AppenderDefine(kind.value, path.value, ToLevel(level.value), formatter.value))
  }

  function DecodeAppenders(nodes: seq<Node>): Option<seq<AppenderDefine>> {
    if nodes == [] then Some([])
    else
      var first := DecodeAppender(nodes[0]);
      var rest := DecodeAppenders(nodes[1..]);
      if first == None || rest == None then None else Some([first.value] + rest.value)
  }

  /** The items that a loop from 0 to size() visits: a scalar or null has size 0. */
  function ItemsOf(node: Option<Node>): Option<seq<Node>> {
    match node
    case Some(Sequence(items)) => Some(items)
    case Some(Map(entries)) => if entries == [] then Some([]) else None
    case _ => Some([])
  }

  function Decode(node: Node): Option<LogDefine> {
    var name := AsString(Get(node, "name"));
    var level := AsString(Get(node, "level"));
    var formatter := AsString(Get(node, "formatter"));
    var items := ItemsOf(Get(node, "appender"));
    if name == None || level == None || formatter == None || items == None then None
    else
      var appenders := DecodeAppenders(items.value);
      if appenders == None then None
      else Some(LogDefine(name.value, ToLevel(level.value), formatter.value, appenders.value))
  }

  // ----- Decoding undoes encoding -----

  /** Only a file appender has a path. */
  function Normal(a: AppenderDefine): AppenderDefine {
    if a.kind == "file" then a else a.(path := "")
  }

  function NormalAll(appenders: seq<AppenderDefine>): seq<AppenderDefine> {
    seq(|appenders|, i requires 0 <= i < |appenders| => Normal(appenders[i]))
  }

  lemma {:induction false} FindAppend(a: seq<Entry>, b: seq<Entry>, key: string)
    ensures Find(a + b, key) == if Find(a, key).Some? then Find(a, key) else Find(b, key)
  {
    if a == [] {
      assert a + b == b;
    } else {
      assert (a + b)[0] == a[0] && (a + b)[1..] == a[1..] + b;
      FindAppend(a[1..], b, key);
    }
  }

  lemma FindOne(e: Entry, key: string)
    ensures Find([e], key) == if e.key == key then Some(e.value) else None
  {}

  /** The fields of an encoded appender. */
  lemma AppenderField(a: AppenderDefine, key: string)
    ensures Get(EncodeAppender(a), key)
            == if key == "type" then Some(Scalar(a.kind))
               else if key == "file" && a.kind == "file" then Some(Scalar(a.path))
               else if key == "level" && a.level != UNKNOW then Some(LevelNode(a.level))
               else if key == "formatter" && a.formatter != "" then Some(Scalar(a.formatter))
               else None
  {
    var t := [Entry("type", Scalar(a.kind))];
    var f := if a.kind == "file" then [Entry("file", Scalar(a.path))] else [];
    var l := if a.level != UNKNOW then [Entry("level", LevelNode(a.level))] else [];
    var p := if a.formatter != "" then [Entry("formatter", Scalar(a.formatter))] else [];
    FindAppend(t + f + l, p, key);
    FindAppend(t + f, l, key);
    FindAppend(t, f, key);
    FindOne(Entry("type", Scalar(a.kind)), key);
    FindOne(Entry("file", Scalar(a.path)), key);
    FindOne(Entry("level", LevelNode(a.level)), key);
    FindOne(Entry("formatter", Scalar(a.formatter)), key);
  }

  lemma AppenderRoundTrip(a: AppenderDefine)
    ensures DecodeAppender(EncodeAppender(a)) == Some(Normal(a))
  {
    AppenderField(a, "type");
    AppenderField(a, "file");
    AppenderField(a, "level");
    AppenderField(a, "formatter");
    LevelRoundTrip(a.level);
    assert ToLower("") == "";
  }

  lemma {:induction false} AppendersRoundTrip(appenders: seq<AppenderDefine>)
    ensures DecodeAppenders(EncodeAppenders(appenders)) == Some(NormalAll(appenders))
  {
    hide DecodeAppender, EncodeAppender, Normal;
    if appenders == [] {
      assert EncodeAppenders(appenders) == [] && NormalAll(appenders) == [];
    } else {
      AppenderRoundTrip(appenders[0]);
      AppendersRoundTrip(appenders[1..]);
      assert EncodeAppenders(appenders)[1..] == EncodeAppenders(appenders[1..]);
      assert [Normal(appenders[0])] + NormalAll(appenders[1..]) == NormalAll(appenders);
    }
  }

  lemma DefineField(d: LogDefine, key: string)
    ensures Get(Encode(d), key)
            == if key == "name" then Some(Scalar(d.name))
               else if key == "level" then Some(LevelNode(d.level))
               else if key == "formatter" then Some(Scalar(d.formatter))
               else if key == "appender" && d.appenders != [] then Some(Sequence(EncodeAppenders(d.appenders)))
               else None
  {
    var n, l, f := Entry("name", Scalar(d.name)), Entry("level", LevelNode(d.level)), Entry("formatter", Scalar(d.formatter));
    var a := if d.appenders == [] then [] else [Entry("appender", Sequence(EncodeAppenders(d.appenders)))];
    FindAppend([n, l, f], a, key);
    FindAppend([n, l], [f], key);
    FindAppend([n], [l], key);
    assert [n, l] + [f] == [n, l, f] && [n] + [l] == [n, l];
    FindOne(n, key);
    FindOne(l, key);
    FindOne(f, key);
    FindOne(Entry("appender", Sequence(EncodeAppenders(d.appenders))), key);
  }

  /** Decoding an encoded definition always succeeds, and gives it back exactly when its
      appenders other than files have no path. */
  lemma DefineRoundTrip(d: LogDefine)
    ensures Decode(Encode(d)) == Some(d.(appenders := NormalAll(d.appenders)))
    ensures Decode(Encode(d)) == Some(d)
            <==> forall i :: 0 <= i < |d.appenders| && d.appenders[i].kind != "file" ==> d.appenders[i].path == ""
  {
    DefineField(d, "name");
    DefineField(d, "level");
    DefineField(d, "formatter");
    DefineField(d, "appender");
    LevelRoundTrip(d.level);
    AppendersRoundTrip(d.appenders);
    if NormalAll(d.appenders) == d.appenders {
      forall i | 0 <= i < |d.appenders| && d.appenders[i].kind != "file" ensures d.appenders[i].path == "" {
        assert NormalAll(d.appenders)[i] == d.appenders[i];
      }
    }
  }

  // ----- The variable's own equality -----

  predicate SameAppender(a: AppenderDefine, b: AppenderDefine) {
    a.kind == b.kind && a.path == b.path
  }

  predicate SameDefine(a: LogDefine, b: LogDefine) {
    && a.name == b.name && a.level == b.level && a.formatter == b.formatter
    && |a.appenders| == |b.appenders|
    && forall i :: 0 <= i < |a.appenders| ==> SameAppender(a.appenders[i], b.appenders[i])
  }

  function Blur(d: LogDefine): LogDefine {
    d.(appenders := seq(|d.appenders|, i requires 0 <= i < |d.appenders| =>
                          d.appenders[i].(level := UNKNOW, formatter := "")))
  }

  /** operator== does not see the levels and formatters of appenders: two definitions are the
      same to setValue exactly when they agree after erasing those. */
  lemma SameIsEqualBlurred(a: LogDefine, b: LogDefine)
    ensures SameDefine(a, b) <==> Blur(a) == Blur(b)
  {
    if SameDefine(a, b) {
      assert forall i :: 0 <= i < |a.appenders| ==> SameAppender(a.appenders[i], b.appenders[i]);
    }
    if Blur(a) == Blur(b) {
      assert |Blur(a).appenders| == |Blur(b).appenders|;
      forall i | 0 <= i < |a.appenders| ensures SameAppender(a.appenders[i], b.appenders[i]) {
        assert Blur(a).appenders[i] == Blur(b).appenders[i];
      }
    }
  }

  // ----- std::set<LogDefine>: ordered by name, the first of a name stays -----

  ghost predicate SortedByName(ds: seq<LogDefine>) {
    forall i, j :: 0 <= i < j < |ds| ==> Less(ds[i].name, ds[j].name)
  }

  function InsertDefine(ds: seq<LogDefine>, d: LogDefine): seq<LogDefine> {
    if ds == [] || Less(d.name, ds[0].name) then [d] + ds
    else if d.name == ds[0].name then ds
    else [ds[0]] + InsertDefine(ds[1..], d)
  }

  function FirstNamed(ds: seq<LogDefine>, name: string): Option<LogDefine> {
    if ds == [] then None else if ds[0].name == name then Some(ds[0]) else FirstNamed(ds[1..], name)
  }

  lemma SortedCons(d: LogDefine, ds: seq<LogDefine>)
    requires SortedByName(ds) && forall e :: e in ds ==> Less(d.name, e.name)
    ensures SortedByName([d] + ds)
  {}

  lemma SortedTail(ds: seq<LogDefine>)
    requires ds != [] && SortedByName(ds)
    ensures SortedByName(ds[1..]) && forall e :: e in ds[1..] ==> Less(ds[0].name, e.name)
  {}

  lemma {:induction false} AbsentBelow(ds: seq<LogDefine>, name: string)
    requires forall e :: e in ds ==> Less(name, e.name)
    ensures FirstNamed(ds, name) == None
  {
    if ds != [] {
      LessIsTotal(name, ds[0].name);
      AbsentBelow(ds[1..], name);
    }
  }

  lemma {:induction false} InsertKeepsSorted(ds: seq<LogDefine>, d: LogDefine)
    requires SortedByName(ds)
    ensures SortedByName(InsertDefine(ds, d))
    ensures forall e :: e in InsertDefine(ds, d) ==> e == d || e in ds
  {
    if ds != [] {
      SortedTail(ds);
      LessIsTotal(d.name, ds[0].name);
      if Less(d.name, ds[0].name) {
        forall e | e in ds ensures Less(d.name, e.name) {
          if e != ds[0] {
            LessIsTransitive(d.name, ds[0].name, e.name);
          }
        }
        SortedCons(d, ds);
      } else if d.name != ds[0].name {
        InsertKeepsSorted(ds[1..], d);
        SortedCons(ds[0], InsertDefine(ds[1..], d));
      }
    }
  }

  lemma {:induction false} InsertKeepsFirst(ds: seq<LogDefine>, d: LogDefine, name: string)
    requires SortedByName(ds)
    ensures FirstNamed(InsertDefine(ds, d), name)
            == if FirstNamed(ds, name) == None && name == d.name then Some(d) else FirstNamed(ds, name)
  {
    if ds != [] {
      SortedTail(ds);
      LessIsTotal(d.name, ds[0].name);
      if Less(d.name, ds[0].name) {
        forall e | e in ds ensures Less(d.name, e.name) {
          if e != ds[0] {
            LessIsTransitive(d.name, ds[0].name, e.name);
          }
        }
        AbsentBelow(ds, d.name);
      } else if d.name != ds[0].name {
        InsertKeepsFirst(ds[1..], d, name);
      }
    }
  }

  /** The set built by inserting `ds` in turn into `acc`. */
  function SetFrom(acc: seq<LogDefine>, ds: seq<LogDefine>): seq<LogDefine>
    decreases |ds|
  {
    if ds == [] then acc else SetFrom(InsertDefine(acc, ds[0]), ds[1..])
  }

  /** The set is in strict name order and has, for every name, the first definition given. */
  lemma {:induction false} SetKeepsFirst(acc: seq<LogDefine>, ds: seq<LogDefine>, name: string)
    requires SortedByName(acc)
    ensures SortedByName(SetFrom(acc, ds))
    ensures FirstNamed(SetFrom(acc, ds), name)
            == if FirstNamed(acc, name).Some? then FirstNamed(acc, name) else FirstNamed(ds, name)
    decreases |ds|
  {
    if ds != [] {
      InsertKeepsSorted(acc, ds[0]);
      InsertKeepsFirst(acc, ds[0], name);
      SetKeepsFirst(InsertDefine(acc, ds[0]), ds[1..], name);
    }
  }

  /** A list already in strict name order is its own set. */
  lemma {:induction false} SortedIsItsSet(acc: seq<LogDefine>, ds: seq<LogDefine>)
    requires SortedByName(acc + ds)
    ensures SetFrom(acc, ds) == acc + ds
    decreases |ds|
  {
    if ds == [] {
      assert acc + ds == acc;
    } else {
      assert acc + ds == acc + [ds[0]] + ds[1..];
      InsertAtEnd(acc, ds[0], ds[1..]);
      SortedIsItsSet(acc + [ds[0]], ds[1..]);
    }
  }

  lemma {:induction false} InsertAtEnd(acc: seq<LogDefine>, d: LogDefine, rest: seq<LogDefine>)
    requires SortedByName(acc + [d] + rest)
    ensures InsertDefine(acc, d) == acc + [d]
    decreases |acc|
  {
    var all := acc + [d] + rest;
    if acc == [] {
      assert acc + [d] == [d];
    } else {
      assert all[0] == acc[0] && all[|acc|] == d;
      LessIsTotal(acc[0].name, d.name);
      assert all[1..] == acc[1..] + [d] + rest;
      SortedTail(all);
      InsertAtEnd(acc[1..], d, rest);
      assert [acc[0]] + (acc[1..] + [d]) == acc + [d];
    }
  }

  /** The casts hand every node on as text: it is rendered with `emit` and parsed with `load`. */
  function Reparse(node: Node, emit: Node -> string, load: string -> Node): Node {
    load(emit(node))
  }

  function DecodeAll(nodes: seq<Node>, emit: Node -> string, load: string -> Node): Option<seq<LogDefine>> {
    if nodes == [] then Some([])
    else
      var first, rest := Decode(Reparse(nodes[0], emit, load)), DecodeAll(nodes[1..], emit, load);
      if first == None || rest == None then None else Some([first.value] + rest.value)
  }

  /** The nodes that toYamlString collects, each rendered and parsed. */
  function EncodeAll(ds: seq<LogDefine>, emit: Node -> string, load: string -> Node): seq<Node> {
    seq(|ds|, i requires 0 <= i < |ds| => Reparse(Encode(ds[i]), emit, load))
  }

  /** The library reads back what it has written of each definition, and decoding that gives
      the definition. */
  ghost predicate AllReadBack(ds: seq<LogDefine>, emit: Node -> string, load: string -> Node) {
    forall i :: 0 <= i < |ds| ==>
      Reparse(Encode(ds[i]), emit, load) == Encode(ds[i]) && Decode(Encode(ds[i])) == Some(ds[i])
  }

  lemma {:induction false} DecodeAllRoundTrip(ds: seq<LogDefine>, emit: Node -> string, load: string -> Node)
    requires AllReadBack(ds, emit, load)
    ensures DecodeAll(EncodeAll(ds, emit, load), emit, load) == Some(ds)
  {
    hide Decode, Encode;
    if ds == [] {
      assert EncodeAll(ds, emit, load) == [];
    } else {
      assert Reparse(Encode(ds[0]), emit, load) == Encode(ds[0]) && Decode(Encode(ds[0])) == Some(ds[0]);
      assert EncodeAll(ds, emit, load)[1..] == EncodeAll(ds[1..], emit, load);
      assert AllReadBack(ds[1..], emit, load) by {
        assert forall i :: 0 <= i < |ds[1..]| ==> ds[1..][i] == ds[i + 1];
      }
      DecodeAllRoundTrip(ds[1..], emit, load);
      assert [ds[0]] + ds[1..] == ds;
    }
  }

  /** The set that a sequence of definitions converts to; None when one of them throws. */
  function DecodedSet(node: Node, emit: Node -> string, load: string -> Node): Option<seq<LogDefine>> {
    var items := ItemsOf(Some(node));
    if items == None || DecodeAll(items.value, emit, load) == None then None
    else Some(SetFrom([], DecodeAll(items.value, emit, load).value))
  }

  /** LexicalCast<std::string, std::set<LogDefine>>. */
  method DecodeSet(text: string, emit: Node -> string, load: string -> Node) returns (result: Option<seq<LogDefine>>)
    ensures result == DecodedSet(load(text), emit, load)
  {
    hide Decode, InsertDefine;
    var items := ItemsOf(Some(load(text)));
    if items == None {
      return None;
    }
    var nodes := items.value;
    var acc: seq<LogDefine> := [];
    var k := 0;
    while k < |nodes|
      invariant 0 <= k <= |nodes|
      invariant DecodeAll(nodes, emit, load) == None <==> DecodeAll(nodes[k..], emit, load) == None
      invariant DecodeAll(nodes, emit, load).Some? ==>
                  SetFrom([], DecodeAll(nodes, emit, load).value) == SetFrom(acc, DecodeAll(nodes[k..], emit, load).value)
    {
      assert nodes[k..][0] == nodes[k] && nodes[k..][1..] == nodes[k + 1..];
      var d := Decode(Reparse(nodes[k], emit, load));
      if d == None {
        return None;
      }
      ghost var rest := DecodeAll(nodes[k + 1..], emit, load);
      assert rest.Some? ==> ([d.value] + rest.value)[0] == d.value && ([d.value] + rest.value)[1..] == rest.value;
      acc := InsertDefine(acc, d.value);
      k := k + 1;
    }
    result := Some(acc);
  }
}
