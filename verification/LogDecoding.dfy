/** What the YAML form of logger definitions means, spelled out: which texts are levels, which
    nodes can be decoded and to what, and what a sequence of them is as a set (server/log.cpp,
    server/config.h). */
module LogDecoding {
  import opened Wrappers
  import opened Strings
  import opened Yaml
  import opened LogDefines

  // ----- Levels -----

  /** The text is the word, in any mixture of upper and lower case. */
  predicate Spells(text: string, word: string) {
    |text| == |word| && forall i :: 0 <= i < |word| ==> SpellsChar(text[i], word[i])
  }

  predicate SpellsChar(c: char, d: char) {
    c == d || ('A' <= c <= 'Z' && c - 'A' + 'a' == d)
  }

  /** In a word of lower-case letters. */
  predicate LowerCase(word: string) {
    forall i :: 0 <= i < |word| ==> 'a' <= word[i] <= 'z'
  }

  lemma SpellsIsLower(text: string, word: string)
    requires LowerCase(word)
    ensures ToLower(text) == word <==> Spells(text, word)
  {
    if ToLower(text) == word {
      forall i | 0 <= i < |word| ensures SpellsChar(text[i], word[i]) {
        assert ToLower(text)[i] == word[i];
      }
    }
    if Spells(text, word) {
      forall i | 0 <= i < |word| ensures ToLower(text)[i] == word[i] {
        assert SpellsChar(text[i], word[i]);
      }
    }
  }

  /** Five words are levels, in any case; every other text is the unknown level. */
  lemma LevelTexts(text: string)
    ensures ToLevel(text) == DEBUG <==> Spells(text, "debug")
    ensures ToLevel(text) == INFO <==> Spells(text, "info")
    ensures ToLevel(text) == WARN <==> Spells(text, "warn")
    ensures ToLevel(text) == ERROR <==> Spells(text, "error")
    ensures ToLevel(text) == FATAL <==> Spells(text, "fatal")
  {
    SpellsIsLower(text, "debug");
    SpellsIsLower(text, "info");
    SpellsIsLower(text, "warn");
    SpellsIsLower(text, "error");
    SpellsIsLower(text, "fatal");
  }

  /** Levels are written in lower case. */
  lemma LevelNodes()
    ensures LevelNode(DEBUG) == Scalar("debug") && LevelNode(INFO) == Scalar("info") && LevelNode(WARN) == Scalar("warn")
    ensures LevelNode(ERROR) == Scalar("error") && LevelNode(FATAL) == Scalar("fatal") && LevelNode(UNKNOW) == Scalar("unknown")
  {
    assert ToLower("DEBUG") == "debug" && ToLower("INFO") == "info" && ToLower("WARN") == "warn";
    assert ToLower("ERROR") == "error" && ToLower("FATAL") == "fatal" && ToLower("UNKNOWN") == "unknown";
  }

  // ----- One definition -----

  predicate IsText(field: Option<Node>) {
    field.Some? && field.value.Scalar?
  }

  /** A field that must be a text if it is there. */
  predicate MayBeText(field: Option<Node>) {
    field == None || IsText(field)
  }

  /** An appender needs its type, a file also its path; level and formatter may be missing. */
  predicate AppenderReadable(node: Node) {
    && IsText(Get(node, "type"))
    && (Get(node, "type").value.text == "file" ==> IsText(Get(node, "file")))
    && MayBeText(Get(node, "level")) && MayBeText(Get(node, "formatter"))
  }

  /** A readable appender decodes to its fields: the path of a file and no other, and the unknown
      level and the empty formatter where those are missing. */
  lemma AppenderDecodesExactly(node: Node)
    ensures DecodeAppender(node).Some? <==> AppenderReadable(node)
    ensures AppenderReadable(node) ==>
              var a := DecodeAppender(node).value;
              && a.kind == Get(node, "type").value.text
              && a.path == (if a.kind == "file" then Get(node, "file").value.text else "")
              && a.level == (if Get(node, "level") == None then UNKNOW else ToLevel(Get(node, "level").value.text))
              && a.formatter == (if Get(node, "formatter") == None then "" else Get(node, "formatter").value.text)
  {
    assert ToLower("") == "";
  }

  lemma {:induction false} AppendersDecodeExactly(nodes: seq<Node>)
    ensures DecodeAppenders(nodes).Some? <==> forall i :: 0 <= i < |nodes| ==> AppenderReadable(nodes[i])
    ensures DecodeAppenders(nodes).Some? ==>
              && |DecodeAppenders(nodes).value| == |nodes|
              && forall i :: 0 <= i < |nodes| ==> DecodeAppender(nodes[i]) == Some(DecodeAppenders(nodes).value[i])
  {
    if nodes != [] {
      AppenderDecodesExactly(nodes[0]);
      AppendersDecodeExactly(nodes[1..]);
      var r := DecodeAppenders(nodes);
      if r.Some? {
        forall i | 0 <= i < |nodes|
          ensures AppenderReadable(nodes[i]) && DecodeAppender(nodes[i]) == Some(r.value[i])
        {
          assert i > 0 ==> nodes[i] == nodes[1..][i - 1];
        }
      }
      if forall i :: 0 <= i < |nodes| ==> AppenderReadable(nodes[i]) {
        forall i | 0 <= i < |nodes[1..]| ensures AppenderReadable(nodes[1..][i]) {
          assert nodes[1..][i] == nodes[i + 1];
        }
      }
    }
  }

  /** The nodes under `appender`, if that can be gone through. */
  predicate AppendersReadable(field: Option<Node>) {
    field.Some? ==>
      && (field.value.Map? ==> field.value.entries == [])
      && (field.value.Sequence? ==>
            forall i :: 0 <= i < |field.value.items| ==> AppenderReadable(field.value.items[i]))
  }

  /** A definition needs its name, level and formatter. */
  predicate Readable(node: Node) {
    && IsText(Get(node, "name")) && IsText(Get(node, "level")) && IsText(Get(node, "formatter"))
    && AppendersReadable(Get(node, "appender"))
  }

  /** Which definitions can be decoded, and to what. */
  lemma DecodesExactly(node: Node)
    ensures Decode(node).Some? <==> Readable(node)
    ensures Readable(node) ==>
              var d := Decode(node).value;
              && d.name == Get(node, "name").value.text
              && d.level == ToLevel(Get(node, "level").value.text)
              && d.formatter == Get(node, "formatter").value.text
              && match Get(node, "appender")
                 case Some(Sequence(items)) =>
                   |d.appenders| == |items| && forall i :: 0 <= i < |items| ==> DecodeAppender(items[i]) == Some(d.appenders[i])
                 case _ => d.appenders == []
  {
    match Get(node, "appender")
    case Some(Sequence(items)) => AppendersDecodeExactly(items);
    case _ =>
  }

  // ----- The set -----

  /** One string comes before another exactly if it is a proper prefix of it, or has the smaller
      character where they first differ. */
  predicate Before(a: string, b: string) {
    exists k :: 0 <= k <= |a| && ComesFirstAt(a, b, k)
  }

  predicate ComesFirstAt(a: string, b: string, k: nat)
    requires k <= |a|
  {
    k < |b| && a[..k] == b[..k] && (k == |a| || a[k] < b[k])
  }

  lemma {:induction false} LessExactly(a: string, b: string)
    ensures Less(a, b) <==> Before(a, b)
    decreases |a|
  {
    if a == [] || b == [] {
      assert b != [] ==> ComesFirstAt(a, b, 0);
    } else {
      LessExactly(a[1..], b[1..]);
      if a[0] == b[0] {
        FirstCharDrops(a, b);
      } else if a[0] < b[0] {
        assert ComesFirstAt(a, b, 0);
      } else {
        forall k | 0 <= k <= |a| ensures !ComesFirstAt(a, b, k) {
          if k > 0 && k < |b| {
            assert a[..k][0] == a[0] && b[..k][0] == b[0];
          }
        }
      }
    }
  }

  lemma FirstCharDrops(a: string, b: string)
    requires a != [] && b != [] && a[0] == b[0]
    ensures Before(a, b) <==> Before(a[1..], b[1..])
  {
    if k :| 0 <= k <= |a| && ComesFirstAt(a, b, k) {
      assert k > 0;
      assert a[1..][..k - 1] == a[..k][1..] && b[1..][..k - 1] == b[..k][1..];
      assert ComesFirstAt(a[1..], b[1..], k - 1);
    }
    if k :| 0 <= k <= |a[1..]| && ComesFirstAt(a[1..], b[1..], k) {
      assert a[..k + 1] == [a[0]] + a[1..][..k] && b[..k + 1] == [b[0]] + b[1..][..k];
      assert ComesFirstAt(a, b, k + 1);
    }
  }

  lemma {:induction false} AllDecodeExactly(nodes: seq<Node>, emit: Node -> string, load: string -> Node)
    ensures DecodeAll(nodes, emit, load).Some? <==> forall i :: 0 <= i < |nodes| ==> Readable(Reparse(nodes[i], emit, load))
    ensures DecodeAll(nodes, emit, load).Some? ==>
              && |DecodeAll(nodes, emit, load).value| == |nodes|
              && forall i :: 0 <= i < |nodes| ==>
                   Decode(Reparse(nodes[i], emit, load)) == Some(DecodeAll(nodes, emit, load).value[i])
  {
    hide Decode, Readable, Reparse;
    if nodes != [] {
      DecodesExactly(Reparse(nodes[0], emit, load));
      AllDecodeExactly(nodes[1..], emit, load);
      var r := DecodeAll(nodes, emit, load);
      if r.Some? {
        forall i | 0 <= i < |nodes|
          ensures Readable(Reparse(nodes[i], emit, load)) && Decode(Reparse(nodes[i], emit, load)) == Some(r.value[i])
        {
          assert i > 0 ==> nodes[i] == nodes[1..][i - 1];
        }
      }
      if forall i :: 0 <= i < |nodes| ==> Readable(Reparse(nodes[i], emit, load)) {
        forall i | 0 <= i < |nodes[1..]| ensures Readable(Reparse(nodes[1..][i], emit, load)) {
          assert nodes[1..][i] == nodes[i + 1];
        }
      }
    }
  }

  lemma {:induction false} FirstNamedIs(ds: seq<LogDefine>, i: nat)
    requires i < |ds| && forall j :: 0 <= j < i ==> ds[j].name != ds[i].name
    ensures FirstNamed(ds, ds[i].name) == Some(ds[i])
  {
    if i > 0 {
      assert ds[1..][i - 1] == ds[i];
      forall j | 0 <= j < i - 1 ensures ds[1..][j].name != ds[i].name {
        assert ds[1..][j] == ds[j + 1];
      }
      FirstNamedIs(ds[1..], i - 1);
    }
  }

  lemma {:induction false} FirstNamedIsIn(ds: seq<LogDefine>, name: string)
    ensures FirstNamed(ds, name).Some? ==> FirstNamed(ds, name).value in ds && FirstNamed(ds, name).value.name == name
    ensures FirstNamed(ds, name) == None ==> forall d :: d in ds ==> d.name != name
  {
    if ds != [] {
      FirstNamedIsIn(ds[1..], name);
    }
  }

  /** A sequence converts exactly if each of its elements, rendered and parsed by itself, can be
      decoded, as `AllDecodeExactly` says; a scalar or nothing converts to the empty set. */
  lemma ConvertsExactly(node: Node, emit: Node -> string, load: string -> Node)
    ensures node.Sequence? ==>
              (DecodedSet(node, emit, load).Some?
               <==> forall i :: 0 <= i < |node.items| ==> Readable(Reparse(node.items[i], emit, load)))
    ensures node.Scalar? || node.Null? ==> DecodedSet(node, emit, load) == Some([])
  {
    hide Readable, Reparse, Decode;
    if node.Sequence? {
      AllDecodeExactly(node.items, emit, load);
    }
  }

  /** The set of a sequence that converts has strictly ascending names, and holds of every name
      the definition that comes first, and no other. */
  lemma SetExactly(node: Node, emit: Node -> string, load: string -> Node)
    requires node.Sequence? && DecodedSet(node, emit, load).Some?
    ensures var r, all := DecodedSet(node, emit, load).value, DecodeAll(node.items, emit, load);
            && all.Some?
            && Ascending(r) && HoldsFirsts(r, all.value)
  {
    SetOfFirsts(DecodeAll(node.items, emit, load).value);
    hide Ascending, HoldsFirsts;
  }

  ghost predicate Ascending(r: seq<LogDefine>) {
    forall i, j :: 0 <= i < j < |r| ==> Before(r[i].name, r[j].name)
  }

  ghost predicate HoldsFirsts(r: seq<LogDefine>, ds: seq<LogDefine>) {
    forall d :: d in r <==> IsFirst(d, ds)
  }

  /** No definition in front of it has its name. */
  ghost predicate IsFirst(d: LogDefine, ds: seq<LogDefine>) {
    exists i :: 0 <= i < |ds| && ds[i] == d && forall j :: 0 <= j < i ==> ds[j].name != d.name
  }

  lemma SetOfFirsts(ds: seq<LogDefine>)
    ensures var r := SetFrom([], ds);
            Ascending(r) && HoldsFirsts(r, ds)
  {
    var r := SetFrom([], ds);
    SetKeepsFirst([], ds, "");
    forall i, j | 0 <= i < j < |r| ensures Before(r[i].name, r[j].name) {
      LessExactly(r[i].name, r[j].name);
    }
    forall d ensures d in r <==> IsFirst(d, ds) {
      SetKeepsFirst([], ds, d.name);
      FirstNamedIsIn(r, d.name);
      FirstNamedIsIn(ds, d.name);
      MemberIsFirst(r, d);
      FirstIsFound(ds, d);
    }
  }

  /** In a set the member of a name is found under it. */
  lemma MemberIsFirst(r: seq<LogDefine>, d: LogDefine)
    requires SortedByName(r)
    ensures d in r ==> FirstNamed(r, d.name) == Some(d)
  {
    if d in r {
      var i :| 0 <= i < |r| && r[i] == d;
      forall j | 0 <= j < i ensures r[j].name != d.name {
        LessIsTotal(r[j].name, d.name);
        assert Less(r[j].name, r[i].name);
      }
      FirstNamedIs(r, i);
    }
  }

  lemma {:induction false} FirstIsFound(ds: seq<LogDefine>, d: LogDefine)
    ensures FirstNamed(ds, d.name) == Some(d) <==> IsFirst(d, ds)
  {
    if IsFirst(d, ds) {
      var i :| 0 <= i < |ds| && ds[i] == d && forall j :: 0 <= j < i ==> ds[j].name != d.name;
      FirstNamedIs(ds, i);
    }
    if FirstNamed(ds, d.name) == Some(d) {
      FoundIsFirst(ds, d);
    }
  }

  lemma {:induction false} FoundIsFirst(ds: seq<LogDefine>, d: LogDefine)
    requires FirstNamed(ds, d.name) == Some(d)
    ensures IsFirst(d, ds)
  {
    if ds[0].name == d.name {
      assert ds[0] == d;
    } else {
      FoundIsFirst(ds[1..], d);
      var i :| 0 <= i < |ds[1..]| && ds[1..][i] == d && forall j :: 0 <= j < i ==> ds[1..][j].name != d.name;
      assert ds[i + 1] == d;
      forall j | 0 <= j < i + 1 ensures ds[j].name != d.name {
        assert j > 0 ==> ds[j] == ds[1..][j - 1];
      }
    }
  }

  // ----- Equality -----

  /** operator== sees everything but the levels and formatters of appenders. */
  lemma DifferencesAreSeen(a: LogDefine, b: LogDefine)
    ensures SameDefine(a, b) <==>
              && a.name == b.name && a.level == b.level && a.formatter == b.formatter && |a.appenders| == |b.appenders|
              && forall i :: 0 <= i < |a.appenders| ==>
                   a.appenders[i].(level := b.appenders[i].level, formatter := b.appenders[i].formatter) == b.appenders[i]
  {
    if SameDefine(a, b) {
      assert forall i :: 0 <= i < |a.appenders| ==> SameAppender(a.appenders[i], b.appenders[i]);
    } else if |a.appenders| == |b.appenders| && a.name == b.name && a.level == b.level && a.formatter == b.formatter {
      var i :| 0 <= i < |a.appenders| && !SameAppender(a.appenders[i], b.appenders[i]);
      assert a.appenders[i].(level := b.appenders[i].level, formatter := b.appenders[i].formatter) != b.appenders[i];
    }
  }
}
