/** Flattening a YAML tree to dotted names: Config::ListAllYamlMember (server/config.cpp). */
module ConfigTree {
  import opened Strings
  import opened Yaml

  datatype Member = Member(name: string, node: Node)

  predicate ValidChar(c: char) {
    'a' <= c <= 'z' || 'A' <= c <= 'Z' || '0' <= c <= '9' || c == '.' || c == '_'
  }

  predicate ValidName(name: string) {
    forall i :: 0 <= i < |name| ==> ValidChar(name[i])
  }

  function ChildName(prefix: string, key: string): string {
    if prefix == "" then key else prefix + "." + key
  }

  /** What ListAllYamlMember appends: it gives up on a subtree whose name is invalid. */
  function Flatten(node: Node, prefix: string): seq<Member>
    decreases node, 1
  {
    if !ValidName(prefix) then []
    else [Member(prefix, node)] + (if node.Map? then FlattenEntries(node.entries, prefix) else [])
  }

  function FlattenEntries(es: seq<Entry>, prefix: string): seq<Member>
    decreases es, 0
  {
    if es == [] then []
    else Flatten(es[0].value, ChildName(prefix, es[0].key)) + FlattenEntries(es[1..], prefix)
  }

  /** The same without the check of the prefix. */
  function FlattenAll(node: Node, prefix: string): seq<Member>
    decreases node, 1
  {
    [Member(prefix, node)] + (if node.Map? then FlattenAllEntries(node.entries, prefix) else [])
  }

  function FlattenAllEntries(es: seq<Entry>, prefix: string): seq<Member>
    decreases es, 0
  {
    if es == [] then []
    else FlattenAll(es[0].value, ChildName(prefix, es[0].key)) + FlattenAllEntries(es[1..], prefix)
  }

  // ----- Pruning -----

  function KeepValid(ms: seq<Member>): seq<Member> {
    if ms == [] then [] else (if ValidName(ms[0].name) then [ms[0]] else []) + KeepValid(ms[1..])
  }

  lemma {:induction false} KeepAppend(a: seq<Member>, b: seq<Member>)
    ensures KeepValid(a + b) == KeepValid(a) + KeepValid(b)
  {
    hide ValidName;
    if a == [] {
      assert a + b == b;
    } else {
      assert (a + b)[0] == a[0] && (a + b)[1..] == a[1..] + b;
      KeepAppend(a[1..], b);
      Reassociate(if ValidName(a[0].name) then [a[0]] else [], KeepValid(a[1..]), KeepValid(b));
    }
  }

  lemma ExtensionOfInvalid(prefix: string, key: string)
    requires !ValidName(prefix)
    ensures !ValidName(ChildName(prefix, key))
  {
    var i :| 0 <= i < |prefix| && !ValidChar(prefix[i]);
    assert ChildName(prefix, key)[i] == prefix[i];
  }

  /** Below an invalid name every name is invalid. */
  lemma {:induction false} NothingValidBelow(node: Node, prefix: string)
    requires !ValidName(prefix)
    ensures KeepValid(FlattenAll(node, prefix)) == []
    decreases node, 1
  {
    if node.Map? {
      NothingValidInEntries(node.entries, prefix);
    }
    var all := FlattenAll(node, prefix);
    assert all[1..] == if node.Map? then FlattenAllEntries(node.entries, prefix) else [];
  }

  lemma {:induction false} NothingValidInEntries(es: seq<Entry>, prefix: string)
    requires !ValidName(prefix)
    ensures KeepValid(FlattenAllEntries(es, prefix)) == []
    decreases es, 0
  {
    if es != [] {
      var name := ChildName(prefix, es[0].key);
      ExtensionOfInvalid(prefix, es[0].key);
      NothingValidBelow(es[0].value, name);
      NothingValidInEntries(es[1..], prefix);
      KeepAppend(FlattenAll(es[0].value, name), FlattenAllEntries(es[1..], prefix));
    }
  }

  /** Giving up on a subtree loses exactly the entries with invalid names. */
  lemma {:induction false} PruningKeepsTheValid(node: Node, prefix: string)
    ensures Flatten(node, prefix) == KeepValid(FlattenAll(node, prefix))
    decreases node, 1
  {
    if !ValidName(prefix) {
      NothingValidBelow(node, prefix);
    } else {
      var below := if node.Map? then FlattenAllEntries(node.entries, prefix) else [];
      if node.Map? {
        PruningEntries(node.entries, prefix);
      }
      assert FlattenAll(node, prefix)[1..] == below;
    }
  }

  lemma {:induction false} PruningEntries(es: seq<Entry>, prefix: string)
    ensures FlattenEntries(es, prefix) == KeepValid(FlattenAllEntries(es, prefix))
    decreases es, 0
  {
    if es != [] {
      var name := ChildName(prefix, es[0].key);
      PruningKeepsTheValid(es[0].value, name);
      PruningEntries(es[1..], prefix);
      KeepAppend(FlattenAll(es[0].value, name), FlattenAllEntries(es[1..], prefix));
    }
  }

  // ----- Key paths -----

  datatype Place = Place(path: seq<string>, node: Node)

  /** The nodes of the tree in pre-order, each with the keys that lead to it. */
  function Places(node: Node): seq<Place>
    decreases node, 1
  {
    [Place([], node)] + (if node.Map? then EntryPlaces(node.entries) else [])
  }

  function EntryPlaces(es: seq<Entry>): seq<Place>
    decreases es, 0
  {
    if es == [] then [] else Under(es[0].key, Places(es[0].value)) + EntryPlaces(es[1..])
  }

  function Under(key: string, ps: seq<Place>): seq<Place> {
    seq(|ps|, i requires 0 <= i < |ps| => Place([key] + ps[i].path, ps[i].node))
  }

  function NameOf(prefix: string, path: seq<string>): string
    decreases |path|
  {
    if path == [] then prefix else NameOf(ChildName(prefix, path[0]), path[1..])
  }

  function Named(prefix: string, ps: seq<Place>): seq<Member> {
    seq(|ps|, i requires 0 <= i < |ps| => Member(NameOf(prefix, ps[i].path), ps[i].node))
  }

  predicate ValidPath(path: seq<string>) {
    forall i :: 0 <= i < |path| ==> ValidName(path[i])
  }

  function KeepValidPaths(ps: seq<Place>): seq<Place> {
    if ps == [] then [] else (if ValidPath(ps[0].path) then [ps[0]] else []) + KeepValidPaths(ps[1..])
  }

  lemma NamedAppend(prefix: string, a: seq<Place>, b: seq<Place>)
    ensures Named(prefix, a + b) == Named(prefix, a) + Named(prefix, b)
  {}

  lemma NamedUnder(prefix: string, key: string, ps: seq<Place>)
    ensures Named(prefix, Under(key, ps)) == Named(ChildName(prefix, key), ps)
  {}

  lemma {:induction false} FlattenAllIsPlaces(node: Node, prefix: string)
    ensures FlattenAll(node, prefix) == Named(prefix, Places(node))
    decreases node, 1
  {
    if node.Map? {
      FlattenAllEntriesIsPlaces(node.entries, prefix);
      NamedAppend(prefix, [Place([], node)], EntryPlaces(node.entries));
    }
  }

  lemma {:induction false} FlattenAllEntriesIsPlaces(es: seq<Entry>, prefix: string)
    ensures FlattenAllEntries(es, prefix) == Named(prefix, EntryPlaces(es))
    decreases es, 0
  {
    if es != [] {
      var name := ChildName(prefix, es[0].key);
      FlattenAllIsPlaces(es[0].value, name);
      FlattenAllEntriesIsPlaces(es[1..], prefix);
      NamedUnder(prefix, es[0].key, Places(es[0].value));
      NamedAppend(prefix, Under(es[0].key, Places(es[0].value)), EntryPlaces(es[1..]));
    }
  }

  lemma ValidChild(prefix: string, key: string)
    ensures ValidName(ChildName(prefix, key)) <==> ValidName(prefix) && ValidName(key)
  {
    if prefix != "" {
      var name := prefix + "." + key;
      forall i | 0 <= i < |prefix| ensures name[i] == prefix[i] {}
      forall i | 0 <= i < |key| ensures name[|prefix| + 1 + i] == key[i] {}
      if ValidName(name) {
        forall i | 0 <= i < |key| ensures ValidChar(key[i]) {
          assert ValidChar(name[|prefix| + 1 + i]);
        }
        forall i | 0 <= i < |prefix| ensures ValidChar(prefix[i]) {
          assert ValidChar(name[i]);
        }
      }
    }
  }

  lemma {:induction false} ValidNameOf(prefix: string, path: seq<string>)
    ensures ValidName(NameOf(prefix, path)) <==> ValidName(prefix) && ValidPath(path)
    decreases |path|
  {
    if path != [] {
      ValidChild(prefix, path[0]);
      ValidNameOf(ChildName(prefix, path[0]), path[1..]);
      assert ValidPath(path) <==> ValidName(path[0]) && ValidPath(path[1..]) by {
        assert path == [path[0]] + path[1..];
      }
    }
  }

  lemma {:induction false} KeepValidIsKeepValidPaths(ps: seq<Place>)
    ensures KeepValid(Named("", ps)) == Named("", KeepValidPaths(ps))
  {
    if ps != [] {
      assert Named("", ps)[1..] == Named("", ps[1..]);
      KeepValidIsKeepValidPaths(ps[1..]);
      ValidNameOf("", ps[0].path);
      NamedAppend("", if ValidPath(ps[0].path) then [ps[0]] else [], KeepValidPaths(ps[1..]));
    }
  }

  /** The output for a whole tree is the pre-order list of the nodes whose whole key path is
      valid, each under the name of its path. */
  lemma FlattenIsValidPlaces(node: Node)
    ensures Flatten(node, "") == Named("", KeepValidPaths(Places(node)))
  {
    PruningKeepsTheValid(node, "");
    FlattenAllIsPlaces(node, "");
    KeepValidIsKeepValidPaths(Places(node));
  }

  // ----- Which names there are -----

  const LOWER: set<char> :=
    {'a', 'b', 'c', 'd', 'e', 'f', 'g', 'h', 'i', 'j', 'k', 'l', 'm',
     'n', 'o', 'p', 'q', 'r', 's', 't', 'u', 'v', 'w', 'x', 'y', 'z'}
  const UPPER: set<char> :=
    {'A', 'B', 'C', 'D', 'E', 'F', 'G', 'H', 'I', 'J', 'K', 'L', 'M',
     'N', 'O', 'P', 'Q', 'R', 'S', 'T', 'U', 'V', 'W', 'X', 'Y', 'Z'}
  const DIGITS: set<char> := {'0', '1', '2', '3', '4', '5', '6', '7', '8', '9'}

  /** The 64 characters that names are made of. */
  function NameChars(): set<char> {
    LOWER + UPPER + DIGITS + {'.', '_'}
  }

  lemma LowerIs(c: char)
    ensures c in LOWER <==> 'a' <= c <= 'z'
  {}

  lemma UpperIs(c: char)
    ensures c in UPPER <==> 'A' <= c <= 'Z'
  {}

  lemma DigitsIs(c: char)
    ensures c in DIGITS <==> '0' <= c <= '9'
  {}

  predicate MadeOf(name: string, chars: set<char>) {
    forall i :: 0 <= i < |name| ==> name[i] in chars
  }

  lemma ValidCharExactly(c: char)
    ensures ValidChar(c) <==> c in NameChars()
  {
    LowerIs(c);
    UpperIs(c);
    DigitsIs(c);
  }

  /** A name is valid if and only if it is made of those. */
  lemma ValidNameExactly(name: string)
    ensures ValidName(name) <==> MadeOf(name, NameChars())
  {
    hide ValidChar;
    forall c: char ensures ValidChar(c) <==> c in NameChars() {
      ValidCharExactly(c);
    }
  }

  lemma EmptyIsValid()
    ensures ValidName("")
  {}

  /** A key of a map leads to an entry under its name if and only if it is made of those. */
  lemma KeysExactly(key: string, value: Node)
    requires !value.Map?
    ensures var tree := Map([Entry(key, value)]);
            Flatten(tree, "")
            == if MadeOf(key, NameChars()) then [Member("", tree), Member(key, value)]
               else [Member("", tree)]
  {
    ValidNameExactly(key);
    EmptyIsValid();
    hide ValidName, MadeOf, NameChars;
    var es := [Entry(key, value)];
    assert es[1..] == [] && ChildName("", key) == key;
    assert FlattenEntries(es, "") == Flatten(value, key);
  }

  // ----- Names identify nodes -----

  predicate PlainKey(key: string) {
    key != "" && '.' !in key
  }

  ghost predicate PlainPath(path: seq<string>) {
    forall i :: 0 <= i < |path| ==> PlainKey(path[i])
  }

  /** Keys are non-empty, without dots, and distinct within each map. */
  predicate PlainKeys(node: Node)
    decreases node, 1
  {
    node.Map? ==> PlainEntries(node.entries)
  }

  predicate PlainEntries(es: seq<Entry>)
    decreases es, 0
  {
    es == [] || (
      && PlainKey(es[0].key)
      && (forall i :: 1 <= i < |es| ==> es[i].key != es[0].key)
      && PlainKeys(es[0].value)
      && PlainEntries(es[1..]))
  }

  /** Splits a name at its dots. */
  function Split(name: string): (parts: seq<string>)
    ensures parts != []
    decreases |name|
  {
    var k := IndexOf(name, '.');
    if k == |name| then [name] else [name[..k]] + Split(name[k + 1..])
  }

  function Join(parts: seq<string>): string
    requires parts != []
  {
    if |parts| == 1 then parts[0] else parts[0] + "." + Join(parts[1..])
  }

  lemma {:induction false} SplitUnfolds(name: string)
    ensures var k := IndexOf(name, '.');
            Split(name) == if k == |name| then [name] else [name[..k]] + Split(name[k + 1..])
  {
    hide IndexOf;
  }

  lemma {:induction false} SplitAt(name: string, k: nat)
    requires k <= |name| && (forall i :: 0 <= i < k ==> name[i] != '.') && (k < |name| ==> name[k] == '.')
    ensures Split(name) == if k == |name| then [name] else [name[..k]] + Split(name[k + 1..])
  {
    IndexOfIs(name, '.', k);
    hide IndexOf, Split;
    SplitUnfolds(name);
  }

  /** Splitting loses nothing. */
  lemma {:induction false} JoinUndoesSplit(name: string)
    ensures Join(Split(name)) == name
    decreases |name|
  {
    var k := IndexOf(name, '.');
    SplitAt(name, k);
    hide Split, IndexOf;
    if k < |name| {
      JoinUndoesSplit(name[k + 1..]);
      assert Split(name)[1..] == Split(name[k + 1..]);
      assert name[..k] + "." + name[k + 1..] == name;
    }
  }

  lemma {:induction false} JoinedSplitsFirst(a: string, b: string, k: nat)
    requires k == IndexOf(a, '.')
    ensures var name := a + "." + b;
            Split(name) == [a[..k]] + Split(if k == |a| then b else a[k + 1..] + "." + b)
  {
    hide IndexOf, Split;
    var name := a + "." + b;
    SplitAt(name, k);
    assert name[..k] == a[..k];
    assert name[k + 1..] == if k == |a| then b else a[k + 1..] + "." + b;
  }

  lemma {:induction false} SplitOfJoined(a: string, b: string)
    ensures Split(a + "." + b) == Split(a) + Split(b)
    decreases |a|
  {
    var k := IndexOf(a, '.');
    SplitAt(a, k);
    JoinedSplitsFirst(a, b, k);
    hide Split, IndexOf;
    if k == |a| {
      assert a[..k] == a;
    } else {
      SplitOfJoined(a[k + 1..], b);
      Reassociate([a[..k]], Split(a[k + 1..]), Split(b));
    }
  }

  /** The keys of a path, split at their dots. */
  function AllParts(path: seq<string>): seq<string> {
    if path == [] then [] else Split(path[0]) + AllParts(path[1..])
  }

  /** The same without leading empty keys, which leave no trace in a name. */
  function KeyParts(path: seq<string>): seq<string> {
    if path == [] then [] else if path[0] == "" then KeyParts(path[1..]) else AllParts(path)
  }

  lemma {:induction false} NameBelow(prefix: string, path: seq<string>)
    requires prefix != ""
    ensures NameOf(prefix, path) != "" && Split(NameOf(prefix, path)) == Split(prefix) + AllParts(path)
    decreases |path|
  {
    if path == [] {
      assert Split(prefix) + [] == Split(prefix);
    } else {
      NameBelow(prefix + "." + path[0], path[1..]);
      SplitOfJoined(prefix, path[0]);
      Reassociate(Split(prefix), Split(path[0]), AllParts(path[1..]));
    }
  }

  /** A name tells the parts of its path, and nothing else about it. */
  lemma {:induction false} PartsOfName(path: seq<string>)
    ensures if KeyParts(path) == [] then NameOf("", path) == ""
            else NameOf("", path) != "" && Split(NameOf("", path)) == KeyParts(path)
    decreases |path|
  {
    if path != [] {
      if path[0] == "" {
        PartsOfName(path[1..]);
      } else {
        NameBelow(path[0], path[1..]);
      }
    }
  }

  /** Two paths have the same name if and only if they have the same parts. */
  lemma {:induction false} NamesAgreeExactly(p: seq<string>, q: seq<string>)
    ensures NameOf("", p) == NameOf("", q) <==> KeyParts(p) == KeyParts(q)
  {
    PartsOfName(p);
    PartsOfName(q);
    JoinUndoesSplit(NameOf("", p));
    JoinUndoesSplit(NameOf("", q));
  }

  lemma {:induction false} PlainAllParts(path: seq<string>)
    requires PlainPath(path)
    ensures AllParts(path) == path
  {
    if path != [] {
      assert PlainKey(path[0]);
      IndexOfIs(path[0], '.', |path[0]|);
      forall i | 0 <= i < |path[1..]| ensures PlainKey(path[1..][i]) {
        assert PlainKey(path[i + 1]);
      }
      PlainAllParts(path[1..]);
      assert [path[0]] + path[1..] == path;
    }
  }

  /** The parts of a path of plain keys are its keys. */
  lemma PlainParts(path: seq<string>)
    requires PlainPath(path)
    ensures KeyParts(path) == path
  {
    PlainAllParts(path);
    if path != [] {
      assert PlainKey(path[0]);
    }
  }

  /** Paths lead through plain keys, and no two places share a path. */
  ghost predicate PlainPlaces(ps: seq<Place>) {
    && (forall i :: 0 <= i < |ps| ==> PlainPath(ps[i].path))
    && (forall i, j :: 0 <= i < j < |ps| ==> ps[i].path != ps[j].path)
  }

  lemma {:induction false} PlacesArePlain(node: Node)
    requires PlainKeys(node)
    ensures PlainPlaces(Places(node))
    decreases node, 1
  {
    if node.Map? {
      EntryPlacesArePlain(node.entries);
    }
  }

  lemma {:induction false} EntryPlacesArePlain(es: seq<Entry>)
    requires PlainEntries(es)
    ensures PlainPlaces(EntryPlaces(es))
    ensures forall i :: 0 <= i < |EntryPlaces(es)| ==>
              EntryPlaces(es)[i].path != [] && exists k :: 0 <= k < |es| && es[k].key == EntryPlaces(es)[i].path[0]
    decreases es, 0
  {
    if es != [] {
      var first, rest := Under(es[0].key, Places(es[0].value)), EntryPlaces(es[1..]);
      PlacesArePlain(es[0].value);
      EntryPlacesArePlain(es[1..]);
      UnderIsPlain(es[0].key, Places(es[0].value));
      forall i | 0 <= i < |rest|
        ensures exists k :: 1 <= k < |es| && es[k].key == rest[i].path[0]
      {
        var k :| 0 <= k < |es[1..]| && es[1..][k].key == rest[i].path[0];
        assert es[k + 1].key == rest[i].path[0];
      }
      forall i | 0 <= i < |first| ensures first[i].path != [] && first[i].path[0] == es[0].key {}
      JoinPlain(first, rest, es[0].key);
    }
  }

  lemma UnderIsPlain(key: string, ps: seq<Place>)
    requires PlainKey(key) && PlainPlaces(ps)
    ensures PlainPlaces(Under(key, ps))
  {
    var us := Under(key, ps);
    forall i | 0 <= i < |us| ensures PlainPath(us[i].path) {
      assert PlainPath(ps[i].path);
    }
    forall i, j | 0 <= i < j < |us| ensures us[i].path != us[j].path {
      assert us[i].path[1..] == ps[i].path && us[j].path[1..] == ps[j].path;
    }
  }

  lemma JoinPlain(a: seq<Place>, b: seq<Place>, key: string)
    requires PlainPlaces(a) && PlainPlaces(b)
    requires forall i :: 0 <= i < |a| ==> a[i].path != [] && a[i].path[0] == key
    requires forall i :: 0 <= i < |b| ==> b[i].path != [] && b[i].path[0] != key
    ensures PlainPlaces(a + b)
  {
    var c := a + b;
    forall i | 0 <= i < |c| ensures PlainPath(c[i].path) {
      assert if i < |a| then c[i] == a[i] else c[i] == b[i - |a|];
    }
    forall i, j | 0 <= i < j < |c| ensures c[i].path != c[j].path {
      assert if i < |a| then c[i] == a[i] else c[i] == b[i - |a|];
      assert if j < |a| then c[j] == a[j] else c[j] == b[j - |a|];
    }
  }

  lemma TailIsPlain(ps: seq<Place>)
    requires ps != [] && PlainPlaces(ps)
    ensures PlainPlaces(ps[1..])
    ensures forall q :: q in ps[1..] ==> q.path != ps[0].path
  {}

  lemma ConsIsPlain(p: Place, ps: seq<Place>)
    requires PlainPath(p.path) && PlainPlaces(ps) && forall q :: q in ps ==> q.path != p.path
    ensures PlainPlaces([p] + ps)
  {}

  lemma {:induction false} KeepingStaysPlain(ps: seq<Place>)
    requires PlainPlaces(ps)
    ensures PlainPlaces(KeepValidPaths(ps))
    ensures forall q :: q in KeepValidPaths(ps) ==> q in ps
  {
    if ps != [] {
      TailIsPlain(ps);
      KeepingStaysPlain(ps[1..]);
      if ValidPath(ps[0].path) {
        ConsIsPlain(ps[0], KeepValidPaths(ps[1..]));
      }
    }
  }

  ghost predicate DistinctNames(ms: seq<Member>) {
    forall i, j :: 0 <= i < j < |ms| ==> ms[i].name != ms[j].name
  }

  ghost predicate DistinctParts(ps: seq<Place>) {
    forall i, j :: 0 <= i < j < |ps| ==> KeyParts(ps[i].path) != KeyParts(ps[j].path)
  }

  /** Names identify nodes, exactly: no two entries of the output share a name if and only if
      the paths of the nodes with valid paths differ in their parts. */
  lemma NamesIdentifyNodesExactly(node: Node)
    ensures DistinctNames(Flatten(node, "")) <==> DistinctParts(KeepValidPaths(Places(node)))
  {
    FlattenIsValidPlaces(node);
    var ps, ms := KeepValidPaths(Places(node)), Flatten(node, "");
    forall i, j | 0 <= i < j < |ps|
      ensures ms[i].name == ms[j].name <==> KeyParts(ps[i].path) == KeyParts(ps[j].path)
    {
      NamesAgreeExactly(ps[i].path, ps[j].path);
    }
  }

  /** In particular they do if all keys are plain. */
  lemma PlainNamesIdentifyNodes(node: Node)
    requires PlainKeys(node)
    ensures DistinctNames(Flatten(node, ""))
  {
    PlacesArePlain(node);
    KeepingStaysPlain(Places(node));
    var ps := KeepValidPaths(Places(node));
    forall i, j | 0 <= i < j < |ps| ensures KeyParts(ps[i].path) != KeyParts(ps[j].path) {
      assert PlainPath(ps[i].path) && PlainPath(ps[j].path);
      PlainParts(ps[i].path);
      PlainParts(ps[j].path);
    }
    NamesIdentifyNodesExactly(node);
  }

  /** An empty key collides with the whole tree. */
  lemma EmptyKeyCollides(y: string)
    ensures var tree := Map([Entry("", Scalar(y))]);
            Flatten(tree, "") == [Member("", tree), Member("", Scalar(y))]
  {
    FlattenOneEntry("", y, "");
  }

  /** Keys with dots do collide: here `a.b` is named twice. */
  lemma DottedKeysCollide(x: string, y: string)
    ensures var tree := Map([Entry("a", Map([Entry("b", Scalar(x))])), Entry("a.b", Scalar(y))]);
            Flatten(tree, "") == [Member("", tree), Member("a", Map([Entry("b", Scalar(x))])),
                                  Member("a.b", Scalar(x)), Member("a.b", Scalar(y))]
  {
    var inner := Map([Entry("b", Scalar(x))]);
    var tree := Map([Entry("a", inner), Entry("a.b", Scalar(y))]);
    assert ChildName("a", "b") == "a.b";
    FlattenOneEntry("b", x, "a");
    FlattenOneEntry("a.b", y, "");
    assert Flatten(inner, "a") == [Member("a", inner), Member("a.b", Scalar(x))];
    assert tree.entries[1..] == [Entry("a.b", Scalar(y))];
    assert FlattenEntries(tree.entries, "") == Flatten(inner, "a") + [Member("a.b", Scalar(y))];
  }

  lemma FlattenOneEntry(key: string, text: string, prefix: string)
    requires ValidName(ChildName(prefix, key))
    ensures FlattenEntries([Entry(key, Scalar(text))], prefix) == [Member(ChildName(prefix, key), Scalar(text))]
  {}

  // ----- The method -----

  /** The list that ListAllYamlMember receives by reference. */
  class MemberList {
    var items: seq<Member>

    constructor ()
      ensures items == []
    {
      items := [];
    }

    method ListAllYamlMember(node: Node, prefix: string)
      modifies this
      ensures items == old(items) + Flatten(node, prefix)
      decreases node
    {
      if !ValidName(prefix) {
        return;
      }
      items := items + [Member(prefix, node)];
      if node.Map? {
        ghost var before := items;
        assert node.entries[0..] == node.entries;
        var k := 0;
        while k < |node.entries|
          invariant 0 <= k <= |node.entries|
          invariant items + FlattenEntries(node.entries[k..], prefix)
                    == before + FlattenEntries(node.entries, prefix)
        {
          assert node.entries[k..][1..] == node.entries[k + 1..];
          var e := node.entries[k];
          Reassociate(items, Flatten(e.value, ChildName(prefix, e.key)), FlattenEntries(node.entries[k + 1..], prefix));
          ListAllYamlMember(e.value, if prefix == "" then e.key else prefix + "." + e.key);
          k := k + 1;
        }
        assert node.entries[k..] == [];
        assert items == items + [];
        Reassociate(old(items), [Member(prefix, node)], FlattenEntries(node.entries, prefix));
      }
    }
  }
}
