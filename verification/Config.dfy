/** The registry of configuration variables and loading it from a YAML tree: Config
    (server/config.h, server/config.cpp). */
module Configuration {
  import opened Wrappers
  import opened Yaml
  import opened ConfigTree
  import opened ConfigVars

  // ----- Loading, as a fold over the flattened tree -----

  /** A variable as the registry sees it; `tag` stands for its C++ type. */
  datatype Var<!V> = Var(tag: nat, rules: Rules<V>, state: VarState<V>)

  /** What fromString receives; `emit` is the library's rendering of a non-scalar node. */
  function TextOf(node: Node, emit: Node -> string): string {
    if node.Scalar? then node.text else emit(node)
  }

  function LoadOne<V>(reg: map<string, Var<V>>, m: Member, emit: Node -> string): map<string, Var<V>> {
    if m.name !in reg then reg
    else
      var v := reg[m.name];
      reg[m.name := v.(state := RunOp(v.state, FromText(TextOf(m.node, emit)), v.rules))]
  }

  function LoadAll<V>(reg: map<string, Var<V>>, ms: seq<Member>, emit: Node -> string): map<string, Var<V>>
    decreases |ms|
  {
    if ms == [] then reg else LoadAll(LoadOne(reg, ms[0], emit), ms[1..], emit)
  }

  // ----- Pruning has no effect on a load -----

  lemma {:induction false} InvalidNamesAreIgnored<V>(reg: map<string, Var<V>>, ms: seq<Member>, emit: Node -> string)
    requires forall name :: name in reg ==> ValidName(name)
    ensures LoadAll(reg, KeepValid(ms), emit) == LoadAll(reg, ms, emit)
    decreases |ms|
  {
    if ms != [] {
      InvalidNamesAreIgnored(LoadOne(reg, ms[0], emit), ms[1..], emit);
      var kept := KeepValid(ms[1..]);
      if ValidName(ms[0].name) {
        assert ([ms[0]] + kept)[0] == ms[0] && ([ms[0]] + kept)[1..] == kept;
      } else {
        assert [] + kept == kept;
      }
    }
  }

  /** For every tree and every registry whose names are valid, loading has the same effect as
      if the whole tree were flattened. */
  lemma PruningIsSound<V>(reg: map<string, Var<V>>, tree: Node, emit: Node -> string)
    requires forall name :: name in reg ==> ValidName(name)
    ensures LoadAll(reg, Flatten(tree, ""), emit) == LoadAll(reg, FlattenAll(tree, ""), emit)
  {
    PruningKeepsTheValid(tree, "");
    InvalidNamesAreIgnored(reg, FlattenAll(tree, ""), emit);
  }

  // ----- Each variable sees its own entries -----

  function OpsFor<V>(ms: seq<Member>, name: string, emit: Node -> string): seq<Op<V>> {
    if ms == [] then []
    else (if ms[0].name == name then [FromText(TextOf(ms[0].node, emit))] else []) + OpsFor(ms[1..], name, emit)
  }

  /** A load runs, on each variable, the conversions of the entries under its name, in order,
      and touches nothing else. */
  lemma {:induction false} LoadIsPerVariable<V>(reg: map<string, Var<V>>, ms: seq<Member>, emit: Node -> string, name: string)
    ensures LoadAll(reg, ms, emit).Keys == reg.Keys
    ensures name in reg ==>
              LoadAll(reg, ms, emit)[name]
              == reg[name].(state := RunOps(reg[name].state, OpsFor(ms, name, emit), reg[name].rules))
    decreases |ms|
  {
    if ms != [] {
      var reg1 := LoadOne(reg, ms[0], emit);
      LoadIsPerVariable(reg1, ms[1..], emit, name);
      var rest: seq<Op<V>> := OpsFor(ms[1..], name, emit);
      if ms[0].name == name {
        var op: Op<V> := FromText(TextOf(ms[0].node, emit));
        assert ([op] + rest)[0] == op && ([op] + rest)[1..] == rest;
      } else {
        assert [] + rest == rest;
      }
    }
  }

  // ----- The last conversion that succeeds wins -----

  ghost predicate Texts<V>(ops: seq<Op<V>>) {
    forall i :: 0 <= i < |ops| ==> ops[i].FromText?
  }

  lemma {:induction false} OpsForAreTexts<V>(ms: seq<Member>, name: string, emit: Node -> string)
    ensures Texts<V>(OpsFor(ms, name, emit))
  {
    if ms != [] {
      OpsForAreTexts<V>(ms[1..], name, emit);
    }
  }

  function Parsed<V>(op: Op<V>, rules: Rules<V>): Option<V> {
    if op.FromText? then rules.parse(op.text) else None
  }

  function LastParsed<V>(ops: seq<Op<V>>, rules: Rules<V>): Option<V> {
    if ops == [] then None
    else if Parsed(ops[|ops| - 1], rules).Some? then Parsed(ops[|ops| - 1], rules)
    else LastParsed(ops[..|ops| - 1], rules)
  }

  lemma {:induction false} RunOpsAppend<V>(s: VarState<V>, a: seq<Op<V>>, b: seq<Op<V>>, rules: Rules<V>)
    ensures RunOps(s, a + b, rules) == RunOps(RunOps(s, a, rules), b, rules)
    ensures Changes(s, a + b, rules) == Changes(s, a, rules) + Changes(RunOps(s, a, rules), b, rules)
    decreases |a|
  {
    if a == [] {
      assert a + b == b;
    } else {
      assert (a + b)[0] == a[0] && (a + b)[1..] == a[1..] + b;
      RunOpsAppend(RunOp(s, a[0], rules), a[1..], b, rules);
    }
  }

  lemma RunOne<V>(s: VarState<V>, op: Op<V>, rules: Rules<V>)
    ensures RunOps(s, [op], rules) == RunOp(s, op, rules)
    ensures Changes(s, [op], rules) == ChangesOf(s, op, rules)
  {}

  /** After a load the variable has the value last parsed, up to its own equality; without
      one it is untouched. */
  lemma {:induction false} LastParsedWins<V(!new)>(s: VarState<V>, ops: seq<Op<V>>, rules: Rules<V>)
    requires Texts(ops) && forall v: V :: rules.same(v, v)
    ensures match LastParsed(ops, rules)
            case None => RunOps(s, ops, rules) == s
            case Some(v) => rules.same(RunOps(s, ops, rules).value, v)
    decreases |ops|
  {
    if ops != [] {
      var last := |ops| - 1;
      assert ops == ops[..last] + [ops[last]];
      RunOpsAppend(s, ops[..last], [ops[last]], rules);
      RunOne(RunOps(s, ops[..last], rules), ops[last], rules);
      LastParsedWins(s, ops[..last], rules);
    }
  }

  // ----- One entry and its variable -----

  /** What a text does to a variable: it sets the value that it is converted to, unless the
      variable has that already, and does nothing if it cannot be converted. */
  ghost predicate TakesText<V>(before: VarState<V>, after: VarState<V>, text: string, rules: Rules<V>) {
    match rules.parse(text)
    case None => after == before
    case Some(v) => if rules.same(before.value, v) then after == before else after.value == v
  }

  /** A scalar gives its own text, any other node its rendering. */
  ghost predicate TakesNode<V>(before: VarState<V>, after: VarState<V>, node: Node, rules: Rules<V>, emit: Node -> string) {
    match node
    case Scalar(text) => TakesText(before, after, text, rules)
    case _ => TakesText(before, after, emit(node), rules)
  }

  lemma {:induction false} OpsForAbsent<V>(ms: seq<Member>, name: string, emit: Node -> string)
    requires forall i :: 0 <= i < |ms| ==> ms[i].name != name
    ensures OpsFor<V>(ms, name, emit) == []
  {
    if ms != [] {
      OpsForAbsent<V>(ms[1..], name, emit);
    }
  }

  lemma {:induction false} OpsForPresent<V>(ms: seq<Member>, i: nat, emit: Node -> string)
    requires i < |ms| && DistinctNames(ms)
    ensures OpsFor<V>(ms, ms[i].name, emit) == [FromText(TextOf(ms[i].node, emit))]
  {
    if i == 0 {
      OpsForAbsent<V>(ms[1..], ms[0].name, emit);
    } else {
      assert ms[1..][i - 1] == ms[i];
      OpsForPresent<V>(ms[1..], i - 1, emit);
    }
  }

  /** With distinct names, a registered variable takes the text of the entry under its name, and
      stays as it is if there is none. */
  lemma LoadedExactly<V>(reg: map<string, Var<V>>, tree: Node, emit: Node -> string, name: string)
    requires DistinctNames(Flatten(tree, "")) && name in reg
    ensures var ms, after := Flatten(tree, ""), LoadAll(reg, Flatten(tree, ""), emit);
            && name in after
            && (forall i :: 0 <= i < |ms| && ms[i].name == name ==>
                  TakesNode(reg[name].state, after[name].state, ms[i].node, reg[name].rules, emit))
            && ((forall i :: 0 <= i < |ms| ==> ms[i].name != name) ==> after[name] == reg[name])
  {
    var ms, v := Flatten(tree, ""), reg[name];
    LoadIsPerVariable(reg, ms, emit, name);
    hide Flatten, LoadAll, DistinctNames, OpsFor;
    if i :| 0 <= i < |ms| && ms[i].name == name {
      OpsForPresent<V>(ms, i, emit);
      RunOne(v.state, FromText(TextOf(ms[i].node, emit)), v.rules);
      forall j | 0 <= j < |ms| && ms[j].name == name ensures j == i {
        DistinctIs(ms, i, j);
      }
    } else {
      OpsForAbsent<V>(ms, name, emit);
    }
  }

  lemma DistinctIs(ms: seq<Member>, i: nat, j: nat)
    requires DistinctNames(ms) && i < |ms| && j < |ms| && ms[i].name == ms[j].name
    ensures i == j
  {}

  /** A value of the tree by its path: under distinct names, a variable named by the keys of a
      path takes the text at the end of that path. */
  lemma NestedScalarIsLoaded<V>(reg: map<string, Var<V>>, outer: string, inner: string, text: string,
                                emit: Node -> string)
    requires PlainKey(outer) && PlainKey(inner) && ValidName(outer) && ValidName(inner)
    requires outer + "." + inner in reg
    ensures var tree := Map([Entry(outer, Map([Entry(inner, Scalar(text))]))]);
            var name, after := outer + "." + inner, LoadAll(reg, Flatten(tree, ""), emit);
            name in after && TakesText(reg[name].state, after[name].state, text, reg[name].rules)
  {
    var below := Map([Entry(inner, Scalar(text))]);
    var tree := Map([Entry(outer, below)]);
    var name := outer + "." + inner;
    ValidChild(outer, inner);
    FlattenOneEntry(inner, text, outer);
    var es := [Entry(outer, below)];
    assert es[1..] == [] && FlattenEntries(es[1..], "") == [];
    assert Flatten(below, outer) == [Member(outer, below), Member(name, Scalar(text))];
    assert ChildName("", outer) == outer && FlattenEntries(es, "") == Flatten(below, outer);
    assert Flatten(tree, "") == [Member("", tree), Member(outer, below), Member(name, Scalar(text))];
    assert name != outer && |name| > |outer|;
    LoadedExactly(reg, tree, emit, name);
    assert Flatten(tree, "")[2] == Member(name, Scalar(text));
  }

  // ----- Loading twice -----

  ghost predicate Equivalence<V(!new)>(same: (V, V) -> bool) {
    && (forall a: V :: same(a, a))
    && (forall a: V, b: V :: same(a, b) ==> same(b, a))
    && (forall a: V, b: V, c: V :: same(a, b) && same(b, c) ==> same(a, c))
  }

  /** All the texts that can be converted give the same value. */
  ghost predicate Agree<V>(ops: seq<Op<V>>, rules: Rules<V>) {
    forall i, j :: 0 <= i < |ops| && 0 <= j < |ops| ==> Agrees(ops[i], ops[j], rules)
  }

  predicate Agrees<V>(a: Op<V>, b: Op<V>, rules: Rules<V>) {
    Parsed(a, rules).Some? && Parsed(b, rules).Some? ==> rules.same(Parsed(a, rules).value, Parsed(b, rules).value)
  }

  ghost predicate Holds<V>(v: V, ops: seq<Op<V>>, rules: Rules<V>) {
    forall i :: 0 <= i < |ops| ==> HoldsOne(v, ops[i], rules)
  }

  predicate HoldsOne<V>(v: V, op: Op<V>, rules: Rules<V>) {
    Parsed(op, rules).Some? ==> rules.same(v, Parsed(op, rules).value)
  }

  /** Texts change nothing exactly when the value already is what each of them says. */
  lemma {:induction false} SilentExactly<V>(s: VarState<V>, ops: seq<Op<V>>, rules: Rules<V>)
    requires Texts(ops)
    ensures Changes(s, ops, rules) == [] <==> Holds(s.value, ops, rules)
    ensures Changes(s, ops, rules) == [] ==> RunOps(s, ops, rules) == s
    decreases |ops|
  {
    if ops != [] {
      assert HoldsOne(s.value, ops[0], rules) <==> ChangesOf(s, ops[0], rules) == [];
      assert Holds(s.value, ops, rules) <==> HoldsOne(s.value, ops[0], rules) && Holds(s.value, ops[1..], rules) by {
        assert ops == [ops[0]] + ops[1..];
      }
      if HoldsOne(s.value, ops[0], rules) {
        SilentExactly(s, ops[1..], rules);
        assert ChangesOf(s, ops[0], rules) + Changes(s, ops[1..], rules) == Changes(s, ops[1..], rules);
      }
    }
  }

  lemma {:induction false} LastParsedIsAmong<V>(ops: seq<Op<V>>, rules: Rules<V>)
    ensures LastParsed(ops, rules).Some? ==>
              exists i :: 0 <= i < |ops| && Parsed(ops[i], rules) == LastParsed(ops, rules)
    ensures LastParsed(ops, rules) == None ==> forall i :: 0 <= i < |ops| ==> Parsed(ops[i], rules) == None
    decreases |ops|
  {
    if ops != [] {
      var last := |ops| - 1;
      LastParsedIsAmong(ops[..last], rules);
      if Parsed(ops[last], rules) == None && LastParsed(ops, rules).Some? {
        var i :| 0 <= i < last && Parsed(ops[..last][i], rules) == LastParsed(ops, rules);
        assert Parsed(ops[i], rules) == LastParsed(ops, rules);
      }
      forall i | 0 <= i < |ops| && LastParsed(ops, rules) == None ensures Parsed(ops[i], rules) == None {
        assert i < last ==> ops[i] == ops[..last][i];
      }
    }
  }

  /** A second load of the same entries changes a variable not even for a moment, and so
      calls no listener, if and only if all its entries that can be converted agree. */
  lemma SecondLoadIsSilentExactly<V(!new)>(s: VarState<V>, ops: seq<Op<V>>, rules: Rules<V>)
    requires Texts(ops) && Equivalence(rules.same)
    ensures Changes(RunOps(s, ops, rules), ops, rules) == [] <==> Agree(ops, rules)
    ensures Agree(ops, rules) ==> RunOps(RunOps(s, ops, rules), ops, rules) == RunOps(s, ops, rules)
  {
    var s1 := RunOps(s, ops, rules);
    LastParsedWins(s, ops, rules);
    LastParsedIsAmong(ops, rules);
    SilentExactly(s1, ops, rules);
    if Holds(s1.value, ops, rules) {
      forall i, j | 0 <= i < |ops| && 0 <= j < |ops| ensures Agrees(ops[i], ops[j], rules) {
        assert HoldsOne(s1.value, ops[i], rules) && HoldsOne(s1.value, ops[j], rules);
      }
    }
    if Agree(ops, rules) && LastParsed(ops, rules).Some? {
      var k :| 0 <= k < |ops| && Parsed(ops[k], rules) == LastParsed(ops, rules);
      forall i | 0 <= i < |ops| ensures HoldsOne(s1.value, ops[i], rules) {
        assert Agrees(ops[k], ops[i], rules);
      }
    }
  }

  lemma {:induction false} OneOpPerName<V>(ms: seq<Member>, name: string, emit: Node -> string)
    requires DistinctNames(ms)
    ensures |OpsFor<V>(ms, name, emit)| <= 1
    ensures (forall i :: 0 <= i < |ms| ==> ms[i].name != name) ==> OpsFor<V>(ms, name, emit) == []
  {
    if ms != [] {
      OneOpPerName<V>(ms[1..], name, emit);
    }
  }

  /** Loading a tree whose entries have distinct names twice is loading it once: no value changes
      and no listener is called the second time. */
  lemma LoadingIsIdempotent<V(!new)>(reg: map<string, Var<V>>, tree: Node, emit: Node -> string)
    requires DistinctNames(Flatten(tree, ""))
    requires forall name :: name in reg ==> Equivalence(reg[name].rules.same)
    ensures var once := LoadAll(reg, Flatten(tree, ""), emit);
            LoadAll(once, Flatten(tree, ""), emit) == once
  {
    var ms := Flatten(tree, "");
    var once := LoadAll(reg, ms, emit);
    var twice := LoadAll(once, ms, emit);
    LoadIsPerVariable(reg, ms, emit, "");
    LoadIsPerVariable(once, ms, emit, "");
    forall name | name in reg ensures twice[name] == once[name] {
      SecondLoadOfOne(reg, ms, emit, name);
    }
  }

  lemma SecondLoadOfOne<V(!new)>(reg: map<string, Var<V>>, ms: seq<Member>, emit: Node -> string, name: string)
    requires DistinctNames(ms) && name in reg && Equivalence(reg[name].rules.same)
    ensures var once := LoadAll(reg, ms, emit);
            name in once && name in LoadAll(once, ms, emit) && LoadAll(once, ms, emit)[name] == once[name]
  {
    hide Equivalence;
    var v, ops: seq<Op<V>> := reg[name], OpsFor(ms, name, emit);
    LoadIsPerVariable(reg, ms, emit, name);
    LoadIsPerVariable(LoadAll(reg, ms, emit), ms, emit, name);
    OneOpPerName<V>(ms, name, emit);
    OpsForAreTexts<V>(ms, name, emit);
    OneTextAgrees(ops, v.rules);
    SecondLoadIsSilentExactly(v.state, ops, v.rules);
  }

  lemma OneTextAgrees<V(!new)>(ops: seq<Op<V>>, rules: Rules<V>)
    requires |ops| <= 1 && Equivalence(rules.same)
    ensures Agree(ops, rules)
  {}

  // ----- The class -----

  datatype CreateError = NameConflict | InvalidName

  class Config<V> {
    const emit: Node -> string
    var datas: map<string, ConfigVar<V>>

    ghost predicate Valid()
      reads this, datas.Values
    {
      forall name :: name in datas ==> datas[name].name == name && ValidName(name)
    }

    ghost function Snapshot(): map<string, Var<V>>
      reads this, datas.Values
    {
      map name | name in datas :: Var(datas[name].typeTag, datas[name].rules, datas[name].State())
    }

    constructor (emit: Node -> string)
      ensures Valid() && Snapshot() == map[] && this.emit == emit
    {
      this.emit := emit;
      this.datas := map[];
    }

    function LookupBase(name: string): Option<ConfigVar<V>>
      reads this
    {
      if name in datas then Some(datas[name]) else None
    }

    /** Finds a variable of this type, or registers a new one under a valid name. */
    method Create(name: string, typeTag: nat, rules: Rules<V>, default: V)
      returns (result: Option<ConfigVar<V>>, error: Option<CreateError>)
      requires Valid()
      modifies this
      ensures Valid() && old(datas.Keys) <= datas.Keys
      ensures forall n :: n in old(datas) ==> datas[n] == old(datas[n])
      ensures error == if name in old(datas) then
                         if old(datas[name]).typeTag == typeTag then None else Some(NameConflict)
                       else if MadeOf(name, NameChars()) then None else Some(InvalidName)
      ensures error.Some? ==> result == None && datas == old(datas)
      ensures error == None ==> result.Some? && name in datas && result.value == datas[name]
      ensures Snapshot() == if error == None && name !in old(datas)
                            then old(Snapshot())[name := Var(typeTag, rules, VarState(default, [], []))]
                            else old(Snapshot())
    {
      error := None;
      ValidNameExactly(name);
      hide MadeOf, NameChars;
      var tmp := LookupBase(name);
      if tmp.Some? {
        if tmp.value.typeTag == typeTag {
          return tmp, None;
        }
        return None, Some(NameConflict);
      }
      if !ValidName(name) {
        return None, Some(InvalidName);
      }
      var created := new ConfigVar<V>(name, typeTag, rules, default);
      datas := datas[name := created];
      result := Some(created);
    }

    /** Loads every registered variable that the tree names. */
    method LoadFromYaml(node: Node)
      requires Valid()
      modifies datas.Values
      ensures Valid() && datas == old(datas)
      ensures Snapshot() == LoadAll(old(Snapshot()), Flatten(node, ""), emit)
    {
      var members := new MemberList();
      members.ListAllYamlMember(node, "");
      assert Snapshot() == old(Snapshot()) && members.items == Flatten(node, "");
      LoadMembers(members.items);
    }

    /** The loop in LoadFromYaml. */
    method LoadMembers(all: seq<Member>)
      requires Valid()
      modifies datas.Values
      ensures Valid() && datas == old(datas)
      ensures Snapshot() == LoadAll(old(Snapshot()), all, emit)
    {
      hide RunOp;
      var k := 0;
      assert all[0..] == all;
      while k < |all|
        invariant 0 <= k <= |all|
        invariant Valid() && datas == old(datas)
        invariant LoadAll(Snapshot(), all[k..], emit) == LoadAll(old(Snapshot()), all, emit)
        modifies datas.Values
      {
        assert all[k..][0] == all[k] && all[k..][1..] == all[k + 1..];
        LoadMember(all[k]);
        k := k + 1;
      }
    }

    /** The body of the loop in LoadFromYaml. */
    method LoadMember(m: Member)
      requires Valid()
      modifies datas.Values
      ensures Valid() && datas == old(datas)
      ensures Snapshot() == LoadOne(old(Snapshot()), m, emit)
    {
      var tmp := LookupBase(m.name);
      if tmp.Some? {
        if m.node.Scalar? {
          var _ := tmp.value.FromString(m.node.text);
        } else {
          var _ := tmp.value.FromString(emit(m.node));
        }
      }
    }
  }
}
