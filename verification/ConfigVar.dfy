/** A configuration variable with change listeners: ConfigVar<T> (server/config.h).

    `V` is the type of the values; `Rules` holds the variable's conversion from text, which may
    fail, and its own equality, which need not be equality of values.  A listener is known by
    the function object registered for its id; listeners neither throw nor use the variable. */
module ConfigVars {
  import opened Wrappers
  import opened Strings

  type Callback = nat

  datatype Listener = Listener(id: int, callback: Callback)

  datatype Call<V> = Call(id: int, callback: Callback, newValue: V, oldValue: V)

  /** `calls` is the history of listener calls. */
  datatype VarState<V> = VarState(value: V, listeners: seq<Listener>, calls: seq<Call<V>>)

  datatype Rules<!V> = Rules(parse: string -> Option<V>, same: (V, V) -> bool)

  // ----- Listeners: std::map as a list in ascending order of ids -----

  ghost predicate Sorted(ls: seq<Listener>) {
    forall i, j :: 0 <= i < j < |ls| ==> ls[i].id < ls[j].id
  }

  function Insert(ls: seq<Listener>, id: int, callback: Callback): seq<Listener> {
    if ls == [] || id < ls[0].id then [Listener(id, callback)] + ls
    else if id == ls[0].id then [Listener(id, callback)] + ls[1..]
    else [ls[0]] + Insert(ls[1..], id, callback)
  }

  function Erase(ls: seq<Listener>, id: int): seq<Listener> {
    if ls == [] then []
    else if id == ls[0].id then ls[1..]
    else [ls[0]] + Erase(ls[1..], id)
  }

  function Lookup(ls: seq<Listener>, id: int): Option<Callback> {
    if ls == [] then None else if ls[0].id == id then Some(ls[0].callback) else Lookup(ls[1..], id)
  }

  lemma {:induction false} LookupBelow(ls: seq<Listener>, id: int)
    requires forall i :: 0 <= i < |ls| ==> id < ls[i].id
    ensures Lookup(ls, id) == None
  {
    if ls != [] {
      LookupBelow(ls[1..], id);
    }
  }

  lemma SortedCons(l: Listener, ls: seq<Listener>)
    requires Sorted(ls) && forall k :: k in ls ==> l.id < k.id
    ensures Sorted([l] + ls)
  {}

  lemma SortedTail(ls: seq<Listener>)
    requires ls != [] && Sorted(ls)
    ensures Sorted(ls[1..]) && forall k :: k in ls[1..] ==> ls[0].id < k.id
  {}

  /** Insert keeps the order and is the update of a map. */
  lemma {:induction false} InsertUpdates(ls: seq<Listener>, id: int, callback: Callback, x: int)
    requires Sorted(ls)
    ensures Sorted(Insert(ls, id, callback))
    ensures Lookup(Insert(ls, id, callback), x) == if x == id then Some(callback) else Lookup(ls, x)
    ensures forall k :: k in Insert(ls, id, callback) ==> k.id == id || k in ls
  {
    if ls != [] {
      SortedTail(ls);
      if id > ls[0].id {
        InsertUpdates(ls[1..], id, callback, x);
        SortedCons(ls[0], Insert(ls[1..], id, callback));
      } else if id == ls[0].id {
        SortedCons(Listener(id, callback), ls[1..]);
      } else {
        SortedCons(Listener(id, callback), ls);
      }
    }
  }

  /** Erase keeps the order and removes one key of a map. */
  lemma {:induction false} EraseRemoves(ls: seq<Listener>, id: int, x: int)
    requires Sorted(ls)
    ensures Sorted(Erase(ls, id))
    ensures Lookup(Erase(ls, id), x) == if x == id then None else Lookup(ls, x)
    ensures forall k :: k in Erase(ls, id) ==> k in ls
  {
    if ls != [] {
      SortedTail(ls);
      if id == ls[0].id {
        LookupBelow(ls[1..], id);
      } else {
        EraseRemoves(ls[1..], id, x);
        SortedCons(ls[0], Erase(ls[1..], id));
      }
    }
  }

  function Notices<V>(ls: seq<Listener>, newValue: V, oldValue: V): seq<Call<V>> {
    seq(|ls|, i requires 0 <= i < |ls| => Call(ls[i].id, ls[i].callback, newValue, oldValue))
  }

  lemma NoticesStep<V>(ls: seq<Listener>, l: Listener, newValue: V, oldValue: V)
    ensures Notices(ls + [l], newValue, oldValue)
            == Notices(ls, newValue, oldValue) + [Call(l.id, l.callback, newValue, oldValue)]
  {}

  /** The calls that one change makes. */
  function NoticesOf<V>(c: Change<V>): seq<Call<V>> {
    Notices(c.listeners, c.newValue, c.oldValue)
  }

  // ----- Operations -----

  datatype Op<V> = Set(value: V) | FromText(text: string) | Add(id: int, callback: Callback) | Remove(id: int)

  datatype Change<V> = Change(newValue: V, oldValue: V, listeners: seq<Listener>)

  /** The changes, none or one, that an operation makes. */
  function ChangesOf<V>(s: VarState<V>, op: Op<V>, rules: Rules<V>): seq<Change<V>> {
    match op
    case Set(v) => if rules.same(s.value, v) then [] else [Change(v, s.value, s.listeners)]
    case FromText(text) =>
      var r := rules.parse(text);
      if r == None || rules.same(s.value, r.value) then [] else [Change(r.value, s.value, s.listeners)]
    case _ => []
  }

  function RunOp<V>(s: VarState<V>, op: Op<V>, rules: Rules<V>): VarState<V> {
    match op
    case Add(id, callback) => s.(listeners := Insert(s.listeners, id, callback))
    case Remove(id) => s.(listeners := Erase(s.listeners, id))
    case _ =>
      var cs := ChangesOf(s, op, rules);
      if cs == [] then s else s.(value := cs[0].newValue, calls := s.calls + NoticesOf(cs[0]))
  }

  function RunOps<V>(s: VarState<V>, ops: seq<Op<V>>, rules: Rules<V>): VarState<V>
    decreases |ops|
  {
    if ops == [] then s else RunOps(RunOp(s, ops[0], rules), ops[1..], rules)
  }

  function Changes<V>(s: VarState<V>, ops: seq<Op<V>>, rules: Rules<V>): seq<Change<V>>
    decreases |ops|
  {
    if ops == [] then [] else ChangesOf(s, ops[0], rules) + Changes(RunOp(s, ops[0], rules), ops[1..], rules)
  }

  function Announced<V>(cs: seq<Change<V>>): seq<Call<V>> {
    if cs == [] then [] else NoticesOf(cs[0]) + Announced(cs[1..])
  }

  // ----- Histories telescope -----

  /** Each change starts from the value the previous one set, and is a real change. */
  ghost predicate Chained<V>(start: V, cs: seq<Change<V>>, end: V, rules: Rules<V>) {
    if cs == [] then start == end
    else cs[0].oldValue == start && !rules.same(start, cs[0].newValue) && Chained(cs[0].newValue, cs[1..], end, rules)
  }

  /** Over any operations, the changes lead from the first value to the last without a gap,
      and the calls made are those of each change in turn, to every listener registered at
      the time. */
  lemma {:induction false} HistoriesTelescope<V>(s: VarState<V>, ops: seq<Op<V>>, rules: Rules<V>)
    ensures Chained(s.value, Changes(s, ops, rules), RunOps(s, ops, rules).value, rules)
    ensures RunOps(s, ops, rules).calls == s.calls + Announced(Changes(s, ops, rules))
    decreases |ops|
  {
    if ops != [] {
      HistoriesTelescope(RunOp(s, ops[0], rules), ops[1..], rules);
      OpTelescopes(s, ops[0], Changes(RunOp(s, ops[0], rules), ops[1..], rules), RunOps(s, ops, rules).value, rules);
    }
  }

  lemma OpTelescopes<V>(s: VarState<V>, op: Op<V>, rest: seq<Change<V>>, end: V, rules: Rules<V>)
    requires Chained(RunOp(s, op, rules).value, rest, end, rules)
    ensures Chained(s.value, ChangesOf(s, op, rules) + rest, end, rules)
    ensures RunOp(s, op, rules).calls + Announced(rest) == s.calls + Announced(ChangesOf(s, op, rules) + rest)
  {
    var first := ChangesOf(s, op, rules);
    if first == [] {
      assert first + rest == rest;
    } else {
      assert (first + rest)[0] == first[0] && (first + rest)[1..] == rest;
      Reassociate(s.calls, NoticesOf(first[0]), Announced(rest));
    }
  }

  // ----- One listener's view -----

  function CallsTo<V>(calls: seq<Call<V>>, id: int): seq<Call<V>> {
    if calls == [] then [] else (if calls[0].id == id then [calls[0]] else []) + CallsTo(calls[1..], id)
  }

  lemma {:induction false} CallsToAppend<V>(a: seq<Call<V>>, b: seq<Call<V>>, id: int)
    ensures CallsTo(a + b, id) == CallsTo(a, id) + CallsTo(b, id)
  {
    if a == [] {
      assert a + b == b;
    } else {
      assert (a + b)[0] == a[0] && (a + b)[1..] == a[1..] + b;
      CallsToAppend(a[1..], b, id);
      Reassociate(if a[0].id == id then [a[0]] else [], CallsTo(a[1..], id), CallsTo(b, id));
    }
  }

  lemma {:induction false} NoCallsTo<V>(calls: seq<Call<V>>, id: int)
    requires forall i :: 0 <= i < |calls| ==> calls[i].id != id
    ensures CallsTo(calls, id) == []
  {
    if calls != [] {
      NoCallsTo(calls[1..], id);
    }
  }

  /** A change calls a registered listener exactly once. */
  lemma {:induction false} OneCallPerChange<V>(ls: seq<Listener>, newValue: V, oldValue: V, id: int)
    requires Sorted(ls) && Lookup(ls, id).Some?
    ensures CallsTo(Notices(ls, newValue, oldValue), id) == [Call(id, Lookup(ls, id).value, newValue, oldValue)]
  {
    var calls := Notices(ls, newValue, oldValue);
    assert calls[1..] == Notices(ls[1..], newValue, oldValue);
    if ls[0].id == id {
      NoCallsTo(calls[1..], id);
    } else {
      OneCallPerChange(ls[1..], newValue, oldValue, id);
    }
  }

  /** Every listener registered at the time of a change is called, in ascending order of ids. */
  lemma NoticesAreInOrder<V>(c: Change<V>)
    requires Sorted(c.listeners)
    ensures |NoticesOf(c)| == |c.listeners|
    ensures forall i, j :: 0 <= i < j < |NoticesOf(c)| ==> NoticesOf(c)[i].id < NoticesOf(c)[j].id
  {}

  lemma RunOpKeepsSorted<V>(s: VarState<V>, op: Op<V>, rules: Rules<V>)
    requires Sorted(s.listeners)
    ensures Sorted(RunOp(s, op, rules).listeners)
  {
    match op
    case Add(id, callback) => InsertUpdates(s.listeners, id, callback, id);
    case Remove(id) => EraseRemoves(s.listeners, id, id);
    case _ =>
  }

  /** Registering and removing listeners is updating a map from ids to callbacks, and nothing
      else. */
  lemma ListenersAreAMap<V>(s: VarState<V>, id: int, callback: Callback, rules: Rules<V>, x: int)
    requires Sorted(s.listeners)
    ensures var added, removed := RunOp(s, Add(id, callback), rules), RunOp(s, Remove(id), rules);
            && added.value == removed.value == s.value && added.calls == removed.calls == s.calls
            && Sorted(added.listeners) && Sorted(removed.listeners)
            && Lookup(added.listeners, x) == (if x == id then Some(callback) else Lookup(s.listeners, x))
            && Lookup(removed.listeners, x) == (if x == id then None else Lookup(s.listeners, x))
  {
    InsertUpdates(s.listeners, id, callback, x);
    EraseRemoves(s.listeners, id, x);
  }

  ghost predicate Keeps<V>(ops: seq<Op<V>>, id: int) {
    forall i :: 0 <= i < |ops| ==> !(ops[i].Add? && ops[i].id == id) && !(ops[i].Remove? && ops[i].id == id)
  }

  /** A listener that stays registered hears of every change once, in order. */
  lemma {:induction false} ListenerHearsEveryChange<V>(s: VarState<V>, ops: seq<Op<V>>, rules: Rules<V>, id: int)
    requires Sorted(s.listeners) && Lookup(s.listeners, id).Some? && Keeps(ops, id)
    ensures var cs := Changes(s, ops, rules);
            && |CallsTo(Announced(cs), id)| == |cs|
            && forall i :: 0 <= i < |cs| ==>
                 CallsTo(Announced(cs), id)[i]
                 == Call(id, Lookup(s.listeners, id).value, cs[i].newValue, cs[i].oldValue)
    decreases |ops|
  {
    if ops != [] {
      var s1 := RunOp(s, ops[0], rules);
      var first, rest := ChangesOf(s, ops[0], rules), Changes(s1, ops[1..], rules);
      OpKeepsListener(s, ops[0], rules, id);
      ListenerHearsEveryChange(s1, ops[1..], rules, id);
      if first == [] {
        assert first + rest == rest;
      } else {
        assert (first + rest)[0] == first[0] && (first + rest)[1..] == rest;
        CallsToAppend(NoticesOf(first[0]), Announced(rest), id);
        OneCallPerChange(s.listeners, first[0].newValue, first[0].oldValue, id);
      }
    }
  }

  lemma OpKeepsListener<V>(s: VarState<V>, op: Op<V>, rules: Rules<V>, id: int)
    requires Sorted(s.listeners) && !(op.Add? && op.id == id) && !(op.Remove? && op.id == id)
    ensures Sorted(RunOp(s, op, rules).listeners)
    ensures Lookup(RunOp(s, op, rules).listeners, id) == Lookup(s.listeners, id)
  {
    RunOpKeepsSorted(s, op, rules);
    match op
    case Add(id', callback) => InsertUpdates(s.listeners, id', callback, id);
    case Remove(id') => EraseRemoves(s.listeners, id', id);
    case _ =>
  }

  // ----- The class -----

  class ConfigVar<V> {
    const name: string
    const rules: Rules<V>
    const typeTag: nat
    var value: V
    var listeners: seq<Listener>
    var calls: seq<Call<V>>

    ghost function State(): VarState<V>
      reads this
    {
      VarState(value, listeners, calls)
    }

    constructor (name: string, typeTag: nat, rules: Rules<V>, default: V)
      ensures this.name == name && this.typeTag == typeTag && this.rules == rules
      ensures State() == VarState(default, [], [])
    {
      this.name, this.typeTag, this.rules := name, typeTag, rules;
      this.value, this.listeners, this.calls := default, [], [];
    }

    method SetValue(v: V)
      modifies this
      ensures State() == RunOp(old(State()), Set(v), rules)
      ensures value == (if rules.same(old(value), v) then old(value) else v) && listeners == old(listeners)
      ensures calls == old(calls) + if rules.same(old(value), v) then [] else Notices(listeners, v, old(value))
    {
      if rules.same(value, v) {
        return;
      }
      var oldValue := value;
      value := v;
      var k := 0;
      while k < |listeners|
        invariant 0 <= k <= |listeners| && listeners == old(listeners) && value == v
        invariant calls == old(calls) + Notices(listeners[..k], v, oldValue)
      {
        NoticesStep(listeners[..k], listeners[k], v, oldValue);
        assert listeners[..k + 1] == listeners[..k] + [listeners[k]];
        calls := calls + [Call(listeners[k].id, listeners[k].callback, v, oldValue)];
        k := k + 1;
      }
      assert listeners[..k] == listeners;
    }

    /** Returns whether the text could be converted. */
    method FromString(text: string) returns (ok: bool)
      modifies this
      ensures State() == RunOp(old(State()), FromText(text), rules)
      ensures ok == rules.parse(text).Some?
    {
      var r := rules.parse(text);
      if r.Some? {
        SetValue(r.value);
        ok := true;
      } else {
        ok := false;
      }
    }

    method AddListener(id: int, callback: Callback)
      modifies this
      ensures State() == RunOp(old(State()), Add(id, callback), rules)
      ensures value == old(value) && calls == old(calls)
      ensures Sorted(old(listeners)) ==>
                && Sorted(listeners)
                && forall x :: Lookup(listeners, x) == if x == id then Some(callback) else Lookup(old(listeners), x)
    {
      if Sorted(listeners) {
        forall x
          ensures Lookup(Insert(listeners, id, callback), x) == if x == id then Some(callback) else Lookup(listeners, x)
        {
          InsertUpdates(listeners, id, callback, x);
        }
        InsertUpdates(listeners, id, callback, id);
      }
      listeners := Insert(listeners, id, callback);
    }

    method RemoveListener(id: int)
      modifies this
      ensures State() == RunOp(old(State()), Remove(id), rules)
      ensures value == old(value) && calls == old(calls)
      ensures Sorted(old(listeners)) ==>
                && Sorted(listeners)
                && forall x :: Lookup(listeners, x) == if x == id then None else Lookup(old(listeners), x)
    {
      if Sorted(listeners) {
        forall x ensures Lookup(Erase(listeners, id), x) == if x == id then None else Lookup(listeners, x) {
          EraseRemoves(listeners, id, x);
        }
        EraseRemoves(listeners, id, id);
      }
      listeners := Erase(listeners, id);
    }
  }
}
