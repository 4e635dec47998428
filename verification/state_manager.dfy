/** The central state store with observers (core/state_manager.js,
    `StateManager`): keyed values, per-key observer sets notified when a
    value changes by `!==`, unsubscription, and the reset to the default
    state. Observers are identified by number and their effect is left out;
    whether an observer throws is a parameter. */
module StateManager {
  import opened Seqs

  /** A JavaScript value as `!==` sees it: primitives by value, objects
      (arrays included) by identity. */
  datatype Value = Undefined | Null | Bool(b: bool) | Num(n: int) | Str(s: string) | Ref(id: nat)

  type Callback = nat

  /** `keys` is the insertion order of the state object's own keys. */
  datatype Manager = Manager(keys: seq<string>, values: map<string, Value>, observers: map<string, seq<Callback>>)

  /** One observer call `callback(newValue, oldValue)` for `key`. */
  datatype Call = Call(callback: Callback, key: string, newValue: Value, oldValue: Value)

  /** The calls made by one `_notify`, and those of them that threw (and
      were logged). */
  datatype Notified = Notified(calls: seq<Call>, failed: seq<Call>)

  ghost predicate Valid(m: Manager)
  {
    && Distinct(m.keys)
    && (forall k :: k in m.values <==> k in m.keys)
    && (forall k :: k in m.observers ==> Distinct(m.observers[k]))
  }

  const DefaultKeys: seq<string> :=
    ["flashcards", "inputText", "chunks", "chainRuns", "currentTab", "loading", "error"]

  /** The default state; its three arrays are new objects `renewed`,
      `renewed + 1` and `renewed + 2`. */
  function Defaults(renewed: nat): map<string, Value>
  {
    map["flashcards" := Ref(renewed), "inputText" := Str(""), "chunks" := Ref(renewed + 1),
        "chainRuns" := Ref(renewed + 2), "currentTab" := Str("config"), "loading" := Bool(false),
        "error" := Null]
  }

  lemma DefaultsValid(renewed: nat)
    ensures Distinct(DefaultKeys)
    ensures forall k :: k in Defaults(renewed) <==> k in DefaultKeys
  {
  }

  function Initial(): (r: Manager)
    ensures Valid(r) && r.keys == DefaultKeys && r.observers == map[]
  {
    DefaultsValid(0);
    Manager(DefaultKeys, Defaults(0), map[])
  }

  /** `get(key)`: a missing key reads as `undefined`. */
  function Get(m: Manager, key: string): Value
  {
    if key in m.values then m.values[key] else Undefined
  }

  /** `getAll()`: a copy of the state, its entries in key order. */
  function GetAll(m: Manager): (r: seq<(string, Value)>)
    requires Valid(m)
    ensures |r| == |m.keys|
    ensures forall i :: 0 <= i < |r| ==> r[i].0 == m.keys[i] && r[i].1 == Get(m, m.keys[i])
  {
    seq(|m.keys|, i requires 0 <= i < |m.keys| => (m.keys[i], m.values[m.keys[i]]))
  }

  /** The copy holds every key of the state once, and reading any key
      from it agrees with `get`. */
  lemma GetAllAgrees(m: Manager, key: string)
    requires Valid(m)
    ensures key in m.values <==> exists i :: 0 <= i < |GetAll(m)| && GetAll(m)[i].0 == key
    ensures forall i :: 0 <= i < |GetAll(m)| && GetAll(m)[i].0 == key ==> GetAll(m)[i].1 == Get(m, key)
  {
    if key in m.values {
      var i :| 0 <= i < |m.keys| && m.keys[i] == key;
      assert GetAll(m)[i].0 == key;
    }
  }

  function ObserversOf(m: Manager, key: string): seq<Callback>
  {
    if key in m.observers then m.observers[key] else []
  }

  /** The `forEach` over the observers of `_notify`: each call sits in its
      own `try`, so a throwing observer is logged and the rest still run. */
  function NotifyAll(observers: seq<Callback>, key: string, newValue: Value, oldValue: Value,
                     throws: Call -> bool): (r: Notified)
    ensures |r.calls| == |observers|
    ensures forall i :: 0 <= i < |observers| ==> r.calls[i] == Call(observers[i], key, newValue, oldValue)
    ensures forall c :: c in r.failed <==> c in r.calls && throws(c)
  {
    if |observers| == 0 then Notified([], [])
    else
      var c := Call(observers[0], key, newValue, oldValue);
      var rest := NotifyAll(observers[1..], key, newValue, oldValue, throws);
      Notified([c] + rest.calls, (if throws(c) then [c] else []) + rest.failed)
  }

  /** `_notify(key, newValue, oldValue)`. */
  function Notify(m: Manager, key: string, newValue: Value, oldValue: Value, throws: Call -> bool): Notified
  {
    NotifyAll(ObserversOf(m, key), key, newValue, oldValue, throws)
  }

  /** Which observers run does not depend on which of them throw. */
  lemma NotifyIgnoresThrows(m: Manager, key: string, newValue: Value, oldValue: Value,
                            throws1: Call -> bool, throws2: Call -> bool)
    ensures Notify(m, key, newValue, oldValue, throws1).calls == Notify(m, key, newValue, oldValue, throws2).calls
  {
    var a := Notify(m, key, newValue, oldValue, throws1).calls;
    var b := Notify(m, key, newValue, oldValue, throws2).calls;
    assert |a| == |b|;
    assert forall i :: 0 <= i < |a| ==> a[i] == b[i];
  }

  /** The state part of `set(key, value)`. */
  function Store(m: Manager, key: string, value: Value): (r: Manager)
    requires Valid(m)
    ensures Valid(r) && r.observers == m.observers
    ensures Get(r, key) == value
    ensures forall k :: k != key ==> Get(r, k) == Get(m, k)
    ensures r.keys == if key in m.keys then m.keys else m.keys + [key]
  {
    var keys := if key in m.keys then m.keys else m.keys + [key];
    assert key !in m.keys ==> forall i :: 0 <= i < |m.keys| ==> m.keys[i] != key;
    Manager(keys, m.values[key := value], m.observers)
  }

  datatype SetResult = SetResult(manager: Manager, notified: Notified)

  /** `set(key, value)`: observers hear of the change only when the old
      value is not `===` the new one. */
  function Set(m: Manager, key: string, value: Value, throws: Call -> bool): (r: SetResult)
    requires Valid(m)
    ensures r.manager == Store(m, key, value)
    ensures Get(m, key) == value ==> r.notified.calls == []
    ensures Get(m, key) != value ==> r.notified == Notify(m, key, value, Get(m, key), throws)
  {
    var previous := Get(m, key);
    var m' := Store(m, key, value);
    SetResult(m', if previous != value then Notify(m', key, value, previous, throws) else Notified([], []))
  }

  /** `get` after `set` gives the value set, and no other key moves. */
  lemma GetAfterSet(m: Manager, key: string, value: Value, throws: Call -> bool, other: string)
    requires Valid(m)
    ensures Get(Set(m, key, value, throws).manager, key) == value
    ensures other != key ==> Get(Set(m, key, value, throws).manager, other) == Get(m, other)
  {
  }

  /** A change reaches every observer of the key, in subscription order,
      with the new and the old value. */
  lemma SetNotifiesEachObserver(m: Manager, key: string, value: Value, throws: Call -> bool, i: nat)
    requires Valid(m) && Get(m, key) != value && i < |ObserversOf(m, key)|
    ensures var calls := Set(m, key, value, throws).notified.calls;
      i < |calls| && calls[i] == Call(ObserversOf(m, key)[i], key, value, Get(m, key))
  {
  }

  datatype UpdateResult = UpdateResult(manager: Manager, calls: seq<Call>)

  /** `update(updates)`: one `set` per entry, in order. */
  function Update(m: Manager, updates: seq<(string, Value)>, throws: Call -> bool): (r: UpdateResult)
    requires Valid(m)
    ensures Valid(r.manager) && r.manager.observers == m.observers
    ensures forall k :: (forall i :: 0 <= i < |updates| ==> updates[i].0 != k) ==> Get(r.manager, k) == Get(m, k)
    decreases |updates|
  {
    if |updates| == 0 then UpdateResult(m, [])
    else
      var s := Set(m, updates[0].0, updates[0].1, throws);
      var rest := Update(s.manager, updates[1..], throws);
      assert forall i :: 0 <= i < |updates[1..]| ==> updates[1..][i] == updates[i + 1];
      UpdateResult(rest.manager, s.notified.calls + rest.calls)
  }

  /** The last entry for a key wins. */
  lemma {:induction false} UpdateLastWins(m: Manager, updates: seq<(string, Value)>, throws: Call -> bool, j: nat)
    requires Valid(m) && j < |updates|
    requires forall i :: j < i < |updates| ==> updates[i].0 != updates[j].0
    ensures Get(Update(m, updates, throws).manager, updates[j].0) == updates[j].1
    decreases |updates|
  {
    var s := Set(m, updates[0].0, updates[0].1, throws);
    if j == 0 {
      assert forall i :: 0 <= i < |updates[1..]| ==> updates[1..][i].0 != updates[0].0 by {
        forall i | 0 <= i < |updates[1..]| ensures updates[1..][i].0 != updates[0].0 {
          assert updates[1..][i] == updates[i + 1];
        }
      }
    } else {
      assert updates[1..][j - 1] == updates[j];
      assert forall i :: j - 1 < i < |updates[1..]| ==> updates[1..][i] == updates[i + 1];
      UpdateLastWins(s.manager, updates[1..], throws, j - 1);
    }
  }

  /** `Set.prototype.add`: a callback already present keeps its place. */
  function Add(observers: seq<Callback>, cb: Callback): (r: seq<Callback>)
    requires Distinct(observers)
    ensures Distinct(r)
    ensures forall x :: x in r <==> x in observers || x == cb
    ensures cb !in observers ==> r == observers + [cb]
  {
    if cb in observers then observers else observers + [cb]
  }

  /** `Set.prototype.delete`. */
  function Remove(observers: seq<Callback>, cb: Callback): (r: seq<Callback>)
    requires Distinct(observers)
    ensures Distinct(r)
    ensures forall x :: x in r <==> x in observers && x != cb
    ensures cb !in observers ==> r == observers
    decreases |observers|
  {
    if |observers| == 0 then []
    else
      var rest := Remove(observers[1..], cb);
      assert forall x :: x in observers[1..] ==> x != observers[0];
      if observers[0] == cb then rest
      else
        assert observers[0] !in rest;
        assert forall i :: 1 <= i < |[observers[0]] + rest| ==> ([observers[0]] + rest)[i] == rest[i - 1];
        [observers[0]] + rest
  }

  /** Removing what was just added at the end gives back the original. */
  lemma {:induction false} RemoveAdded(observers: seq<Callback>, cb: Callback)
    requires Distinct(observers) && cb !in observers
    ensures Remove(observers + [cb], cb) == observers
    decreases |observers|
  {
    if |observers| == 0 {
    } else {
      assert (observers + [cb])[1..] == observers[1..] + [cb];
      RemoveAdded(observers[1..], cb);
    }
  }

  /** `subscribe(key, callback)`. */
  function Subscribe(m: Manager, key: string, cb: Callback): (r: Manager)
    requires Valid(m)
    ensures Valid(r) && r.keys == m.keys && r.values == m.values
    ensures forall x :: x in ObserversOf(r, key) <==> x in ObserversOf(m, key) || x == cb
    ensures forall k :: k != key ==> ObserversOf(r, k) == ObserversOf(m, k)
  {
    var current := ObserversOf(m, key);
    m.(observers := m.observers[key := Add(current, cb)])
  }

  /** The function `subscribe` returns: it deletes the callback from the
      key's current set, if there is one. */
  function Unsubscribe(m: Manager, key: string, cb: Callback): (r: Manager)
    requires Valid(m)
    ensures Valid(r) && r.keys == m.keys && r.values == m.values
    ensures forall x :: x in ObserversOf(r, key) <==> x in ObserversOf(m, key) && x != cb
    ensures forall k :: k != key ==> ObserversOf(r, k) == ObserversOf(m, k)
  {
    if key in m.observers then m.(observers := m.observers[key := Remove(m.observers[key], cb)])
    else m
  }

  /** Subscribing a new callback and unsubscribing it leaves every key's
      observers as they were. */
  lemma SubscribeRoundTrip(m: Manager, key: string, cb: Callback, k: string)
    requires Valid(m) && cb !in ObserversOf(m, key)
    ensures ObserversOf(Unsubscribe(Subscribe(m, key, cb), key, cb), k) == ObserversOf(m, k)
  {
    if k == key {
      RemoveAdded(ObserversOf(m, key), cb);
    }
  }

  /** One more than the largest object identity held in the state, so
      that the arrays of a reset are new objects. */
  function FreshRef(keys: seq<string>, values: map<string, Value>): (r: nat)
    ensures forall i :: 0 <= i < |keys| && keys[i] in values && values[keys[i]].Ref? ==> values[keys[i]].id < r
  {
    if |keys| == 0 then 0
    else
      var rest := FreshRef(keys[1..], values);
      var here := if keys[0] in values && values[keys[0]].Ref? then values[keys[0]].id + 1 else 0;
      assert forall i :: 1 <= i < |keys| ==> keys[i] == keys[1..][i - 1];
      if here > rest then here else rest
  }

  /** The notifications of `reset`, one key of the old state at a time. */
  function ResetCalls(m: Manager, keys: seq<string>, renewed: map<string, Value>, throws: Call -> bool): (r: seq<Call>)
    ensures forall c :: c in r ==> (
      && c.key in keys && c.oldValue == Get(m, c.key)
      && c.newValue == (if c.key in renewed then renewed[c.key] else Undefined) && c.newValue != c.oldValue
      && c.callback in ObserversOf(m, c.key))
  {
    if |keys| == 0 then []
    else
      var k := keys[0];
      var newValue := if k in renewed then renewed[k] else Undefined;
      var here := if Get(m, k) != newValue then Notify(m, k, newValue, Get(m, k), throws).calls else [];
      assert forall c :: c in here ==> exists i :: 0 <= i < |ObserversOf(m, k)| && c.callback == ObserversOf(m, k)[i];
      here + ResetCalls(m, keys[1..], renewed, throws)
  }

  lemma {:induction false} ResetCallsComplete(m: Manager, keys: seq<string>, renewed: map<string, Value>,
                                              throws: Call -> bool, j: nat, cb: Callback)
    requires j < |keys| && cb in ObserversOf(m, keys[j])
    requires Get(m, keys[j]) != (if keys[j] in renewed then renewed[keys[j]] else Undefined)
    ensures Call(cb, keys[j], if keys[j] in renewed then renewed[keys[j]] else Undefined, Get(m, keys[j]))
         in ResetCalls(m, keys, renewed, throws)
    decreases |keys|
  {
    if j == 0 {
      var k := keys[0];
      var calls := Notify(m, k, if k in renewed then renewed[k] else Undefined, Get(m, k), throws).calls;
      var i :| 0 <= i < |ObserversOf(m, k)| && ObserversOf(m, k)[i] == cb;
      assert calls[i] == Call(cb, k, if k in renewed then renewed[k] else Undefined, Get(m, k));
    } else {
      assert keys[1..][j - 1] == keys[j];
      ResetCallsComplete(m, keys[1..], renewed, throws, j - 1, cb);
    }
  }

  datatype ResetResult = ResetResult(manager: Manager, calls: seq<Call>)

  /** `reset()`: the default state with new arrays; every key of the old
      state whose value is not `===` its new one (`undefined` for a key the
      defaults lack) is notified, in the old key order. */
  function Reset(m: Manager, throws: Call -> bool): (r: ResetResult)
    requires Valid(m)
    ensures Valid(r.manager) && r.manager.keys == DefaultKeys && r.manager.observers == m.observers
    ensures forall c :: c in r.calls ==> (
      && c.key in m.keys && c.oldValue == Get(m, c.key)
      && c.newValue == Get(r.manager, c.key) && c.newValue != c.oldValue && c.callback in ObserversOf(m, c.key))
  {
    var renewed := Defaults(FreshRef(m.keys, m.values));
    DefaultsValid(FreshRef(m.keys, m.values));
    ResetResult(Manager(DefaultKeys, renewed, m.observers), ResetCalls(m, m.keys, renewed, throws))
  }

  /** Every observer of every old key that changed is called. */
  lemma ResetNotifiesChanged(m: Manager, throws: Call -> bool, k: string, cb: Callback)
    requires Valid(m) && k in m.keys && cb in ObserversOf(m, k)
    requires Get(m, k) != Get(Reset(m, throws).manager, k)
    ensures Call(cb, k, Get(Reset(m, throws).manager, k), Get(m, k)) in Reset(m, throws).calls
  {
    var j :| 0 <= j < |m.keys| && m.keys[j] == k;
    ResetCallsComplete(m, m.keys, Defaults(FreshRef(m.keys, m.values)), throws, j, cb);
  }

  /** The reset arrays are new objects, so their observers are always
      notified, whatever the arrays held. */
  lemma ResetRenewsArrays(m: Manager, throws: Call -> bool, k: string, cb: Callback)
    requires Valid(m) && k in {"flashcards", "chunks", "chainRuns"} && k in m.keys && cb in ObserversOf(m, k)
    ensures Get(Reset(m, throws).manager, k) != Get(m, k)
    ensures Call(cb, k, Get(Reset(m, throws).manager, k), Get(m, k)) in Reset(m, throws).calls
  {
    var j :| 0 <= j < |m.keys| && m.keys[j] == k;
    var renewed := FreshRef(m.keys, m.values);
    ArrayDefault(renewed, k);
    ResetValue(m, throws, k);
    assert Get(m, k) == m.values[m.keys[j]];
    ResetNotifiesChanged(m, throws, k, cb);
  }

  /** After a reset every key reads its default. */
  lemma ResetValue(m: Manager, throws: Call -> bool, k: string)
    requires Valid(m)
    ensures Get(Reset(m, throws).manager, k) == Get(Manager(DefaultKeys, Defaults(FreshRef(m.keys, m.values)), m.observers), k)
  {
  }

  /** The three arrays are references at or past `renewed`. */
  lemma ArrayDefault(renewed: nat, k: string)
    requires k in {"flashcards", "chunks", "chainRuns"}
    ensures k in Defaults(renewed) && Defaults(renewed)[k].Ref? && Defaults(renewed)[k].id >= renewed
  {
  }

  /** Two default states differ only in their arrays. */
  lemma OnlyArraysDiffer(a: nat, b: nat, k: string)
    requires k in Defaults(a) && k in Defaults(b) && Defaults(a)[k] != Defaults(b)[k]
    ensures k in {"flashcards", "chunks", "chainRuns"}
  {
  }

  /** A reset of a state that still holds default values (in earlier
      arrays) notifies only the arrays' observers. */
  lemma ResetOfDefaults(m: Manager, throws: Call -> bool, earlier: nat)
    requires Valid(m) && m.values == Defaults(earlier)
    ensures forall c :: c in Reset(m, throws).calls ==> c.key in {"flashcards", "chunks", "chainRuns"}
  {
    var r := Reset(m, throws);
    var renewed := FreshRef(m.keys, m.values);
    forall c | c in r.calls
      ensures c.key in {"flashcards", "chunks", "chainRuns"}
    {
      assert c.key in m.keys && c.oldValue == Get(m, c.key) && c.newValue == Get(r.manager, c.key) && c.newValue != c.oldValue;
      ResetValue(m, throws, c.key);
      OnlyArraysDiffer(earlier, renewed, c.key);
    }
  }
}
