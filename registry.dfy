/**
 * The `users` object of the game server: a dictionary from socket id to the
 * value the client sent with `login`. A JavaScript object remembers the order
 * in which its keys were first added; that order is kept beside the map as
 * `order`, because `Object.values(users)` (the roster broadcast to everyone)
 * lists the values in that order.
 */
module Registry {
  import opened JsValue

  type ConnId = string

  /** The name used for a connection that never logged in, or whose name is falsy. */
  const Anonymous: Value := Str("Anonymous")

  predicate NoDups<T(==)>(s: seq<T>)
  {
    forall i, j | 0 <= i < j < |s| :: s[i] != s[j]
  }

  /** `order` lists each key of `users` exactly once: the object's property order. */
  predicate KeysMatch(users: map<ConnId, Value>, order: seq<ConnId>)
  {
    && NoDups(order)
    && (forall k :: k in order ==> k in users)
    && (forall k :: k in users ==> k in order)
  }

  /** The connections whose stored name is `v`. */
  ghost function IdsNamed(users: map<ConnId, Value>, v: Value): set<ConnId>
  {
    set k | k in users && users[k] == v
  }

  /**
   * `Object.values(users)`: the stored values, in property order.
   */
  function Roster(users: map<ConnId, Value>, order: seq<ConnId>): (r: seq<Value>)
    requires forall k :: k in order ==> k in users
    ensures |r| == |order|
    ensures forall i | 0 <= i < |order| :: r[i] == users[order[i]]
  {
    if order == [] then [] else [users[order[0]]] + Roster(users, order[1..])
  }

  /**
   * Property order after `users[id] = name`: a new key goes last, an existing
   * key keeps its place.
   */
  function Enrol(order: seq<ConnId>, id: ConnId): (r: seq<ConnId>)
    ensures NoDups(order) ==> NoDups(r)
    ensures forall k :: k in r <==> k in order || k == id
    ensures id in order ==> r == order
    ensures id !in order ==> |r| == |order| + 1 && r[..|order|] == order
  {
    if id in order then order else order + [id]
  }

  /** Property order after `delete users[id]`: `id` is dropped, the rest keep their order. */
  function Without(order: seq<ConnId>, id: ConnId): (r: seq<ConnId>)
    ensures forall k :: k in r <==> k in order && k != id
    ensures NoDups(order) ==> NoDups(r)
    ensures |r| <= |order|
  {
    if order == [] then []
    else if order[0] == id then Without(order[1..], id)
    else
      var rest := Without(order[1..], id);
      assert NoDups(order) ==> NoDups(order[1..]) && order[0] !in rest;
      [order[0]] + rest
  }

  /** `users[id] || "Anonymous"`: the name a chat message is sent under. */
  function SenderName(users: map<ConnId, Value>, id: ConnId): (name: Value)
    ensures Truthy(name)
    ensures id in users && Truthy(users[id]) ==> name == users[id]
    ensures id !in users ==> name == Anonymous
    ensures id in users && !Truthy(users[id]) ==> name == Anonymous
  {
    Or(if id in users then users[id] else Undefined, Anonymous)
  }

  /** A string name is used as it is unless it is empty, which falls back like a missing one. */
  lemma SenderNameOfString(users: map<ConnId, Value>, id: ConnId, s: string)
    requires id in users && users[id] == Str(s)
    ensures SenderName(users, id) == if s == "" then Anonymous else Str(s)
  {
  }

  /** Adding or overwriting a key keeps the property order in step with the map. */
  lemma EnrolKeysMatch(users: map<ConnId, Value>, order: seq<ConnId>, id: ConnId, name: Value)
    requires KeysMatch(users, order)
    ensures KeysMatch(users[id := name], Enrol(order, id))
  {
  }

  /** Deleting a key keeps the property order in step with the map. */
  lemma WithoutKeysMatch(users: map<ConnId, Value>, order: seq<ConnId>, id: ConnId)
    requires KeysMatch(users, order)
    ensures KeysMatch(users - {id}, Without(order, id))
  {
  }

  /** Removing a key that is absent changes nothing. */
  lemma {:induction false} WithoutAbsent(order: seq<ConnId>, id: ConnId)
    requires id !in order
    ensures Without(order, id) == order
  {
    if order != [] {
      WithoutAbsent(order[1..], id);
    }
  }

  /** Disconnecting twice is the same as disconnecting once. */
  lemma WithoutIdempotent(order: seq<ConnId>, id: ConnId)
    ensures Without(Without(order, id), id) == Without(order, id)
  {
    WithoutAbsent(Without(order, id), id);
  }

  /** Removal distributes over concatenation. */
  lemma {:induction false} WithoutAppend(a: seq<ConnId>, b: seq<ConnId>, id: ConnId)
    ensures Without(a + b, id) == Without(a, id) + Without(b, id)
  {
    if a == [] {
      assert a + b == b;
    } else {
      assert (a + b)[0] == a[0] && (a + b)[1..] == a[1..] + b;
      WithoutAppend(a[1..], b, id);
    }
  }

  /**
   * A connection that logs in and then disconnects leaves the property order
   * as it found it (when it was not logged in before).
   */
  lemma EnrolThenWithout(order: seq<ConnId>, id: ConnId)
    requires id !in order
    ensures Without(Enrol(order, id), id) == order
  {
    WithoutAppend(order, [id], id);
    WithoutAbsent(order, id);
  }

  /** The relative order of the remaining keys is unchanged by a removal. */
  lemma {:induction false} WithoutKeepsOrder(order: seq<ConnId>, id: ConnId, i: nat, j: nat)
    requires i < j < |Without(order, id)|
    ensures exists p, q :: 0 <= p < q < |order| && order[p] == Without(order, id)[i] && order[q] == Without(order, id)[j]
  {
    var r := Without(order, id);
    if order[0] == id {
      WithoutKeepsOrder(order[1..], id, i, j);
      var p, q :| 0 <= p < q < |order[1..]| && order[1..][p] == r[i] && order[1..][q] == r[j];
      assert order[p + 1] == r[i] && order[q + 1] == r[j];
    } else if i == 0 {
      assert r[j] == Without(order[1..], id)[j - 1];
      assert r[j] in order[1..];
      var q :| 0 <= q < |order[1..]| && order[1..][q] == r[j];
      assert order[0] == r[0] && order[q + 1] == r[j];
    } else {
      WithoutKeepsOrder(order[1..], id, i - 1, j - 1);
      var p, q :| 0 <= p < q < |order[1..]| && order[1..][p] == r[i] && order[1..][q] == r[j];
      assert order[p + 1] == r[i] && order[q + 1] == r[j];
    }
  }

  /** A list without repeats has as many elements as it has entries. */
  lemma {:induction false} DistinctCardinality<T>(s: seq<T>)
    requires NoDups(s)
    ensures |set x | x in s| == |s|
  {
    if s != [] {
      DistinctCardinality(s[1..]);
      assert (set x | x in s) == {s[0]} + (set x | x in s[1..]);
      assert s[0] !in s[1..];
    }
  }

  /** The connections listed in `order` whose stored name is `v`. */
  ghost function ListedNamed(users: map<ConnId, Value>, order: seq<ConnId>, v: Value): set<ConnId>
  {
    set k | k in order && k in users && users[k] == v
  }

  lemma ListedNamedCons(users: map<ConnId, Value>, order: seq<ConnId>, v: Value)
    requires order != [] && order[0] in users
    ensures ListedNamed(users, order, v) ==
            ListedNamed(users, order[1..], v) + (if users[order[0]] == v then {order[0]} else {})
  {
    var a := ListedNamed(users, order, v);
    var b := ListedNamed(users, order[1..], v) + (if users[order[0]] == v then {order[0]} else {});
    forall k | k in a ensures k in b {
      if k != order[0] {
        var i :| 0 <= i < |order| && order[i] == k;
        assert order[1..][i - 1] == k;
      }
    }
  }

  /**
   * Each key in `order` contributes exactly one occurrence of its value to
   * the roster.
   */
  lemma {:induction false} RosterCount(users: map<ConnId, Value>, order: seq<ConnId>, v: Value)
    requires forall k :: k in order ==> k in users
    requires NoDups(order)
    ensures multiset(Roster(users, order))[v] == |ListedNamed(users, order, v)|
  {
    if order == [] {
      assert ListedNamed(users, order, v) == {};
    } else {
      var rest := order[1..];
      assert NoDups(rest);
      RosterCount(users, rest, v);
      assert Roster(users, order) == [users[order[0]]] + Roster(users, rest);
      ListedNamedCons(users, order, v);
      assert order[0] !in rest;
      assert order[0] !in ListedNamed(users, rest, v);
    }
  }

  /**
   * The broadcast roster holds exactly one entry per connected id: it is as
   * long as the registry, and a name shared by several connections appears
   * once for each of them (duplicates are kept, not merged).
   */
  lemma RosterIsValues(users: map<ConnId, Value>, order: seq<ConnId>)
    requires KeysMatch(users, order)
    ensures |Roster(users, order)| == |users|
    ensures forall v :: multiset(Roster(users, order))[v] == |IdsNamed(users, v)|
  {
    DistinctCardinality(order);
    assert (set x | x in order) == users.Keys;
    forall v
      ensures multiset(Roster(users, order))[v] == |IdsNamed(users, v)|
    {
      RosterCount(users, order, v);
      assert ListedNamed(users, order, v) == IdsNamed(users, v);
    }
  }
}
