/**
 * The handlers as the source runs them, log lines included. Every handler of
 * the server logs through a template literal (`${username}`), and turning a
 * value into a string can throw (see `JsValue.ToStringThrows`); `submitAnswer`
 * also reads properties of its payload. A handler that throws stops at that
 * point: whatever it changed before stays changed, and whatever it would have
 * broadcast after is never sent. The `Session` class models the handlers with
 * log lines that do not throw; the functions here say how a run differs.
 */
module AsWritten {
  import opened JsValue
  import opened Registry
  import opened Session

  /** A run of a handler that leaves the registry as given: its broadcasts, and whether it threw. */
  datatype Completion = Completion(events: seq<Event>, threw: bool)

  /** A run of a handler that changes the registry: the registry it leaves, its broadcasts, and whether it threw. */
  datatype Run = Run(users: map<ConnId, Value>, order: seq<ConnId>, events: seq<Event>, threw: bool)

  /** A decoded object whose own `toString` key makes `${v}` throw: `{"toString": 0}`. */
  const Unprintable: Value := Object([("toString", Number(0.0))])

  /**
   * `login`: the name is stored (line 23) before it is logged (line 24), so a
   * name that cannot be printed is recorded and the roster is never sent.
   */
  function LoginAsWritten(users: map<ConnId, Value>, order: seq<ConnId>, id: ConnId, username: Value): (run: Run)
    requires KeysMatch(users, order)
    ensures run.users == users[id := username] && run.order == Enrol(order, id)
    ensures KeysMatch(run.users, run.order)
    ensures run.threw <==> ToStringThrows(username)
    ensures run.threw ==> run.events == []
    ensures !run.threw ==> run.events == [UpdateUsers(Roster(run.users, run.order))]
  {
    EnrolKeysMatch(users, order, id, username);
    var users', order' := users[id := username], Enrol(order, id);
    if ToStringThrows(username) then Run(users', order', [], true)
    else Run(users', order', [UpdateUsers(Roster(users', order'))], false)
  }

  /**
   * `message`: the sender's name and the text are both logged (line 30)
   * before the broadcast (line 31).
   */
  function MessageAsWritten(users: map<ConnId, Value>, id: ConnId, message: Value): (c: Completion)
    ensures c.threw <==> ToStringThrows(SenderName(users, id)) || ToStringThrows(message)
    ensures c.threw ==> c.events == []
    ensures !c.threw ==> c.events == [Event.Message(SenderName(users, id), message)]
  {
    var username := SenderName(users, id);
    if ToStringThrows(username) || ToStringThrows(message) then Completion([], true)
    else Completion([Event.Message(username, message)], false)
  }

  /**
   * `disconnect`: the entry is deleted (line 36) before its old name is logged
   * (line 37), and the roster broadcast (line 38) comes last.
   */
  function DisconnectAsWritten(users: map<ConnId, Value>, order: seq<ConnId>, id: ConnId): (run: Run)
    requires KeysMatch(users, order)
    ensures run.users == users - {id} && run.order == Without(order, id)
    ensures KeysMatch(run.users, run.order)
    ensures run.threw <==> id in users && ToStringThrows(users[id])
    ensures run.threw ==> run.events == []
    ensures !run.threw ==> run.events == [UpdateUsers(Roster(run.users, run.order))]
  {
    WithoutKeysMatch(users, order, id);
    var username := if id in users then users[id] else Undefined;
    var users', order' := users - {id}, Without(order, id);
    if ToStringThrows(username) then Run(users', order', [], true)
    else Run(users', order', [UpdateUsers(Roster(users', order'))], false)
  }

  /**
   * `submitAnswer`: the log line (line 47) reads `data.username` and
   * `data.answer` and prints them before the broadcast (line 48).
   */
  function SubmitAnswerAsWritten(data: Value): (c: Completion)
    ensures c.threw <==>
              PropertyReadThrows(data)
              || ToStringThrows(Get(data, "username"))
              || ToStringThrows(Get(data, "answer"))
    ensures c.threw ==> c.events == []
    ensures !c.threw ==> c.events == [AnswerReceived(data)]
  {
    if PropertyReadThrows(data) then Completion([], true)
    else if ToStringThrows(Get(data, "username")) || ToStringThrows(Get(data, "answer")) then Completion([], true)
    else Completion([AnswerReceived(data)], false)
  }

  /**
   * `gameCompleteMemory`: the winner is broadcast (line 82) before it is
   * logged (line 83), so a throw there loses nothing that was sent.
   */
  function GameCompleteMemoryAsWritten(winner: Value): (c: Completion)
    ensures c.events != [] <==> Truthy(winner)
    ensures c.events != [] ==> c.events == [GameCompletedMemory(winner)]
    ensures c.threw <==> Truthy(winner) && ToStringThrows(winner)
  {
    if Truthy(winner) then Completion([GameCompletedMemory(winner)], ToStringThrows(winner))
    else Completion([], false)
  }

  /** A login under an unprintable name records the name but sends no roster. */
  lemma LoginAsWrittenSkipsRoster()
    ensures LoginAsWritten(map[], [], "a", Unprintable).users == map["a" := Unprintable]
    ensures LoginAsWritten(map[], [], "a", Unprintable).events == []
  {
    assert ToStringThrows(Unprintable) by {
      assert Unprintable.fields[0].0 == "toString";
    }
  }

  /** A connection whose stored name cannot be printed never gets a message through. */
  lemma MessageAsWrittenSilencesUnprintable(users: map<ConnId, Value>, id: ConnId, message: Value)
    requires id in users && users[id] == Unprintable
    ensures MessageAsWritten(users, id, message).events == []
  {
    assert Unprintable.fields[0].0 == "toString";
  }

  /** Disconnecting a connection with an unprintable name deletes it but tells nobody. */
  lemma DisconnectAsWrittenSkipsRoster()
    ensures DisconnectAsWritten(map["a" := Unprintable], ["a"], "a").users == map[]
    ensures DisconnectAsWritten(map["a" := Unprintable], ["a"], "a").events == []
  {
    assert Unprintable.fields[0].0 == "toString";
    assert KeysMatch(map["a" := Unprintable], ["a"]);
  }

  /**
   * An answer sent without a payload, as `null`, or with an unprintable
   * `username` is lost: the handler throws instead of broadcasting it.
   */
  lemma SubmitAnswerAsWrittenDropsEmpty()
    ensures SubmitAnswerAsWritten(Undefined).events == []
    ensures SubmitAnswerAsWritten(Null).events == []
    ensures SubmitAnswerAsWritten(Object([("username", Unprintable)])).events == []
  {
    assert Get(Object([("username", Unprintable)]), "username") == Unprintable;
    assert Unprintable.fields[0].0 == "toString";
  }
}
