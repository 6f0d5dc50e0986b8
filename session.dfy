/**
 * The game server's session: the module-level state of the socket.io server
 * and one method per `socket.on` handler. Each handler takes the sending
 * connection's id (where it uses it) and the event payload, updates the state
 * in place, and returns the events it broadcasts with `io.emit`, in order.
 * Here the handlers' log lines are taken not to throw; module `AsWritten`
 * gives the runs in which they do.
 */
module Session {
  import opened JsValue
  import opened Registry
  import opened Memory

  datatype Option<T> = None | Some(value: T)

  /** An outbound broadcast: the constructor is the event name, its argument the payload. */
  datatype Event =
    | UpdateUsers(roster: seq<Value>)
    | Message(username: Value, message: Value)
    | GameStarted(question: Value)
    | AnswerReceived(data: Value)
    | GameActive(gameNo: Value)
    | GameStartedMemory(state: MemoryState)
    | GameCompletedMemory(winner: Value)

  class Session {
    /** Socket id to the value sent with `login`. */
    var users: map<ConnId, Value>
    /** The property order of the `users` object. */
    var order: seq<ConnId>
    /** The last question started; JavaScript's `null` before any. */
    var currentQuestion: Value
    /** The memory game last started; the global is not yet defined before that. */
    var gameState: Option<MemoryState>

    ghost predicate Valid()
      reads this
    {
      KeysMatch(users, order)
    }

    constructor ()
      ensures Valid()
      ensures users == map[] && order == []
      ensures currentQuestion == Null && gameState == None
    {
      users := map[];
      order := [];
      currentQuestion := Null;
      gameState := None;
    }

    /**
     * `login`: records or overwrites the name of connection `id`, then
     * broadcasts the roster, one entry per connection.
     */
    method Login(id: ConnId, username: Value) returns (out: seq<Event>)
      requires Valid()
      modifies this`users, this`order
      ensures Valid()
      ensures users == old(users)[id := username]
      ensures order == Enrol(old(order), id)
      ensures |users| == |old(users)| + (if id in old(users) then 0 else 1)
      ensures out == [UpdateUsers(Roster(users, order))]
      ensures |out[0].roster| == |users|
      ensures forall v :: multiset(out[0].roster)[v] == |IdsNamed(users, v)|
    {
      EnrolKeysMatch(users, order, id, username);
      order := Enrol(order, id);
      users := users[id := username];
      RosterIsValues(users, order);
      out := [UpdateUsers(Roster(users, order))];
    }

    /**
     * `message`: broadcasts the text under the sender's name, or under
     * "Anonymous" when the sender has no truthy name; nothing is stored.
     */
    method Message(id: ConnId, message: Value) returns (out: seq<Event>)
      ensures out == [Event.Message(SenderName(users, id), message)]
      ensures Truthy(out[0].username)
      ensures id in users && Truthy(users[id]) ==> out[0].username == users[id]
      ensures !(id in users && Truthy(users[id])) ==> out[0].username == Anonymous
    {
      var username := SenderName(users, id);
      out := [Event.Message(username, message)];
    }

    /**
     * `disconnect`: forgets connection `id` (nothing happens to the registry
     * if it never logged in) and broadcasts the roster either way.
     */
    method Disconnect(id: ConnId) returns (out: seq<Event>)
      requires Valid()
      modifies this`users, this`order
      ensures Valid()
      ensures users == old(users) - {id}
      ensures order == Without(old(order), id)
      ensures id !in old(users) ==> users == old(users) && order == old(order)
      ensures out == [UpdateUsers(Roster(users, order))]
      ensures |out[0].roster| == |users|
      ensures forall v :: multiset(out[0].roster)[v] == |IdsNamed(users, v)|
    {
      if id !in users {
        WithoutAbsent(order, id);
        assert users - {id} == users;
      }
      WithoutKeysMatch(users, order, id);
      order := Without(order, id);
      users := users - {id};
      RosterIsValues(users, order);
      out := [UpdateUsers(Roster(users, order))];
    }

    /** `startGame`: stores the question and broadcasts it unchanged. */
    method StartGame(question: Value) returns (out: seq<Event>)
      modifies this`currentQuestion
      ensures currentQuestion == question
      ensures out == [GameStarted(question)]
    {
      currentQuestion := question;
      out := [GameStarted(question)];
    }

    /**
     * `submitAnswer`: rebroadcasts any answer payload verbatim and stores
     * nothing. The log line that can throw first is modelled in `AsWritten`.
     */
    method SubmitAnswer(data: Value) returns (out: seq<Event>)
      ensures out == [AnswerReceived(data)]
    {
      out := [AnswerReceived(data)];
    }

    /** `gameActive`: rebroadcasts the game number; the active mode is not stored. */
    method GameActive(gameNo: Value) returns (out: seq<Event>)
      ensures out == [Event.GameActive(gameNo)]
    {
      out := [Event.GameActive(gameNo)];
    }

    /**
     * `startGameMemory`: deals a fresh deck from the shuffled doubled catalog,
     * stores it as the game state and broadcasts that same state.
     */
    method StartGameMemory(shuffled: seq<string>) returns (out: seq<Event>)
      requires IsShuffle(shuffled)
      modifies this`gameState
      ensures gameState == Some(FreshState(shuffled))
      ensures out == [GameStartedMemory(gameState.value)]
      ensures |gameState.value.cards| == 16
      ensures forall i | 0 <= i < 16 ::
                gameState.value.cards[i].id == i && gameState.value.cards[i].emoji == shuffled[i]
    {
      FreshStateShape(shuffled);
      var state := FreshState(shuffled);
      gameState := Some(state);
      out := [GameStartedMemory(state)];
    }

    /**
     * `gameCompleteMemory`: broadcasts the claimed winner when the claim is
     * truthy and otherwise does nothing; the game state is never touched.
     */
    method GameCompleteMemory(winner: Value) returns (out: seq<Event>)
      ensures out != [] <==> Truthy(winner)
      ensures out != [] ==> out == [GameCompletedMemory(winner)]
    {
      if Truthy(winner) {
        out := [GameCompletedMemory(winner)];
      } else {
        out := [];
      }
    }
  }
}
