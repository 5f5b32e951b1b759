/**
 * The gateway's WebSocket hub (gateway/websocket/manager.py): connections and rooms index each other,
 * and every locked section keeps the two indexes consistent, also while a broadcast is under way.
 *
 * Connection ids are fresh UUIDs. Whether a socket is open, and whether a send on it raises, is decided
 * by the environment.
 */
module WebSocketHub {
  import opened Basics

  class WebSocketConnection {
    const connectionId: string
    var rooms: set<string>

    constructor (connectionId: string)
      ensures this.connectionId == connectionId && rooms == {}
    {
      this.connectionId := connectionId;
      rooms := {};
    }
  }

  /** Which rooms each live connection is in. */
  type View = map<string, set<string>>

  /** The room index says exactly what the connections say, and stores no empty room. */
  ghost predicate Indexes(rooms: map<string, set<string>>, view: View) {
    && (forall r :: r in rooms ==> rooms[r] != {})
    && (forall r, c :: (r in rooms && c in rooms[r]) <==> (c in view && r in view[c]))
  }

  ghost predicate InNoRoom(rooms: map<string, set<string>>, id: string) {
    forall r :: r in rooms ==> id !in rooms[r]
  }

  /** The connections alone determine the room index. */
  lemma IndexIsDetermined(rooms1: map<string, set<string>>, rooms2: map<string, set<string>>, view: View)
    requires Indexes(rooms1, view) && Indexes(rooms2, view)
    ensures rooms1 == rooms2
  {
    forall r | r in rooms1
      ensures r in rooms2
    {
      var c :| c in rooms1[r];
      assert c in view && r in view[c];
    }
    forall r | r in rooms2
      ensures r in rooms1
    {
      var c :| c in rooms2[r];
      assert c in view && r in view[c];
    }
    forall r | r in rooms1
      ensures rooms1[r] == rooms2[r]
    {
      forall c
        ensures c in rooms1[r] <==> c in rooms2[r]
      {
        assert c in rooms1[r] <==> c in view && r in view[c];
      }
    }
  }

  /** `rooms.get(room, set()).discard(id)`, and the room is popped when nobody is left in it. */
  function Discard(rooms: map<string, set<string>>, room: string, id: string): map<string, set<string>> {
    if room !in rooms then rooms
    else if rooms[room] - {id} == {} then rooms - {room}
    else rooms[room := rooms[room] - {id}]
  }

  /** `rooms.setdefault(room, set()).add(id)` */
  function Enter(rooms: map<string, set<string>>, room: string, id: string): map<string, set<string>> {
    rooms[room := (if room in rooms then rooms[room] else {}) + {id}]
  }

  lemma EnterIndexes(rooms: map<string, set<string>>, view: View, room: string, id: string)
    requires Indexes(rooms, view) && id in view
    ensures Indexes(Enter(rooms, room, id), view[id := view[id] + {room}])
  {
  }

  lemma DiscardIndexes(rooms: map<string, set<string>>, view: View, room: string, id: string)
    requires Indexes(rooms, view) && id in view
    ensures Indexes(Discard(rooms, room, id), view[id := view[id] - {room}])
  {
    if room in rooms && rooms[room] - {id} == {} {
      assert forall c :: c in rooms[room] ==> c in rooms[room] - {id} || c == id;
    }
  }

  lemma RoomlessLeaves(rooms: map<string, set<string>>, view: View, id: string)
    requires Indexes(rooms, view) && id in view && view[id] == {}
    ensures Indexes(rooms, view - {id})
  {
    forall r, c
      ensures (r in rooms && c in rooms[r]) <==> (c in view - {id} && r in (view - {id})[c])
    {
      assert (r in rooms && c in rooms[r]) <==> (c in view && r in view[c]);
    }
  }

  lemma NewcomerIndexes(rooms: map<string, set<string>>, view: View, id: string)
    requires Indexes(rooms, view) && id !in view
    ensures Indexes(rooms, view[id := {}])
  {
  }

  lemma DeadAreNowhere(rooms: map<string, set<string>>, view: View, c: string)
    requires Indexes(rooms, view) && c !in view
    ensures InNoRoom(rooms, c)
  {
  }

  lemma FewerConnections(connections: map<string, WebSocketConnection>, id: string)
    ensures |connections - {id}| <= |connections|
  {
    assert (connections - {id}).Keys == connections.Keys - {id};
  }

  /** What other tasks may do while this one waits. */
  datatype Action =
    | Connecting(id: string)
    | Disconnecting(id: string)
    | Joining(id: string, room: string)
    | Leaving(id: string, room: string)

  /** What comes of sending on a connection that was found live. */
  datatype SendOutcome = NotOpen | Raised | Delivered

  class WebSocketManager {
    const maxConnections: int
    var connections: map<string, WebSocketConnection>
    var rooms: map<string, set<string>>
    /** All ids handed out so far: the memory behind "a UUID never repeats". */
    var issued: set<string>

    ghost function CurrentView(): View
      reads this, connections.Values
    {
      map c | c in connections :: connections[c].rooms
    }

    ghost predicate Valid()
      reads this, connections.Values
    {
      && (forall c :: c in connections ==> connections[c].connectionId == c && c in issued)
      && |connections| <= MaxInt(0, maxConnections)
      && Indexes(rooms, CurrentView())
    }

    constructor (maxConnections: int)
      ensures Valid() && this.maxConnections == maxConnections && connections == map[] && issued == {}
    {
      this.maxConnections := maxConnections;
      connections, rooms, issued := map[], map[], {};
    }

    /** None stands for the refusal of a hub at capacity. */
    method Connect(id: string) returns (connection: Option<WebSocketConnection>)
      requires Valid() && id !in issued
      modifies this
      ensures Valid() && fresh(connections.Values - old(connections.Values))
      ensures connection == None <==> old(|connections|) >= maxConnections
      ensures connection == None ==> connections == old(connections) && issued == old(issued)
      ensures connection.Some? ==> connections.Keys == old(connections.Keys) + {id}
      ensures connection.Some? ==> CurrentView() == old(CurrentView())[id := {}] && issued == old(issued) + {id}
    {
      hide Indexes;
      if |connections| >= maxConnections {
        return None;
      }
      NewcomerIndexes(rooms, CurrentView(), id);
      var created := new WebSocketConnection(id);
      connections := connections[id := created];
      issued := issued + {id};
      assert CurrentView() == old(CurrentView())[id := {}];
      return Some(created);
    }

    /** True when the connection was live. */
    method Disconnect(id: string) returns (found: bool)
      requires Valid()
      modifies this, connections.Values
      ensures Valid() && issued == old(issued) && connections == old(connections) - {id}
      ensures found <==> id in old(connections)
      ensures CurrentView() == old(CurrentView()) - {id}
    {
      if id !in connections {
        return false;
      }
      hide Indexes;
      ghost var view := CurrentView();
      var conn := connections[id];
      FewerConnections(connections, id);
      connections := connections - {id};
      LeaveAll(id, conn.rooms, view);
      assert CurrentView() == view - {id};
      return true;
    }

    /** The loop of `disconnect`: the connection is taken out of all its rooms. */
    method LeaveAll(id: string, joined: set<string>, ghost view: View)
      requires Indexes(rooms, view) && id in view && view[id] == joined
      modifies this`rooms
      ensures Indexes(rooms, view - {id})
    {
      hide Indexes;
      var todo := joined;
      ghost var rest := view;
      while todo != {}
        invariant id in rest && rest[id] == todo && Indexes(rooms, rest) && rest - {id} == view - {id}
        decreases |todo|
      {
        var room :| room in todo;
        DiscardIndexes(rooms, rest, room, id);
        rooms := Discard(rooms, room, id);
        rest := rest[id := rest[id] - {room}];
        todo := todo - {room};
      }
      RoomlessLeaves(rooms, rest, id);
    }

    method JoinRoom(id: string, room: string) returns (found: bool)
      requires Valid()
      modifies this, connections.Values
      ensures Valid() && issued == old(issued) && connections == old(connections)
      ensures found <==> id in connections
      ensures CurrentView() ==
                if found then old(CurrentView())[id := old(CurrentView())[id] + {room}] else old(CurrentView())
    {
      if id !in connections {
        return false;
      }
      hide Indexes;
      EnterIndexes(rooms, CurrentView(), room, id);
      var conn := connections[id];
      conn.rooms := conn.rooms + {room};
      rooms := Enter(rooms, room, id);
      assert CurrentView() == old(CurrentView())[id := old(CurrentView())[id] + {room}];
      return true;
    }

    method LeaveRoom(id: string, room: string) returns (found: bool)
      requires Valid()
      modifies this, connections.Values
      ensures Valid() && issued == old(issued) && connections == old(connections)
      ensures found <==> id in connections
      ensures CurrentView() ==
                if found then old(CurrentView())[id := old(CurrentView())[id] - {room}] else old(CurrentView())
    {
      if id !in connections {
        return false;
      }
      hide Indexes;
      DiscardIndexes(rooms, CurrentView(), room, id);
      var conn := connections[id];
      conn.rooms := conn.rooms - {room};
      rooms := Discard(rooms, room, id);
      assert CurrentView() == old(CurrentView())[id := old(CurrentView())[id] - {room}];
      return true;
    }

    lemma DeadConnection(c: string)
      requires Valid() && c !in connections
      ensures InNoRoom(rooms, c)
    {
      DeadAreNowhere(rooms, CurrentView(), c);
    }

    lemma TargetsAreLive(room: string, targets: seq<string>)
      requires Valid() && forall c :: c in targets <==> room in rooms && c in rooms[room]
      ensures forall k :: 0 <= k < |targets| ==> targets[k] in issued && targets[k] in connections
    {
      forall k | 0 <= k < |targets|
        ensures targets[k] in issued && targets[k] in connections
      {
        assert targets[k] in targets;
        assert targets[k] in CurrentView();
      }
    }

    lemma LiveAreIssued()
      requires Valid()
      ensures forall c :: c in connections ==> c in issued
    {
    }

    method Perform(a: Action)
      requires Valid()
      modifies this, connections.Values
      ensures Valid() && fresh(connections.Values - old(connections.Values)) && old(issued) <= issued
      ensures forall c :: c in old(issued) ==>
                (c in connections <==> c in old(connections) && a != Disconnecting(c))
    {
      LiveAreIssued();
      hide Valid, CurrentView;
      match a {
        case Connecting(id) =>
          if id !in issued {
            var _ := Connect(id);
          }
        case Disconnecting(id) => var _ := Disconnect(id);
        case Joining(id, room) => var _ := JoinRoom(id, room);
        case Leaving(id, room) => var _ := LeaveRoom(id, room);
      }
    }

    /** Other tasks run: of the connections there were, exactly those they disconnected are gone. */
    method Interleave(actions: seq<Action>)
      requires Valid()
      modifies this, connections.Values
      ensures Valid() && fresh(connections.Values - old(connections.Values)) && old(issued) <= issued
      ensures forall c :: c in old(issued) ==>
                (c in connections <==> c in old(connections) && Disconnecting(c) !in actions)
    {
      hide Valid, CurrentView;
      var i := 0;
      while i < |actions|
        invariant i <= |actions| && Valid()
        invariant fresh(connections.Values - old(connections.Values)) && old(issued) <= issued
        invariant forall c :: c in old(issued) ==>
                    (c in connections <==> c in old(connections) && Disconnecting(c) !in actions[..i])
      {
        Perform(actions[i]);
        assert actions[..i + 1] == actions[..i] + [actions[i]];
        i := i + 1;
      }
      assert actions[..|actions|] == actions;
    }

    /**
     * `send_to_connection`. `outcome` is what the socket does if the connection is found live; `during`
     * is what other tasks do between the send and the clean-up after a failed one.
     */
    method SendToConnection(id: string, outcome: SendOutcome, during: seq<Action>) returns (sent: bool)
      requires Valid()
      modifies this, connections.Values
      ensures Valid() && fresh(connections.Values - old(connections.Values)) && old(issued) <= issued
      ensures sent <==> id in old(connections) && outcome.Delivered?
      ensures id in old(connections) && outcome.Raised? ==> id !in connections
      ensures var ran := if id in old(connections) && !outcome.NotOpen? then during else [];
              forall c :: c in old(issued) && c != id ==>
                (c in connections <==> c in old(connections) && Disconnecting(c) !in ran)
      ensures id in old(issued) && id !in old(connections) ==> id !in connections
    {
      LiveAreIssued();
      hide Valid, CurrentView;
      if id !in connections || outcome.NotOpen? {
        return false;
      }
      Interleave(during);
      if outcome.Raised? {
        var _ := Disconnect(id);
        return false;
      }
      return true;
    }

    /**
     * `broadcast_to_room`. The targets are a listing of the room's members when the broadcast begins;
     * `before(k)` and `during(k)` are what other tasks do around the k-th send, `live[k]` whether the
     * target was still live when it was sent to. Whatever the others do, a target whose send raised is
     * live no longer and in no room afterwards, and the count is the number of successful sends. A
     * target is live at its turn unless another task disconnected it since the targets were listed.
     */
    method BroadcastToRoom(room: string, targets: seq<string>, exclude: set<string>,
                           outcome: nat -> SendOutcome, before: nat -> seq<Action>, during: nat -> seq<Action>)
      returns (sent: nat, results: seq<TargetResult>, ghost live: seq<bool>)
      requires Valid()
      requires forall c :: c in targets <==> room in rooms && c in rooms[room]
      requires forall i, j :: 0 <= i < j < |targets| ==> targets[i] != targets[j]
      modifies this, connections.Values
      ensures Valid() && |results| == |live| == |targets| && sent == CountSent(results)
      ensures forall k: nat :: k < |targets| ==> results[k] == ResultOf(targets[k] in exclude, live[k], outcome(k))
      ensures forall k: nat :: k < |targets| && targets[k] !in exclude && outcome(k).Raised? ==>
                targets[k] !in connections && InNoRoom(rooms, targets[k])
      ensures forall k: nat :: k < |targets| ==>
                (live[k] <==> Disconnecting(targets[k]) !in RanUpTo(results, before, during, k))
      ensures forall k: nat :: k < |targets| ==>
                (results[k].Excluded? <==> targets[k] in exclude)
                && (results[k].Sent? <==> targets[k] !in exclude && live[k] && outcome(k).Delivered?)
                && (results[k].Failed? <==> targets[k] !in exclude && live[k] && outcome(k).Raised?)
      ensures sent == |set k: nat | k < |targets| && targets[k] !in exclude && live[k] && outcome(k).Delivered?|
    {
      TargetsAreLive(room, targets);
      hide Valid, CurrentView, CountSent, ResultOf, InNoRoom, RanUpTo;
      sent, results, live := SendToAll(targets, exclude, outcome, before, during);
      ResultsTell(targets, exclude, outcome, results, live);
      forall k: nat | k < |targets| && targets[k] !in exclude && outcome(k).Raised?
        ensures InNoRoom(rooms, targets[k])
      {
        DeadConnection(targets[k]);
      }
    }

    /** The loop of the broadcast, after the targets were listed. */
    method SendToAll(targets: seq<string>, exclude: set<string>,
                     outcome: nat -> SendOutcome, before: nat -> seq<Action>, during: nat -> seq<Action>)
      returns (sent: nat, results: seq<TargetResult>, ghost live: seq<bool>)
      requires Valid() && forall k :: 0 <= k < |targets| ==> targets[k] in issued
      requires forall i, j :: 0 <= i < j < |targets| ==> targets[i] != targets[j]
      modifies this, connections.Values
      ensures Valid() && |results| == |live| == |targets| && sent == CountSent(results)
      ensures forall k: nat :: k < |targets| ==> results[k] == ResultOf(targets[k] in exclude, live[k], outcome(k))
      ensures forall k: nat :: k < |targets| && targets[k] !in exclude && outcome(k).Raised? ==>
                targets[k] !in connections
      ensures forall k: nat :: k < |targets| && targets[k] in old(connections) ==>
                (live[k] <==> Disconnecting(targets[k]) !in RanUpTo(results, before, during, k))
    {
      hide Valid, CurrentView, CountSent, ResultOf, RanUpTo, RanFor, LiveAtTurn, LiveStill;
      NoRounds(targets, connections.Keys, before, during);
      sent, results, live := 0, [], [];
      NothingSent();
      var k := 0;
      while k < |targets|
        invariant k == |results| <= |targets| && Valid() && sent == CountSent(results)
        invariant fresh(connections.Values - old(connections.Values)) && old(issued) <= issued
        invariant |live| == k
        invariant forall i: nat :: i < k ==> results[i] == ResultOf(targets[i] in exclude, live[i], outcome(i))
        invariant forall i: nat :: i < k && targets[i] !in exclude && outcome(i).Raised? ==> targets[i] !in connections
        invariant LiveAtTurn(targets, old(connections.Keys), results, live, before, during)
        invariant LiveStill(targets, old(connections.Keys), connections.Keys, results, before, during)
      {
        ghost var held := connections.Keys;
        var result, found := SendToTarget(targets[k], targets[k] in exclude, outcome(k), before(k), during(k));
        sent := if result.Sent? then sent + 1 else sent;
        OneMoreResult(results, result);
        NextRound(targets, old(connections.Keys), held, connections.Keys, results, live, result, found, before, during);
        results, live := results + [result], live + [found];
        k := k + 1;
      }
      AllRounds(targets, old(connections.Keys), results, live, before, during);
    }

    /** One round of the broadcast loop. */
    method SendToTarget(id: string, excluded: bool, outcome: SendOutcome, before: seq<Action>, during: seq<Action>)
      returns (result: TargetResult, ghost live: bool)
      requires Valid() && id in issued
      modifies this, connections.Values
      ensures Valid() && fresh(connections.Values - old(connections.Values)) && old(issued) <= issued
      ensures result == ResultOf(excluded, live, outcome) && (result.Excluded? <==> excluded)
      ensures live <==> id in old(connections) && (excluded || Disconnecting(id) !in before)
      ensures !excluded && outcome.Raised? ==> id !in connections
      ensures forall c :: c in old(issued) && c != id ==>
                (c in connections <==> c in old(connections) && Disconnecting(c) !in RanFor(result, before, during))
      ensures id !in old(connections) ==> id !in connections
    {
      hide Valid, CurrentView;
      if excluded {
        return Excluded, id in connections;
      }
      Interleave(before);
      live := id in connections;
      var found := id in connections;
      var ok := SendToConnection(id, outcome, during);
      result := if ok then Sent else if found && outcome.Raised? then Failed else Unsent;
    }
  }

  /** What became of one target of a broadcast. */
  datatype TargetResult = Excluded | Unsent | Failed | Sent

  /** A send is tried on a target that is not excluded and still live; the socket decides the rest. */
  function ResultOf(excluded: bool, live: bool, outcome: SendOutcome): TargetResult {
    if excluded then Excluded
    else if live && outcome.Delivered? then Sent
    else if live && outcome.Raised? then Failed
    else Unsent
  }

  /** What other tasks do in the round of one target: nothing if it is excluded, more if there is a send. */
  function RanFor(result: TargetResult, before: seq<Action>, during: seq<Action>): seq<Action> {
    if result.Excluded? then [] else before + (if result.Sent? || result.Failed? then during else [])
  }

  /** What other tasks do in the first k rounds. */
  function RanBefore(results: seq<TargetResult>, before: nat -> seq<Action>, during: nat -> seq<Action>, k: nat)
    : seq<Action>
    requires k <= |results|
  {
    if k == 0 then []
    else RanBefore(results, before, during, k - 1) + RanFor(results[k - 1], before(k - 1), during(k - 1))
  }

  /** What other tasks do from the listing of the targets to the turn of target k. */
  function RanUpTo(results: seq<TargetResult>, before: nat -> seq<Action>, during: nat -> seq<Action>, k: nat)
    : seq<Action>
    requires k < |results|
  {
    RanBefore(results, before, during, k) + (if results[k].Excluded? then [] else before(k))
  }

  /** For every target that was live at the start, whether it was live at its turn. */
  ghost predicate LiveAtTurn(targets: seq<string>, start: set<string>, results: seq<TargetResult>, live: seq<bool>,
                             before: nat -> seq<Action>, during: nat -> seq<Action>) {
    && |live| == |results| <= |targets|
    && forall i: nat :: i < |results| && targets[i] in start ==>
         (live[i] <==> Disconnecting(targets[i]) !in RanUpTo(results, before, during, i))
  }

  /** For every target still to come, whether it is live. */
  ghost predicate LiveStill(targets: seq<string>, start: set<string>, held: set<string>, results: seq<TargetResult>,
                            before: nat -> seq<Action>, during: nat -> seq<Action>) {
    forall i: nat :: |results| <= i < |targets| && targets[i] in start ==>
      (targets[i] in held <==> Disconnecting(targets[i]) !in RanBefore(results, before, during, |results|))
  }

  lemma NoRounds(targets: seq<string>, start: set<string>, before: nat -> seq<Action>, during: nat -> seq<Action>)
    ensures LiveAtTurn(targets, start, [], [], before, during) && LiveStill(targets, start, start, [], before, during)
  {
  }

  lemma AllRounds(targets: seq<string>, start: set<string>, results: seq<TargetResult>, live: seq<bool>,
                  before: nat -> seq<Action>, during: nat -> seq<Action>)
    requires LiveAtTurn(targets, start, results, live, before, during)
    ensures |live| == |results| && forall k: nat :: k < |results| <= |targets| && targets[k] in start ==>
              (live[k] <==> Disconnecting(targets[k]) !in RanUpTo(results, before, during, k))
  {
    hide RanUpTo;
  }

  /** The round of the next target; its own failed send disconnects nobody else. */
  lemma NextRound(targets: seq<string>, start: set<string>, held: set<string>, next: set<string>,
                                     results: seq<TargetResult>, live: seq<bool>, r: TargetResult, found: bool,
                                     before: nat -> seq<Action>, during: nat -> seq<Action>)
    requires |results| < |targets| && forall i, j :: 0 <= i < j < |targets| ==> targets[i] != targets[j]
    requires LiveAtTurn(targets, start, results, live, before, during)
    requires LiveStill(targets, start, held, results, before, during)
    requires var k := |results|;
             && (found <==> targets[k] in held && (r.Excluded? || Disconnecting(targets[k]) !in before(k)))
             && forall i :: k < i < |targets| ==>
                  (targets[i] in next <==>
                     targets[i] in held && Disconnecting(targets[i]) !in RanFor(r, before(k), during(k)))
    ensures LiveAtTurn(targets, start, results + [r], live + [found], before, during)
    ensures LiveStill(targets, start, next, results + [r], before, during)
  {
    OneMoreRound(results, r, before, during);
    hide RanUpTo, RanBefore, RanFor;
  }

  lemma {:induction false} RanBeforeOfPrefix(results: seq<TargetResult>, r: TargetResult,
                                             before: nat -> seq<Action>, during: nat -> seq<Action>, k: nat)
    requires k <= |results|
    ensures RanBefore(results + [r], before, during, k) == RanBefore(results, before, during, k)
  {
    hide RanFor;
    if k > 0 {
      RanBeforeOfPrefix(results, r, before, during, k - 1);
      assert (results + [r])[k - 1] == results[k - 1];
    }
  }

  lemma OneMoreRound(results: seq<TargetResult>, r: TargetResult,
                                        before: nat -> seq<Action>, during: nat -> seq<Action>)
    ensures var k, more := |results|, results + [r];
            && (forall i: nat :: i < k ==> RanUpTo(more, before, during, i) == RanUpTo(results, before, during, i))
            && (forall a :: a in RanUpTo(more, before, during, k) <==>
                  a in RanBefore(results, before, during, k) || (!r.Excluded? && a in before(k)))
            && (forall a :: a in RanBefore(more, before, during, k + 1) <==>
                  a in RanBefore(results, before, during, k) || a in RanFor(r, before(k), during(k)))
  {
    hide RanFor;
    forall i: nat | i <= |results|
      ensures RanBefore(results + [r], before, during, i) == RanBefore(results, before, during, i)
    {
      RanBeforeOfPrefix(results, r, before, during, i);
    }
  }

  function CountSent(results: seq<TargetResult>): nat {
    if results == [] then 0 else CountSent(Init(results)) + (if Last(results).Sent? then 1 else 0)
  }

  lemma NothingSent()
    ensures CountSent([]) == 0
  {
  }

  lemma OneMoreResult(results: seq<TargetResult>, r: TargetResult)
    ensures CountSent(results + [r]) == CountSent(results) + (if r.Sent? then 1 else 0)
  {
    assert Init(results + [r]) == results;
  }

  /** What the results of a broadcast say, and that they are counted one by one. */
  lemma ResultsTell(targets: seq<string>, exclude: set<string>, outcome: nat -> SendOutcome,
                    results: seq<TargetResult>, live: seq<bool>)
    requires |results| == |live| == |targets|
    requires forall k: nat :: k < |targets| ==> results[k] == ResultOf(targets[k] in exclude, live[k], outcome(k))
    ensures forall k: nat :: k < |targets| ==>
              (results[k].Excluded? <==> targets[k] in exclude)
              && (results[k].Sent? <==> targets[k] !in exclude && live[k] && outcome(k).Delivered?)
              && (results[k].Failed? <==> targets[k] !in exclude && live[k] && outcome(k).Raised?)
    ensures CountSent(results) ==
            |set k: nat | k < |targets| && targets[k] !in exclude && live[k] && outcome(k).Delivered?|
  {
    CountIsSize(results);
    assert SentAt(results) == set k: nat | k < |targets| && targets[k] !in exclude && live[k] && outcome(k).Delivered?;
  }

  function SentAt(results: seq<TargetResult>): set<nat> {
    set k: nat | k < |results| && results[k].Sent?
  }

  lemma {:induction false} CountIsSize(results: seq<TargetResult>)
    ensures CountSent(results) == |SentAt(results)|
  {
    if results == [] {
      assert SentAt(results) == {};
    } else {
      CountIsSize(Init(results));
      var last: nat := |results| - 1;
      assert SentAt(results) == SentAt(Init(results)) + (if Last(results).Sent? then {last} else {});
    }
  }
}
