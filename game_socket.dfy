/**
 * The survivor-room server of backend/sockets/gameSocket.js: a registry of rooms, keyed by room
 * id and kept in insertion order (a JavaScript `Map`), changed in place by the socket handlers
 * `hostJoinRoom`, `joinRoom`, `questionsLoaded`, `startFirstQuestion`, `playerAnswered` and
 * `disconnect`.
 *
 * The pure functions below give each handler's effect on one room; the class `RoomRegistry`
 * performs the handlers on the registry and is proved to agree with them. What a handler emits
 * is returned as its result. The one-second `setTimeout` of `playerAnswered` runs at once, as
 * part of the same step.
 */
module GameSocket {
  import opened Wrappers

  /** A quiz question as the server stores it; the server never looks inside. */
  datatype Question = Question(question: string, options: seq<string>, correctAnswer: string)

  /** A room member; `joinRoom` sets `id` (`_id`) to the socket id. A missing `points` reads as 0. */
  datatype SocketPlayer = SocketPlayer(socketId: string, name: string, country: string, id: string, points: int)

  /**
   * A room. `maxPlayers` is whatever the host sent: `None` stands for an `undefined` capacity,
   * against which `players.length >= maxPlayers` is always false.
   */
  datatype Room = Room(
    players: seq<SocketPlayer>,
    maxPlayers: Option<int>,
    currentQuestion: Option<Question>,
    currentPlayerIndex: int,
    roundIndex: int,
    questions: seq<Question>,
    currentQuestionIndex: int)

  /** The `playerListUpdate` payload. */
  datatype ListUpdate = ListUpdate(players: seq<SocketPlayer>, joinedCount: nat, maxPlayers: Option<int>)

  datatype JoinResult = RoomNotFound | RoomFull | Joined(update: ListUpdate)

  /** What `playerAnswered` emits once its delay has passed. */
  datatype AnswerEvent =
    | NoRoom
    | TurnUpdate(playerIndex: int, roundIndex: int)
    | GameOver(survivors: seq<SocketPlayer>)
    | NextRound(question: Option<Question>, roundIndex: int, leaderboard: seq<SocketPlayer>)

  /** JavaScript array indexing: `undefined` outside the array. */
  function At<T>(s: seq<T>, i: int): (r: Option<T>)
    ensures r.Some? <==> 0 <= i < |s|
    ensures r.Some? ==> r.value == s[i]
  {
    if 0 <= i < |s| then Some(s[i]) else None
  }

  predicate UniqueSockets(ps: seq<SocketPlayer>)
  {
    forall i, j :: 0 <= i < j < |ps| ==> ps[i].socketId != ps[j].socketId
  }

  predicate HasSocket(ps: seq<SocketPlayer>, socketId: string)
  {
    exists i :: 0 <= i < |ps| && ps[i].socketId == socketId
  }

  /** What every room in the registry satisfies: one entry per socket, each keyed by its socket id. */
  predicate RoomOk(room: Room)
  {
    UniqueSockets(room.players) &&
    forall i :: 0 <= i < |room.players| ==> room.players[i].id == room.players[i].socketId
  }

  /** The room `hostJoinRoom` creates: no players, no questions, every index 0. */
  function NewRoom(maxPlayers: Option<int>): (r: Room)
    ensures r.players == [] && r.questions == [] && r.currentQuestion == None
    ensures r.currentPlayerIndex == 0 && r.roundIndex == 0 && r.currentQuestionIndex == 0
    ensures r.maxPlayers == maxPlayers && RoomOk(r)
  {
    Room([], maxPlayers, None, 0, 0, [], 0)
  }

  // ---------------------------------------------------------------------------------------
  // Joining
  // ---------------------------------------------------------------------------------------

  /** `room.players.length >= room.maxPlayers`, which no length meets when the capacity is `undefined`. */
  predicate Full(room: Room)
  {
    match room.maxPlayers
    case None => false
    case Some(cap) => |room.players| >= cap
  }

  /** `joinRoom` on an existing room: the capacity check, then a push unless the socket is already in. */
  function Admit(room: Room, socketId: string, name: string, country: string): (r: (JoinResult, Room))
  {
    if Full(room) then (RoomFull, room)
    else
      var players :=
        if HasSocket(room.players, socketId) then room.players
        else room.players + [SocketPlayer(socketId, name, country, socketId, 0)];
      var room' := room.(players := players);
      (Joined(ListUpdate(players, |players|, room.maxPlayers)), room')
  }

  /**
   * A full room is left as it was; otherwise the socket ends up in the room exactly once, only
   * the player list changes, and it grows by one exactly when the socket was not there yet.
   */
  lemma AdmitEffect(room: Room, socketId: string, name: string, country: string)
    requires RoomOk(room)
    ensures var (res, room') := Admit(room, socketId, name, country);
      && (res == RoomFull <==> room.maxPlayers.Some? && |room.players| >= room.maxPlayers.value)
      && (res == RoomFull ==> room' == room)
      && (res.Joined? ==>
            && room' == room.(players := room'.players)
            && HasSocket(room'.players, socketId)
            && |room'.players| == |room.players| + (if HasSocket(room.players, socketId) then 0 else 1)
            && room'.players[..|room.players|] == room.players
            && res.update == ListUpdate(room'.players, |room'.players|, room.maxPlayers))
      && RoomOk(room')
  {
    var (res, room') := Admit(room, socketId, name, country);
    if res.Joined? && !HasSocket(room.players, socketId) {
      var p := SocketPlayer(socketId, name, country, socketId, 0);
      assert room'.players == room.players + [p];
      assert room'.players[|room.players|] == p;
      forall i, j | 0 <= i < j < |room'.players| ensures room'.players[i].socketId != room'.players[j].socketId {
        if j == |room.players| {
          assert room'.players[i] == room.players[i];
        }
      }
    }
  }

  /** With a numeric capacity, a join admitted into a room below capacity never takes it over capacity. */
  lemma AdmitKeepsCapacity(room: Room, socketId: string, name: string, country: string)
    requires room.maxPlayers.Some?
    ensures var cap := room.maxPlayers.value;
      |Admit(room, socketId, name, country).1.players| <= if |room.players| >= cap then |room.players| else cap
  {
  }

  /** `joinRoom` for each socket id in turn, on one room. */
  function JoinAll(room: Room, socketIds: seq<string>): (r: Room)
    decreases |socketIds|
  {
    if socketIds == [] then room
    else JoinAll(Admit(room, socketIds[0], "", "").1, socketIds[1..])
  }

  /**
   * A room whose capacity is `undefined` is never full: every join is admitted, however many
   * sockets come, and each new socket adds one player.
   */
  lemma UncappedRoomGrows(room: Room, socketIds: seq<string>)
    requires room.maxPlayers.None? && RoomOk(room)
    requires forall i, j :: 0 <= i < j < |socketIds| ==> socketIds[i] != socketIds[j]
    requires forall i :: 0 <= i < |socketIds| ==> !HasSocket(room.players, socketIds[i])
    ensures forall id :: Admit(room, id, "", "").0.Joined?
    ensures |JoinAll(room, socketIds).players| == |room.players| + |socketIds|
    ensures JoinAll(room, socketIds).maxPlayers.None?
    decreases |socketIds|
  {
    if socketIds != [] {
      var id := socketIds[0];
      var room' := Admit(room, id, "", "").1;
      AdmitEffect(room, id, "", "");
      forall i | 0 <= i < |socketIds[1..]| ensures !HasSocket(room'.players, socketIds[1..][i]) {
        var x := socketIds[1..][i];
        assert x == socketIds[i + 1] && x != id;
        assert room'.players == room.players + [SocketPlayer(id, "", "", id, 0)];
        forall k | 0 <= k < |room'.players| ensures room'.players[k].socketId != x {
          if k < |room.players| {
            assert room'.players[k] == room.players[k];
          }
        }
      }
      UncappedRoomGrows(room', socketIds[1..]);
    }
  }

  // ---------------------------------------------------------------------------------------
  // Scoring and the end of a round
  // ---------------------------------------------------------------------------------------

  /** `players.find(p => p._id === id)` as an index; `|ps|` when there is none. */
  function FindById(ps: seq<SocketPlayer>, id: string): (k: nat)
    ensures k <= |ps|
    ensures k < |ps| ==> ps[k].id == id
    ensures forall j :: 0 <= j < k ==> ps[j].id != id
    decreases |ps|
  {
    if ps == [] then 0 else if ps[0].id == id then 0 else 1 + FindById(ps[1..], id)
  }

  /** `player.points = (player.points || 0) + 10` for the player found, if any. */
  function Award(ps: seq<SocketPlayer>, id: string): (r: seq<SocketPlayer>)
    ensures |r| == |ps|
  {
    var k := FindById(ps, id);
    if k < |ps| then ps[k := ps[k].(points := ps[k].points + 10)] else ps
  }

  function TotalPoints(ps: seq<SocketPlayer>): int
    decreases |ps|
  {
    if ps == [] then 0 else ps[0].points + TotalPoints(ps[1..])
  }

  lemma {:induction false} TotalPointsUpdate(ps: seq<SocketPlayer>, k: nat, p: SocketPlayer)
    requires k < |ps|
    ensures TotalPoints(ps[k := p]) == TotalPoints(ps) - ps[k].points + p.points
    decreases |ps|
  {
    if k > 0 {
      assert ps[k := p][1..] == ps[1..][k - 1 := p];
      TotalPointsUpdate(ps[1..], k - 1, p);
    } else {
      assert ps[k := p][1..] == ps[1..];
    }
  }

  /**
   * A correct answer adds 10 points to the first player with that id and to no one else; the
   * players' other fields and order stay as they were.
   */
  lemma AwardOnlyThatPlayer(ps: seq<SocketPlayer>, id: string)
    ensures |Award(ps, id)| == |ps|
    ensures forall i :: 0 <= i < |ps| ==>
      Award(ps, id)[i] == ps[i].(points := ps[i].points +
        (if ps[i].id == id && (forall j :: 0 <= j < i ==> ps[j].id != id) then 10 else 0))
  {
    var k := FindById(ps, id);
    forall i | 0 <= i < |ps|
      ensures Award(ps, id)[i] == ps[i].(points := ps[i].points +
        (if ps[i].id == id && (forall j :: 0 <= j < i ==> ps[j].id != id) then 10 else 0))
    {
      if i > k && k < |ps| {
        assert ps[k].id == id;
      }
    }
  }

  lemma AwardAt(ps: seq<SocketPlayer>, id: string)
    requires FindById(ps, id) < |ps|
    ensures Award(ps, id) == ps[FindById(ps, id) := ps[FindById(ps, id)].(points := ps[FindById(ps, id)].points + 10)]
  {
  }

  /** In total exactly 10 points are added when some player has the id, none otherwise. */
  lemma AwardTotal(ps: seq<SocketPlayer>, id: string)
    ensures TotalPoints(Award(ps, id)) == TotalPoints(ps) + (if HasId(ps, id) then 10 else 0)
  {
    var k := FindById(ps, id);
    if k < |ps| {
      var p := ps[k].(points := ps[k].points + 10);
      AwardAt(ps, id);
      TotalPointsUpdate(ps, k, p);
      assert HasId(ps, id) by { assert ps[k].id == id; }
    } else {
      assert Award(ps, id) == ps;
      assert !HasId(ps, id);
    }
  }

  predicate HasId(ps: seq<SocketPlayer>, id: string)
  {
    exists i :: 0 <= i < |ps| && ps[i].id == id
  }

  lemma AwardKeepsRoomOk(room: Room, id: string)
    requires RoomOk(room)
    ensures RoomOk(room.(players := Award(room.players, id)))
  {
    AwardOnlyThatPlayer(room.players, id);
  }

  /** `Math.max(...points)` on a non-empty list. */
  function MaxPoints(ps: seq<SocketPlayer>): (m: int)
    requires ps != []
    ensures forall i :: 0 <= i < |ps| ==> ps[i].points <= m
    ensures exists i :: 0 <= i < |ps| && ps[i].points == m
    decreases |ps|
  {
    if |ps| == 1 then ps[0].points
    else
      var rest := MaxPoints(ps[1..]);
      assert forall i :: 1 <= i < |ps| ==> ps[i] == ps[1..][i - 1];
      if ps[0].points >= rest then ps[0].points else rest
  }

  /** `ps.filter(p => p.points === m)` */
  function Keep(ps: seq<SocketPlayer>, m: int): (r: seq<SocketPlayer>)
    ensures |r| <= |ps|
    ensures forall p :: p in r <==> p in ps && p.points == m
    decreases |ps|
  {
    if ps == [] then [] else (if ps[0].points == m then [ps[0]] else []) + Keep(ps[1..], m)
  }

  /** `a` is `b` with some entries removed, the rest in their order. */
  predicate IsSubsequence(a: seq<SocketPlayer>, b: seq<SocketPlayer>)
    decreases |b|
  {
    if a == [] then true
    else if b == [] then false
    else (a[0] == b[0] && IsSubsequence(a[1..], b[1..])) || IsSubsequence(a, b[1..])
  }

  lemma {:induction false} KeepIsSubsequence(ps: seq<SocketPlayer>, m: int)
    ensures IsSubsequence(Keep(ps, m), ps)
    decreases |ps|
  {
    if ps != [] {
      KeepIsSubsequence(ps[1..], m);
      var r := Keep(ps, m);
      if ps[0].points == m {
        assert r[0] == ps[0] && r[1..] == Keep(ps[1..], m);
      } else {
        assert r == Keep(ps[1..], m);
      }
    }
  }

  lemma {:induction false} KeepKeepsUnique(ps: seq<SocketPlayer>, m: int)
    requires UniqueSockets(ps)
    ensures UniqueSockets(Keep(ps, m))
    decreases |ps|
  {
    if ps != [] {
      assert UniqueSockets(ps[1..]) by {
        forall i, j | 0 <= i < j < |ps[1..]| ensures ps[1..][i].socketId != ps[1..][j].socketId {
          assert ps[1..][i] == ps[i + 1] && ps[1..][j] == ps[j + 1];
        }
      }
      KeepKeepsUnique(ps[1..], m);
      var rest := Keep(ps[1..], m);
      if ps[0].points == m {
        forall q | q in rest ensures q.socketId != ps[0].socketId {
          assert q in ps[1..];
          var j :| 0 <= j < |ps[1..]| && ps[1..][j] == q;
          assert ps[j + 1] == q;
        }
        var r := [ps[0]] + rest;
        forall i, j | 0 <= i < j < |r| ensures r[i].socketId != r[j].socketId {
          if i == 0 {
            assert r[j] == rest[j - 1];
            assert r[j] in rest;
          } else {
            assert r[i] == rest[i - 1] && r[j] == rest[j - 1];
          }
        }
      }
    }
  }

  /** The players tied at the highest score. */
  function Survivors(ps: seq<SocketPlayer>): seq<SocketPlayer>
  {
    if ps == [] then [] else Keep(ps, MaxPoints(ps))
  }

  /**
   * Survivors are exactly the players whose points equal the maximum, in their original order;
   * there is at least one when there are players at all.
   */
  lemma SurvivorsAreLeaders(ps: seq<SocketPlayer>)
    ensures var r := Survivors(ps);
      && (forall p :: p in r <==> p in ps && forall q :: q in ps ==> q.points <= p.points)
      && IsSubsequence(r, ps)
      && (r == [] <==> ps == [])
      && |r| <= |ps|
  {
    if ps != [] {
      var m := MaxPoints(ps);
      KeepIsSubsequence(ps, m);
      var i :| 0 <= i < |ps| && ps[i].points == m;
      assert ps[i] in Survivors(ps);
      forall p | p in ps && (forall q :: q in ps ==> q.points <= p.points) ensures p.points == m {
        assert ps[i] in ps;
        var k :| 0 <= k < |ps| && ps[k] == p;
      }
    }
  }

  lemma SurvivorsKeepRoomOk(room: Room)
    requires RoomOk(room)
    ensures RoomOk(room.(players := Survivors(room.players)))
  {
    var ps := room.players;
    if ps != [] {
      KeepKeepsUnique(ps, MaxPoints(ps));
      var r := Survivors(ps);
      forall i | 0 <= i < |r| ensures r[i].id == r[i].socketId {
        assert r[i] in r;
        assert r[i] in ps;
      }
    }
  }

  /** `playerAnswered` on an existing room, its delayed turn/round logic included. */
  function Answer(room: Room, playerId: string, isCorrect: bool): (r: (AnswerEvent, Room))
  {
    var players := if isCorrect then Award(room.players, playerId) else room.players;
    var scored := room.(players := players);
    if scored.currentPlayerIndex + 1 < |players| then
      (TurnUpdate(scored.currentPlayerIndex + 1, scored.roundIndex),
       scored.(currentPlayerIndex := scored.currentPlayerIndex + 1))
    else
      var survivors := Survivors(players);
      if |survivors| <= 1 || scored.currentQuestionIndex + 1 >= |scored.questions| then (GameOver(survivors), scored)
      else
        var qi := scored.currentQuestionIndex + 1;
        var next := scored.(roundIndex := scored.roundIndex + 1, currentQuestionIndex := qi,
                            currentQuestion := At(scored.questions, qi), currentPlayerIndex := 0,
                            players := survivors);
        (NextRound(next.currentQuestion, next.roundIndex, survivors), next)
  }

  /** Only a correct answer changes points; if a later player exists the turn passes to them and the round is unchanged. */
  lemma AnswerPassesTurn(room: Room, playerId: string, isCorrect: bool)
    requires room.currentPlayerIndex + 1 < |room.players|
    ensures var (ev, room') := Answer(room, playerId, isCorrect);
      var scored := if isCorrect then Award(room.players, playerId) else room.players;
      && ev == TurnUpdate(room.currentPlayerIndex + 1, room.roundIndex)
      && room' == room.(players := scored, currentPlayerIndex := room.currentPlayerIndex + 1)
  {
  }

  /**
   * At the last player the game is over when at most one survivor is left or no question
   * follows; otherwise round and question index go up by one, the turn goes back to the first
   * player and only the survivors stay.
   */
  lemma AnswerEndsRound(room: Room, playerId: string, isCorrect: bool)
    requires room.currentPlayerIndex + 1 >= |room.players|
    ensures var (ev, room') := Answer(room, playerId, isCorrect);
      var scored := if isCorrect then Award(room.players, playerId) else room.players;
      var survivors := Survivors(scored);
      if |survivors| <= 1 || room.currentQuestionIndex + 1 >= |room.questions| then
        ev == GameOver(survivors) && room' == room.(players := scored)
      else
        && ev == NextRound(room'.currentQuestion, room'.roundIndex, survivors)
        && room'.roundIndex == room.roundIndex + 1
        && room'.currentQuestionIndex == room.currentQuestionIndex + 1
        && room'.currentPlayerIndex == 0
        && room'.players == survivors
        && room'.currentQuestion == At(room.questions, room.currentQuestionIndex + 1)
        && room' == room.(roundIndex := room'.roundIndex, currentQuestionIndex := room'.currentQuestionIndex,
                          currentQuestion := room'.currentQuestion, currentPlayerIndex := 0, players := survivors)
  {
    var scored := room.(players := if isCorrect then Award(room.players, playerId) else room.players);
    assert Answer(room, playerId, isCorrect).1.players == Survivors(scored.players) || Answer(room, playerId, isCorrect).1 == scored;
  }

  lemma AnswerKeepsRoomOk(room: Room, playerId: string, isCorrect: bool)
    requires RoomOk(room)
    ensures RoomOk(Answer(room, playerId, isCorrect).1)
  {
    var players := if isCorrect then Award(room.players, playerId) else room.players;
    if isCorrect { AwardKeepsRoomOk(room, playerId); }
    SurvivorsKeepRoomOk(room.(players := players));
  }

  // ---------------------------------------------------------------------------------------
  // Leaving
  // ---------------------------------------------------------------------------------------

  /** `ps.findIndex(p => p.socketId === socketId)`; `|ps|` when there is none. */
  function FindSocket(ps: seq<SocketPlayer>, socketId: string): (k: nat)
    ensures k <= |ps|
    ensures k < |ps| <==> HasSocket(ps, socketId)
    ensures k < |ps| ==> ps[k].socketId == socketId
    ensures forall j :: 0 <= j < k ==> ps[j].socketId != socketId
    decreases |ps|
  {
    if ps == [] then 0
    else if ps[0].socketId == socketId then 0
    else
      var k := 1 + FindSocket(ps[1..], socketId);
      assert HasSocket(ps, socketId) ==> HasSocket(ps[1..], socketId) by {
        if HasSocket(ps, socketId) {
          var i :| 0 <= i < |ps| && ps[i].socketId == socketId;
          assert i > 0 && ps[1..][i - 1] == ps[i];
        }
      }
      k
  }

  /** `players.splice(index, 1)` at the socket's index. */
  function RemoveSocket(ps: seq<SocketPlayer>, socketId: string): seq<SocketPlayer>
  {
    var k := FindSocket(ps, socketId);
    if k < |ps| then ps[..k] + ps[k + 1..] else ps
  }

  /** Removal drops the entry at the socket's index and shifts the later ones down by one. */
  lemma RemoveSocketShifts(ps: seq<SocketPlayer>, socketId: string)
    ensures IsSubsequenceByIndex(RemoveSocket(ps, socketId), ps, FindSocket(ps, socketId))
  {
    var k := FindSocket(ps, socketId);
    var r := RemoveSocket(ps, socketId);
    if k < |ps| {
      forall i | 0 <= i < |r| ensures r[i] == ps[if i < k then i else i + 1] {
        if i < k { assert r[i] == ps[..k][i]; } else { assert r[i] == ps[k + 1..][i - k]; }
      }
    }
  }

  /** Removal from a list with one entry per socket keeps exactly the entries of the other sockets. */
  lemma RemoveSocketMembers(ps: seq<SocketPlayer>, socketId: string)
    requires UniqueSockets(ps)
    ensures forall p :: p in RemoveSocket(ps, socketId) <==> p in ps && p.socketId != socketId
  {
    var k := FindSocket(ps, socketId);
    var r := RemoveSocket(ps, socketId);
    RemoveSocketShifts(ps, socketId);
    if k < |ps| {
      forall p | p in r ensures p in ps && p.socketId != socketId {
        var i :| 0 <= i < |r| && r[i] == p;
        var j := if i < k then i else i + 1;
        assert ps[j] == p && j != k;
        if j < k { assert ps[j].socketId != ps[k].socketId; } else { assert ps[k].socketId != ps[j].socketId; }
      }
      forall p | p in ps && p.socketId != socketId ensures p in r {
        var j :| 0 <= j < |ps| && ps[j] == p;
        assert j != k;
        var i := if j < k then j else j - 1;
        assert r[i] == p;
      }
    }
  }

  /** Removal keeps one entry per socket, each keyed by its socket id. */
  lemma RemoveSocketKeepsOk(room: Room, socketId: string)
    requires RoomOk(room)
    ensures RoomOk(room.(players := RemoveSocket(room.players, socketId)))
  {
    var ps := room.players;
    var k := FindSocket(ps, socketId);
    var r := RemoveSocket(ps, socketId);
    RemoveSocketShifts(ps, socketId);
    if k < |ps| {
      forall i, j | 0 <= i < j < |r| ensures r[i].socketId != r[j].socketId {
        var i' := if i < k then i else i + 1;
        var j' := if j < k then j else j + 1;
        assert r[i] == ps[i'] && r[j] == ps[j'] && i' < j';
      }
      forall i | 0 <= i < |r| ensures r[i].id == r[i].socketId {
        assert r[i] == ps[if i < k then i else i + 1];
      }
    }
  }

  /** Removal takes out exactly the entry with that socket, keeps the others in order, and keeps the room well formed. */
  lemma {:induction false} RemoveSocketExact(room: Room, socketId: string)
    requires RoomOk(room)
    ensures var r := RemoveSocket(room.players, socketId);
      && (forall p :: p in r <==> p in room.players && p.socketId != socketId)
      && |r| == |room.players| - (if HasSocket(room.players, socketId) then 1 else 0)
      && IsSubsequenceByIndex(r, room.players, FindSocket(room.players, socketId))
      && RoomOk(room.(players := r))
  {
    RemoveSocketShifts(room.players, socketId);
    RemoveSocketMembers(room.players, socketId);
    RemoveSocketKeepsOk(room, socketId);
  }

  /** `r` is `b` without its entry at `k` (or all of `b` when `k` is past its end). */
  predicate IsSubsequenceByIndex(r: seq<SocketPlayer>, b: seq<SocketPlayer>, k: nat)
  {
    if k < |b| then |r| + 1 == |b| && forall i :: 0 <= i < |r| ==> r[i] == b[if i < k then i else i + 1]
    else r == b
  }

  // ---------------------------------------------------------------------------------------
  // The registry
  // ---------------------------------------------------------------------------------------

  /** The scoring half of `playerAnswered`: ten points to the player with that id, if the answer is correct. */
  method ScoreAnswer(room: Room, playerId: string, isCorrect: bool) returns (scored: Room)
    ensures scored == room.(players := if isCorrect then Award(room.players, playerId) else room.players)
  {
    scored := room;
    if isCorrect {
      var k := FindById(room.players, playerId);
      if k < |room.players| {
        var player := room.players[k];
        scored := room.(players := room.players[k := player.(points := player.points + 10)]);
      }
    }
  }

  /** `playerAnswered` on one room, step by step; it computes `Answer`. */
  method AnswerRoom(room: Room, playerId: string, isCorrect: bool) returns (event: AnswerEvent, room': Room)
    ensures (event, room') == Answer(room, playerId, isCorrect)
  {
    room' := ScoreAnswer(room, playerId, isCorrect);
    if room'.currentPlayerIndex + 1 < |room'.players| {
      room' := room'.(currentPlayerIndex := room'.currentPlayerIndex + 1);
      event := TurnUpdate(room'.currentPlayerIndex, room'.roundIndex);
    } else {
      var survivors := Survivors(room'.players);
      if |survivors| <= 1 || room'.currentQuestionIndex + 1 >= |room'.questions| {
        event := GameOver(survivors);
      } else {
        room' := room'.(roundIndex := room'.roundIndex + 1);
        room' := room'.(currentQuestionIndex := room'.currentQuestionIndex + 1);
        room' := room'.(currentQuestion := At(room'.questions, room'.currentQuestionIndex));
        room' := room'.(currentPlayerIndex := 0);
        room' := room'.(players := survivors);
        event := NextRound(room'.currentQuestion, room'.roundIndex, room'.players);
      }
    }
  }

  class RoomRegistry {
    /** The rooms by id. */
    var rooms: map<string, Room>
    /** The ids in insertion order, the order in which `disconnect` visits the rooms. */
    var order: seq<string>

    ghost predicate Valid()
      reads this
    {
      && (forall i, j :: 0 <= i < j < |order| ==> order[i] != order[j])
      && (forall k :: k in rooms <==> k in order)
      && (forall k :: k in rooms ==> RoomOk(rooms[k]))
    }

    constructor ()
      ensures rooms == map[] && order == [] && Valid()
    {
      rooms := map[];
      order := [];
    }

    /** `hostJoinRoom`: creates the room if it is absent; otherwise only its `maxPlayers` changes. */
    method HostJoinRoom(roomId: string, maxPlayers: Option<int>) returns (update: ListUpdate)
      modifies this
      ensures rooms == old(rooms)[roomId := if roomId in old(rooms)
                                          then old(rooms)[roomId].(maxPlayers := maxPlayers)
                                          else NewRoom(maxPlayers)]
      ensures order == if roomId in old(rooms) then old(order) else old(order) + [roomId]
      ensures update == ListUpdate(rooms[roomId].players, |rooms[roomId].players|, maxPlayers)
      ensures old(Valid()) ==> Valid()
    {
      if roomId !in rooms {
        rooms := rooms[roomId := NewRoom(maxPlayers)];
        order := order + [roomId];
      } else {
        rooms := rooms[roomId := rooms[roomId].(maxPlayers := maxPlayers)];
      }
      var room := rooms[roomId];
      update := ListUpdate(room.players, |room.players|, room.maxPlayers);
    }

    /** `joinRoom`: an unknown room or a full one is reported and nothing changes. */
    method JoinRoom(roomId: string, socketId: string, name: string, country: string) returns (result: JoinResult)
      modifies this
      ensures roomId !in old(rooms) ==> result == RoomNotFound && rooms == old(rooms)
      ensures roomId in old(rooms) ==>
        var (res, room') := Admit(old(rooms)[roomId], socketId, name, country);
        result == res && rooms == old(rooms)[roomId := room']
      ensures order == old(order)
      ensures old(Valid()) ==> Valid()
    {
      if roomId !in rooms {
        return RoomNotFound;
      }
      var room := rooms[roomId];
      if old(Valid()) {
        AdmitEffect(room, socketId, name, country);
      }
      if Full(room) {
        return RoomFull;
      }
      var alreadyJoined := FindSocket(room.players, socketId) < |room.players|;
      if !alreadyJoined {
        room := room.(players := room.players + [SocketPlayer(socketId, name, country, socketId, 0)]);
        rooms := rooms[roomId := room];
      }
      result := Joined(ListUpdate(room.players, |room.players|, room.maxPlayers));
    }

    /** `questionsLoaded`: stores the questions and makes the first one current; returns it when the room exists. */
    method QuestionsLoaded(roomId: string, questions: seq<Question>) returns (update: Option<Option<Question>>)
      modifies this
      ensures roomId !in old(rooms) ==> update == None && rooms == old(rooms)
      ensures roomId in old(rooms) ==>
        rooms == old(rooms)[roomId := old(rooms)[roomId].(questions := questions, currentQuestion := At(questions, 0))] &&
        update == Some(At(questions, 0))
      ensures order == old(order)
      ensures old(Valid()) ==> Valid()
    {
      if roomId in rooms {
        rooms := rooms[roomId := rooms[roomId].(questions := questions, currentQuestion := At(questions, 0))];
        update := Some(At(questions, 0));
      } else {
        update := None;
      }
    }

    /** `startFirstQuestion`: the first question becomes current and the turn goes to the first player; the round index is not reset. */
    method StartFirstQuestion(roomId: string) returns (update: Option<Option<Question>>)
      modifies this
      ensures roomId !in old(rooms) ==> update == None && rooms == old(rooms)
      ensures roomId in old(rooms) ==>
        var room := old(rooms)[roomId];
        rooms == old(rooms)[roomId := room.(currentQuestion := At(room.questions, 0), currentPlayerIndex := 0)] &&
        update == Some(At(room.questions, 0))
      ensures order == old(order)
      ensures old(Valid()) ==> Valid()
    {
      if roomId in rooms {
        var room := rooms[roomId];
        rooms := rooms[roomId := room.(currentQuestion := At(room.questions, 0), currentPlayerIndex := 0)];
        update := Some(At(room.questions, 0));
      } else {
        update := None;
      }
    }

    /** `playerAnswered`, with its delayed callback run straight after the scoring. */
    method PlayerAnswered(roomId: string, playerId: string, isCorrect: bool) returns (event: AnswerEvent)
      modifies this
      ensures roomId !in old(rooms) ==> event == NoRoom && rooms == old(rooms)
      ensures roomId in old(rooms) ==>
        var (ev, room') := Answer(old(rooms)[roomId], playerId, isCorrect);
        event == ev && rooms == old(rooms)[roomId := room']
      ensures order == old(order)
      ensures old(Valid()) ==> Valid()
    {
      if roomId !in rooms {
        return NoRoom;
      }
      var room := rooms[roomId];
      if old(Valid()) {
        AnswerKeepsRoomOk(room, playerId, isCorrect);
      }
      event, room := AnswerRoom(room, playerId, isCorrect);
      rooms := rooms[roomId := room];
    }

    /**
     * The position in `order` of the first room, in insertion order, that holds the socket;
     * `None` when no room does. Changes nothing.
     */
    method FindRoomOf(socketId: string) returns (k: Option<nat>)
      ensures k.Some? ==> k.value < |order| && order[k.value] in rooms && HasSocket(rooms[order[k.value]].players, socketId)
      ensures k.Some? ==> forall j :: 0 <= j < k.value && order[j] in rooms ==> !HasSocket(rooms[order[j]].players, socketId)
      ensures k.None? ==> forall j :: 0 <= j < |order| && order[j] in rooms ==> !HasSocket(rooms[order[j]].players, socketId)
    {
      var i := 0;
      while i < |order|
        invariant 0 <= i <= |order|
        invariant forall j :: 0 <= j < i && order[j] in rooms ==> !HasSocket(rooms[order[j]].players, socketId)
      {
        if order[i] in rooms && FindSocket(rooms[order[i]].players, socketId) < |rooms[order[i]].players| {
          return Some(i);
        }
        i := i + 1;
      }
      return None;
    }

    /** `disconnect`: the socket leaves the first room that holds it; every other room is untouched. */
    method Disconnect(socketId: string) returns (left: Option<(string, ListUpdate)>)
      modifies this
      ensures order == old(order)
      ensures left.None? ==>
        (rooms == old(rooms) &&
         forall j :: 0 <= j < |order| && order[j] in rooms ==> !HasSocket(rooms[order[j]].players, socketId))
      ensures left.Some? ==>
        var rid := left.value.0;
        && rid in old(rooms) && HasSocket(old(rooms)[rid].players, socketId)
        && (forall j :: (0 <= j < |order| && order[j] in old(rooms) && order[j] != rid &&
                         HasSocket(old(rooms)[order[j]].players, socketId)) ==>
              exists i :: 0 <= i < j && order[i] == rid)
        && rooms == old(rooms)[rid := old(rooms)[rid].(players := RemoveSocket(old(rooms)[rid].players, socketId))]
        && left.value.1 == ListUpdate(rooms[rid].players, |rooms[rid].players|, rooms[rid].maxPlayers)
      ensures old(Valid()) ==> Valid()
    {
      var k := FindRoomOf(socketId);
      if k.None? {
        return None;
      }
      var rid := order[k.value];
      var room := rooms[rid];
      if old(Valid()) {
        RemoveSocketExact(room, socketId);
      }
      var index := FindSocket(room.players, socketId);
      room := room.(players := room.players[..index] + room.players[index + 1..]);
      rooms := rooms[rid := room];
      left := Some((rid, ListUpdate(room.players, |room.players|, room.maxPlayers)));
      forall j | 0 <= j < |order| && order[j] in old(rooms) && order[j] != rid &&
                 HasSocket(old(rooms)[order[j]].players, socketId)
        ensures exists i :: 0 <= i < j && order[i] == rid
      {
        assert !(j < k.value);
        assert j != k.value;
      }
    }
  }
}
