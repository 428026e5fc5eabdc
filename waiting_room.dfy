/**
 * The rules of the knockout waiting room in
 * frontend/src/StudentDashboard/Games/Knockout/WaitingRoom.tsx: how the host's name and country
 * are chosen, the host test, how the host is merged into the player list the server sends (by
 * REST or by socket), and which status line and Start button a `playerListUpdate` produces.
 * `sessionStorage` values and the navigation state are parameters (`None` for a missing value).
 */
module WaitingRoom {
  import opened Wrappers

  datatype Player = Player(name: string, country: string)

  /**
   * `stored || fromState || fallback`, and the value written back to storage: the state's
   * value is stored only when nothing usable was stored and the state has one.
   */
  function Remembered(stored: Option<string>, fromState: Option<string>, fallback: string): (r: (string, Option<string>))
  {
    var value := if Truthy(stored) then stored.value else if Truthy(fromState) then fromState.value else fallback;
    var storage := if !Truthy(stored) && Truthy(fromState) then fromState else stored;
    (value, storage)
  }

  function HostName(stored: Option<string>, fromState: Option<string>): (string, Option<string>)
  {
    Remembered(stored, fromState, "Host")
  }

  function HostCountry(stored: Option<string>, fromState: Option<string>): (string, Option<string>)
  {
    Remembered(stored, fromState, "Unknown")
  }

  /**
   * The stored value wins when it is non-empty, otherwise the state's, otherwise the fallback;
   * storage only ever gains the state's value; and a non-empty fallback makes the result non-empty.
   */
  lemma RememberedChoice(stored: Option<string>, fromState: Option<string>, fallback: string)
    ensures var (value, storage) := Remembered(stored, fromState, fallback);
      && (Truthy(stored) ==> value == stored.value && storage == stored)
      && (!Truthy(stored) && Truthy(fromState) ==> value == fromState.value && storage == fromState)
      && (!Truthy(stored) && !Truthy(fromState) ==> value == fallback && storage == stored)
      && (fallback != "" ==> value != "")
  {
  }

  /** `isHost = !!hostName && !!hostCountry`. */
  predicate IsHost(hostName: string, hostCountry: string)
  {
    hostName != "" && hostCountry != ""
  }

  /** The defaults are never empty, so every waiting room believes it is the host's. */
  lemma EveryoneIsHost(storedName: Option<string>, stateName: Option<string>, storedCountry: Option<string>, stateCountry: Option<string>)
    ensures IsHost(HostName(storedName, stateName).0, HostCountry(storedCountry, stateCountry).0)
  {
    RememberedChoice(storedName, stateName, "Host");
    RememberedChoice(storedCountry, stateCountry, "Unknown");
  }

  predicate HostInList(players: seq<Player>, hostName: string, hostCountry: string)
  {
    exists k :: 0 <= k < |players| && players[k].name == hostName && players[k].country == hostCountry
  }

  /**
   * The host merge of `fetchPlayers` and `handlePlayerListUpdate`: a playing host missing from
   * the list (same name and country) is put at its front.
   */
  function MergeHost(players: seq<Player>, hostIsPlayer: bool, hostName: string, hostCountry: string): (r: seq<Player>)
  {
    if hostIsPlayer && !HostInList(players, hostName, hostCountry) then [Player(hostName, hostCountry)] + players
    else players
  }

  /**
   * A playing host is always in the merged list; the list is changed only by prepending the
   * host, and only if the host was missing; a host who does not play leaves it unchanged.
   */
  lemma MergeHostEffect(players: seq<Player>, hostIsPlayer: bool, hostName: string, hostCountry: string)
    ensures var r := MergeHost(players, hostIsPlayer, hostName, hostCountry);
      && (hostIsPlayer ==> HostInList(r, hostName, hostCountry))
      && (r == players || (r == [Player(hostName, hostCountry)] + players && !HostInList(players, hostName, hostCountry)))
      && (!hostIsPlayer || HostInList(players, hostName, hostCountry) ==> r == players)
      && r[|r| - |players|..] == players
  {
    var r := MergeHost(players, hostIsPlayer, hostName, hostCountry);
    if r != players {
      assert r[0] == Player(hostName, hostCountry);
    }
  }

  /** Merging twice is merging once: the host is never added a second time. */
  lemma MergeHostIdempotent(players: seq<Player>, hostIsPlayer: bool, hostName: string, hostCountry: string)
    ensures var r := MergeHost(players, hostIsPlayer, hostName, hostCountry);
      MergeHost(r, hostIsPlayer, hostName, hostCountry) == r
  {
    MergeHostEffect(players, hostIsPlayer, hostName, hostCountry);
  }

  /** `JoinedOf(n, None)` is the line "n/undefined Players Joined". */
  datatype Status = WaitingForPlayers | RoomFull | JoinedOf(joined: int, max: Option<int>)

  /**
   * The room's status line and Start button, changed by `playerListUpdate` and by pressing Start.
   * `maxPlayers` is `None` when the server relays a room capacity that is `undefined`.
   */
  datatype Lobby = Lobby(players: seq<Player>, maxPlayers: Option<int>, status: Status, showStartButton: bool)

  function Initial(participants: Option<int>): (l: Lobby)
    ensures l.players == [] && !l.showStartButton && l.status == WaitingForPlayers
  {
    Lobby([], Some(if participants.Some? && participants.value != 0 then participants.value else 4), WaitingForPlayers, false)
  }

  /** `handlePlayerListUpdate({players, joinedCount, maxPlayers})`. */
  function PlayerListUpdate(l: Lobby, players: seq<Player>, joinedCount: int, maxPlayers: Option<int>,
                            hostIsPlayer: bool, hostName: string, hostCountry: string): (r: Lobby)
  {
    var merged := MergeHost(players, hostIsPlayer, hostName, hostCountry);
    if maxPlayers == Some(joinedCount) then
      Lobby(merged, maxPlayers, RoomFull,
            if IsHost(hostName, hostCountry) then true else l.showStartButton)
    else Lobby(merged, maxPlayers, JoinedOf(joinedCount, maxPlayers), false)
  }

  /**
   * A full room reads "Room full" and shows Start to the host; any other count reads "n/m
   * Players Joined" and hides Start. The list is the merged list and the capacity the server's.
   * An `undefined` capacity equals no count, so the room then never reads full and Start stays hidden.
   */
  lemma PlayerListUpdateStatus(l: Lobby, players: seq<Player>, joinedCount: int, maxPlayers: Option<int>,
                               hostIsPlayer: bool, hostName: string, hostCountry: string)
    requires IsHost(hostName, hostCountry)
    ensures var r := PlayerListUpdate(l, players, joinedCount, maxPlayers, hostIsPlayer, hostName, hostCountry);
      && r.players == MergeHost(players, hostIsPlayer, hostName, hostCountry)
      && r.maxPlayers == maxPlayers
      && (r.status == RoomFull <==> maxPlayers.Some? && joinedCount == maxPlayers.value)
      && (maxPlayers != Some(joinedCount) ==> r.status == JoinedOf(joinedCount, maxPlayers))
      && (r.showStartButton <==> maxPlayers.Some? && joinedCount == maxPlayers.value)
      && (maxPlayers.None? ==> r.status == JoinedOf(joinedCount, None) && !r.showStartButton)
  {
  }

  /** `handleStartGame()`: the start request is sent and the Start button is hidden. */
  function StartGame(l: Lobby): (r: Lobby)
    ensures !r.showStartButton
    ensures r.players == l.players && r.status == l.status && r.maxPlayers == l.maxPlayers
  {
    l.(showStartButton := false)
  }
}
