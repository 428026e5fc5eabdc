/**
 * The single-question pairing game of frontend/src/StudentDashboard/Games/Knockout/PlayGround.tsx.
 *
 * `pairPlayers` shuffles the players and pairs them two by two; an odd one out is queued as a
 * winner. Each pair then gets one question: `handleNext(selected)` records a winner and a
 * loser, moves to the next pair, and after the last pair either shows the summary or re-pairs
 * the players that had been recorded as winners. React state is the value `Board`; a handler
 * returns the board React arrives at once it has processed the handler's requests.
 */
module KnockoutPairing {
  import opened Wrappers
  import Shuffle
  import opened KnockoutEngine

  datatype Pairing = Pairing(player1: Player, player2: Player)

  /** The pairs of consecutive players: (s[0], s[1]), (s[2], s[3]), ... */
  function PairsOf(s: seq<Player>): seq<Pairing>
    decreases |s|
  {
    if |s| < 2 then [] else [Pairing(s[0], s[1])] + PairsOf(s[2..])
  }

  /** The player left without a partner, if the count is odd. */
  function ByeOf(s: seq<Player>): seq<Player>
  {
    if |s| % 2 == 1 then [s[|s| - 1]] else []
  }

  /** The players of the pairs, in order. */
  function Members(pairs: seq<Pairing>): seq<Player>
    decreases |pairs|
  {
    if pairs == [] then [] else [pairs[0].player1, pairs[0].player2] + Members(pairs[1..])
  }

  /** `PairsOf` has floor(n/2) pairs, the k-th made of players 2k and 2k+1. */
  lemma {:induction false} PairsOfAt(s: seq<Player>)
    ensures |PairsOf(s)| == |s| / 2
    ensures forall k :: 0 <= k < |s| / 2 ==> PairsOf(s)[k] == Pairing(s[2 * k], s[2 * k + 1])
    decreases |s|
  {
    if |s| >= 2 {
      PairsOfAt(s[2..]);
      forall k | 0 <= k < |s| / 2 ensures PairsOf(s)[k] == Pairing(s[2 * k], s[2 * k + 1]) {
        if k > 0 {
          assert PairsOf(s)[k] == PairsOf(s[2..])[k - 1];
          assert s[2..][2 * (k - 1)] == s[2 * k] && s[2..][2 * (k - 1) + 1] == s[2 * k + 1];
        }
      }
    }
  }

  /** Reading the pairs' members in order, followed by the bye, gives back the players. */
  lemma {:induction false} PairsThenBye(s: seq<Player>)
    ensures Members(PairsOf(s)) + ByeOf(s) == s
    decreases |s|
  {
    if |s| >= 2 {
      PairsThenBye(s[2..]);
      var rest := PairsOf(s[2..]);
      assert PairsOf(s) == [Pairing(s[0], s[1])] + rest;
      assert Members(PairsOf(s)) == [s[0], s[1]] + Members(rest);
      assert ByeOf(s) == ByeOf(s[2..]) by {
        if |s| % 2 == 1 { assert s[2..][|s[2..]| - 1] == s[|s| - 1]; }
      }
      assert [s[0], s[1]] + s[2..] == s;
    } else if |s| == 1 {
      assert ByeOf(s) == s;
    }
  }

  /** Every player lands in exactly one pair or in the bye. */
  lemma PairsPartition(s: seq<Player>)
    ensures multiset(Members(PairsOf(s))) + multiset(ByeOf(s)) == multiset(s)
  {
    PairsThenBye(s);
    assert multiset(Members(PairsOf(s)) + ByeOf(s)) == multiset(s);
  }

  /**
   * `pairPlayers(players)`: the loop over the shuffled players in steps of 2. Returns the
   * pairings it sets and the players it appends to `winners`.
   */
  method PairPlayers(players: seq<Player>, swaps: seq<(nat, nat)>) returns (pairs: seq<Pairing>, byes: seq<Player>)
    ensures var shuffled := Shuffle.Shuffle(players, swaps);
      && |pairs| == |players| / 2
      && (forall k :: 0 <= k < |pairs| ==> pairs[k] == Pairing(shuffled[2 * k], shuffled[2 * k + 1]))
      && byes == (if |players| % 2 == 1 then [shuffled[|players| - 1]] else [])
      && pairs == PairsOf(shuffled) && byes == ByeOf(shuffled)
  {
    var shuffled := Shuffle.Shuffle(players, swaps);
    pairs := [];
    byes := [];
    var i := 0;
    while i < |shuffled|
      invariant i % 2 == 0 && 0 <= i <= |shuffled| + 1
      invariant |pairs| == if i <= |shuffled| then i / 2 else |shuffled| / 2
      invariant forall k :: 0 <= k < |pairs| ==> pairs[k] == Pairing(shuffled[2 * k], shuffled[2 * k + 1])
      invariant byes == (if i > |shuffled| then [shuffled[|shuffled| - 1]] else [])
      invariant i > |shuffled| ==> |shuffled| % 2 == 1
      decreases |shuffled| - i
    {
      if i + 1 < |shuffled| {
        pairs := pairs + [Pairing(shuffled[i], shuffled[i + 1])];
      } else {
        byes := byes + [shuffled[i]];
      }
      i := i + 2;
    }
    PairsOfAt(shuffled);
  }

  /** The component's state. `roomPlayers` is `room.players`, `None` while `room` is still `null`. */
  datatype Board = Board(
    pairings: seq<Pairing>,
    currentPairsIndex: int,
    currentIndex: int,
    winners: seq<Player>,
    eliminated: seq<Player>,
    showSummary: bool,
    roomPlayers: Option<seq<Player>>)

  /**
   * The winner and loser of one pair from the selected option. `selected && ...` is JavaScript
   * truthiness, so an empty selection counts like a timeout (`null`).
   */
  function Outcome(selected: Option<string>, correct: string, pair: Pairing): (r: (Player, Player))
  {
    var winner := if Truthy(selected) && selected.value == correct then pair.player1 else pair.player2;
    var loser := if Truthy(selected) && selected.value != correct then pair.player1 else pair.player2;
    (winner, loser)
  }

  /** A correct selection: player1 wins, player2 loses. */
  lemma OutcomeCorrect(correct: string, pair: Pairing)
    requires correct != ""
    ensures Outcome(Some(correct), correct, pair) == (pair.player1, pair.player2)
  {
  }

  /** A wrong non-empty selection: player2 wins, player1 loses. */
  lemma OutcomeWrong(selected: string, correct: string, pair: Pairing)
    requires selected != "" && selected != correct
    ensures Outcome(Some(selected), correct, pair) == (pair.player2, pair.player1)
  {
  }

  /** A timeout (or an empty selection) reports player2 as both the winner and the loser. */
  lemma OutcomeTimeout(selected: Option<string>, correct: string, pair: Pairing)
    requires !Truthy(selected)
    ensures Outcome(selected, correct, pair) == (pair.player2, pair.player2)
  {
  }

  /**
   * `handleNext(selected)`; `answers[i]` is `questions[i].answer`. `None` is the TypeError the
   * handler throws when there is no current pair or no current question.
   */
  function HandleNext(b: Board, selected: Option<string>, answers: seq<string>, swaps: seq<(nat, nat)>): (r: Option<Board>)
  {
    if !(0 <= b.currentPairsIndex < |b.pairings|) || !(0 <= b.currentIndex < |answers|) then None
    else
      var (winner, loser) := Outcome(selected, answers[b.currentIndex], b.pairings[b.currentPairsIndex]);
      var winners, eliminated := b.winners + [winner], b.eliminated + [loser];
      if b.currentPairsIndex + 1 < |b.pairings| then
        Some(b.(winners := winners, eliminated := eliminated,
                currentPairsIndex := b.currentPairsIndex + 1, currentIndex := b.currentIndex + 1))
      else if |b.winners| + 1 <= 1 then
        Some(b.(winners := winners, eliminated := eliminated, showSummary := true))
      else
        // `newPlayers` is the snapshot of `winners`: the winner just recorded is not in it
        var shuffled := Shuffle.Shuffle(b.winners, swaps);
        Some(b.(roomPlayers := if b.roomPlayers.Some? then Some(b.winners) else None, winners := ByeOf(shuffled), eliminated := [],
                pairings := PairsOf(shuffled), currentPairsIndex := 0, currentIndex := b.currentIndex + 1))
  }

  /** While pairs remain, the winner and loser are recorded and both indices advance by 1. */
  lemma HandleNextAdvances(b: Board, selected: Option<string>, answers: seq<string>, swaps: seq<(nat, nat)>)
    requires 0 <= b.currentPairsIndex && b.currentPairsIndex + 1 < |b.pairings| && 0 <= b.currentIndex < |answers|
    ensures var (w, l) := Outcome(selected, answers[b.currentIndex], b.pairings[b.currentPairsIndex]);
      HandleNext(b, selected, answers, swaps) ==
        Some(b.(winners := b.winners + [w], eliminated := b.eliminated + [l],
                currentPairsIndex := b.currentPairsIndex + 1, currentIndex := b.currentIndex + 1))
  {
  }

  /** After the last pair with no earlier winner recorded, the summary is shown and neither index moves. */
  lemma HandleNextSummary(b: Board, selected: Option<string>, answers: seq<string>, swaps: seq<(nat, nat)>)
    requires b.currentPairsIndex == |b.pairings| - 1 >= 0 && 0 <= b.currentIndex < |answers| && b.winners == []
    ensures var r := HandleNext(b, selected, answers, swaps);
      r.Some? && r.value.showSummary && r.value.currentPairsIndex == b.currentPairsIndex &&
      r.value.currentIndex == b.currentIndex && |r.value.winners| == 1
  {
  }

  /**
   * Otherwise the earlier winners are re-paired: they become the room's players (a `null`
   * room stays `null`), every one of
   * them lands in exactly one new pair or the bye, the eliminated list is cleared, and the
   * winner of the last pair is dropped.
   */
  lemma {:induction false} HandleNextRepairs(b: Board, selected: Option<string>, answers: seq<string>, swaps: seq<(nat, nat)>)
    requires b.currentPairsIndex == |b.pairings| - 1 >= 0 && 0 <= b.currentIndex < |answers| && b.winners != []
    ensures var r := HandleNext(b, selected, answers, swaps);
      && r.Some?
      && r.value.roomPlayers == (if b.roomPlayers.Some? then Some(b.winners) else None)
      && multiset(Members(r.value.pairings)) + multiset(r.value.winners) == multiset(b.winners)
      && |r.value.pairings| == |b.winners| / 2
      && r.value.eliminated == [] && r.value.currentPairsIndex == 0 && r.value.currentIndex == b.currentIndex + 1
      && r.value.showSummary == b.showSummary
  {
    var shuffled := Shuffle.Shuffle(b.winners, swaps);
    PairsPartition(shuffled);
    PairsOfAt(shuffled);
  }
}
