/**
 * The knockout engine of Vanila/main.js and frontend/src/PlayGround.tsx as the source writes
 * it: module-level variables updated in place by `nextPair`, `handleAnswer` and `evaluatePair`.
 * Each method is proved to move the object exactly as the matching step function of
 * KnockoutEngine moves a `TState`, so the lemmas proved there hold of the object.
 */
module KnockoutTournament {
  import opened Wrappers
  import Shuffle
  import opened KnockoutEngine

  class Tournament {
    /** Which copy of the engine this is (only `evaluatePair` differs). */
    const copy: Copy
    var players: seq<Player>
    var roundPool: seq<Player>
    var winners: seq<Player>
    var currentPair: seq<Player>
    var scores: map<string, int>
    var eliminated: map<string, int>
    var currentRound: int
    var currentQuestionIndex: int
    var currentPlayerTurn: int
    var shownStages: Shown
    /** The callback the timer chain has scheduled next. */
    ghost var pending: Pending

    ghost function State(): TState
      reads this
    {
      TState(players, roundPool, winners, currentPair, scores, eliminated, currentRound,
             currentQuestionIndex, currentPlayerTurn, shownStages, pending)
    }

    ghost predicate Valid()
      reads this
    {
      Inv(State())
    }

    /** The declarations followed by the start sequence: the initial players are shuffled, `winners` is emptied. */
    constructor Start(copy: Copy, initial: seq<Player>, swaps: seq<(nat, nat)>)
      ensures this.copy == copy && State() == Initial(initial, swaps) && Valid()
    {
      this.copy := copy;
      players := Shuffle.Shuffle(initial, swaps);
      roundPool := [];
      winners := [];
      currentPair := [];
      scores := map[];
      eliminated := map[];
      currentRound := 1;
      currentQuestionIndex := 0;
      currentPlayerTurn := 0;
      shownStages := Shown(false, false, false);
      pending := AwaitNextPair;
    }

    /** `renderStageIntro(currentRound, callback)`: returns the intro shown before the callback runs. */
    method RenderStageIntro() returns (intro: Option<Intro>)
      modifies this
      ensures (intro, shownStages) == StageIntro(currentRound, old(shownStages))
      ensures State() == old(State()).(shown := shownStages)
    {
      if currentRound == 1 && !shownStages.round1 {
        shownStages := shownStages.(round1 := true);
        intro := Some(Intro(KnockoutStage, 5));
      } else if currentRound == 2 && !shownStages.round2 {
        shownStages := shownStages.(round2 := true);
        intro := Some(Intro(SemiFinals, 5));
      } else if currentRound >= 3 && !shownStages.final {
        shownStages := shownStages.(final := true);
        intro := Some(Intro(Finals, 10));
      } else {
        intro := None;
      }
    }

    /** The refill and bye steps at the top of `nextPair`. */
    method RefillAndBye(swaps: seq<(nat, nat)>)
      modifies this
      ensures State() == Bye(Refill(old(State()), swaps))
    {
      if roundPool == [] {
        roundPool := Shuffle.Shuffle(players, swaps);
        players := [];
        if currentRound > 1 || shownStages.round1 {
          currentRound := currentRound + 1;
        }
      }
      if |roundPool| == 1 {
        players := players + [roundPool[0]];
        roundPool := [];
      }
    }

    /** The two front players become the current pair, with fresh scores, question index and turn. */
    method TakeFrontPair()
      requires |roundPool| >= 2
      modifies this
      ensures State() == TakePair(old(State()))
    {
      currentPair := [roundPool[0], roundPool[1]];
      roundPool := roundPool[2..];
      scores := scores[currentPair[0].id := 0][currentPair[1].id := 0];
      currentQuestionIndex := 0;
      currentPlayerTurn := 0;
    }

    /** `nextPair()`, including its recursive call and the stage intro it shows. */
    method NextPair(swaps: seq<(nat, nat)>) returns (outcome: PairOutcome)
      requires pending == AwaitNextPair
      modifies this
      ensures (State(), outcome) == NextPairStep(old(State()), swaps)
      ensures old(Valid()) ==> Valid()
      decreases if winners == [] then 0 else 1
    {
      ghost var t := State();
      if old(Valid()) {
        NextPairInv(t, swaps);
      }
      if |winners| == 1 && roundPool == [] && players == [] {
        pending := Halted;
        outcome := WinnerShown(winners[0]);
        return;
      }
      RefillAndBye(swaps);
      if |roundPool| < 2 {
        if players == [] && |winners| == 1 {
          pending := Halted;
          outcome := WinnerShown(winners[0]);
          return;
        }
        players := winners;
        winners := [];
        ghost var t' := State();
        assert Pass(t, swaps) == Recurse(t');
        if roundPool == [] && players == [] {
          pending := Halted;
          outcome := Stuck;
          return;
        }
        outcome := NextPair(swaps);
        return;
      }
      TakeFrontPair();
      var intro := RenderStageIntro();
      pending := AwaitAnswer;
      outcome := Paired(intro);
    }

    /**
     * `handleAnswer(answer, correctAnswer)` followed by its 1.5 s settle callback; a timeout
     * passes `None`. Returns whether the next question is asked or the pair is judged.
     */
    method HandleAnswer(answer: Option<string>, correctAnswer: string) returns (next: AfterAnswer)
      requires pending == AwaitAnswer && MatchOn(State())
      modifies this
      ensures (State(), next) == AnswerStep(old(State()), answer, correctAnswer)
      ensures old(Valid()) ==> Valid()
    {
      if old(Valid()) {
        AnswerInv(State(), answer, correctAnswer);
      }
      var currentPlayer := currentPair[currentPlayerTurn];
      var isCorrect := answer == Some(correctAnswer);
      if isCorrect {
        scores := scores[currentPlayer.id := scores[currentPlayer.id] + 1];
      }
      if scores[currentPlayer.id] == 2 {
        pending := AwaitVerdict;
        return Judge;
      }
      currentPlayerTurn := (currentPlayerTurn + 1) % 2;
      // the settle callback
      if currentPlayerTurn == 0 {
        currentQuestionIndex := currentQuestionIndex + 1;
      }
      if currentQuestionIndex < 3 {
        next := AskNext;
      } else {
        pending := AwaitVerdict;
        next := Judge;
      }
    }

    /** `evaluatePair()`; `coin` is the outcome of `Math.random() < 0.5` (true: the first player advances). */
    method EvaluatePair(coin: bool) returns (verdict: Verdict)
      requires pending == AwaitVerdict && MatchOn(State())
      modifies this
      ensures (State(), verdict) == VerdictStep(old(State()), copy, coin)
      ensures old(Valid()) ==> Valid()
    {
      if old(Valid()) {
        VerdictRecords(State(), copy, coin);
      }
      var p1, p2 := currentPair[0], currentPair[1];
      var p1Score, p2Score := scores[p1.id], scores[p2.id];
      var advancing, eliminatedPlayer;
      if p1Score <= 1 && p2Score <= 1 {
        advancing := if coin then p1 else p2;
        eliminatedPlayer := if coin then p2 else p1;
      } else if p1Score <= 1 {
        advancing, eliminatedPlayer := p2, p1;
      } else if copy == PlayGroundTsx || p2Score <= 1 {
        advancing, eliminatedPlayer := p1, p2;
      } else if p1Score >= p2Score {
        advancing, eliminatedPlayer := p1, p2;
      } else {
        advancing, eliminatedPlayer := p2, p1;
      }
      players := players + [advancing];
      eliminated := eliminated[eliminatedPlayer.name := Get(eliminated, eliminatedPlayer.name) + 1];
      pending := AwaitNextPair;
      verdict := Verdict(advancing, eliminatedPlayer, currentRound >= 3);
    }
  }
}
