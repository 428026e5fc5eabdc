/**
 * The knockout quiz engine of Vanila/main.js and of its copy frontend/src/PlayGround.tsx.
 *
 * Both files keep the tournament in a handful of mutable variables (`players`, `roundPool`,
 * `winners`, `currentPair`, `scores`, `eliminated`, `currentRound`, `currentQuestionIndex`,
 * `currentPlayerTurn`, `shownStages`). Here that state is one value `TState`, and each handler
 * (`nextPair`, `handleAnswer`, `evaluatePair`, `renderStageIntro`) is a step function on it.
 * The class in module KnockoutTournament runs the same handlers imperatively and is proved to
 * agree with these functions.
 *
 * Timers become explicit steps: `pending` records which callback the `setInterval` /
 * `setTimeout` chain has scheduled, and a step is only taken when its callback is the one due.
 * Randomness becomes parameters: the shuffle is `Shuffle.Shuffle(_, swaps)`, the coin flip of the
 * verdict is `coin` (`Math.random() < 0.5`), and the drawn question is represented by its
 * correct answer.
 */
module KnockoutEngine {
  import opened Wrappers
  import Shuffle

  datatype Player = Player(id: string, name: string)

  /** The two copies of the engine; they differ only in `evaluatePair`. */
  datatype Copy = MainJs | PlayGroundTsx

  datatype Stage = KnockoutStage | SemiFinals | Finals

  /** The `shownStages` flags `1`, `2` and `final`. */
  datatype Shown = Shown(round1: bool, round2: bool, final: bool)

  /** A stage intro and the seconds its countdown runs before the pair's countdown starts. */
  datatype Intro = Intro(stage: Stage, seconds: nat)

  /** The callback that the timer chain has scheduled next. */
  datatype Pending = AwaitNextPair | AwaitAnswer | AwaitVerdict | Halted

  /**
   * How a call of `nextPair` ends: the winner screen, a new pair (with the stage intro shown
   * first, if any), or a recursion that never makes progress.
   */
  datatype PairOutcome = WinnerShown(champion: Player) | Paired(intro: Option<Intro>) | Stuck

  /** What the 1.5 s settle delay after an answer leads to. */
  datatype AfterAnswer = AskNext | Judge

  /** The result screen of `evaluatePair`; `finalsScreen` is the "Ultimate Champion" message. */
  datatype Verdict = Verdict(advancing: Player, eliminated: Player, finalsScreen: bool)

  datatype TState = TState(
    players: seq<Player>,       // advancing players, queued for the next round
    roundPool: seq<Player>,     // this round's players still to be paired
    winners: seq<Player>,
    currentPair: seq<Player>,
    scores: map<string, int>,   // by player id
    eliminated: map<string, int>, // by player name
    round: int,
    questionIndex: int,
    turn: int,
    shown: Shown,
    pending: Pending)

  /** `m[k] || 0` */
  function Get(m: map<string, int>, k: string): int
  {
    if k in m then m[k] else 0
  }

  // ---------------------------------------------------------------------------------------
  // Stage intros (`renderStageIntro`)
  // ---------------------------------------------------------------------------------------

  /** The stage a round number announces: 1 knockout, 2 semi-finals, 3 and later the finals. */
  function StageOf(round: int): Option<Stage>
  {
    if round == 1 then Some(KnockoutStage)
    else if round == 2 then Some(SemiFinals)
    else if round >= 3 then Some(Finals)
    else None
  }

  function Flag(shown: Shown, stage: Stage): bool
  {
    match stage
    case KnockoutStage => shown.round1
    case SemiFinals => shown.round2
    case Finals => shown.final
  }

  function Mark(shown: Shown, stage: Stage): Shown
  {
    match stage
    case KnockoutStage => shown.(round1 := true)
    case SemiFinals => shown.(round2 := true)
    case Finals => shown.(final := true)
  }

  /** Number of stages whose intro has not been shown yet. */
  function Unshown(shown: Shown): nat
  {
    (if shown.round1 then 0 else 1) + (if shown.round2 then 0 else 1) + (if shown.final then 0 else 1)
  }

  /**
   * `renderStageIntro(round, callback)`: the intro of the round's stage is shown iff it was not
   * shown before; showing it sets exactly that stage's flag; the finals intro counts down 10 s,
   * the others 5 s; with no intro the flags stay and the callback runs at once.
   */
  function StageIntro(round: int, shown: Shown): (r: (Option<Intro>, Shown))
    ensures r.0.Some? <==> StageOf(round).Some? && !Flag(shown, StageOf(round).value)
    ensures r.0.Some? ==> r.0.value.stage == StageOf(round).value && r.1 == Mark(shown, r.0.value.stage)
    ensures r.0.Some? ==> r.0.value.seconds == if r.0.value.stage == Finals then 10 else 5
    ensures r.0.None? ==> r.1 == shown
  {
    if round == 1 && !shown.round1 then (Some(Intro(KnockoutStage, 5)), shown.(round1 := true))
    else if round == 2 && !shown.round2 then (Some(Intro(SemiFinals, 5)), shown.(round2 := true))
    else if round >= 3 && !shown.final then (Some(Intro(Finals, 10)), shown.(final := true))
    else (None, shown)
  }

  /** The intros shown, in order, when `renderStageIntro` is called for each of `rounds`. */
  function IntroRun(rounds: seq<int>, shown: Shown): seq<Stage>
    decreases |rounds|
  {
    if rounds == [] then []
    else
      var (intro, shown') := StageIntro(rounds[0], shown);
      (if intro.Some? then [intro.value.stage] else []) + IntroRun(rounds[1..], shown')
  }

  /**
   * Whatever rounds are announced, each stage's intro appears at most once, only if its flag was
   * not yet set, and so at most three intros are shown in a whole tournament.
   */
  lemma {:induction false} IntrosShownOnce(rounds: seq<int>, shown: Shown)
    ensures forall i, j :: 0 <= i < j < |IntroRun(rounds, shown)| ==>
      IntroRun(rounds, shown)[i] != IntroRun(rounds, shown)[j]
    ensures forall i :: 0 <= i < |IntroRun(rounds, shown)| ==> !Flag(shown, IntroRun(rounds, shown)[i])
    ensures |IntroRun(rounds, shown)| <= Unshown(shown) <= 3
    decreases |rounds|
  {
    if rounds != [] {
      var (intro, shown') := StageIntro(rounds[0], shown);
      IntrosShownOnce(rounds[1..], shown');
      var rest := IntroRun(rounds[1..], shown');
      assert IntroRun(rounds, shown) == (if intro.Some? then [intro.value.stage] else []) + rest;
      if intro.Some? {
        var st := intro.value.stage;
        assert shown' == Mark(shown, st);
        assert Unshown(shown') + 1 == Unshown(shown) by {
          match st
          case KnockoutStage =>
          case SemiFinals =>
          case Finals =>
        }
        forall i | 0 <= i < |rest| ensures rest[i] != st && !Flag(shown, rest[i]) {
          assert !Flag(shown', rest[i]);
          match st
          case KnockoutStage =>
          case SemiFinals =>
          case Finals =>
        }
      }
    }
  }

  // ---------------------------------------------------------------------------------------
  // The tournament state and its invariant
  // ---------------------------------------------------------------------------------------

  /** The start sequence: `players = shuffle(players); winners = [];` with every other variable at its declared initial value. */
  function Initial(initial: seq<Player>, swaps: seq<(nat, nat)>): TState
  {
    TState(Shuffle.Shuffle(initial, swaps), [], [], [], map[], map[], 1, 0, 0,
           Shown(false, false, false), AwaitNextPair)
  }

  /** A pair is on and both of its scores exist. */
  predicate MatchOn(t: TState)
  {
    |t.currentPair| == 2 && t.currentPair[0].id in t.scores && t.currentPair[1].id in t.scores &&
    0 <= t.turn <= 1
  }

  function Score0(t: TState): int requires MatchOn(t) { t.scores[t.currentPair[0].id] }
  function Score1(t: TState): int requires MatchOn(t) { t.scores[t.currentPair[1].id] }

  /**
   * What every reachable state satisfies: `winners` stays empty, the round is at least 1, a
   * question is only asked while both scores are at most 1, and at the verdict the scores are in
   * [0, 2] and at most one of them (for distinct ids) has reached 2.
   */
  predicate Inv(t: TState)
  {
    && t.winners == []
    && t.round >= 1
    && (t.pending == AwaitAnswer || t.pending == AwaitVerdict ==> MatchOn(t) && t.questionIndex >= 0)
    && (t.pending == AwaitAnswer ==>
          0 <= Score0(t) <= 1 && 0 <= Score1(t) <= 1 && t.questionIndex < 3)
    && (t.pending == AwaitVerdict ==>
          0 <= Score0(t) <= 2 && 0 <= Score1(t) <= 2 &&
          (Score0(t) <= 1 || Score1(t) <= 1 || t.currentPair[0].id == t.currentPair[1].id))
  }

  lemma InitialInv(initial: seq<Player>, swaps: seq<(nat, nat)>)
    ensures Inv(Initial(initial, swaps)) && Initial(initial, swaps).pending == AwaitNextPair
  {
  }

  // ---------------------------------------------------------------------------------------
  // `nextPair`
  // ---------------------------------------------------------------------------------------

  /**
   * An empty pool is refilled from the advancing list, which is cleared, and shuffled; the
   * round goes up only once round 1 is over or its intro was shown.
   */
  function Refill(t: TState, swaps: seq<(nat, nat)>): TState
  {
    if t.roundPool == [] then
      t.(roundPool := Shuffle.Shuffle(t.players, swaps), players := [],
         round := if t.round > 1 || t.shown.round1 then t.round + 1 else t.round)
    else t
  }

  /** A lone pool member is popped and pushed onto the advancing list. */
  function Bye(t: TState): TState
  {
    if |t.roundPool| == 1 then t.(roundPool := [], players := t.players + [t.roundPool[0]]) else t
  }

  /** The two front players are shifted off the pool; their scores, the question index and the turn are reset. */
  function TakePair(t: TState): TState
    requires |t.roundPool| >= 2
  {
    var p0, p1 := t.roundPool[0], t.roundPool[1];
    t.(currentPair := [p0, p1], roundPool := t.roundPool[2..],
       scores := t.scores[p0.id := 0][p1.id := 0], questionIndex := 0, turn := 0)
  }

  datatype PassResult = Done(state: TState, outcome: PairOutcome) | Recurse(state: TState)

  /** One call of `nextPair`, up to the point where it calls itself again. */
  function Pass(t: TState, swaps: seq<(nat, nat)>): (r: PassResult)
    ensures r.Recurse? ==> r.state.winners == [] && r.state.roundPool == [] && r.state.players == t.winners
  {
    if |t.winners| == 1 && t.roundPool == [] && t.players == [] then
      Done(t.(pending := Halted), WinnerShown(t.winners[0]))
    else
      var t2 := Bye(Refill(t, swaps));
      if |t2.roundPool| < 2 then
        if t2.players == [] && |t2.winners| == 1 then Done(t2.(pending := Halted), WinnerShown(t2.winners[0]))
        else Recurse(t2.(players := t2.winners, winners := []))
      else
        var t3 := TakePair(t2);
        var (intro, shown) := StageIntro(t3.round, t3.shown);
        Done(t3.(shown := shown, pending := AwaitAnswer), Paired(intro))
  }

  /**
   * `nextPair()`. When the recursive call would start from a state whose pool, advancing list
   * and winners are all empty, it would only call itself again for ever (see
   * `StuckRecursionMakesNoProgress`); that outcome is `Stuck` and the chain halts.
   */
  function NextPairStep(t: TState, swaps: seq<(nat, nat)>): (r: (TState, PairOutcome))
    decreases if t.winners == [] then 0 else 1
  {
    match Pass(t, swaps)
    case Done(t', o) => (t', o)
    case Recurse(t') =>
      if t'.roundPool == [] && t'.players == [] then (t'.(pending := Halted), Stuck)
      else NextPairStep(t', swaps)
  }

  /** From a state with nothing left anywhere, `nextPair` calls itself again, changing at most the round counter. */
  lemma StuckRecursionMakesNoProgress(t: TState, swaps: seq<(nat, nat)>)
    requires t.roundPool == [] && t.players == [] && t.winners == []
    ensures Pass(t, swaps).Recurse?
    ensures Pass(t, swaps).state == t.(round := if t.round > 1 || t.shown.round1 then t.round + 1 else t.round)
  {
  }

  /**
   * Under the invariant `nextPair` never shows the winner screen: it pairs the two front
   * players when the (possibly refilled) pool holds at least two, and is stuck otherwise, with
   * both lists emptied -- a bye player and every advancing player are lost.
   */
  lemma {:induction false} NextPairOutcomes(t: TState, swaps: seq<(nat, nat)>)
    requires Inv(t) && t.pending == AwaitNextPair
    ensures var (t', o) := NextPairStep(t, swaps);
      && !o.WinnerShown?
      && (o.Paired? <==> |t.roundPool| >= 2 || (t.roundPool == [] && |t.players| >= 2))
      && (o.Stuck? ==> t'.roundPool == [] && t'.players == [] && t'.pending == Halted)
      && (o.Paired? ==> t'.pending == AwaitAnswer)
  {
    var t2 := Bye(Refill(t, swaps));
    if |t2.roundPool| < 2 {
      assert Pass(t, swaps) == Recurse(t2.(players := [], winners := []));
    }
  }

  /** A new match takes the two front players of a non-empty pool in FIFO order and resets both scores, the question index and the turn. */
  lemma PairTakenFifo(t: TState, swaps: seq<(nat, nat)>)
    requires Inv(t) && t.pending == AwaitNextPair && |t.roundPool| >= 2
    ensures var (t', o) := NextPairStep(t, swaps);
      && o.Paired?
      && t'.currentPair == t.roundPool[..2] && t'.roundPool == t.roundPool[2..]
      && t'.players == t.players && t'.round == t.round && t'.eliminated == t.eliminated
      && t'.scores[t.roundPool[0].id] == 0 && t'.scores[t.roundPool[1].id] == 0
      && (forall id :: id in t.scores && id != t.roundPool[0].id && id != t.roundPool[1].id ==>
            id in t'.scores && t'.scores[id] == t.scores[id])
      && t'.questionIndex == 0 && t'.turn == 0
  {
  }

  /**
   * An empty pool is refilled from the advancing list, which is then cleared; the round goes up
   * only if it is past 1 or the round-1 intro was shown, so the first refill stays in round 1.
   */
  lemma RefillFromAdvancing(t: TState, swaps: seq<(nat, nat)>)
    requires Inv(t) && t.pending == AwaitNextPair && t.roundPool == [] && |t.players| >= 2
    ensures var (t', o) := NextPairStep(t, swaps);
      var pool := Shuffle.Shuffle(t.players, swaps);
      && o.Paired?
      && multiset(pool) == multiset(t.players)
      && t'.currentPair == pool[..2] && t'.roundPool == pool[2..] && t'.players == []
      && t'.round == if t.round > 1 || t.shown.round1 then t.round + 1 else t.round
  {
  }

  /** The first call after the start sequence pairs in round 1 and shows the knockout intro for 5 s. */
  lemma FirstPairingInRoundOne(initial: seq<Player>, swaps: seq<(nat, nat)>, swaps': seq<(nat, nat)>)
    requires |initial| >= 2
    ensures var (t', o) := NextPairStep(Initial(initial, swaps), swaps');
      o == Paired(Some(Intro(KnockoutStage, 5))) && t'.round == 1 && t'.shown.round1
  {
  }

  /** The stage flags only ever go from false to true. */
  lemma NextPairKeepsFlags(t: TState, swaps: seq<(nat, nat)>)
    requires Inv(t) && t.pending == AwaitNextPair
    ensures var t' := NextPairStep(t, swaps).0;
      (t.shown.round1 ==> t'.shown.round1) && (t.shown.round2 ==> t'.shown.round2) &&
      (t.shown.final ==> t'.shown.final)
  {
    NextPairOutcomes(t, swaps);
  }

  lemma NextPairInv(t: TState, swaps: seq<(nat, nat)>)
    requires Inv(t) && t.pending == AwaitNextPair
    ensures Inv(NextPairStep(t, swaps).0)
  {
    NextPairOutcomes(t, swaps);
  }

  // ---------------------------------------------------------------------------------------
  // `handleAnswer` together with its 1.5 s settle callback
  // ---------------------------------------------------------------------------------------

  /**
   * `handleAnswer(answer, correctAnswer)`; a timeout answers `None`. The player whose turn it
   * is scores 1 for an answer equal to the correct one; reaching 2 ends the match; otherwise the
   * turn toggles, the question index goes up when the turn is back with the first player, and
   * the pair is judged once the index reaches 3.
   */
  function AnswerStep(t: TState, answer: Option<string>, correct: string): (r: (TState, AfterAnswer))
    requires t.pending == AwaitAnswer && MatchOn(t)
  {
    var cur := t.currentPair[t.turn];
    var scores := if answer == Some(correct) then t.scores[cur.id := t.scores[cur.id] + 1] else t.scores;
    if scores[cur.id] == 2 then (t.(scores := scores, pending := AwaitVerdict), Judge)
    else
      var turn := (t.turn + 1) % 2;
      var qi := if turn == 0 then t.questionIndex + 1 else t.questionIndex;
      if qi < 3 then (t.(scores := scores, turn := turn, questionIndex := qi), AskNext)
      else (t.(scores := scores, turn := turn, questionIndex := qi, pending := AwaitVerdict), Judge)
  }

  /** Only an answer equal to the correct option scores, by exactly 1, and only for the player whose turn it is; a timeout never scores. */
  lemma AnswerScoring(t: TState, answer: Option<string>, correct: string)
    requires Inv(t) && t.pending == AwaitAnswer
    ensures var t' := AnswerStep(t, answer, correct).0;
      var id := t.currentPair[t.turn].id;
      && t'.scores.Keys == t.scores.Keys
      && t'.scores[id] == t.scores[id] + (if answer == Some(correct) then 1 else 0)
      && (forall k :: k in t.scores && k != id ==> t'.scores[k] == t.scores[k])
      && (answer.None? ==> t'.scores == t.scores)
      && t'.players == t.players && t'.roundPool == t.roundPool && t'.eliminated == t.eliminated
      && t'.round == t.round && t'.currentPair == t.currentPair
  {
  }

  /**
   * Reaching 2 ends the match at once, without toggling the turn; otherwise the turn toggles,
   * the question index goes up when the turn returns to the first player, and the pair is judged
   * exactly when the index reaches 3.
   */
  lemma AnswerTurns(t: TState, answer: Option<string>, correct: string)
    requires Inv(t) && t.pending == AwaitAnswer
    ensures var (t', next) := AnswerStep(t, answer, correct);
      var id := t.currentPair[t.turn].id;
      if t'.scores[id] == 2 then
        next == Judge && t'.turn == t.turn && t'.questionIndex == t.questionIndex
      else
        && t'.turn == 1 - t.turn
        && t'.questionIndex == t.questionIndex + (if t.turn == 1 then 1 else 0)
        && (next == Judge <==> t'.questionIndex == 3)
  {
  }

  lemma AnswerInv(t: TState, answer: Option<string>, correct: string)
    requires Inv(t) && t.pending == AwaitAnswer
    ensures var (t', next) := AnswerStep(t, answer, correct);
      Inv(t') && (next == AskNext <==> t'.pending == AwaitAnswer) && (next == Judge <==> t'.pending == AwaitVerdict)
  {
  }

  /** Answers given so far to the current pair when no one has reached 2: two per finished question plus the turn. */
  function Asked(t: TState): int
  {
    2 * t.questionIndex + t.turn
  }

  /** Each answer that does not end the match moves `Asked` up by exactly one, and it stays below 6. */
  lemma AnswerAdvances(t: TState, answer: Option<string>, correct: string)
    requires Inv(t) && t.pending == AwaitAnswer
    ensures 0 <= Asked(t) < 6
    ensures var (t', next) := AnswerStep(t, answer, correct);
      next == AskNext ==> Asked(t') == Asked(t) + 1 && Asked(t') < 6
  {
  }

  /** Feed answers `(answer, correct)` to the pair until it is judged; also returns how many were used and whether it was judged. */
  function Play(t: TState, answers: seq<(Option<string>, string)>): (r: (TState, nat, bool))
    requires Inv(t) && t.pending == AwaitAnswer
    decreases |answers|
  {
    if answers == [] then (t, 0, false)
    else
      AnswerInv(t, answers[0].0, answers[0].1);
      var (t1, next) := AnswerStep(t, answers[0].0, answers[0].1);
      if next == Judge then (t1, 1, true)
      else
        var r := Play(t1, answers[1..]);
        (r.0, r.1 + 1, r.2)
  }

  /** Whatever the answers, a pair is judged after at most 6 of them (3 questions each), counting from a fresh pair. */
  lemma {:induction false} AtMostSixAnswers(t: TState, answers: seq<(Option<string>, string)>)
    requires Inv(t) && t.pending == AwaitAnswer && |answers| >= 6 - Asked(t)
    ensures Play(t, answers).2 && Play(t, answers).1 <= 6 - Asked(t)
    decreases |answers|
  {
    AnswerAdvances(t, answers[0].0, answers[0].1);
    AnswerInv(t, answers[0].0, answers[0].1);
    var (t1, next) := AnswerStep(t, answers[0].0, answers[0].1);
    if next == AskNext {
      AtMostSixAnswers(t1, answers[1..]);
    }
  }

  // ---------------------------------------------------------------------------------------
  // `evaluatePair`
  // ---------------------------------------------------------------------------------------

  /** The four-branch verdict of main.js: 0 when the first pair member advances, 1 for the second. */
  function VerdictMain(s1: int, s2: int, coin: bool): (adv: nat)
    ensures adv <= 1
  {
    if s1 <= 1 && s2 <= 1 then (if coin then 0 else 1)
    else if s1 <= 1 then 1
    else if s2 <= 1 then 0
    else if s1 >= s2 then 0 else 1
  }

  /** The three-branch verdict of PlayGround.tsx (and of backup.tsx). */
  function VerdictPlayGround(s1: int, s2: int, coin: bool): (adv: nat)
    ensures adv <= 1
  {
    if s1 <= 1 && s2 <= 1 then (if coin then 0 else 1)
    else if s1 <= 1 then 1
    else 0
  }

  function VerdictIndex(copy: Copy, s1: int, s2: int, coin: bool): (adv: nat)
    ensures adv <= 1
  {
    if copy == MainJs then VerdictMain(s1, s2, coin) else VerdictPlayGround(s1, s2, coin)
  }

  /** A score of 2 beats a score of at most 1 in both copies, whichever player holds it. */
  lemma ThresholdWins(copy: Copy, s1: int, s2: int, coin: bool)
    requires (s1 == 2 && s2 <= 1) || (s2 == 2 && s1 <= 1)
    ensures VerdictIndex(copy, s1, s2, coin) == if s1 == 2 then 0 else 1
  {
  }

  /** With both scores at most 1 the coin decides, even when one player is ahead (1-0). */
  lemma LowScoresCoinFlip(copy: Copy, s1: int, s2: int)
    requires s1 <= 1 && s2 <= 1
    ensures VerdictIndex(copy, s1, s2, true) == 0 && VerdictIndex(copy, s1, s2, false) == 1
  {
  }

  /**
   * `evaluatePair()`: the advancer is appended to `players`, the loser's elimination count goes
   * up by one, and the pair's round decides which result screen is shown.
   */
  function VerdictStep(t: TState, copy: Copy, coin: bool): (r: (TState, Verdict))
    requires t.pending == AwaitVerdict && MatchOn(t)
  {
    var adv := VerdictIndex(copy, Score0(t), Score1(t), coin);
    var winner, loser := t.currentPair[adv], t.currentPair[1 - adv];
    (t.(players := t.players + [winner],
        eliminated := t.eliminated[loser.name := Get(t.eliminated, loser.name) + 1],
        pending := AwaitNextPair),
     Verdict(winner, loser, t.round >= 3))
  }

  /**
   * The verdict puts exactly one pair member through and eliminates the other; it appends the
   * advancer to `players`, raises the loser's count by exactly 1, and changes nothing else.
   */
  lemma VerdictRecords(t: TState, copy: Copy, coin: bool)
    requires Inv(t) && t.pending == AwaitVerdict
    ensures var (t', v) := VerdictStep(t, copy, coin);
      && {v.advancing, v.eliminated} <= {t.currentPair[0], t.currentPair[1]}
      && ((v.advancing == t.currentPair[0] && v.eliminated == t.currentPair[1]) ||
          (v.advancing == t.currentPair[1] && v.eliminated == t.currentPair[0]))
      && t'.players == t.players + [v.advancing]
      && Get(t'.eliminated, v.eliminated.name) == Get(t.eliminated, v.eliminated.name) + 1
      && (forall n :: n != v.eliminated.name ==> Get(t'.eliminated, n) == Get(t.eliminated, n))
      && t' == t.(players := t'.players, eliminated := t'.eliminated, pending := AwaitNextPair)
      && Inv(t')
  {
  }

  /**
   * Where the two copies differ (both scores above 1) cannot be reached for two distinct
   * players: main.js's `>=` branch is dead code.
   */
  lemma MainGreaterEqualBranchUnreachable(t: TState)
    requires Inv(t) && t.pending == AwaitVerdict && t.currentPair[0].id != t.currentPair[1].id
    ensures Score0(t) <= 1 || Score1(t) <= 1
  {
  }

  /** On every reachable state the two copies reach the same verdict. */
  lemma {:induction false} CopiesAgree(t: TState, coin: bool)
    requires Inv(t) && t.pending == AwaitVerdict
    ensures VerdictStep(t, MainJs, coin) == VerdictStep(t, PlayGroundTsx, coin)
  {
    if Score0(t) > 1 && Score1(t) > 1 {
      assert t.currentPair[0].id == t.currentPair[1].id;
      assert Score0(t) == Score1(t);
    }
  }

  // ---------------------------------------------------------------------------------------
  // Whole matches and the round schedule
  // ---------------------------------------------------------------------------------------

  /** One match: `nextPair`, the answers until the pair is judged, and `evaluatePair`. `None` when no match is played. */
  function Match(t: TState, swaps: seq<(nat, nat)>, answers: seq<(Option<string>, string)>, copy: Copy, coin: bool): Option<TState>
    requires Inv(t) && t.pending == AwaitNextPair
  {
    NextPairOutcomes(t, swaps);
    NextPairInv(t, swaps);
    var (t1, o) := NextPairStep(t, swaps);
    if !o.Paired? then None
    else
      var (t2, _, judged) := Play(t1, answers);
      if !judged then None
      else
        PlayJudged(t1, answers);
        Some(VerdictStep(t2, copy, coin).0)
  }

  /** What decides the schedule: the pool size, the advancing count, the round and the round-1 flag. */
  datatype Tally = Tally(pool: nat, advancing: nat, round: int, round1Shown: bool)

  function TallyOf(t: TState): Tally
  {
    Tally(|t.roundPool|, |t.players|, t.round, t.shown.round1)
  }

  /**
   * The tally after one match: two players leave the pool and one joins the advancing list;
   * an empty pool is first refilled from the advancing list (with the round rule); with fewer
   * than two players to pair there is no match.
   */
  function NextTally(k: Tally): Option<Tally>
  {
    if k.pool >= 2 then Some(Tally(k.pool - 2, k.advancing + 1, k.round, k.round1Shown || k.round == 1))
    else if k.pool == 0 && k.advancing >= 2 then
      var r := if k.round > 1 || k.round1Shown then k.round + 1 else k.round;
      Some(Tally(k.advancing - 2, 1, r, k.round1Shown || r == 1))
    else None
  }

  /** The answers of a pair leave the tally alone, and a judged run ends awaiting the verdict. */
  lemma {:induction false} PlayJudged(t: TState, answers: seq<(Option<string>, string)>)
    requires Inv(t) && t.pending == AwaitAnswer
    ensures var (t', _, judged) := Play(t, answers);
      TallyOf(t') == TallyOf(t) && Inv(t') && (judged ==> t'.pending == AwaitVerdict)
    decreases |answers|
  {
    if answers != [] {
      AnswerInv(t, answers[0].0, answers[0].1);
      AnswerScoring(t, answers[0].0, answers[0].1);
      var (t1, next) := AnswerStep(t, answers[0].0, answers[0].1);
      if next == AskNext {
        PlayJudged(t1, answers[1..]);
      }
    }
  }

  /** Pairing takes the tally to `NextTally`'s, short of the advancer the verdict will add. */
  lemma PairingTally(t: TState, swaps: seq<(nat, nat)>)
    requires Inv(t) && t.pending == AwaitNextPair
    ensures var (t1, o) := NextPairStep(t, swaps);
      && (o.Paired? <==> NextTally(TallyOf(t)).Some?)
      && (o.Paired? ==> NextTally(TallyOf(t)) == Some(TallyOf(t1).(advancing := TallyOf(t1).advancing + 1)))
  {
    NextPairOutcomes(t, swaps);
    if |t.roundPool| >= 2 {
      PoolPairTally(t, swaps);
    } else if t.roundPool == [] && |t.players| >= 2 {
      RefillPairTally(t, swaps);
    }
  }

  lemma PoolPairTally(t: TState, swaps: seq<(nat, nat)>)
    requires Inv(t) && t.pending == AwaitNextPair && |t.roundPool| >= 2
    ensures var (t1, o) := NextPairStep(t, swaps);
      o.Paired? && NextTally(TallyOf(t)) == Some(TallyOf(t1).(advancing := TallyOf(t1).advancing + 1))
  {
    PairTakenFifo(t, swaps);
  }

  lemma RefillPairTally(t: TState, swaps: seq<(nat, nat)>)
    requires Inv(t) && t.pending == AwaitNextPair && t.roundPool == [] && |t.players| >= 2
    ensures var (t1, o) := NextPairStep(t, swaps);
      o.Paired? && NextTally(TallyOf(t)) == Some(TallyOf(t1).(advancing := TallyOf(t1).advancing + 1))
  {
    RefillFromAdvancing(t, swaps);
  }

  /** The verdict adds exactly the advancer to the tally. */
  lemma VerdictTally(t: TState, copy: Copy, coin: bool)
    requires Inv(t) && t.pending == AwaitVerdict
    ensures var t' := VerdictStep(t, copy, coin).0;
      TallyOf(t') == TallyOf(t).(advancing := TallyOf(t).advancing + 1) && Inv(t') && t'.pending == AwaitNextPair
  {
    VerdictRecords(t, copy, coin);
  }

  /**
   * Whatever the answers and coin flips, a played match moves the tally as `NextTally` says.
   * No match is played when `NextTally` has none, and one always is when it has one and six
   * answers are at hand, so with enough answers a match is played exactly when the tally allows it.
   */
  lemma MatchFollowsTally(t: TState, swaps: seq<(nat, nat)>, answers: seq<(Option<string>, string)>, copy: Copy, coin: bool)
    requires Inv(t) && t.pending == AwaitNextPair
    ensures var m := Match(t, swaps, answers, copy, coin);
      && (m.Some? ==> NextTally(TallyOf(t)) == Some(TallyOf(m.value)) && Inv(m.value) && m.value.pending == AwaitNextPair)
      && (NextTally(TallyOf(t)).None? ==> m.None?)
      && (NextTally(TallyOf(t)).Some? && |answers| >= 6 ==> m.Some?)
  {
    PairingTally(t, swaps);
    NextPairInv(t, swaps);
    NextPairOutcomes(t, swaps);
    var (t1, o) := NextPairStep(t, swaps);
    if o.Paired? {
      if |answers| >= 6 {
        AtMostSixAnswers(t1, answers);
      }
      PlayJudged(t1, answers);
      var (t2, _, judged) := Play(t1, answers);
      if judged {
        VerdictTally(t2, copy, coin);
      }
    }
  }

  /** The rounds of the matches played from a tally until no match can be played. */
  function Schedule(k: Tally): seq<int>
    decreases k.pool + k.advancing
  {
    match NextTally(k)
    case None => []
    case Some(k') => [k'.round] + Schedule(k')
  }

  /**
   * Eight players play four matches in round 1, two in round 2 (the semi-finals) and one in
   * round 3 (the final); after that the champion alone is left and no further match is played.
   */
  lemma EightPlayerSchedule()
    ensures Schedule(Tally(0, 8, 1, false)) == [1, 1, 1, 1, 2, 2, 3]
  {
    assert Schedule(Tally(0, 1, 3, true)) == [];
    assert Schedule(Tally(0, 2, 2, true)) == [3];
    assert Schedule(Tally(2, 1, 2, true)) == [2, 3];
    assert Schedule(Tally(0, 4, 1, true)) == [2, 2, 3];
    assert Schedule(Tally(2, 3, 1, true)) == [1, 2, 2, 3];
    assert Schedule(Tally(4, 2, 1, true)) == [1, 1, 2, 2, 3];
    assert Schedule(Tally(6, 1, 1, true)) == [1, 1, 1, 2, 2, 3];
  }

  /** The start sequence with eight players has the starting tally of `EightPlayerSchedule`. */
  lemma EightPlayerStart(initial: seq<Player>, swaps: seq<(nat, nat)>)
    requires |initial| == 8
    ensures TallyOf(Initial(initial, swaps)) == Tally(0, 8, 1, false)
  {
  }

  /** After the final the champion is the only advancing player, and the next `nextPair` is stuck with the champion dropped. */
  lemma ChampionDropped(t: TState, swaps: seq<(nat, nat)>)
    requires Inv(t) && t.pending == AwaitNextPair && t.roundPool == [] && |t.players| == 1
    ensures var (t', o) := NextPairStep(t, swaps);
      o == Stuck && t'.players == [] && t'.roundPool == []
  {
    NextPairOutcomes(t, swaps);
  }
}
