/**
 * The React-state copy of the knockout engine, frontend/src/StudentDashboard/Games/Knockout/backup.tsx.
 *
 * Each handler reads one render's state snapshot and requests state updates; nothing it reads
 * changes during the call. A handler is therefore a function from a `Snapshot` to the list of
 * `Update`s it requests (in order) and an outcome, and `Apply` performs the requests the way
 * React does once the handler returns: plain values replace the field, functional updaters
 * (`prev => ...`) are applied to the value left by the earlier requests.
 */
module KnockoutBackup {
  import opened Wrappers
  import Shuffle
  import opened KnockoutEngine

  /** The `useState` values the engine reads. Scores are keyed by `_id` (the Player's `id`). */
  datatype Snapshot = Snapshot(
    players: seq<Player>, roundPool: seq<Player>, winners: seq<Player>, currentPair: seq<Player>,
    scores: map<string, int>, eliminated: map<string, int>,
    round: int, questionIndex: int, turn: int, shown: Shown)

  /** One requested state update. */
  datatype Update =
    | SetPlayers(ps: seq<Player>)
    | AppendPlayer(p: Player)              // setPlayers(prev => [...prev, p])
    | SetRoundPool(pool: seq<Player>)
    | DropFrontTwo                         // setRoundPool(prev => prev.slice(2))
    | IncRound                             // setCurrentRound(prev => prev + 1)
    | SetPair(pair: seq<Player>)
    | SetScores(m: map<string, int>)
    | AddPoint(id: string)                 // setScores(prev => ({...prev, [id]: (prev[id] || 0) + 1}))
    | SetQuestionIndex(n: int)
    | IncQuestionIndex                     // setCurrentQuestionIndex(prev => prev + 1)
    | SetTurn(n: int)
    | SetWinners(ws: seq<Player>)
    | CountElimination(name: string)       // setEliminated(prev => ({...prev, [name]: (prev[name] || 0) + 1}))
    | MarkShown(stage: Stage)              // setShownStages(prev => ({...prev, [stage]: true}))

  function ApplyOne(s: Snapshot, u: Update): Snapshot
  {
    match u
    case SetPlayers(ps) => s.(players := ps)
    case AppendPlayer(p) => s.(players := s.players + [p])
    case SetRoundPool(pool) => s.(roundPool := pool)
    case DropFrontTwo => s.(roundPool := if |s.roundPool| >= 2 then s.roundPool[2..] else [])
    case IncRound => s.(round := s.round + 1)
    case SetPair(pair) => s.(currentPair := pair)
    case SetScores(m) => s.(scores := m)
    case AddPoint(id) => s.(scores := s.scores[id := Get(s.scores, id) + 1])
    case SetQuestionIndex(n) => s.(questionIndex := n)
    case IncQuestionIndex => s.(questionIndex := s.questionIndex + 1)
    case SetTurn(n) => s.(turn := n)
    case SetWinners(ws) => s.(winners := ws)
    case CountElimination(name) => s.(eliminated := s.eliminated[name := Get(s.eliminated, name) + 1])
    case MarkShown(stage) => s.(shown := Mark(s.shown, stage))
  }

  /** The state after React has processed the requested updates in order. */
  function Apply(s: Snapshot, us: seq<Update>): Snapshot
    decreases |us|
  {
    if us == [] then s else Apply(ApplyOne(s, us[0]), us[1..])
  }

  /** Requests made one after the other are processed as one batch. */
  lemma {:induction false} ApplyConcat(s: Snapshot, a: seq<Update>, b: seq<Update>)
    ensures Apply(s, a + b) == Apply(Apply(s, a), b)
    decreases |a|
  {
    if a == [] {
      assert a + b == b;
    } else {
      assert (a + b)[0] == a[0];
      assert (a + b)[1..] == a[1..] + b;
      ApplyConcat(ApplyOne(s, a[0]), a[1..], b);
    }
  }

  lemma ApplyCons(s: Snapshot, u: Update, rest: seq<Update>)
    ensures Apply(s, [u] + rest) == Apply(ApplyOne(s, u), rest)
  {
    assert ([u] + rest)[0] == u;
    assert ([u] + rest)[1..] == rest;
  }

  lemma ApplyOneUpdate(s: Snapshot, u: Update)
    ensures Apply(s, [u]) == ApplyOne(s, u)
  {
    assert [u][1..] == [];
  }

  // ---------------------------------------------------------------------------------------
  // `shuffle` and `renderStageIntro`
  // ---------------------------------------------------------------------------------------

  /**
   * `shuffle(arr)` returns a rearranged copy and leaves the argument as it was. This is the
   * contract of `Shuffle.Shuffle`, stated again for the `shuffle` of this file.
   */
  lemma ShuffleIsPermutedCopy(arr: seq<Player>, swaps: seq<(nat, nat)>)
    ensures |Shuffle.Shuffle(arr, swaps)| == |arr|
    ensures multiset(Shuffle.Shuffle(arr, swaps)) == multiset(arr)
  {
  }

  /** `renderStageIntro(round, callback)`: the flag is tested on the snapshot and set by a functional update. */
  function StageIntroRequest(round: int, shown: Shown): (r: (seq<Update>, Option<Intro>))
  {
    var (intro, _) := StageIntro(round, shown);
    (if intro.Some? then [MarkShown(intro.value.stage)] else [], intro)
  }

  /** Processing the request sets the same flags as the in-place copies do. */
  lemma StageIntroRequestAgrees(s: Snapshot)
    ensures var (us, intro) := StageIntroRequest(s.round, s.shown);
      intro == StageIntro(s.round, s.shown).0 &&
      Apply(s, us) == s.(shown := StageIntro(s.round, s.shown).1)
  {
    var (us, intro) := StageIntroRequest(s.round, s.shown);
    if intro.Some? {
      ApplyOneUpdate(s, MarkShown(intro.value.stage));
    }
  }

  // ---------------------------------------------------------------------------------------
  // `nextPair`
  // ---------------------------------------------------------------------------------------

  /**
   * How a call ends. `Diverges`: the call recurses on the very same snapshot, so it repeats the
   * same test for ever (until the JavaScript stack overflows).
   */
  datatype PairResult = ShowWinner(champion: Player) | NewPair(intro: Option<Intro>) | Diverges

  /** `nextPair()` on a snapshot: every test reads the snapshot, not the updates requested earlier in the call. */
  function NextPair(s: Snapshot, swaps: seq<(nat, nat)>): (r: (seq<Update>, PairResult))
  {
    if |s.winners| == 1 && s.roundPool == [] && s.players == [] then ([], ShowWinner(s.winners[0]))
    else
      var refill :=
        if s.roundPool == [] then
          [SetPlayers([]), SetRoundPool(Shuffle.Shuffle(s.players, swaps))] +
          (if s.round > 1 || s.shown.round1 then [IncRound] else [])
        else [];
      var bye := if |s.roundPool| == 1 then [AppendPlayer(s.roundPool[0]), SetRoundPool([])] else [];
      if |s.roundPool| < 2 then
        if s.players == [] && |s.winners| == 1 then (refill + bye, ShowWinner(s.winners[0]))
        else (refill + bye + [SetPlayers(s.winners), SetWinners([])], Diverges)
      else
        var p0, p1 := s.roundPool[0], s.roundPool[1];
        var (introUpdates, intro) := StageIntroRequest(s.round, s.shown);
        (PairRequests(p0, p1) + introUpdates, NewPair(intro))
  }

  /** The requests that set up a new pair. */
  function PairRequests(p0: Player, p1: Player): seq<Update>
  {
    [SetPair([p0, p1]), SetScores(map[p0.id := 0][p1.id := 0]), SetQuestionIndex(0), SetTurn(0), DropFrontTwo]
  }

  lemma {:induction false} PairRequestsApplied(s: Snapshot, p0: Player, p1: Player)
    requires |s.roundPool| >= 2
    ensures Apply(s, PairRequests(p0, p1)) ==
      s.(currentPair := [p0, p1], scores := map[p0.id := 0][p1.id := 0], questionIndex := 0,
         turn := 0, roundPool := s.roundPool[2..])
  {
    var first := PairRequests(p0, p1);
    var a := s.(currentPair := [p0, p1]);
    var b := a.(scores := map[p0.id := 0][p1.id := 0]);
    var c := b.(questionIndex := 0);
    var d := c.(turn := 0);
    assert first == [SetPair([p0, p1])] + first[1..];
    assert first[1..] == [SetScores(map[p0.id := 0][p1.id := 0])] + first[2..];
    assert first[2..] == [SetQuestionIndex(0)] + first[3..];
    assert first[3..] == [SetTurn(0)] + first[4..];
    assert first[4..] == [DropFrontTwo];
    ApplyCons(s, SetPair([p0, p1]), first[1..]);
    ApplyCons(a, SetScores(map[p0.id := 0][p1.id := 0]), first[2..]);
    ApplyCons(b, SetQuestionIndex(0), first[3..]);
    ApplyCons(c, SetTurn(0), first[4..]);
    ApplyOneUpdate(d, DropFrontTwo);
  }

  /**
   * A refill is not visible within the same call: with an empty snapshot pool the call requests
   * the refill (so the pool would hold every advancing player) and then, reading the old empty
   * pool, recurses on the same snapshot instead of pairing.
   */
  lemma {:induction false} RefillNotSeen(s: Snapshot, swaps: seq<(nat, nat)>)
    requires s.winners == [] && s.roundPool == [] && |s.players| >= 2
    ensures var (us, o) := NextPair(s, swaps);
      o == Diverges &&
      |us| >= 2 && Apply(s, us[..2]).roundPool == Shuffle.Shuffle(s.players, swaps) &&
      |Apply(s, us[..2]).roundPool| >= 2
  {
    var (us, o) := NextPair(s, swaps);
    var pool := Shuffle.Shuffle(s.players, swaps);
    assert us[..2] == [SetPlayers([])] + [SetRoundPool(pool)];
    ApplyConcat(s, [SetPlayers([])], [SetRoundPool(pool)]);
    ApplyOneUpdate(s, SetPlayers([]));
    ApplyOneUpdate(s.(players := []), SetRoundPool(pool));
  }

  /** With `winners` empty, a snapshot pool of fewer than two players always diverges. */
  lemma ShortPoolDiverges(s: Snapshot, swaps: seq<(nat, nat)>)
    requires s.winners == [] && |s.roundPool| < 2
    ensures NextPair(s, swaps).1 == Diverges
  {
  }

  /**
   * The start effect: once loading is over and there are players and questions, it requests the
   * shuffled players and an empty `winners`, then calls `nextPair` on the snapshot it was given.
   */
  function StartEffect(s: Snapshot, loading: bool, questionCount: nat, swaps: seq<(nat, nat)>, swaps': seq<(nat, nat)>)
    : (r: Option<(seq<Update>, PairResult)>)
  {
    if !loading && |s.players| > 0 && questionCount > 0 then
      var (us, o) := NextPair(s, swaps');
      Some(([SetPlayers(Shuffle.Shuffle(s.players, swaps)), SetWinners([])] + us, o))
    else None
  }

  /** The tournament never gets to its first pair: the start snapshot has an empty pool, so its `nextPair` call diverges. */
  lemma FirstCallDiverges(s: Snapshot, questionCount: nat, swaps: seq<(nat, nat)>, swaps': seq<(nat, nat)>)
    requires s.roundPool == [] && s.winners == [] && |s.players| > 0 && questionCount > 0
    ensures StartEffect(s, false, questionCount, swaps, swaps').Some?
    ensures StartEffect(s, false, questionCount, swaps, swaps').value.1 == Diverges
  {
  }

  /**
   * With at least two snapshot pool players, the new pair is the two front ones, the score map
   * is replaced by one holding just the pair's ids at 0, the question index and turn are 0, and
   * the pool loses its first two entries. The winner test cannot fire, as it needs an empty pool.
   */
  lemma {:induction false} NewPairRequests(s: Snapshot, swaps: seq<(nat, nat)>)
    requires |s.roundPool| >= 2
    ensures var (us, o) := NextPair(s, swaps);
      var s' := Apply(s, us);
      var p0, p1 := s.roundPool[0], s.roundPool[1];
      && o == NewPair(StageIntro(s.round, s.shown).0)
      && s'.currentPair == [p0, p1]
      && s'.scores == map[p0.id := 0][p1.id := 0]
      && s'.roundPool == s.roundPool[2..]
      && s'.questionIndex == 0 && s'.turn == 0
      && s'.players == s.players && s'.round == s.round && s'.eliminated == s.eliminated
      && s'.shown == StageIntro(s.round, s.shown).1
  {
    var p0, p1 := s.roundPool[0], s.roundPool[1];
    var (introUpdates, intro) := StageIntroRequest(s.round, s.shown);
    ApplyConcat(s, PairRequests(p0, p1), introUpdates);
    PairRequestsApplied(s, p0, p1);
    var s1 := Apply(s, PairRequests(p0, p1));
    StageIntroRequestAgrees(s1);
  }

  // ---------------------------------------------------------------------------------------
  // `handleAnswer` together with its 1.5 s settle callback
  // ---------------------------------------------------------------------------------------

  /** What the answer leads to; `NoPlayer` when the snapshot has no current player for the turn. */
  datatype AnswerResult = NextQuestion | ToVerdict | NoPlayer

  function HandleAnswer(s: Snapshot, answer: Option<string>, correct: string): (r: (seq<Update>, AnswerResult))
  {
    if !(0 <= s.turn < |s.currentPair|) then ([], NoPlayer)
    else
      var id := s.currentPair[s.turn].id;
      var isCorrect := answer == Some(correct);
      var point := if isCorrect then [AddPoint(id)] else [];
      if Get(s.scores, id) + (if isCorrect then 1 else 0) == 2 then (point, ToVerdict)
      else
        var nextTurn := (s.turn + 1) % 2;
        (point + [SetTurn(nextTurn)] + (if nextTurn == 0 then [IncQuestionIndex] else []),
         if s.questionIndex < 2 then NextQuestion else ToVerdict)
  }

  /**
   * The match-over test counts the point being requested: it fires exactly when the snapshot
   * score plus the new point is 2, and the processed score is then that sum.
   */
  lemma {:induction false} AnswerThreshold(s: Snapshot, answer: Option<string>, correct: string)
    requires 0 <= s.turn < |s.currentPair|
    ensures var (us, o) := HandleAnswer(s, answer, correct);
      var id := s.currentPair[s.turn].id;
      var total := Get(s.scores, id) + (if answer == Some(correct) then 1 else 0);
      && Get(Apply(s, us).scores, id) == total
      && (forall k :: k != id ==> Get(Apply(s, us).scores, k) == Get(s.scores, k))
      && (total == 2 ==> o == ToVerdict && Apply(s, us).turn == s.turn)
  {
    var (us, o) := HandleAnswer(s, answer, correct);
    var id := s.currentPair[s.turn].id;
    var point := if answer == Some(correct) then [AddPoint(id)] else [];
    var s1 := Apply(s, point);
    if answer == Some(correct) { ApplyOneUpdate(s, AddPoint(id)); }
    assert Get(s1.scores, id) == Get(s.scores, id) + (if answer == Some(correct) then 1 else 0);
    if us != point {
      var nextTurn := (s.turn + 1) % 2;
      var rest := [SetTurn(nextTurn)] + (if nextTurn == 0 then [IncQuestionIndex] else []);
      assert us == point + rest;
      ApplyConcat(s, point, rest);
      ApplyConcat(s1, [SetTurn(nextTurn)], if nextTurn == 0 then [IncQuestionIndex] else []);
      ApplyOneUpdate(s1, SetTurn(nextTurn));
      if nextTurn == 0 { ApplyOneUpdate(s1.(turn := nextTurn), IncQuestionIndex); }
    }
  }

  /**
   * Otherwise the turn toggles, the question index goes up when the turn comes back to the
   * first player, and the next question is asked only while the SNAPSHOT index is below 2.
   */
  lemma {:induction false} AnswerQuestionCap(s: Snapshot, answer: Option<string>, correct: string)
    requires 0 <= s.turn <= 1 && |s.currentPair| == 2
    requires Get(s.scores, s.currentPair[s.turn].id) + (if answer == Some(correct) then 1 else 0) != 2
    ensures var (us, o) := HandleAnswer(s, answer, correct);
      && Apply(s, us).turn == 1 - s.turn
      && Apply(s, us).questionIndex == s.questionIndex + (if s.turn == 1 then 1 else 0)
      && (o == NextQuestion <==> s.questionIndex < 2)
      && o != NoPlayer
  {
    var (us, o) := HandleAnswer(s, answer, correct);
    var id := s.currentPair[s.turn].id;
    var point := if answer == Some(correct) then [AddPoint(id)] else [];
    var nextTurn := (s.turn + 1) % 2;
    var inc := if nextTurn == 0 then [IncQuestionIndex] else [];
    assert us == point + ([SetTurn(nextTurn)] + inc);
    ApplyConcat(s, point, [SetTurn(nextTurn)] + inc);
    var s1 := Apply(s, point);
    if answer == Some(correct) { ApplyOneUpdate(s, AddPoint(id)); }
    assert s1.turn == s.turn && s1.questionIndex == s.questionIndex;
    ApplyConcat(s1, [SetTurn(nextTurn)], inc);
    ApplyOneUpdate(s1, SetTurn(nextTurn));
    if nextTurn == 0 { ApplyOneUpdate(s1.(turn := nextTurn), IncQuestionIndex); }
  }

  /**
   * Because the cap reads the snapshot index, the third question is only put to the first
   * player: where main.js would still ask the second player, this copy judges the pair.
   */
  lemma ThirdQuestionCutShort(s: Snapshot, t: TState, answer: Option<string>, correct: string)
    requires s.questionIndex == 2 && s.turn == 0 && |s.currentPair| == 2
    requires Get(s.scores, s.currentPair[0].id) + (if answer == Some(correct) then 1 else 0) != 2
    requires Inv(t) && t.pending == AwaitAnswer && t.questionIndex == 2 && t.turn == 0
    requires t.currentPair == s.currentPair && t.scores[t.currentPair[0].id] == Get(s.scores, s.currentPair[0].id)
    ensures HandleAnswer(s, answer, correct).1 == ToVerdict
    ensures AnswerStep(t, answer, correct).1 == AskNext
  {
  }

  // ---------------------------------------------------------------------------------------
  // `evaluatePair`
  // ---------------------------------------------------------------------------------------

  /** The result screen, or `NoPair` when the snapshot has no pair to destructure. */
  datatype VerdictResult = Judged(verdict: Verdict) | NoPair

  function EvaluatePair(s: Snapshot, coin: bool): (r: (seq<Update>, VerdictResult))
  {
    if |s.currentPair| < 2 then ([], NoPair)
    else
      var p1, p2 := s.currentPair[0], s.currentPair[1];
      var adv := VerdictPlayGround(Get(s.scores, p1.id), Get(s.scores, p2.id), coin);
      var winner, loser := s.currentPair[adv], s.currentPair[1 - adv];
      ([AppendPlayer(winner), CountElimination(loser.name)], Judged(Verdict(winner, loser, s.round >= 3)))
  }

  /**
   * The verdict follows the three-branch rule on the snapshot scores (missing scores read as 0),
   * the loser is the other pair member, the advancer is appended to `players` and the loser's
   * count goes up by exactly 1; nothing else changes.
   */
  lemma {:induction false} VerdictRequests(s: Snapshot, coin: bool)
    requires |s.currentPair| >= 2
    ensures var (us, o) := EvaluatePair(s, coin);
      var s1, s2 := Get(s.scores, s.currentPair[0].id), Get(s.scores, s.currentPair[1].id);
      var v := o.verdict;
      && o.Judged?
      && (s1 <= 1 && s2 <= 1 ==> v.advancing == (if coin then s.currentPair[0] else s.currentPair[1]))
      && (s1 <= 1 && s2 > 1 ==> v.advancing == s.currentPair[1])
      && (s1 > 1 ==> v.advancing == s.currentPair[0])
      && ((v.advancing, v.eliminated) == (s.currentPair[0], s.currentPair[1]) ||
          (v.advancing, v.eliminated) == (s.currentPair[1], s.currentPair[0]))
      && Apply(s, us) == s.(players := s.players + [v.advancing],
                           eliminated := s.eliminated[v.eliminated.name := Get(s.eliminated, v.eliminated.name) + 1])
  {
    var (us, o) := EvaluatePair(s, coin);
    var v := o.verdict;
    ApplyConcat(s, [AppendPlayer(v.advancing)], [CountElimination(v.eliminated.name)]);
    ApplyOneUpdate(s, AppendPlayer(v.advancing));
    ApplyOneUpdate(s.(players := s.players + [v.advancing]), CountElimination(v.eliminated.name));
  }

  /**
   * The settle callback judges the pair with the `evaluatePair` of the render that handled the
   * answer, so it reads the snapshot scores without the winning point. A player whose correct
   * answer makes 2, against an opponent at most at 1, is judged at 1 against at most 1, and the
   * coin alone decides: with the coin against them, the player who reached 2 is eliminated.
   */
  lemma StaleScoresLeaveItToTheCoin(s: Snapshot, correct: string, coin: bool)
    requires 0 <= s.turn <= 1 && |s.currentPair| == 2
    requires Get(s.scores, s.currentPair[s.turn].id) == 1
    requires Get(s.scores, s.currentPair[1 - s.turn].id) <= 1
    ensures var (us, o) := HandleAnswer(s, Some(correct), correct);
      && o == ToVerdict
      && Get(Apply(s, us).scores, s.currentPair[s.turn].id) == 2
    ensures var v := EvaluatePair(s, coin).1.verdict;
      && EvaluatePair(s, coin).1.Judged?
      && v.advancing == (if coin then s.currentPair[0] else s.currentPair[1])
  {
    AnswerThreshold(s, Some(correct), correct);
  }
}
