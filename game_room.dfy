/**
 * The knockout rounds of frontend/src/GameRoom.tsx as a player's page sees them: the question a
 * `knockout-round-started` event carries is normalised (`safeQuestion`), the user's membership
 * of the new pair is tested against the id stored when the page was mounted, and `handleAnswer`
 * sends at most one `player-answer` per round. Socket events are method calls; the message a
 * handler sends is its result.
 */
module GameRoom {
  import opened Wrappers

  /** The question fields as received; `options` is `None` when it is not an array. */
  datatype RawQuestion = RawQuestion(question: Option<string>, options: Option<seq<string>>, correctAnswer: Option<string>)

  datatype Question = Question(question: string, options: seq<string>, correctAnswer: string)

  const Placeholders: seq<string> := ["Option A", "Option B", "Option C", "Option D"]

  /** `safeQuestion`, built from `question?.…` with `||` defaults. */
  function SafeQuestion(q: Option<RawQuestion>): Question
  {
    var text := if q.Some? && Truthy(q.value.question) then q.value.question.value else "No question received";
    var options := if q.Some? && q.value.options.Some? && |q.value.options.value| > 0 then q.value.options.value else Placeholders;
    var correct := if q.Some? && Truthy(q.value.correctAnswer) then q.value.correctAnswer.value else "";
    Question(text, options, correct)
  }

  /**
   * The normalised question always has a non-empty text and non-empty options: a received
   * non-empty text and a non-empty options array are kept, anything else is replaced by the
   * default text or the four placeholders, and a missing answer becomes "".
   */
  lemma SafeQuestionDefaults(q: Option<RawQuestion>)
    ensures var s := SafeQuestion(q);
      && s.question != "" && |s.options| > 0
      && (q.Some? && Truthy(q.value.question) ==> s.question == q.value.question.value)
      && (!(q.Some? && Truthy(q.value.question)) ==> s.question == "No question received")
      && (q.Some? && q.value.options.Some? && |q.value.options.value| > 0 ==> s.options == q.value.options.value)
      && (!(q.Some? && q.value.options.Some? && |q.value.options.value| > 0) ==> s.options == Placeholders)
      && (q.Some? && Truthy(q.value.correctAnswer) ==> s.correctAnswer == q.value.correctAnswer.value)
      && (!(q.Some? && Truthy(q.value.correctAnswer)) ==> s.correctAnswer == "")
  {
  }

  /** A pair member as sent by the server; it may carry `_id`, `id`, or both. */
  datatype PairPlayer = PairPlayer(underscoreId: Option<string>, id: Option<string>, name: string)

  /** `players.some(p => p._id === storedId || p.id === storedId)`. */
  predicate InPair(players: seq<PairPlayer>, storedId: string)
    decreases |players|
  {
    players != [] &&
    (players[0].underscoreId == Some(storedId) || players[0].id == Some(storedId) || InPair(players[1..], storedId))
  }

  /** The user is in the pair iff some member's `_id` or `id` equals the stored id. */
  lemma {:induction false} InPairIff(players: seq<PairPlayer>, storedId: string)
    ensures InPair(players, storedId) <==>
      exists k :: 0 <= k < |players| && (players[k].underscoreId == Some(storedId) || players[k].id == Some(storedId))
    decreases |players|
  {
    if players != [] {
      InPairIff(players[1..], storedId);
      if exists k :: 0 <= k < |players[1..]| && (players[1..][k].underscoreId == Some(storedId) || players[1..][k].id == Some(storedId)) {
        var k :| 0 <= k < |players[1..]| && (players[1..][k].underscoreId == Some(storedId) || players[1..][k].id == Some(storedId));
        assert players[k + 1] == players[1..][k];
      }
      if exists k :: 0 <= k < |players| && (players[k].underscoreId == Some(storedId) || players[k].id == Some(storedId)) {
        var k :| 0 <= k < |players| && (players[k].underscoreId == Some(storedId) || players[k].id == Some(storedId));
        if k > 0 {
          assert players[1..][k - 1] == players[k];
        }
      }
    }
  }

  datatype Feedback = Correct | Wrong(correctAnswer: string)

  /** The `player-answer` message. */
  datatype AnswerMessage = AnswerMessage(code: string, playerId: string, answer: string)

  /** The page's round state. */
  class RoomPage {
    const code: string
    /** `localStorage.userId` as read when the page was mounted (the event handlers' `storedId`). */
    const storedId: Option<string>
    var userId: Option<string>
    var currentPair: seq<PairPlayer>
    var question: Option<Question>
    var allowedPlayerIds: seq<string>
    var answered: bool
    var answerFeedback: Option<Feedback>
    var isCurrentUserInPair: Option<bool>

    constructor (code: string, storedId: Option<string>)
      ensures this.code == code && this.storedId == storedId
      ensures userId == (if Truthy(storedId) then storedId else None)
      ensures question == None && !answered && answerFeedback == None && isCurrentUserInPair == None
    {
      this.code := code;
      this.storedId := storedId;
      userId := if Truthy(storedId) then storedId else None;
      currentPair := [];
      question := None;
      allowedPlayerIds := [];
      answered := false;
      answerFeedback := None;
      isCurrentUserInPair := None;
    }

    /** `joined-room`: the server's id for this player becomes `userId`. */
    method JoinedRoom(playerId: string)
      modifies this
      ensures userId == Some(playerId)
      ensures answered == old(answered) && question == old(question) && isCurrentUserInPair == old(isCurrentUserInPair)
    {
      userId := Some(playerId);
    }

    /**
     * `knockout-round-started`: a new pair and the normalised question; `answered` and the
     * feedback are reset; membership is recomputed only when an id was stored at mount time.
     */
    method RoundStarted(players: seq<PairPlayer>, raw: Option<RawQuestion>, allowed: seq<string>)
      modifies this
      ensures currentPair == players && question == Some(SafeQuestion(raw)) && allowedPlayerIds == allowed
      ensures !answered && answerFeedback == None
      ensures Truthy(storedId) ==> isCurrentUserInPair == Some(InPair(players, storedId.value))
      ensures !Truthy(storedId) ==> isCurrentUserInPair == old(isCurrentUserInPair)
      ensures userId == old(userId)
    {
      currentPair := players;
      question := Some(SafeQuestion(raw));
      answered := false;
      answerFeedback := None;
      allowedPlayerIds := allowed;
      if Truthy(storedId) {
        isCurrentUserInPair := Some(InPair(players, storedId.value));
      }
    }

    /**
     * `handleAnswer(selectedOption)`: only while unanswered, with a user id and a question,
     * the answer is sent and `answered` is set; otherwise nothing is sent and nothing changes.
     */
    method HandleAnswer(selectedOption: string) returns (sent: Option<AnswerMessage>)
      modifies this
      ensures sent.Some? <==> !old(answered) && Truthy(userId) && question.Some?
      ensures sent.Some? ==> sent.value == AnswerMessage(code, userId.value, selectedOption)
      ensures answered == (old(answered) || sent.Some?)
      ensures userId == old(userId) && question == old(question) && currentPair == old(currentPair)
      ensures answerFeedback == old(answerFeedback) && isCurrentUserInPair == old(isCurrentUserInPair)
    {
      if !answered && Truthy(userId) && question.Some? {
        answered := true;
        sent := Some(AnswerMessage(code, userId.value, selectedOption));
      } else {
        sent := None;
      }
    }

    /** Two answers in a round send at most one message: the second call finds `answered` set. */
    method AnswerTwice(first: string, second: string) returns (a: Option<AnswerMessage>, b: Option<AnswerMessage>)
      modifies this
      ensures b.None?
      ensures a.Some? <==> !old(answered) && Truthy(old(userId)) && old(question).Some?
    {
      a := HandleAnswer(first);
      b := HandleAnswer(second);
    }

    /** `answer-result`: the round is marked answered and the feedback is shown. */
    method AnswerResult(correct: bool, correctAnswer: string)
      modifies this
      ensures answered && answerFeedback == Some(if correct then Correct else Wrong(correctAnswer))
      ensures userId == old(userId) && question == old(question) && currentPair == old(currentPair)
    {
      answered := true;
      answerFeedback := Some(if correct then Correct else Wrong(correctAnswer));
    }
  }
}
