/**
 * The answer gating of frontend/src/GameParts/QuestionCard.tsx: when the card shows only the
 * waiting message, when the options are shown, when they can be clicked, and the
 * `selectedAnswer` latch that forwards only the first click to `handleAnswer`.
 */
module QuestionCard {
  import opened Wrappers

  datatype Question = Question(question: string, options: seq<string>, correctAnswer: string)

  /** A pair member as the card reads it: `name` and `id`, either possibly missing. */
  datatype Member = Member(name: Option<string>, id: Option<string>)

  /** `currentPair[k]?.id`: missing when there is no k-th member or it has no id. */
  function IdOf(pair: seq<Member>, k: nat): Option<string>
  {
    if k < |pair| then pair[k].id else None
  }

  /** `allowedPlayerIds.includes(x)`; the list holds strings only, so a missing id is never included. */
  predicate Includes(allowed: seq<string>, x: Option<string>)
  {
    x.Some? && x.value in allowed
  }

  /** `currentPair.length === 2 && currentPair[0]?.name && currentPair[1]?.name`. */
  predicate BothPlayersReady(pair: seq<Member>)
  {
    |pair| == 2 && Truthy(pair[0].name) && Truthy(pair[1].name)
  }

  /** `canAnswer`: `isCurrentUserInPair` is exactly `true`, not answered, and a pair member is allowed. */
  predicate CanAnswer(inPair: Option<bool>, answered: bool, pair: seq<Member>, allowed: seq<string>)
  {
    inPair == Some(true) && !answered && (Includes(allowed, IdOf(pair, 0)) || Includes(allowed, IdOf(pair, 1)))
  }

  /** `canAnswer` needs all three conditions, and an allowed member with an id. */
  lemma CanAnswerIff(inPair: Option<bool>, answered: bool, pair: seq<Member>, allowed: seq<string>)
    ensures CanAnswer(inPair, answered, pair, allowed) <==>
      && inPair == Some(true)
      && !answered
      && exists k :: 0 <= k < |pair| && k < 2 && pair[k].id.Some? && pair[k].id.value in allowed
  {
    if CanAnswer(inPair, answered, pair, allowed) {
      if Includes(allowed, IdOf(pair, 0)) {
        assert pair[0].id.Some? && pair[0].id.value in allowed;
      } else {
        assert pair[1].id.Some? && pair[1].id.value in allowed;
      }
    }
  }

  /** What the card renders. */
  datatype View =
    | WaitingForQuestion
    | PreparingRound
    /** The option buttons, each enabled or not. */
    | Options(options: seq<string>, enabled: bool)

  function Render(q: Option<Question>, pair: seq<Member>, inPair: Option<bool>, answered: bool,
                  allowed: seq<string>, selected: Option<string>): (v: View)
  {
    if q.None? || q.value.question == "" then WaitingForQuestion
    else if !BothPlayersReady(pair) then PreparingRound
    else Options(q.value.options, CanAnswer(inPair, answered, pair, allowed) && selected.None?)
  }

  /**
   * No question, or an empty question text, renders only the waiting message; the options
   * appear only for two named players; and they are enabled only while the user may answer
   * and nothing is selected.
   */
  lemma RenderRules(q: Option<Question>, pair: seq<Member>, inPair: Option<bool>, answered: bool,
                    allowed: seq<string>, selected: Option<string>)
    ensures var v := Render(q, pair, inPair, answered, allowed, selected);
      && (v == WaitingForQuestion <==> q.None? || q.value.question == "")
      && (v.Options? <==> q.Some? && q.value.question != "" && BothPlayersReady(pair))
      && (v.Options? ==> v.options == q.value.options)
      && (v.Options? && v.enabled ==> CanAnswer(inPair, answered, pair, allowed) && selected == None)
      && (v.Options? && selected.Some? ==> !v.enabled)
  {
  }

  /** The card's own state: the selected answer and the answers it has passed to `handleAnswer`. */
  class Card {
    var selectedAnswer: Option<string>
    var forwarded: seq<string>

    constructor ()
      ensures selectedAnswer == None && forwarded == []
    {
      selectedAnswer := None;
      forwarded := [];
    }

    /**
     * `onAnswerClick(answer)`: ignored once a non-empty answer is selected; otherwise the
     * answer is selected and forwarded. An empty selection does not latch.
     */
    method OnAnswerClick(answer: string)
      modifies this
      ensures Truthy(old(selectedAnswer)) ==> selectedAnswer == old(selectedAnswer) && forwarded == old(forwarded)
      ensures !Truthy(old(selectedAnswer)) ==> selectedAnswer == Some(answer) && forwarded == old(forwarded) + [answer]
    {
      if Truthy(selectedAnswer) {
        return;
      }
      selectedAnswer := Some(answer);
      forwarded := forwarded + [answer];
    }
  }
}
