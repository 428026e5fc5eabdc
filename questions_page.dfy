/**
 * The timed quiz of frontend/src/StudentDashboard/Games/Knockout/QuestionsPage.tsx (its first
 * component). Questions are answered in order; a click on an option, or the 15 s timer running
 * out, calls `handleNext`, which counts a correct answer and moves to the next question or
 * shows the summary. The timers are sequential steps here: `OptionClick` is the click and its
 * 800 ms callback, `TimeOut` the countdown reaching zero and its 500 ms callback.
 */
module QuestionsPage {
  import opened Wrappers

  /** `selected && selected === answer`: an empty selection never counts. */
  predicate Counts(selected: Option<string>, answer: string)
  {
    Truthy(selected) && selected.value == answer
  }

  /** The number of picks that count against the answers at the same position. */
  function Score(answers: seq<string>, picks: seq<Option<string>>): (n: nat)
    requires |answers| == |picks|
    ensures n <= |picks|
    decreases |picks|
  {
    if picks == [] then 0
    else Score(answers[..|answers| - 1], picks[..|picks| - 1]) + (if Counts(picks[|picks| - 1], answers[|answers| - 1]) then 1 else 0)
  }

  /** A timeout never counts, so a quiz left to time out entirely scores 0. */
  lemma {:induction false} TimeoutsScoreNothing(answers: seq<string>, picks: seq<Option<string>>)
    requires |answers| == |picks| && forall k :: 0 <= k < |picks| ==> picks[k] == None
    ensures Score(answers, picks) == 0
    decreases |picks|
  {
    if picks != [] {
      TimeoutsScoreNothing(answers[..|answers| - 1], picks[..|picks| - 1]);
    }
  }

  /** Picking every answer scores every question. */
  lemma {:induction false} AllCorrectScoresAll(answers: seq<string>, picks: seq<Option<string>>)
    requires |answers| == |picks|
    requires forall k :: 0 <= k < |picks| ==> picks[k] == Some(answers[k]) && answers[k] != ""
    ensures Score(answers, picks) == |answers|
    decreases |picks|
  {
    if picks != [] {
      AllCorrectScoresAll(answers[..|answers| - 1], picks[..|picks| - 1]);
    }
  }

  class Quiz {
    /** `questions[i].answer` for each fetched question. */
    var answers: seq<string>
    var currentIndex: int
    var correctCount: int
    var showSummary: bool
    var selectedOption: Option<string>
    /** The selections `handleNext` received before the summary was shown. */
    ghost var picks: seq<Option<string>>
    /** Every call of `handleNext`, including the countdown's calls after the summary. */
    ghost var answered: nat

    ghost predicate Valid()
      reads this
    {
      && 0 <= currentIndex < |answers|
      && |picks| == (if showSummary then |answers| else currentIndex)
      && (!showSummary ==> answered == currentIndex && correctCount == Score(answers[..currentIndex], picks))
      && (showSummary ==> currentIndex == |answers| - 1 && answered >= |answers|)
      && 0 <= correctCount <= answered
    }

    /** The state once at least one question has been fetched. */
    constructor (answers: seq<string>)
      requires |answers| > 0
      ensures Valid() && this.answers == answers
      ensures currentIndex == 0 && correctCount == 0 && !showSummary && selectedOption == None
    {
      this.answers := answers;
      currentIndex := 0;
      correctCount := 0;
      showSummary := false;
      selectedOption := None;
      picks := [];
      answered := 0;
    }

    /**
     * `handleNext(selected)`: the count goes up by one exactly when the selection counts; on
     * the last question the summary is shown, otherwise the index moves on by one and the
     * question effect clears the selection.
     */
    method HandleNext(selected: Option<string>)
      requires Valid()
      modifies this
      ensures Valid()
      ensures answers == old(answers) && answered == old(answered) + 1
      ensures correctCount == old(correctCount) + (if Counts(selected, answers[old(currentIndex)]) then 1 else 0)
      ensures old(currentIndex) + 1 >= |answers| ==> showSummary && currentIndex == old(currentIndex)
      ensures old(currentIndex) + 1 < |answers| ==>
        !showSummary && currentIndex == old(currentIndex) + 1 && selectedOption == None
      ensures !old(showSummary) ==> answered <= |answers| && picks == old(picks) + [selected]
      ensures !old(showSummary) && showSummary ==> correctCount == Score(answers, picks)
      ensures correctCount <= answered
    {
      var hit := Counts(selected, answers[currentIndex]);
      if hit {
        correctCount := correctCount + 1;
      }
      if !showSummary {
        ghost var i := currentIndex;
        picks := picks + [selected];
        assert answers[..i + 1][..i] == answers[..i] && picks[..i] == old(picks);
        assert Score(answers[..i + 1], picks) == old(correctCount) + (if hit then 1 else 0);
        if i + 1 == |answers| {
          assert answers[..i + 1] == answers;
        }
      }
      answered := answered + 1;
      if currentIndex + 1 >= |answers| {
        showSummary := true;
      } else {
        currentIndex := currentIndex + 1;
        selectedOption := None;
      }
    }

    /** `handleOptionClick(option)` and its delayed `handleNext(option)`. */
    method OptionClick(option: string)
      requires Valid()
      modifies this
      ensures Valid() && answers == old(answers)
      ensures correctCount == old(correctCount) + (if option != "" && option == answers[old(currentIndex)] then 1 else 0)
    {
      selectedOption := Some(option);
      HandleNext(Some(option));
    }

    /** The countdown reaching zero calls `handleNext(null)`, which never counts. */
    method TimeOut()
      requires Valid()
      modifies this
      ensures Valid()
      ensures correctCount == old(correctCount)
      ensures old(currentIndex) + 1 < |answers| ==> currentIndex == old(currentIndex) + 1
    {
      HandleNext(None);
    }
  }
}
