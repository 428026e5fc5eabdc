/**
 * The counting-sticks lesson of frontend/src/GameRoom/Dashboard/HandsOnLearning/CanvasInterface.tsx.
 * Sticks dropped on the canvas are single sticks worth 1 or bundles worth 10; when the total
 * equals the current target the lesson moves to the next of five targets, or shows the summary
 * after the last. The component's state is the class `SticksLesson`; the effect that watches the
 * canvas and its 1.5 s timer are one sequential step, `Progress`, run after every drop.
 */
module CanvasInterface {
  datatype StickKind = Single | Bundle

  datatype Stick = Stick(id: int, kind: StickKind)

  /** The targets of the five questions. */
  const Questions: seq<nat> := [17, 23, 8, 34, 45]

  function Worth(k: StickKind): nat
  {
    if k == Bundle then 10 else 1
  }

  /** `countTotal()`: the sum of the sticks' worths, folded from the left. */
  function CountTotal(s: seq<Stick>): nat
    decreases |s|
  {
    if s == [] then 0 else CountTotal(s[..|s| - 1]) + Worth(s[|s| - 1].kind)
  }

  function CountKind(s: seq<Stick>, k: StickKind): nat
    decreases |s|
  {
    if s == [] then 0 else CountKind(s[..|s| - 1], k) + (if s[|s| - 1].kind == k then 1 else 0)
  }

  /** The total is the number of single sticks plus ten times the number of bundles. */
  lemma {:induction false} TotalBySort(s: seq<Stick>)
    ensures CountTotal(s) == CountKind(s, Single) + 10 * CountKind(s, Bundle)
    decreases |s|
  {
    if s != [] {
      TotalBySort(s[..|s| - 1]);
    }
  }

  /** Each drop raises the total by exactly 1 or 10. */
  lemma DropRaisesTotal(s: seq<Stick>, x: Stick)
    ensures CountTotal(s + [x]) == CountTotal(s) + Worth(x.kind)
    ensures CountTotal(s + [x]) - CountTotal(s) in {1, 10}
  {
    assert (s + [x])[..|s|] == s;
  }

  /** Appending never lowers the total, so a canvas over its target stays over it. */
  lemma {:induction false} TotalMonotone(s: seq<Stick>, more: seq<Stick>)
    ensures CountTotal(s + more) >= CountTotal(s) + |more|
    decreases |more|
  {
    if more != [] {
      var init := more[..|more| - 1];
      TotalMonotone(s, init);
      assert s + more == (s + init) + [more[|more| - 1]];
      DropRaisesTotal(s + init, more[|more| - 1]);
    } else {
      assert s + more == s;
    }
  }

  /** The ids on the canvas are distinct and below `nextId`. */
  predicate IdsFresh(s: seq<Stick>, nextId: int)
  {
    && (forall k :: 0 <= k < |s| ==> s[k].id < nextId)
    && (forall i, j :: 0 <= i < j < |s| ==> s[i].id != s[j].id)
  }

  class SticksLesson {
    var canvasSticks: seq<Stick>
    var nextId: int
    var currentQuestionIndex: int
    var isCorrect: bool
    var showSummary: bool

    ghost predicate Valid()
      reads this
    {
      0 <= currentQuestionIndex < |Questions| && IdsFresh(canvasSticks, nextId)
    }

    function Target(): nat
      reads this
      requires 0 <= currentQuestionIndex < |Questions|
    {
      Questions[currentQuestionIndex]
    }

    constructor ()
      ensures Valid()
      ensures canvasSticks == [] && nextId == 1 && currentQuestionIndex == 0
      ensures !isCorrect && !showSummary
    {
      canvasSticks := [];
      nextId := 1;
      currentQuestionIndex := 0;
      isCorrect := false;
      showSummary := false;
    }

    /** `addStickToCanvas(stick)`: the dropped kind is appended with id `nextId`, which then moves on. */
    method AddStick(kind: StickKind)
      modifies this
      ensures canvasSticks == old(canvasSticks) + [Stick(old(nextId), kind)]
      ensures nextId == old(nextId) + 1
      ensures CountTotal(canvasSticks) == CountTotal(old(canvasSticks)) + Worth(kind)
      ensures currentQuestionIndex == old(currentQuestionIndex)
      ensures isCorrect == old(isCorrect) && showSummary == old(showSummary)
      ensures old(Valid()) ==> Valid()
    {
      DropRaisesTotal(canvasSticks, Stick(nextId, kind));
      canvasSticks := canvasSticks + [Stick(nextId, kind)];
      nextId := nextId + 1;
    }

    /**
     * The effect on `canvasSticks` followed by its timer: a total equal to the target either
     * moves to the next question with an empty canvas, or, on the last question, shows the summary.
     */
    method Progress()
      requires Valid()
      modifies this
      ensures Valid()
      ensures nextId == old(nextId)
      ensures old(CountTotal(canvasSticks)) != old(Target()) ==>
        canvasSticks == old(canvasSticks) && currentQuestionIndex == old(currentQuestionIndex) &&
        isCorrect == old(isCorrect) && showSummary == old(showSummary)
      ensures old(CountTotal(canvasSticks)) == old(Target()) && old(currentQuestionIndex) + 1 < |Questions| ==>
        currentQuestionIndex == old(currentQuestionIndex) + 1 && canvasSticks == [] &&
        !isCorrect && showSummary == old(showSummary)
      ensures old(CountTotal(canvasSticks)) == old(Target()) && old(currentQuestionIndex) + 1 == |Questions| ==>
        currentQuestionIndex == old(currentQuestionIndex) && canvasSticks == old(canvasSticks) &&
        isCorrect && showSummary
    {
      var total := CountTotal(canvasSticks);
      if total == Questions[currentQuestionIndex] {
        isCorrect := true;
        if currentQuestionIndex + 1 < |Questions| {
          currentQuestionIndex := currentQuestionIndex + 1;
          canvasSticks := [];
          isCorrect := false;
        } else {
          showSummary := true;
        }
      }
    }

    /** One drop followed by the effect it triggers. */
    method Drop(kind: StickKind)
      requires Valid()
      modifies this
      ensures Valid()
      ensures old(currentQuestionIndex) <= currentQuestionIndex <= old(currentQuestionIndex) + 1
      ensures showSummary ==> old(showSummary) || old(currentQuestionIndex) == |Questions| - 1
    {
      AddStick(kind);
      Progress();
    }
  }
}
