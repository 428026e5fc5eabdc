/**
 * The order-of-operations puzzle of
 * frontend/src/StudentDashboard/HandsOnLearning/Lessons/CombinedOperations.tsx. Each level is
 * a row of tokens with empty slots; symbols are dropped into the slots and "Check Answer"
 * compares the expression's value with the level's target. The evaluator (`eval` on the joined
 * tokens, rounded to two decimals) is a parameter, `Evaluator`, with no properties assumed.
 * The component's state is the class `OperationsLesson`, whose handlers are proved to move it
 * as the step functions `Drop` and `Check` move a `Board`.
 */
module CombinedOperations {
  import opened Wrappers

  /** The six symbols, spelled as the source file stores them: its multiplication and division
   * signs were saved as two characters each (U+00C3 U+2014 and U+00C3 U+00B7). */
  datatype Symbol = Plus | Minus | Times | Divide | Open | Close

  function Text(s: Symbol): string
  {
    match s
    case Plus => "+"
    case Minus => "-"
    case Times => "\U{C3}\U{2014}"
    case Divide => "\U{C3}\U{B7}"
    case Open => "("
    case Close => ")"
  }

  /** `availableSymbols`, as strings. */
  const Symbols: seq<string> := [Text(Plus), Text(Minus), Text(Times), Text(Divide), Text(Open), Text(Close)]

  datatype Level = Level(expression: seq<string>, target: int)

  /** The `levels` table. */
  const Levels: seq<Level> := [
    Level(["3", "", "4", "", "2"], 14),
    Level(["8", "", "3", "", "1"], 5),
    Level(["(", "6", "", "2", ")", "", "3"], 24),
    Level(["10", "", "2", "", "3"], 24),
    Level(["12", Text(Divide), "(", "2", "", "4", ")"], 2)
  ]

  /** A token is rendered as a drop slot iff it is empty or one of the available symbols. */
  predicate Droppable(token: string)
  {
    token == "" || token in Symbols
  }

  /** Exactly the empty token and the six symbols are droppable: numbers are fixed. */
  lemma DroppableExactly(token: string)
    ensures Droppable(token) <==> token == "" || exists s: Symbol :: token == Text(s)
  {
    if token in Symbols {
      var i :| 0 <= i < |Symbols| && Symbols[i] == token;
      var s := [Plus, Minus, Times, Divide, Open, Close][i];
      assert token == Text(s);
    }
  }

  /** Every level has an empty slot, number tokens are fixed, and level 5's printed division sign is itself a slot. */
  lemma LevelsHaveSlots()
    ensures forall k :: 0 <= k < |Levels| ==> exists j :: 0 <= j < |Levels[k].expression| && Levels[k].expression[j] == ""
    ensures !Droppable("12") && !Droppable("10") && Droppable(Levels[4].expression[1])
  {
    assert Levels[0].expression[1] == "";
    assert Levels[1].expression[1] == "";
    assert Levels[2].expression[2] == "";
    assert Levels[3].expression[1] == "";
    assert Levels[4].expression[4] == "";
    assert "12" != "" && "12" !in Symbols;
  }

  datatype Feedback = Cleared | MovingOn | AllDone | TryAgain

  /** The component's state: `level`, `expression` and `feedback`. */
  datatype Board = Board(level: int, expression: seq<string>, feedback: Feedback)

  /** The evaluator: the rounded value of the joined tokens, or `None` for `null` (a syntax error). */
  type Evaluator = seq<string> -> Option<real>

  function Start(): (b: Board)
    ensures b.level == 0 && b.expression == Levels[0].expression
  {
    Board(0, Levels[0].expression, Cleared)
  }

  /**
   * The state a reachable board keeps: the level is a valid index, and the expression differs
   * from the level's template only in droppable slots, holding a droppable token there.
   */
  predicate Inv(b: Board)
  {
    && 0 <= b.level < |Levels|
    && |b.expression| == |Levels[b.level].expression|
    && forall j :: 0 <= j < |b.expression| ==>
         if Droppable(Levels[b.level].expression[j]) then Droppable(b.expression[j])
         else b.expression[j] == Levels[b.level].expression[j]
  }

  /** `handleDrop(index, symbol)`: one slot gets the symbol, the feedback is cleared. */
  function Drop(b: Board, index: int, s: Symbol): (r: Board)
    requires 0 <= index < |b.expression|
    ensures |r.expression| == |b.expression| && r.expression[index] == Text(s)
    ensures forall j :: 0 <= j < |b.expression| && j != index ==> r.expression[j] == b.expression[j]
    ensures r.level == b.level && r.feedback == Cleared
  {
    b.(expression := b.expression[index := Text(s)], feedback := Cleared)
  }

  /** Drops land only on slots (the only places that accept them), so the fixed tokens stay put. */
  lemma DropKeepsInv(b: Board, index: int, s: Symbol)
    requires Inv(b) && 0 <= index < |b.expression| && Droppable(b.expression[index])
    ensures Inv(Drop(b, index, s))
  {
    var r := Drop(b, index, s);
    assert Text(s) in Symbols;
    forall j | 0 <= j < |r.expression|
      ensures if Droppable(Levels[b.level].expression[j]) then Droppable(r.expression[j])
              else r.expression[j] == Levels[b.level].expression[j]
    {
      if j == index && !Droppable(Levels[b.level].expression[j]) {
        // the slot would be a fixed token, which is not droppable
        assert false;
      }
    }
  }

  /** `handleCheck()` given the evaluator's result for the current expression. */
  function Check(b: Board, result: Option<real>): (r: Board)
    requires 0 <= b.level < |Levels|
  {
    if result == Some(Levels[b.level].target as real) then
      if b.level + 1 < |Levels| then Board(b.level + 1, Levels[b.level + 1].expression, MovingOn)
      else b.(feedback := AllDone)
    else b.(feedback := TryAgain)
  }

  /** A correct result below the last level moves to the next level's fresh template. */
  lemma CheckAdvances(b: Board, result: Option<real>)
    requires Inv(b) && b.level + 1 < |Levels| && result == Some(Levels[b.level].target as real)
    ensures var r := Check(b, result);
      r.level == b.level + 1 && r.expression == Levels[r.level].expression && r.feedback == MovingOn && Inv(r)
  {
  }

  /** A correct result on the last level keeps the level and expression and reports completion. */
  lemma CheckCompletes(b: Board, result: Option<real>)
    requires Inv(b) && b.level == |Levels| - 1 && result == Some(Levels[b.level].target as real)
    ensures Check(b, result) == b.(feedback := AllDone)
  {
  }

  /** A wrong value, or a failed evaluation, changes nothing but the feedback. */
  lemma CheckRejects(b: Board, result: Option<real>)
    requires Inv(b) && result != Some(Levels[b.level].target as real)
    ensures Check(b, result) == b.(feedback := TryAgain)
  {
  }

  /** The level never decreases and never skips, and `Check` keeps the invariant. */
  lemma CheckKeepsInv(b: Board, result: Option<real>)
    requires Inv(b)
    ensures var r := Check(b, result);
      Inv(r) && b.level <= r.level <= b.level + 1 && (r.level == b.level + 1 ==> r.feedback == MovingOn)
  {
    var r := Check(b, result);
    if r.level == b.level + 1 {
      assert r.expression == Levels[r.level].expression;
    }
  }

  class OperationsLesson {
    var level: int
    var expression: seq<string>
    var feedback: Feedback

    ghost function State(): Board
      reads this
    {
      Board(level, expression, feedback)
    }

    constructor ()
      ensures State() == Start() && Inv(State())
    {
      level := 0;
      expression := Levels[0].expression;
      feedback := Cleared;
    }

    /** `handleDrop`: copy the expression, assign the one slot, clear the feedback. */
    method HandleDrop(index: int, s: Symbol)
      requires 0 <= index < |expression|
      modifies this
      ensures State() == Drop(old(State()), index, s)
      ensures old(Inv(State()) && Droppable(expression[index])) ==> Inv(State())
    {
      if Inv(State()) && Droppable(expression[index]) {
        DropKeepsInv(State(), index, s);
      }
      var newExp := expression;
      newExp := newExp[index := Text(s)];
      expression := newExp;
      feedback := Cleared;
    }

    /** `handleCheck`: evaluate the current expression, then advance, finish or ask to retry. */
    method HandleCheck(evaluate: Evaluator)
      requires 0 <= level < |Levels|
      modifies this
      ensures State() == Check(old(State()), evaluate(old(expression)))
      ensures old(Inv(State())) ==> Inv(State())
    {
      if Inv(State()) {
        CheckKeepsInv(State(), evaluate(expression));
      }
      var result := evaluate(expression);
      if result == Some(Levels[level].target as real) {
        if level + 1 < |Levels| {
          level := level + 1;
          expression := Levels[level].expression;
          feedback := MovingOn;
        } else {
          feedback := AllDone;
        }
      } else {
        feedback := TryAgain;
      }
    }
  }
}
