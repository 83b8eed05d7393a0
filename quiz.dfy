/**
 * The quiz page as a state machine: the current question, whether its answer is shown,
 * whether the ten-question session is over, and the running score. Answers are recorded
 * through the data context; the random pick of the next question is a nondeterministic
 * choice of a valid index.
 */
module Quiz {
  import opened Wrappers
  import opened Types
  import opened Progress
  import DataContext

  /** Answers per session. */
  const SESSION_LENGTH: nat := 10

  /** Correct answers and answers given so far in the session. */
  datatype Score = Score(correct: nat, total: nat)

  class QuizSession {
    var currentRoot: Option<ArabicRoot>
    var showAnswer: bool
    var quizFinished: bool
    var score: Score

    /** The score never exceeds the answers given, and the session is over exactly after ten. */
    predicate Valid()
      reads this
    {
      && score.correct <= score.total
      && (quizFinished <==> score.total >= SESSION_LENGTH)
    }

    /** A new page: no question yet, nothing shown, a 0/0 score. */
    constructor ()
      ensures Valid()
      ensures currentRoot == None && !showAnswer && !quizFinished && score == Score(0, 0)
    {
      currentRoot := None;
      showAnswer := false;
      quizFinished := false;
      score := Score(0, 0);
    }

    /** Draw a random root as the next question and hide its answer; nothing on an empty list. */
    method NextQuestion(roots: seq<ArabicRoot>)
      modifies this
      ensures quizFinished == old(quizFinished) && score == old(score)
      ensures roots == [] ==> currentRoot == old(currentRoot) && showAnswer == old(showAnswer)
      ensures roots != [] ==> currentRoot.Some? && currentRoot.value in roots && !showAnswer
      ensures old(Valid()) ==> Valid()
    {
      if |roots| == 0 {
        return;
      }
      var i :| 0 <= i < |roots|;
      currentRoot := Some(roots[i]);
      showAnswer := false;
    }

    /** The first-question effect, run when the root list changes. */
    method RootsChanged(roots: seq<ArabicRoot>)
      requires Valid()
      modifies this
      ensures Valid() && quizFinished == old(quizFinished) && score == old(score)
      ensures (roots != [] && old(currentRoot).None? && !old(quizFinished)) ==>
        currentRoot.Some? && currentRoot.value in roots && !showAnswer
      ensures !(roots != [] && old(currentRoot).None? && !old(quizFinished)) ==>
        currentRoot == old(currentRoot) && showAnswer == old(showAnswer)
    {
      if |roots| > 0 && currentRoot.None? && !quizFinished {
        NextQuestion(roots);
      }
    }

    /** The "Reveal Meaning" button. */
    method RevealAnswer()
      modifies this
      ensures showAnswer
      ensures old(Valid()) ==> Valid()
      ensures currentRoot == old(currentRoot) && quizFinished == old(quizFinished) && score == old(score)
    {
      showAnswer := true;
    }

    /**
     * Answer the current question. The answer is recorded in the data context (its remote
     * write reply is `write`); if that throws, the score and question stay as they were.
     * Otherwise the score counts the answer, and the session ends when the score before
     * this answer already counted nine, else a next question is drawn.
     */
    method HandleAnswer(correct: bool, ctx: DataContext.Context, now: string, write: Outcome)
      returns (result: Outcome)
      requires Valid()
      modifies this, ctx
      ensures Valid()
      ensures old(currentRoot).None? ==>
        && result == Pass
        && currentRoot == old(currentRoot) && showAnswer == old(showAnswer)
        && quizFinished == old(quizFinished) && score == old(score)
        && ctx.progress == old(ctx.progress) && ctx.store == old(ctx.store)
      ensures old(currentRoot).Some? ==>
        ctx.progress == RecordAnswer(old(ctx.progress), old(currentRoot).value.id, correct, now)
      ensures ctx.roots == old(ctx.roots) && ctx.loading == old(ctx.loading)
      ensures ctx.isMock && old(currentRoot).Some? ==>
        ctx.store == old(ctx.store)[DataContext.MOCK_PROGRESS_KEY := DataContext.ProgressDoc(ctx.progress)]
      ensures !ctx.isMock ==> ctx.store == old(ctx.store)
      ensures ctx.isMock && old(ctx.Synced()) ==> ctx.Synced()
      ensures result == (if old(currentRoot).Some? && !ctx.isMock then write else Pass)
      ensures result.Fail? ==>
        && currentRoot == old(currentRoot) && showAnswer == old(showAnswer)
        && quizFinished == old(quizFinished) && score == old(score)
      ensures old(currentRoot).Some? && result.Pass? ==>
        && score == Score(old(score).correct + (if correct then 1 else 0), old(score).total + 1)
        && quizFinished == (old(quizFinished) || old(score).total >= SESSION_LENGTH - 1)
        && (!quizFinished && ctx.roots != [] ==>
              currentRoot.Some? && currentRoot.value in ctx.roots && !showAnswer)
        && (quizFinished || ctx.roots == [] ==>
              currentRoot == old(currentRoot) && showAnswer == old(showAnswer))
    {
      if currentRoot.None? {
        return Pass;
      }
      result := ctx.UpdateProgress(currentRoot.value.id, correct, now, write);
      if result.Fail? {
        return;
      }
      var before := score;
      score := Score(score.correct + (if correct then 1 else 0), score.total + 1);
      if before.total >= SESSION_LENGTH - 1 {
        quizFinished := true;
      } else {
        NextQuestion(ctx.roots);
      }
    }

    /** "Play Again": a 0/0 score, the session open again, and a fresh question. */
    method RestartQuiz(roots: seq<ArabicRoot>)
      modifies this
      ensures Valid()
      ensures score == Score(0, 0) && !quizFinished
      ensures roots != [] ==> currentRoot.Some? && currentRoot.value in roots && !showAnswer
      ensures roots == [] ==> currentRoot == old(currentRoot) && showAnswer == old(showAnswer)
    {
      score := Score(0, 0);
      quizFinished := false;
      NextQuestion(roots);
    }
  }
}
