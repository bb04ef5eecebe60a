/**
 * The typing game's session: the component state and the three events that
 * change it (picking a new sample, a keystroke, a submission).
 *
 * The random pick of a sample and the current time are parameters: `pick` is
 * the index `Math.floor(Math.random() * texts.length)` into the theme's pool,
 * `now` the value `Date.now()` returned.
 */
module Session {
  import opened Scoring

  datatype Option<T> = None | Some(value: T)

  datatype Theme = Coding | Literature | Quotes | Science

  /** The fixed sample texts the game offers for each theme. */
  function SampleTexts(t: Theme): seq<string> {
    match t
    case Coding => [
      "const hello = 'world';",
      "function greet(name) { return `Hello, ${name}`; }",
      "for (let i = 0; i < 10; i++) { console.log(i); }"
    ]
    case Literature => [
      "It was the best of times, it was the worst of times.",
      "To be or not to be, that is the question.",
      "All that glitters is not gold."
    ]
    case Quotes => [
      "The only limit to our realization of tomorrow is our doubts of today.",
      "In the middle of every difficulty lies opportunity.",
      "Success is not final, failure is not fatal: It is the courage to continue that counts."
    ]
    case Science => [
      "The Earth revolves around the Sun in an elliptical orbit.",
      "Every action has an equal and opposite reaction.",
      "Water is composed of two hydrogen atoms and one oxygen atom."
    ]
  }

  /** The game's own pools meet the condition of `StaleResetAfterThemeChange`: the first coding sample is no literature sample. */
  lemma CodingSampleIsNotLiterature()
    ensures SampleTexts(Coding)[0] !in SampleTexts(Literature)
  {
    var lit := SampleTexts(Literature);
    assert |SampleTexts(Coding)[0]| == 22;
    assert |lit[0]| != 22 && |lit[1]| != 22 && |lit[2]| != 22;
  }

  /** Mounting the game with the sample texts above; `pick` is the random index into the Coding pool. */
  method Mount(pick: nat) returns (game: TypingGame)
    requires pick < 3
    ensures fresh(game) && game.samples == SampleTexts
    ensures game.Valid() && game.Cleared()
    ensures game.theme == Coding && game.currentText == SampleTexts(Coding)[pick]
  {
    game := new TypingGame(SampleTexts, pick);
  }

  /** JavaScript's `!startTime`: both a missing start time and a start time of 0 are falsy. */
  predicate Falsy(startTime: Option<int>) {
    startTime == None || startTime == Some(0)
  }

  class TypingGame {
    /** The sample texts offered for each theme; the game reads them and never changes them. */
    const samples: Theme -> seq<string>
    var theme: Theme
    var currentText: string
    var input: string
    var startTime: Option<int>
    /** Accuracy, words per minute and time taken, each in hundredths. */
    var accuracy: int
    var wpm: int
    var timeTaken: int
    /** The feedback line is stored as the tier it shows; `Feedback()` renders it. */
    var feedbackTier: Option<Tier>
    var isCompleted: bool
    var isTimerRunning: bool

    /** The timer runs exactly while a start time is recorded, and the shown figures are in range. */
    ghost predicate Valid()
      reads this
    {
      && (isTimerRunning <==> startTime.Some?)
      && 0 <= accuracy <= 10000
      && 0 <= wpm
    }

    /** The feedback line on display: empty before a submission. */
    function Feedback(): (s: string)
      reads this
      ensures s == [] <==> feedbackTier == None
    {
      match feedbackTier
      case None => []
      case Some(t) => FeedbackMessage(t)
    }

    /** The state of a fresh round: nothing typed, no timer, no result. */
    ghost predicate Cleared()
      reads this
    {
      && input == []
      && startTime == None
      && accuracy == 0 && wpm == 0 && timeTaken == 0
      && feedbackTier == None
      && !isCompleted && !isTimerRunning
    }

    /** The submit button is enabled only while the timer runs and something has been typed. */
    predicate CanSubmit()
      reads this
    {
      isTimerRunning && input != []
    }

    /** Mounting the game: the initial state, then the first sample for the default theme. */
    constructor (samples: Theme -> seq<string>, pick: nat)
      requires pick < |samples(Coding)|
      ensures this.samples == samples
      ensures Valid() && Cleared()
      ensures theme == Coding && currentText == samples(Coding)[pick]
    {
      this.samples := samples;
      theme := Coding;
      currentText := [];
      input := [];
      startTime := None;
      accuracy, wpm, timeTaken := 0, 0, 0;
      feedbackTier := None;
      isCompleted, isTimerRunning := false, false;
      new;
      SetNewText(Coding, pick);
    }

    /**
     * Starts a new round with a sample from the pool of `from`, the theme the
     * calling closure was created under; the theme field itself is untouched.
     * A theme change passes the new theme; the delayed reset after a
     * submission passes the theme current when the submission completed.
     */
    method SetNewText(from: Theme, pick: nat)
      requires pick < |samples(from)|
      modifies this
      ensures Valid() && Cleared()
      ensures currentText == samples(from)[pick]
      ensures theme == old(theme)
    {
      currentText := samples(from)[pick];
      input := [];
      startTime := None;
      accuracy := 0;
      wpm := 0;
      timeTaken := 0;
      feedbackTier := None;
      isCompleted := false;
      isTimerRunning := false;
    }

    /**
     * Choosing a theme in the selector. The new-round effect depends on the
     * theme, so it runs only when the theme actually changes.
     */
    method SelectTheme(t: Theme, pick: nat)
      requires Valid()
      requires pick < |samples(t)|
      modifies this
      ensures Valid() && theme == t
      ensures t != old(theme) ==> Cleared() && currentText == samples(t)[pick]
      ensures t == old(theme) ==> unchanged(this)
    {
      if t != theme {
        theme := t;
        SetNewText(t, pick);
      }
    }

    /**
     * A keystroke that leaves `value` in the text area. The first keystroke of
     * a round starts the timer; later ones only replace the typed text.
     */
    method HandleInputChange(value: string, now: int)
      requires Valid()
      modifies this
      ensures Valid()
      ensures input == value
      ensures Falsy(old(startTime)) ==> startTime == Some(now) && isTimerRunning
      ensures !Falsy(old(startTime)) ==> startTime == old(startTime) && isTimerRunning == old(isTimerRunning)
      ensures theme == old(theme) && currentText == old(currentText)
      ensures accuracy == old(accuracy) && wpm == old(wpm) && timeTaken == old(timeTaken)
      ensures feedbackTier == old(feedbackTier) && isCompleted == old(isCompleted)
    {
      if Falsy(startTime) {
        startTime := Some(now);
        isTimerRunning := true;
      }
      input := value;
    }

    /**
     * Submitting the attempt at time `now`: the scores of the typed text
     * against the sample over the time since the first keystroke are stored,
     * the round is marked completed and the timer is stopped.
     */
    method HandleSubmit(now: int)
      requires Valid() && CanSubmit()
      modifies this
      ensures Valid()
      ensures old(startTime).Some?
      ensures var r := Evaluate(old(currentText), old(input), now - old(startTime).value);
        && accuracy == r.accuracy && wpm == r.wpm && timeTaken == r.timeTaken
        && feedbackTier == Some(r.tier)
      ensures isCompleted && !isTimerRunning && startTime == None
      ensures theme == old(theme) && currentText == old(currentText) && input == old(input)
    {
      var r := Evaluate(currentText, input, now - startTime.value);
      Complete(r);
    }

    /** Stores a submission's figures and feedback, marks the round completed and stops the timer. */
    method Complete(r: Score)
      requires 0 <= r.accuracy <= 10000 && 0 <= r.wpm
      modifies this
      ensures Valid()
      ensures accuracy == r.accuracy && wpm == r.wpm && timeTaken == r.timeTaken && feedbackTier == Some(r.tier)
      ensures isCompleted && !isTimerRunning && startTime == None
      ensures theme == old(theme) && currentText == old(currentText) && input == old(input)
    {
      accuracy := r.accuracy;
      wpm := r.wpm;
      timeTaken := r.timeTaken;
      feedbackTier := Some(r.tier);
      isCompleted := true;
      isTimerRunning := false;
      startTime := None;
    }
  }

  /**
   * The delayed reset carries no guard against a theme change made while it
   * waits: after a submission under Coding and a switch to Literature, the
   * reset installs a Coding sample while Literature stays selected.
   */
  method StaleResetAfterThemeChange(samples: Theme -> seq<string>, now: int) returns (theme: Theme, text: string)
    requires |samples(Coding)| > 0 && |samples(Literature)| > 0
    requires samples(Coding)[0] !in samples(Literature)
    ensures theme == Literature && text == samples(Coding)[0]
    ensures text !in samples(theme)
  {
    var game := new TypingGame(samples, 0);
    game.HandleInputChange("c", now);
    game.HandleSubmit(now + 1000);
    var completedUnder := game.theme;
    game.SelectTheme(Literature, 0);
    game.SetNewText(completedUnder, 0);
    theme, text := game.theme, game.currentText;
  }
}
