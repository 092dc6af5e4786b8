/**
 * The console loader of `bn_falkon/utils/customization.py`: `BaseLoader`, its
 * nineteen subclasses (which differ only in their `ANIMATION_STEPS` table),
 * and one pass of the `_animate` loop, with the animation thread replaced by
 * explicit calls to `Tick`.
 */
module Loader {
  import opened Wrappers
  import Text

  // ---------------------------------------------------------------------
  // The frame catalogue
  // ---------------------------------------------------------------------

  /** One value per subclass of `BaseLoader`. */
  datatype Style =
    | Simple | Line | Growth | Circle | Pulse | OOO | Wait | Rocket | Star
    | Stars | CircleDigit | Hourglass | Clock | Arrow | Atomic | Digit
    | Bounce | Dot | Bart

  /** `ANIMATION_STEPS` of each subclass; three of them are built by `split(' ')`. */
  function Frames(style: Style): (r: seq<string>)
    ensures |r| > 0
  {
    match style
    case Simple => ["|", "/", "+", "-", "\\"]
    case Line => ["⢿", "⣻", "⣽", "⣾", "⣷", "⣯", "⣟", "⡿"]
    case Growth => ["·", "•", "●", "•", "·"]
    case Circle => ["◓", "◑", "◒", "◐"]
    case Pulse => ["•", "○", "•", "·", "●", "·"]
    case OOO => ["0", "O", "o", "+", "·"]
    case Wait => ["W", "A", "I", "T"]
    case Rocket => ["|", "/", "^", "-", "\\", "|", "_"]
    case Star => ["✶", "✷", "✸", "✹", "✺"]
    case Stars =>
      Text.Split("✩ ✪ ✫ ✬ ✭ ✯ ✰ ★ ✱ ✲ ✳ ✴ ✵ ✶ ✷ ✸ ✹ ✺ ✻ ✼ ✽ ✾ ✿ ❀ ❁ ❂ ❃ ❄ ❅ ❆ ❇ ❈ ❉ ❊ ❋", ' ')
    case CircleDigit => Text.Split("➀ ➁ ➂ ➃ ➄ ➅ ➆ ➇ ➈ ➉", ' ')
    case Hourglass => ["⌛", "⌛", "⌛", "⏳", "⏳", "⏳"]
    case Clock => ["⏲", "⌚"]
    case Arrow => Text.Split("▶ ▷ ► ▻ ▸ ▹", ' ')
    case Atomic => ["☊", "☋", "☌", "☍"]
    case Digit => ["0", "1", "2", "3", "4", "5", "6", "7", "8", "9"]
    case Bounce => ["<• ", "<•>", " •>", " • "]
    case Dot => ["·", "•", "••", "•••", "••••", "•••", "••", "•"]
    case Bart => ["_", "▁", "▂", "▃", "▄", "▅", "▆", "▇", "█", "▇", "▆", "▅", "▄", "▃", "▂", "▁", "_"]
  }

  /** The class that is instantiated: `BaseLoader` itself or a subclass. */
  datatype LoaderClass = Base | Styled(style: Style)

  /** The class attribute `ANIMATION_STEPS`; `BaseLoader` declares it empty. */
  function AnimationSteps(cls: LoaderClass): (r: seq<string>)
    ensures r == [] <==> cls.Base?
  {
    match cls
    case Base => []
    case Styled(style) => Frames(style)
  }

  // ---------------------------------------------------------------------
  // Configuration and its validation
  // ---------------------------------------------------------------------

  const ValidPositions: seq<string> := ["front", "end"]

  const DefaultDesc: string := "Loading..."
  const DefaultEnd: string := "Done!"
  const DefaultTimeout: real := 0.1
  const DefaultPosition: string := "front"

  /** The two `ValueError`s that `__init__` can raise. */
  datatype ConfigError = InvalidPosition(position: string) | EmptyAnimationSteps

  /**
   * The checks at the end of `__init__`, in their order: the position first,
   * then the frame table. `None` means construction succeeds.
   */
  function CheckConfig(position: string, steps: seq<string>): (r: Option<ConfigError>)
    ensures r == None <==> position in ValidPositions && steps != []
    ensures position !in ValidPositions ==> r == Some(InvalidPosition(position))
    ensures position in ValidPositions && steps == [] ==> r == Some(EmptyAnimationSteps)
  {
    if position !in ValidPositions then Some(InvalidPosition(position))
    else if steps == [] then Some(EmptyAnimationSteps)
    else None
  }

  /** `BaseLoader` itself can never be constructed, and an invalid position is reported first. */
  lemma BaseLoaderRejected(position: string)
    ensures CheckConfig(position, AnimationSteps(Base)) ==
      if position in ValidPositions then Some(EmptyAnimationSteps)
      else Some(InvalidPosition(position))
  {
  }

  /** Every subclass constructs exactly when the position is valid. */
  lemma StyledAccepted(style: Style, position: string)
    ensures CheckConfig(position, AnimationSteps(Styled(style))) == None <==>
      (position == "front" || position == "end")
  {
  }

  /** The default arguments construct every subclass. */
  lemma DefaultsAccepted(style: Style)
    ensures CheckConfig(DefaultPosition, Frames(style)) == None
  {
  }

  // ---------------------------------------------------------------------
  // What is written to stdout
  // ---------------------------------------------------------------------

  /** `n` blanks. */
  function Spaces(n: nat): (r: string)
    ensures |r| == n
    ensures forall i :: 0 <= i < n ==> r[i] == ' '
  {
    if n == 0 then "" else Spaces(n - 1) + " "
  }

  /** One animation frame: the frame before the description in front position, after it otherwise. */
  function FrameLine(position: string, desc: string, frame: string): string {
    "\r" + (if position == "front" then frame + " " + desc else desc + " " + frame)
  }

  /** The line `__exit__` writes to blank out the animation. */
  function ClearLine(desc: string, steps: seq<string>): (r: string)
    requires steps != []
    ensures |r| == |desc| + |steps[0]| + 2 && r[0] == '\r'
  {
    "\r" + Spaces(|desc| + |steps[0]| + 1)
  }

  /** The completion line: a green dot, two blanks, the end text, a colour reset and a newline. */
  function EndLine(end: string): (r: string)
    ensures |r| == |end| + 16 && r[0] == '\r' && r[10] == ' '
    ensures r[11..11 + |end|] == end && r[|r| - 1] == '\n'
  {
    "\r\U{1B}[0;32m●  " + end + "\U{1B}[0m" + "\n"
  }

  /** The frame line is a carriage return, the frame and the description, and a blank between them. */
  lemma FrameLineParts(position: string, desc: string, frame: string)
    ensures |FrameLine(position, desc, frame)| == |frame| + |desc| + 2
    ensures FrameLine(position, desc, frame)[0] == '\r'
    ensures position == "front" ==> FrameLine(position, desc, frame)[1..1 + |frame|] == frame
    ensures position == "front" ==> FrameLine(position, desc, frame)[1 + |frame|] == ' '
    ensures position == "front" ==> FrameLine(position, desc, frame)[2 + |frame|..] == desc
    ensures position != "front" ==> FrameLine(position, desc, frame)[1..1 + |desc|] == desc
    ensures position != "front" ==> FrameLine(position, desc, frame)[1 + |desc|] == ' '
    ensures position != "front" ==> FrameLine(position, desc, frame)[2 + |desc|..] == frame
  {
  }

  /**
   * The clear line is a carriage return and only blanks, and it is as long
   * as the line of frame `k` exactly when frame `k` is no longer than the
   * first frame: the width is taken from the first frame, not the longest.
   */
  lemma ClearCoversFrameIff(position: string, desc: string, steps: seq<string>, k: nat)
    requires k < |steps|
    ensures ClearLine(desc, steps)[0] == '\r'
    ensures forall i :: 1 <= i < |ClearLine(desc, steps)| ==> ClearLine(desc, steps)[i] == ' '
    ensures |ClearLine(desc, steps)| >= |FrameLine(position, desc, steps[k])| <==> |steps[k]| <= |steps[0]|
  {
    var s := Spaces(|desc| + |steps[0]| + 1);
    assert forall i :: 1 <= i < |ClearLine(desc, steps)| ==> ClearLine(desc, steps)[i] == s[i - 1];
  }

  /** With `DotLoader` the blanks do not reach the end of the widest frame's line. */
  lemma DotLoaderUnderErases(position: string, desc: string)
    ensures |ClearLine(desc, Frames(Dot))| < |FrameLine(position, desc, Frames(Dot)[4])|
  {
    ClearCoversFrameIff(position, desc, Frames(Dot), 4);
  }

  // ---------------------------------------------------------------------
  // The step counter of `_animate`
  // ---------------------------------------------------------------------

  /** The counter after `k` frames, counted the way `_animate` counts: start at 0, add one, wrap. */
  function StepAfter(n: nat, k: nat): (r: nat)
    requires n > 0
    ensures r < n
  {
    if k == 0 then 0 else Advance(StepAfter(n, k - 1), n)
  }

  /** `(step + 1) % n` for a counter already below `n`: one up, or back to 0 from the last frame. */
  function Advance(step: nat, n: nat): (r: nat)
    requires step < n
    ensures r < n
  {
    if step + 1 == n then 0 else step + 1
  }

  /** Counting up and wrapping by hand is the `(step_count + 1) % len` of `_animate`. */
  lemma AdvanceIsModulo(step: nat, n: nat)
    requires step < n
    ensures Advance(step, n) == (step + 1) % n
  {
    if step + 1 < n {
      assert (step + 1) / n == 0;
    } else {
      assert (step + 1) / n == 1;
    }
  }

  /** During the first round the counter is the number of frames drawn. */
  lemma {:induction false} StepFirstRound(n: nat, k: nat)
    requires k < n
    ensures StepAfter(n, k) == k
  {
    if k > 0 {
      StepFirstRound(n, k - 1);
    }
  }

  /** After exactly one full round of frames the counter is back where it was. */
  lemma {:induction false} StepCycle(n: nat, k: nat)
    requires n > 0
    ensures StepAfter(n, n) == 0
    ensures StepAfter(n, k + n) == StepAfter(n, k)
  {
    StepFirstRound(n, n - 1);
    if k > 0 {
      StepCycle(n, k - 1);
      assert k + n - 1 == (k - 1) + n;
    }
  }

  /** The lines of the first `k` passes of `_animate` after an entry, one frame line per pass. */
  function Animation(position: string, desc: string, steps: seq<string>, k: nat): (r: seq<string>)
    requires steps != []
    ensures |r| == k
  {
    if k == 0 then []
    else Animation(position, desc, steps, k - 1) + [FrameLine(position, desc, steps[StepAfter(|steps|, k - 1)])]
  }

  /** Pass `i` draws the frame the counter points at after `i` passes. */
  lemma {:induction false} AnimationAt(position: string, desc: string, steps: seq<string>, k: nat, i: nat)
    requires steps != []
    requires i < k
    ensures Animation(position, desc, steps, k)[i] == FrameLine(position, desc, steps[StepAfter(|steps|, i)])
  {
    if i < k - 1 {
      AnimationAt(position, desc, steps, k - 1, i);
    }
  }

  /** The animation repeats with the period of the frame table. */
  lemma AnimationPeriodic(position: string, desc: string, steps: seq<string>, k: nat, i: nat)
    requires steps != []
    requires i + |steps| < k
    ensures Animation(position, desc, steps, k)[i + |steps|] == Animation(position, desc, steps, k)[i]
  {
    AnimationAt(position, desc, steps, k, i + |steps|);
    AnimationAt(position, desc, steps, k, i);
    StepCycle(|steps|, i);
  }

  // ---------------------------------------------------------------------
  // The loader object
  // ---------------------------------------------------------------------

  class BaseLoader {
    // `_config`, fixed at construction
    const desc: string
    const end: string
    const timeout: real
    const position: string
    // the class's `ANIMATION_STEPS`
    const steps: seq<string>

    var done: bool
    // the `_thread` attribute exists once `__enter__` has run
    var threadStarted: bool
    // `step_count` of the running `_animate`
    var stepCount: nat

    // everything written to stdout, one entry per `print`
    ghost var output: seq<string>
    // `|output|` at the last `__enter__`, and the frames drawn since then
    ghost var entered: nat
    ghost var ticks: nat

    ghost predicate Valid()
      reads this
    {
      && CheckConfig(position, steps) == None
      && stepCount == StepAfter(|steps|, ticks)
      && entered <= |output|
      && (!done ==> output[entered..] == Animation(position, desc, steps, ticks))
    }

    /** `__init__` once both of its checks have passed. */
    constructor (cls: LoaderClass, desc: string, end: string, timeout: real, position: string)
      requires CheckConfig(position, AnimationSteps(cls)) == None
      ensures Valid()
      ensures this.desc == desc && this.end == end && this.timeout == timeout
      ensures this.position == position && steps == AnimationSteps(cls)
      ensures !done && !threadStarted && stepCount == 0
      ensures output == []
    {
      this.desc := desc;
      this.end := end;
      this.timeout := timeout;
      this.position := position;
      steps := AnimationSteps(cls);
      done := false;
      threadStarted := false;
      stepCount := 0;
      output := [];
      entered := 0;
      ticks := 0;
    }

    /** `__enter__`: clears the flag whatever it was and starts a fresh animation. */
    method Enter()
      requires Valid()
      modifies this
      ensures Valid()
      ensures !done && threadStarted && stepCount == 0
      ensures output == old(output) && entered == |output| && ticks == 0
    {
      done := false;
      threadStarted := true;
      stepCount := 0;
      entered := |output|;
      ticks := 0;
    }

    /**
     * One pass of the `_animate` loop: stop when the flag is set, otherwise
     * write the current frame line and advance the counter modulo the table.
     */
    method Tick() returns (continuing: bool)
      requires Valid() && threadStarted
      modifies this`stepCount, this`output, this`ticks
      ensures Valid()
      ensures continuing == !done
      ensures done ==> output == old(output) && stepCount == old(stepCount) && ticks == old(ticks)
      ensures !done ==> output == old(output) + [FrameLine(position, desc, steps[old(stepCount)])]
      ensures !done ==> stepCount == (old(stepCount) + 1) % |steps| && ticks == old(ticks) + 1
    {
      if done {
        return false;
      }
      var frame := steps[stepCount];
      var line := if position == "front" then "\r" + frame + " " + desc
                  else "\r" + desc + " " + frame;
      assert output[entered..] + [line] == Animation(position, desc, steps, ticks + 1) by {
        assert line == FrameLine(position, desc, frame);
      }
      assert (output + [line])[entered..] == output[entered..] + [line];
      output := output + [line];
      var next := (stepCount + 1) % |steps|;
      assert next == StepAfter(|steps|, ticks + 1) by {
        AdvanceIsModulo(stepCount, |steps|);
      }
      stepCount := next;
      ticks := ticks + 1;
      continuing := true;
    }

    /**
     * `__exit__`: sets the flag, blanks the line, writes the completion line,
     * then joins the thread, which fails when `__enter__` never ran.
     */
    method Exit() returns (joined: bool)
      requires Valid()
      modifies this`done, this`output
      ensures Valid() && done
      ensures output == old(output) + [ClearLine(desc, steps), EndLine(end)]
      ensures joined == threadStarted
    {
      done := true;
      output := output + ["\r" + Spaces(|desc| + |steps[0]| + 1)];
      output := output + ["\r\U{1B}[0;32m●  " + end + "\U{1B}[0m" + "\n"];
      joined := threadStarted;
    }
  }

  /**
   * `SomeLoader(desc, end, timeout, position)`: the object, or the
   * `ValueError` that `__init__` raises.
   */
  method Create(cls: LoaderClass, desc: string, end: string, timeout: real, position: string)
    returns (r: Result<BaseLoader, ConfigError>)
    ensures r.Failure? <==> CheckConfig(position, AnimationSteps(cls)) != None
    ensures r.Failure? ==> Some(r.error) == CheckConfig(position, AnimationSteps(cls))
    ensures r.Success? ==> fresh(r.value) && r.value.Valid() && !r.value.done && r.value.output == []
    ensures r.Success? ==> !r.value.threadStarted
    ensures r.Success? ==> r.value.desc == desc && r.value.end == end && r.value.timeout == timeout
    ensures r.Success? ==> r.value.position == position && r.value.steps == AnimationSteps(cls)
  {
    var err := CheckConfig(position, AnimationSteps(cls));
    if err.Some? {
      return Failure(err.value);
    }
    var loader := new BaseLoader(cls, desc, end, timeout, position);
    return Success(loader);
  }

  /**
   * `__init__` called with no arguments: the description, end text, timeout
   * and position take their defaults, and only a subclass with frames succeeds.
   */
  method CreateDefault(cls: LoaderClass) returns (r: Result<BaseLoader, ConfigError>)
    ensures r.Success? <==> cls.Styled?
    ensures r.Failure? ==> r.error == EmptyAnimationSteps
    ensures r.Success? ==> fresh(r.value) && r.value.Valid() && !r.value.done && r.value.output == []
    ensures r.Success? ==> !r.value.threadStarted
    ensures r.Success? ==> r.value.desc == DefaultDesc && r.value.end == DefaultEnd
    ensures r.Success? ==> r.value.timeout == DefaultTimeout && r.value.position == DefaultPosition
    ensures r.Success? ==> r.value.steps == AnimationSteps(cls)
  {
    if cls.Styled? {
      DefaultsAccepted(cls.style);
    }
    r := Create(cls, DefaultDesc, DefaultEnd, DefaultTimeout, DefaultPosition);
  }
}
