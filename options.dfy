/** The plugin's option record and its defaults (src/password.js:11-35). The source merges
    user options over these defaults; the model takes the merged record as an immutable
    value passed to every operation. */
module PasswordOptions {

  datatype Option<T> = None | Some(value: T)

  /** One entry of the `steps` table: a numeric key and the text shown for scores above it. */
  datatype Step = Step(threshold: nat, text: string)

  /** A `[min, max]` pair of `customColorBarRGB`. */
  datatype ChannelRange = ChannelRange(min: real, max: real)

  /** `customColorBarRGB`: each key may be absent, in which case the colour computation
      falls back to its own built-in value. */
  datatype ColorBarRGB = ColorBarRGB(red: Option<ChannelRange>, green: Option<ChannelRange>, blue: Option<real>)

  datatype Options = Options(
    enterPass: string,
    shortPass: string,
    containsField: string,
    /** The entries of the `steps` object in the order a JavaScript object lists integer
        keys: ascending by numeric value (see StepKeysInObjectOrder). */
    steps: seq<Step>,
    showPercent: bool,
    showText: bool,
    animate: bool,
    animateSpeed: string,
    /** Whether a reference field (a username input) is configured. */
    field: bool,
    fieldPartialMatch: bool,
    minimumLength: int,
    closestSelector: string,
    useColorBarImage: bool,
    customColorBarRGB: ColorBarRGB)

  const DefaultSteps: seq<Step> := [
    Step(13, "Really insecure password"),
    Step(33, "Weak; try combining letters & numbers"),
    Step(67, "Medium; try using special characters"),
    Step(94, "Strong password")
  ]

  const Defaults: Options := Options(
    "Type your password",
    "The password is too short",
    "The password contains your username",
    DefaultSteps,
    false,
    true,
    true,
    "fast",
    false,
    true,
    4,
    "div",
    false,
    ColorBarRGB(Some(ChannelRange(0.0, 240.0)), Some(ChannelRange(0.0, 240.0)), Some(10.0)))

  /** Integer keys of a JavaScript object are listed in ascending numeric order, each once. */
  predicate StepKeysInObjectOrder(steps: seq<Step>)
  {
    forall i, j :: 0 <= i < j < |steps| ==> steps[i].threshold < steps[j].threshold
  }

  /** The defaults are well formed: the step keys ascend, and each colour range has its
      minimum at or below its maximum. */
  lemma DefaultsWellFormed()
    ensures StepKeysInObjectOrder(Defaults.steps)
    ensures Defaults.customColorBarRGB.red == Some(ChannelRange(0.0, 240.0))
    ensures Defaults.customColorBarRGB.green == Some(ChannelRange(0.0, 240.0))
    ensures Defaults.customColorBarRGB.blue == Some(10.0)
    ensures Defaults.minimumLength == 4 && !Defaults.field && Defaults.fieldPartialMatch
  {
    assert Defaults.steps == DefaultSteps;
    forall i, j | 0 <= i < j < |DefaultSteps| ensures DefaultSteps[i].threshold < DefaultSteps[j].threshold {
      assert DefaultSteps[0].threshold == 13 && DefaultSteps[1].threshold == 33;
      assert DefaultSteps[2].threshold == 67 && DefaultSteps[3].threshold == 94;
    }
  }
}
