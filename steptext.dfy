/** The score-to-text mapping (scoreText, src/password.js:45-65). Sentinel scores map to
    fixed messages; any other score picks the text of the last step key, in the order
    `Object.keys(steps).sort()` puts them, whose value lies below the score. */
module StepText {
  import opened PasswordOptions

  function DigitChar(d: nat): char
    requires d < 10
  {
    ('0' as int + d) as char
  }

  /** The property name JavaScript gives the integer key `n`. */
  function Decimal(n: nat): (r: string)
    ensures |r| >= 1
    decreases n
  {
    if n < 10 then [DigitChar(n)] else Decimal(n / 10) + [DigitChar(n % 10)]
  }

  /** The default comparison of `Array.prototype.sort` on strings: code unit by code unit,
      a proper prefix first. */
  predicate CodeUnitLess(a: string, b: string)
    decreases |a|
  {
    if a == [] then b != []
    else if b == [] then false
    else if a[0] != b[0] then a[0] < b[0]
    else CodeUnitLess(a[1..], b[1..])
  }

  lemma {:induction false} CodeUnitLessAsymmetric(a: string, b: string)
    requires CodeUnitLess(a, b)
    ensures !CodeUnitLess(b, a)
    decreases |a|
  {
    if a != [] && b != [] && a[0] == b[0] {
      CodeUnitLessAsymmetric(a[1..], b[1..]);
    }
  }

  /** `x` sorts before `y` when their keys are compared as strings. */
  predicate KeyTextBefore(x: Step, y: Step)
  {
    CodeUnitLess(Decimal(x.threshold), Decimal(y.threshold))
  }

  /** No neighbour sorts after the one that follows it. */
  predicate SortedByKeyText(steps: seq<Step>)
  {
    forall i | 0 < i < |steps| :: !KeyTextBefore(steps[i], steps[i - 1])
  }

  function InsertByKeyText(x: Step, sorted: seq<Step>): (r: seq<Step>)
    requires SortedByKeyText(sorted)
    ensures multiset(r) == multiset(sorted) + multiset{x}
    ensures SortedByKeyText(r)
    ensures r[0] == x || (sorted != [] && r[0] == sorted[0])
    decreases |sorted|
  {
    if sorted == [] then [x]
    else if !KeyTextBefore(sorted[0], x) then [x] + sorted
    else
      var rest := InsertByKeyText(x, sorted[1..]);
      assert sorted == [sorted[0]] + sorted[1..];
      if rest[0] == x then CodeUnitLessAsymmetric(Decimal(sorted[0].threshold), Decimal(x.threshold)); [sorted[0]] + rest
      else [sorted[0]] + rest
  }

  /** `Object.keys(steps).sort()`: the step entries reordered by their keys as strings. */
  function SortByKeyText(steps: seq<Step>): (r: seq<Step>)
    ensures multiset(r) == multiset(steps)
    ensures SortedByKeyText(r)
    decreases |steps|
  {
    if steps == [] then []
    else
      assert steps == [steps[0]] + steps[1..];
      InsertByKeyText(steps[0], SortByKeyText(steps[1..]))
  }

  /** The text the loop of scoreText leaves after visiting `order` in turn: the text of the
      last entry whose key is below `score`, or `fallback` when there is none. */
  function LastBelow(order: seq<Step>, score: int, fallback: string): string
    decreases |order|
  {
    if order == [] then fallback
    else if order[|order| - 1].threshold < score then order[|order| - 1].text
    else LastBelow(order[..|order| - 1], score, fallback)
  }

  /** The entry at `k` is the last one of `order` whose key is below `score`. */
  predicate IsLastBelow(order: seq<Step>, k: int, score: int)
  {
    0 <= k < |order| && order[k].threshold < score
    && forall m | k < m < |order| :: order[m].threshold >= score
  }

  /** LastBelow yields the text of the last entry below the score, and the fallback when
      every key is at least the score. */
  lemma {:induction false} LastBelowIsLastMatch(order: seq<Step>, score: int, fallback: string)
    ensures (forall k | 0 <= k < |order| :: order[k].threshold >= score) ==> LastBelow(order, score, fallback) == fallback
    ensures forall k | IsLastBelow(order, k, score) :: LastBelow(order, score, fallback) == order[k].text
    decreases |order|
  {
    if order != [] {
      var n := |order| - 1;
      var front := order[..n];
      LastBelowIsLastMatch(front, score, fallback);
      if order[n].threshold >= score {
        assert LastBelow(order, score, fallback) == LastBelow(front, score, fallback);
        forall k | IsLastBelow(order, k, score) ensures IsLastBelow(front, k, score) {
          assert k < n && front[k] == order[k];
        }
      } else {
        forall k | IsLastBelow(order, k, score) ensures k == n { }
      }
    }
  }

  /** The entry at `k` has the greatest key below `score`. */
  predicate IsGreatestBelow(steps: seq<Step>, k: int, score: int)
  {
    0 <= k < |steps| && steps[k].threshold < score
    && forall m | 0 <= m < |steps| && steps[m].threshold < score :: steps[m].threshold <= steps[k].threshold
  }

  /** Over keys in ascending numeric order, the last entry below the score is the one with
      the greatest key below it. */
  lemma LastBelowPicksGreatest(steps: seq<Step>, score: int, fallback: string)
    requires StepKeysInObjectOrder(steps)
    ensures (forall k | 0 <= k < |steps| :: steps[k].threshold >= score) ==> LastBelow(steps, score, fallback) == fallback
    ensures forall k | IsGreatestBelow(steps, k, score) :: LastBelow(steps, score, fallback) == steps[k].text
  {
    LastBelowIsLastMatch(steps, score, fallback);
    forall k | IsGreatestBelow(steps, k, score) ensures IsLastBelow(steps, k, score) {
      forall m | k < m < |steps| ensures steps[m].threshold >= score {
        assert steps[k].threshold < steps[m].threshold;
      }
    }
  }

  /** The loop of scoreText: visit `order`, keeping the text of each entry whose key is
      below `score`. */
  method LabelOfLastStepBelow(order: seq<Step>, score: int, fallback: string) returns (text: string)
    ensures text == LastBelow(order, score, fallback)
  {
    text := fallback;
    var i := 0;
    while i < |order|
      invariant 0 <= i <= |order|
      invariant text == LastBelow(order[..i], score, fallback)
    {
      assert order[..i + 1][..i] == order[..i];
      if order[i].threshold < score {
        text := order[i].text;
      }
      i := i + 1;
    }
    assert order[..|order|] == order;
  }

  /** What scoreText returns when its loop visits the steps in `order`. */
  function TextForScore(o: Options, score: int, order: seq<Step>): string
  {
    if score == -1 then o.shortPass
    else if score == -2 then o.containsField
    else LastBelow(order, if score < 0 then 0 else score, o.shortPass)
  }

  lemma NonSentinelText(o: Options, score: int, order: seq<Step>)
    requires score >= 0
    ensures TextForScore(o, score, order) == LastBelow(order, score, o.shortPass)
  {
  }

  /** scoreText as written: the keys are sorted as strings before the loop. The sentinels
      map to their messages; any other score, raised to 0 when negative, gets the text of the
      last entry in key-text order whose key is below it, or the too-short message when no
      key is below it. */
  method ScoreText(o: Options, score: int) returns (text: string)
    ensures text == TextForScore(o, score, SortByKeyText(o.steps))
    ensures score == -1 ==> text == o.shortPass
    ensures score == -2 ==> text == o.containsField
    ensures score >= 0 ==>
              ((forall k | 0 <= k < |o.steps| :: o.steps[k].threshold >= score) ==> text == o.shortPass)
              && forall k | IsLastBelow(SortByKeyText(o.steps), k, score) :: text == SortByKeyText(o.steps)[k].text
  {
    if score == -1 {
      return o.shortPass;
    }
    if score == -2 {
      return o.containsField;
    }
    var clamped := if score < 0 then 0 else score;
    var order := SortByKeyText(o.steps);
    text := LabelOfLastStepBelow(order, clamped, o.shortPass);
    LastBelowIsLastMatch(order, clamped, o.shortPass);
    if forall k | 0 <= k < |o.steps| :: o.steps[k].threshold >= clamped {
      forall k | 0 <= k < |order| ensures order[k].threshold >= clamped {
        assert order[k] in multiset(o.steps);
      }
    }
  }

  /** scoreText with the keys visited in numeric order, as the sort evidently intends: the
      sentinels map to their messages, and any other score to the text of the greatest key
      below it, or to the too-short message when no key is below it. */
  method ScoreTextByValue(o: Options, score: int) returns (text: string)
    ensures text == TextForScore(o, score, o.steps)
    ensures score == -1 ==> text == o.shortPass
    ensures score == -2 ==> text == o.containsField
    ensures StepKeysInObjectOrder(o.steps) && score != -1 && score != -2 ==>
              ((forall k | 0 <= k < |o.steps| :: o.steps[k].threshold >= score) ==> text == o.shortPass)
              && forall k | IsGreatestBelow(o.steps, k, score) :: text == o.steps[k].text
  {
    if score == -1 {
      return o.shortPass;
    }
    if score == -2 {
      return o.containsField;
    }
    var clamped := if score < 0 then 0 else score;
    text := LabelOfLastStepBelow(o.steps, clamped, o.shortPass);
    if StepKeysInObjectOrder(o.steps) {
      LastBelowPicksGreatest(o.steps, clamped, o.shortPass);
    }
  }

  /** Sorting an order that is already sorted by key text leaves it as it is, so the sort
      is idempotent. */
  lemma SortedTail(steps: seq<Step>)
    requires steps != [] && SortedByKeyText(steps)
    ensures SortedByKeyText(steps[1..])
  {
    var rest := steps[1..];
    forall i | 0 < i < |rest| ensures !KeyTextBefore(rest[i], rest[i - 1]) {
      assert rest[i] == steps[i + 1] && rest[i - 1] == steps[i];
    }
  }

  lemma InsertAtFront(x: Step, sorted: seq<Step>)
    requires SortedByKeyText(sorted)
    requires sorted == [] || !KeyTextBefore(sorted[0], x)
    ensures InsertByKeyText(x, sorted) == [x] + sorted
  {
  }

  lemma {:induction false} SortSortedIsIdentity(steps: seq<Step>)
    requires SortedByKeyText(steps)
    ensures SortByKeyText(steps) == steps
    decreases |steps|
  {
    if steps != [] {
      var rest := steps[1..];
      SortedTail(steps);
      SortSortedIsIdentity(rest);
      assert SortByKeyText(steps) == InsertByKeyText(steps[0], rest);
      assert rest != [] ==> rest[0] == steps[1];
      InsertAtFront(steps[0], rest);
      assert steps == [steps[0]] + rest;
    }
  }

  /** The default keys 13, 33, 67 and 94 all have two digits, so sorting them as strings
      keeps their numeric order and both versions of scoreText agree on the defaults. */
  lemma DefaultStepsKeepOrder()
    ensures SortByKeyText(DefaultSteps) == DefaultSteps
  {
    assert Decimal(13) == "13" && Decimal(33) == "33" && Decimal(67) == "67" && Decimal(94) == "94";
    assert SortedByKeyText(DefaultSteps);
    SortSortedIsIdentity(DefaultSteps);
  }

  /** Where LastBelow stops on the default steps. */
  lemma DefaultLastBelow(score: int)
    ensures score <= 13 ==> LastBelow(DefaultSteps, score, Defaults.shortPass) == Defaults.shortPass
    ensures 13 < score <= 33 ==> LastBelow(DefaultSteps, score, Defaults.shortPass) == "Really insecure password"
    ensures 33 < score <= 67 ==> LastBelow(DefaultSteps, score, Defaults.shortPass) == "Weak; try combining letters & numbers"
    ensures 67 < score <= 94 ==> LastBelow(DefaultSteps, score, Defaults.shortPass) == "Medium; try using special characters"
    ensures 94 < score ==> LastBelow(DefaultSteps, score, Defaults.shortPass) == "Strong password"
  {
    var s0, s1, s2, s3 := DefaultSteps[0], DefaultSteps[1], DefaultSteps[2], DefaultSteps[3];
    var fallback := Defaults.shortPass;
    assert DefaultSteps[..3] == [s0, s1, s2];
    assert [s0, s1, s2][..2] == [s0, s1];
    assert [s0, s1][..1] == [s0];
    assert [s0][..0] == [];
    assert LastBelow([s0], score, fallback) == if 13 < score then s0.text else fallback;
    assert LastBelow([s0, s1], score, fallback) == if 33 < score then s1.text else LastBelow([s0], score, fallback);
    assert LastBelow([s0, s1, s2], score, fallback) == if 67 < score then s2.text else LastBelow([s0, s1], score, fallback);
    assert LastBelow(DefaultSteps, score, fallback) == if 94 < score then s3.text else LastBelow([s0, s1, s2], score, fallback);
  }

  /** Worked examples of what the written scoreText returns with the defaults, whose
      string sort leaves the steps in place (DefaultStepsKeepOrder). */
  lemma DefaultScoreTexts()
    ensures TextForScore(Defaults, -1, SortByKeyText(Defaults.steps)) == "The password is too short"
    ensures TextForScore(Defaults, -2, SortByKeyText(Defaults.steps)) == "The password contains your username"
    ensures TextForScore(Defaults, 13, SortByKeyText(Defaults.steps)) == "The password is too short"
    ensures TextForScore(Defaults, 14, SortByKeyText(Defaults.steps)) == "Really insecure password"
    ensures TextForScore(Defaults, 50, SortByKeyText(Defaults.steps)) == "Weak; try combining letters & numbers"
    ensures TextForScore(Defaults, 68, SortByKeyText(Defaults.steps)) == "Medium; try using special characters"
    ensures TextForScore(Defaults, 95, SortByKeyText(Defaults.steps)) == "Strong password"
  {
    DefaultStepsKeepOrder();
    var order := SortByKeyText(Defaults.steps);
    assert order == DefaultSteps;
    NonSentinelText(Defaults, 13, order);
    NonSentinelText(Defaults, 14, order);
    NonSentinelText(Defaults, 50, order);
    NonSentinelText(Defaults, 68, order);
    NonSentinelText(Defaults, 95, order);
    DefaultLastBelow(13);
    DefaultLastBelow(14);
    DefaultLastBelow(50);
    DefaultLastBelow(68);
    DefaultLastBelow(95);
  }

  /** "10" sorts before "5", and "5" before "50". */
  lemma MixedKeysCompare()
    ensures Decimal(5) == "5" && Decimal(10) == "10" && Decimal(50) == "50"
    ensures CodeUnitLess("10", "5") && CodeUnitLess("5", "50") && CodeUnitLess("10", "50")
  {
  }

  lemma TenFiftySorted()
    ensures SortByKeyText([Step(10, "ten"), Step(50, "fifty")]) == [Step(10, "ten"), Step(50, "fifty")]
  {
    MixedKeysCompare();
    CodeUnitLessAsymmetric("10", "50");
    assert SortedByKeyText([Step(10, "ten"), Step(50, "fifty")]);
    SortSortedIsIdentity([Step(10, "ten"), Step(50, "fifty")]);
  }

  lemma FiveAfterTen()
    ensures InsertByKeyText(Step(5, "five"), [Step(10, "ten"), Step(50, "fifty")])
            == [Step(10, "ten"), Step(5, "five"), Step(50, "fifty")]
  {
    var five, ten, fifty := Step(5, "five"), Step(10, "ten"), Step(50, "fifty");
    MixedKeysCompare();
    CodeUnitLessAsymmetric("5", "50");
    assert [ten, fifty][1..] == [fifty];
    InsertAtFront(five, [fifty]);
  }

  lemma MixedLengthKeysSort()
    ensures SortByKeyText([Step(5, "five"), Step(10, "ten"), Step(50, "fifty")])
            == [Step(10, "ten"), Step(5, "five"), Step(50, "fifty")]
  {
    var five, ten, fifty := Step(5, "five"), Step(10, "ten"), Step(50, "fifty");
    TenFiftySorted();
    FiveAfterTen();
    assert [five, ten, fifty][1..] == [ten, fifty];
  }

  /** Keys of different lengths sort out of numeric order ("10" < "5" < "50"), so for a
      score of 20 the written scoreText returns the text for 5 where the text for 10, the
      greatest key below 20, is intended. */
  lemma MixedKeysLastBelow(fallback: string)
    ensures LastBelow([Step(10, "ten"), Step(5, "five"), Step(50, "fifty")], 20, fallback) == "five"
    ensures LastBelow([Step(5, "five"), Step(10, "ten"), Step(50, "fifty")], 20, fallback) == "ten"
  {
    var five, ten, fifty := Step(5, "five"), Step(10, "ten"), Step(50, "fifty");
    assert [ten, five, fifty][..2] == [ten, five];
    assert [five, ten, fifty][..2] == [five, ten];
  }

  /** For any options whose steps are 5, 10 and 50, a score of 20 gets the text for 5 from
      the written scoreText and the text for 10 in numeric order. */
  lemma KeyTextSortMisordersSteps(o: Options)
    requires o.steps == [Step(5, "five"), Step(10, "ten"), Step(50, "fifty")]
    ensures SortByKeyText(o.steps) == [Step(10, "ten"), Step(5, "five"), Step(50, "fifty")]
    ensures TextForScore(o, 20, SortByKeyText(o.steps)) == "five"
    ensures TextForScore(o, 20, o.steps) == "ten"
  {
    MixedLengthKeysSort();
    MixedKeysLastBelow(o.shortPass);
    NonSentinelText(o, 20, SortByKeyText(o.steps));
    NonSentinelText(o, 20, o.steps);
  }
}
