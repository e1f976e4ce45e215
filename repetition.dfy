/** The repetition reducer of the password meter (checkRepetition, src/password.js:160-179).
    Scanning a string left to right, a window of `length` characters that is immediately
    followed by an identical window is dropped; every other character is copied to the result. */
module Repetition {

  /** The `n` characters of `s` starting at `a` equal the `n` characters starting at `b`,
      compared front to back as the inner loop of checkRepetition does. */
  predicate SameWindow(s: string, a: nat, b: nat, n: nat)
    requires a + n <= |s| && b + n <= |s|
    decreases n
  {
    n == 0 || (s[a] == s[b] && SameWindow(s, a + 1, b + 1, n - 1))
  }

  lemma {:induction false} SameWindowAsSlices(s: string, a: nat, b: nat, n: nat)
    requires a + n <= |s| && b + n <= |s|
    ensures SameWindow(s, a, b, n) <==> s[a..a + n] == s[b..b + n]
    decreases n
  {
    if n > 0 {
      SameWindowAsSlices(s, a + 1, b + 1, n - 1);
      assert s[a..a + n] == [s[a]] + s[a + 1..a + n];
      assert s[b..b + n] == [s[b]] + s[b + 1..b + n];
      if s[a..a + n] == s[b..b + n] {
        assert s[a..a + n][0] == s[b..b + n][0];
        assert s[a..a + n][1..] == s[b..b + n][1..];
      }
    }
  }

  /** Comparing one more character at the back extends the comparison. */
  lemma {:induction false} SameWindowExtend(s: string, a: nat, b: nat, n: nat)
    requires a + n < |s| && b + n < |s|
    ensures SameWindow(s, a, b, n + 1) <==> SameWindow(s, a, b, n) && s[a + n] == s[b + n]
    decreases n
  {
    if n > 0 {
      SameWindowExtend(s, a + 1, b + 1, n - 1);
    }
  }

  /** At index `i` the window of `length` characters is followed by an identical window:
      the inner loop ran to completion (a full two-window span remains) and found no
      difference. */
  predicate RepeatsAt(length: nat, s: string, i: nat)
    requires length >= 1 && i <= |s|
  {
    i + 2 * length <= |s| && SameWindow(s, i, i + length, length)
  }

  /** What checkRepetition emits when its scan stands at index `i`. */
  function ReduceFrom(length: nat, s: string, i: nat): (r: string)
    requires length >= 1 && i <= |s|
    ensures |r| <= |s| - i
    decreases |s| - i
  {
    if i == |s| then []
    else if RepeatsAt(length, s, i) then ReduceFrom(length, s, i + length)
    else [s[i]] + ReduceFrom(length, s, i + 1)
  }

  /** The result of checkRepetition(length, s). */
  function Reduced(length: nat, s: string): string
    requires length >= 1
  {
    ReduceFrom(length, s, 0)
  }

  /** How many windows the reducer drops from index `i` on. */
  function DroppedWindows(length: nat, s: string, i: nat): nat
    requires length >= 1 && i <= |s|
    decreases |s| - i
  {
    if i == |s| then 0
    else if RepeatsAt(length, s, i) then 1 + DroppedWindows(length, s, i + length)
    else DroppedWindows(length, s, i + 1)
  }

  /** Each reduction drops exactly one whole window, so the number of characters removed
      is the window length times the number of reductions. */
  lemma {:induction false} ReduceDropsWholeWindows(length: nat, s: string, i: nat)
    requires length >= 1 && i <= |s|
    ensures |s| - i - |ReduceFrom(length, s, i)| == length * DroppedWindows(length, s, i)
    decreases |s| - i
  {
    if i == |s| {
    } else if RepeatsAt(length, s, i) {
      ReduceDropsWholeWindows(length, s, i + length);
      var d := DroppedWindows(length, s, i + length);
      assert length * (1 + d) == length + length * d;
    } else {
      ReduceDropsWholeWindows(length, s, i + 1);
    }
  }

  lemma MultipleBelowIsZero(length: int, d: int)
    requires length >= 1 && 0 <= length * d < length
    ensures d == 0
  {
  }

  lemma MultipleModIsZero(length: nat, d: nat)
    requires length >= 1
    ensures (length * d) % length == 0
  {
    var q, r := (length * d) / length, (length * d) % length;
    assert length * d == length * q + r;
    assert length * (d - q) == r;
    MultipleBelowIsZero(length, d - q);
  }

  /** The number of characters checkRepetition removes is a multiple of the window length. */
  lemma RemovedIsMultipleOfLength(length: nat, s: string)
    requires length >= 1
    ensures (|s| - |Reduced(length, s)|) % length == 0
  {
    ReduceDropsWholeWindows(length, s, 0);
    MultipleModIsZero(length, DroppedWindows(length, s, 0));
  }

  /** One step of the scan at index `i`: skip a repeated window, or emit `s[i]`. */
  lemma ReduceStep(length: nat, s: string, i: nat)
    requires length >= 1 && i < |s|
    ensures RepeatsAt(length, s, i) ==> ReduceFrom(length, s, i) == ReduceFrom(length, s, i + length)
    ensures !RepeatsAt(length, s, i) ==> ReduceFrom(length, s, i) == [s[i]] + ReduceFrom(length, s, i + 1)
  {
  }

  /** The inner loop of checkRepetition at index `i`: compare the window at `i` with the
      one after it, front to back, while a full two-window span remains; a comparison cut
      short by the end of the string is no repeat. */
  method CompareWindows(length: nat, str: string, i: nat) returns (repeated: bool)
    requires length >= 1 && i < |str|
    ensures repeated == RepeatsAt(length, str, i)
  {
    repeated := true;
    var j := 0;
    while j < length && j + i + length < |str|
      invariant 0 <= j <= length
      invariant j == 0 || i + length + j <= |str|
      invariant repeated == (j == 0 || SameWindow(str, i, i + length, j))
    {
      if j > 0 {
        SameWindowExtend(str, i, i + length, j);
      }
      repeated := repeated && str[j + i] == str[j + i + length];
      j := j + 1;
    }
    if j < length {
      repeated := false;
    }
  }

  /** checkRepetition: an outer scan whose index jumps over a repeated window and copies
      every other character. */
  method CheckRepetition(length: nat, str: string) returns (res: string)
    requires length >= 1
    ensures res == Reduced(length, str)
  {
    res := "";
    var repeated := false;
    var i := 0;
    while i < |str|
      invariant 0 <= i <= |str|
      invariant res + ReduceFrom(length, str, i) == Reduced(length, str)
    {
      repeated := CompareWindows(length, str, i);
      ReduceStep(length, str, i);
      if repeated {
        i := i + length - 1;
        repeated := false;
      } else {
        res := res + [str[i]];
      }
      i := i + 1;
    }
  }

  /** `a` can be obtained from `b` by deleting characters. */
  predicate IsSubsequence(a: string, b: string)
    decreases |b|
  {
    if b == [] then a == []
    else (a != [] && a[0] == b[0] && IsSubsequence(a[1..], b[1..])) || IsSubsequence(a, b[1..])
  }

  lemma {:induction false} SubsequenceOfLongerSuffix(a: string, s: string, i: nat, j: nat)
    requires i <= j <= |s|
    requires IsSubsequence(a, s[j..])
    ensures IsSubsequence(a, s[i..])
    decreases j - i
  {
    if i < j {
      SubsequenceOfLongerSuffix(a, s, i + 1, j);
      assert s[i..][1..] == s[i + 1..];
    }
  }

  /** The reduced string only deletes characters of the input; it never reorders or
      invents any. */
  lemma {:induction false} ReduceIsSubsequence(length: nat, s: string, i: nat)
    requires length >= 1 && i <= |s|
    ensures IsSubsequence(ReduceFrom(length, s, i), s[i..])
    decreases |s| - i
  {
    if i == |s| {
    } else if RepeatsAt(length, s, i) {
      ReduceIsSubsequence(length, s, i + length);
      SubsequenceOfLongerSuffix(ReduceFrom(length, s, i), s, i, i + length);
    } else {
      ReduceIsSubsequence(length, s, i + 1);
      var r := ReduceFrom(length, s, i);
      assert r[1..] == ReduceFrom(length, s, i + 1);
      assert s[i..][1..] == s[i + 1..];
    }
  }

  /** No window from index `i` on is followed by a copy of itself. */
  predicate NoRepeatFrom(length: nat, s: string, i: nat)
    requires length >= 1 && i <= |s|
  {
    forall k :: i <= k <= |s| ==> !RepeatsAt(length, s, k)
  }

  /** The reducer leaves the string whole exactly when it holds no repeated window, and it
      shortens it otherwise. */
  lemma {:induction false} ReduceUnchangedIff(length: nat, s: string, i: nat)
    requires length >= 1 && i <= |s|
    ensures ReduceFrom(length, s, i) == s[i..] <==> NoRepeatFrom(length, s, i)
    ensures |ReduceFrom(length, s, i)| == |s| - i <==> NoRepeatFrom(length, s, i)
    decreases |s| - i
  {
    if i == |s| {
    } else if RepeatsAt(length, s, i) {
      assert !NoRepeatFrom(length, s, i);
    } else {
      ReduceUnchangedIff(length, s, i + 1);
      assert s[i..] == [s[i]] + s[i + 1..];
      if NoRepeatFrom(length, s, i + 1) {
        forall k | i <= k <= |s| ensures !RepeatsAt(length, s, k) {
          if k > i { assert i + 1 <= k; }
        }
      }
    }
  }

  /** Within the final stretch, where no full two-window span fits, nothing is reduced. */
  lemma {:induction false} ReduceTailUnchanged(length: nat, s: string, i: nat)
    requires length >= 1 && i <= |s|
    requires |s| - i < 2 * length
    ensures ReduceFrom(length, s, i) == s[i..]
    decreases |s| - i
  {
    if i < |s| {
      ReduceTailUnchanged(length, s, i + 1);
      assert s[i..] == [s[i]] + s[i + 1..];
    }
  }

  /** `r` ends with `t`. */
  predicate EndsWith(r: string, t: string)
  {
    |t| <= |r| && r[|r| - |t|..] == t
  }

  lemma EndsWithCons(c: char, r: string, t: string)
    requires EndsWith(r, t)
    ensures EndsWith([c] + r, t)
  {
    assert ([c] + r)[|[c] + r| - |t|..] == r[|r| - |t|..];
  }

  function Min(a: nat, b: nat): nat
  {
    if a < b then a else b
  }

  lemma TailKeepsSuffix(length: nat, s: string, i: nat)
    requires length >= 1 && i + length <= |s| < i + 2 * length
    ensures EndsWith(ReduceFrom(length, s, i), s[|s| - length..])
  {
    ReduceTailUnchanged(length, s, i);
    assert s[i..][|s| - i - length..] == s[|s| - length..];
  }

  lemma SkipKeepsSuffix(length: nat, s: string, i: nat)
    requires length >= 1 && i + 2 * length <= |s| && RepeatsAt(length, s, i)
    requires EndsWith(ReduceFrom(length, s, i + length), s[|s| - length..])
    ensures EndsWith(ReduceFrom(length, s, i), s[|s| - length..])
  {
    ReduceStep(length, s, i);
  }

  lemma CopyKeepsSuffix(length: nat, s: string, i: nat)
    requires length >= 1 && i + 1 + length <= |s| && !RepeatsAt(length, s, i)
    requires EndsWith(ReduceFrom(length, s, i + 1), s[|s| - length..])
    ensures EndsWith(ReduceFrom(length, s, i), s[|s| - length..])
  {
    ReduceStep(length, s, i);
    EndsWithCons(s[i], ReduceFrom(length, s, i + 1), s[|s| - length..]);
  }

  /** While a full window remains from `i`, the last `length` characters are never
      reduced: they end the output. */
  lemma {:induction false} ReduceKeepsSuffixFrom(length: nat, s: string, i: nat)
    requires length >= 1 && i + length <= |s|
    ensures EndsWith(ReduceFrom(length, s, i), s[|s| - length..])
    decreases |s| - i
  {
    if |s| < i + 2 * length {
      TailKeepsSuffix(length, s, i);
    } else if RepeatsAt(length, s, i) {
      ReduceKeepsSuffixFrom(length, s, i + length);
      SkipKeepsSuffix(length, s, i);
    } else {
      ReduceKeepsSuffixFrom(length, s, i + 1);
      CopyKeepsSuffix(length, s, i);
    }
  }

  /** checkRepetition never reduces within the final `length` characters: the last
      min(length, |s|) characters of `s` end its result. */
  lemma ReducedKeepsSuffix(length: nat, s: string)
    requires length >= 1
    ensures EndsWith(Reduced(length, s), s[|s| - Min(length, |s|)..])
  {
    if length <= |s| {
      ReduceKeepsSuffixFrom(length, s, 0);
    } else {
      ReduceTailUnchanged(length, s, 0);
      assert s[0..] == s;
    }
  }

  /** Worked examples: the last copy of a run survives. */
  lemma ReducedExamples()
    ensures Reduced(1, "aaaa") == "a"
    ensures Reduced(2, "abab") == "ab"
    ensures Reduced(1, "abcabc") == "abcabc"
    ensures Reduced(3, "abcabc") == "abc"
    ensures Reduced(2, "aaaaa") == "aaa"
  {
  }
}
