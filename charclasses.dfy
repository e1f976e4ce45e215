/** The regular-expression tests of calculateScore (src/password.js:104-139), stated as
    character-class predicates over positions of the password. An unanchored pattern
    `X.*Y` matches when some character of class X is followed by a character of class Y
    with only non-line-terminators between them, because `.` does not match a line
    terminator. */
module CharClasses {

  /** The character classes the patterns use. */
  datatype CharClass =
    | Digit        // [0-9], also \d
    | Lower        // [a-z]
    | Upper        // [A-Z]
    | Letter       // [a-zA-Z]
    | PairSymbol   // [!,@,#,$,%,^,&,*,?,_,~-] of the two-symbol test: the comma is a member
    | Symbol       // [!@#$%^&*?_~-]
    | Word         // \w

  predicate InClass(c: char, cls: CharClass)
  {
    match cls
    case Digit => '0' <= c <= '9'
    case Lower => 'a' <= c <= 'z'
    case Upper => 'A' <= c <= 'Z'
    case Letter => 'a' <= c <= 'z' || 'A' <= c <= 'Z'
    case PairSymbol => c in "!,@#$%^&*?_~-"
    case Symbol => c in "!@#$%^&*?_~-"
    case Word => 'a' <= c <= 'z' || 'A' <= c <= 'Z' || '0' <= c <= '9' || c == '_'
  }

  /** The characters JavaScript's `.` refuses to match. */
  predicate IsLineTerminator(c: char)
  {
    c == '\n' || c == '\r' || c == '\U{2028}' || c == '\U{2029}'
  }

  /** No line terminator lies between positions `i` and `j` (inclusive). */
  predicate OnOneLine(s: string, i: nat, j: nat)
    requires i <= j < |s|
  {
    forall m :: i <= m <= j ==> !IsLineTerminator(s[m])
  }

  predicate HasLineTerminator(s: string)
  {
    exists m :: 0 <= m < |s| && IsLineTerminator(s[m])
  }

  /** /([X])/ : some character of the class occurs. */
  predicate Has(s: string, cls: CharClass)
  {
    exists i :: 0 <= i < |s| && InClass(s[i], cls)
  }

  /** /(X.*Y)/ : a character of class `first` is followed, on the same line, by one of
      class `second`. */
  predicate HasPairOnOneLine(s: string, first: CharClass, second: CharClass)
  {
    exists i, j :: 0 <= i < j < |s| && InClass(s[i], first) && InClass(s[j], second) && OnOneLine(s, i, j)
  }

  /** /(.*X.*X.*X)/ : three characters of the class on one line. */
  predicate HasThreeOnOneLine(s: string, cls: CharClass)
  {
    exists i, j, k :: 0 <= i < j < k < |s| && InClass(s[i], cls) && InClass(s[j], cls) && InClass(s[k], cls)
                      && OnOneLine(s, i, k)
  }

  /** /^X+$/ : the whole (non-empty) input consists of the class. */
  predicate AllIn(s: string, cls: CharClass)
  {
    |s| > 0 && forall i :: 0 <= i < |s| ==> InClass(s[i], cls)
  }

  /** Digits are word characters, so /^\d+$/ never matches where /^\w+$/ does not. */
  lemma AllDigitsAreWord(s: string)
    requires AllIn(s, Digit)
    ensures AllIn(s, Word)
  {
  }

  /** Number of characters of the class. */
  function Count(s: string, cls: CharClass): nat
  {
    if s == [] then 0
    else Count(s[..|s| - 1], cls) + (if InClass(s[|s| - 1], cls) then 1 else 0)
  }

  lemma {:induction false} CountMonotone(s: string, cls: CharClass, p: nat, q: nat)
    requires p <= q <= |s|
    ensures Count(s[..p], cls) <= Count(s[..q], cls)
    decreases q - p
  {
    if p < q {
      CountMonotone(s, cls, p, q - 1);
      assert s[..q][..q - 1] == s[..q - 1];
    }
  }

  /** The count up to and including a member of the class exceeds the count before it. */
  lemma CountStepsAt(s: string, cls: CharClass, k: nat)
    requires k < |s| && InClass(s[k], cls)
    ensures Count(s[..k + 1], cls) == Count(s[..k], cls) + 1
  {
    assert s[..k + 1][..k] == s[..k];
  }

  /** When the count reaches c + 1, some member of the class has at least c members before
      it. */
  lemma {:induction false} MemberAfterCount(s: string, cls: CharClass, c: nat)
    requires Count(s, cls) >= c + 1
    ensures exists k :: 0 <= k < |s| && InClass(s[k], cls) && Count(s[..k], cls) >= c
    decreases |s|
  {
    var n := |s| - 1;
    assert s[..|s|] == s;
    if InClass(s[n], cls) {
      assert Count(s[..n], cls) >= c;
    } else {
      MemberAfterCount(s[..n], cls, c);
      var k :| 0 <= k < n && InClass(s[..n][k], cls) && Count(s[..n][..k], cls) >= c;
      assert s[..n][..k] == s[..k];
    }
  }

  /** A member of the class at `i` adds one to every count taken past it. */
  lemma CountPastMember(s: string, cls: CharClass, i: nat, j: nat)
    requires i < j <= |s| && InClass(s[i], cls)
    ensures Count(s[..j], cls) >= Count(s[..i], cls) + 1
  {
    CountStepsAt(s, cls, i);
    CountMonotone(s, cls, i + 1, j);
  }

  /** Members of the class at `i < j` give a count of at least two. */
  lemma CountTwoMembers(s: string, cls: CharClass, i: nat, j: nat)
    requires i < j < |s| && InClass(s[i], cls) && InClass(s[j], cls)
    ensures Count(s, cls) >= 2
  {
    CountPastMember(s, cls, i, j);
    CountPastMember(s, cls, j, |s|);
    assert s[..|s|] == s;
  }

  lemma ThreeOnOneLineCounts(s: string, cls: CharClass)
    requires HasThreeOnOneLine(s, cls)
    ensures Count(s, cls) >= 3
  {
    var i, j, k :| 0 <= i < j < k < |s| && InClass(s[i], cls) && InClass(s[j], cls) && InClass(s[k], cls)
                  && OnOneLine(s, i, k);
    CountPastMember(s, cls, i, j);
    CountPastMember(s, cls, j, k);
    CountPastMember(s, cls, k, |s|);
    assert s[..|s|] == s;
  }

  /** Two members of the class, the second with at least one before it. */
  lemma MembersOfCount(s: string, cls: CharClass, c: nat) returns (i: nat, j: nat)
    requires Count(s, cls) >= c + 2
    ensures i < j < |s| && InClass(s[i], cls) && InClass(s[j], cls) && Count(s[..i], cls) >= c
  {
    MemberAfterCount(s, cls, c + 1);
    var k :| 0 <= k < |s| && InClass(s[k], cls) && Count(s[..k], cls) >= c + 1;
    MemberAfterCount(s[..k], cls, c);
    var m :| 0 <= m < k && InClass(s[..k][m], cls) && Count(s[..k][..m], cls) >= c;
    assert s[..k][..m] == s[..m];
    i, j := m, k;
  }

  lemma ThreeOfCount(s: string, cls: CharClass)
    requires !HasLineTerminator(s) && Count(s, cls) >= 3
    ensures HasThreeOnOneLine(s, cls)
  {
    var j, k := MembersOfCount(s, cls, 1);
    MemberAfterCount(s[..j], cls, 0);
    var i :| 0 <= i < j && InClass(s[..j][i], cls);
    assert InClass(s[i], cls);
    assert OnOneLine(s, i, k);
  }

  /** On a password without line terminators, the three-of-a-class pattern matches exactly
      when the class occurs at least three times, anywhere. */
  lemma ThreeOnOneLineIffCount(s: string, cls: CharClass)
    requires !HasLineTerminator(s)
    ensures HasThreeOnOneLine(s, cls) <==> Count(s, cls) >= 3
  {
    if HasThreeOnOneLine(s, cls) {
      ThreeOnOneLineCounts(s, cls);
    }
    if Count(s, cls) >= 3 {
      ThreeOfCount(s, cls);
    }
  }

  lemma TwoOnOneLineCounts(s: string, cls: CharClass)
    requires HasPairOnOneLine(s, cls, cls)
    ensures Count(s, cls) >= 2
  {
    var i, j :| 0 <= i < j < |s| && InClass(s[i], cls) && InClass(s[j], cls) && OnOneLine(s, i, j);
    CountTwoMembers(s, cls, i, j);
  }

  lemma TwoOfCount(s: string, cls: CharClass)
    requires !HasLineTerminator(s) && Count(s, cls) >= 2
    ensures HasPairOnOneLine(s, cls, cls)
  {
    var i, j := MembersOfCount(s, cls, 0);
    assert OnOneLine(s, i, j);
  }

  /** Likewise the two-of-a-class pattern matches exactly when the class occurs twice. */
  lemma TwoOnOneLineIffCount(s: string, cls: CharClass)
    requires !HasLineTerminator(s)
    ensures HasPairOnOneLine(s, cls, cls) <==> Count(s, cls) >= 2
  {
    if HasPairOnOneLine(s, cls, cls) {
      TwoOnOneLineCounts(s, cls);
    }
    if Count(s, cls) >= 2 {
      TwoOfCount(s, cls);
    }
  }

  /** Without line terminators, the mixed-case pattern matches exactly when the password
      holds both a lower-case and an upper-case letter, in either order. */
  lemma MixedCaseIffBoth(s: string)
    requires !HasLineTerminator(s)
    ensures (HasPairOnOneLine(s, Lower, Upper) || HasPairOnOneLine(s, Upper, Lower))
            <==> Has(s, Lower) && Has(s, Upper)
  {
    if Has(s, Lower) && Has(s, Upper) {
      var i :| 0 <= i < |s| && InClass(s[i], Lower);
      var j :| 0 <= j < |s| && InClass(s[j], Upper);
      if i < j {
        assert OnOneLine(s, i, j);
      } else {
        assert j < i;
        assert OnOneLine(s, j, i);
      }
    }
  }

  /** A line terminator between the only two digits defeats the pattern: `.` does not
      cross it. */
  lemma LineTerminatorSplitsPattern()
    ensures InClass("1\n2\n3"[0], Digit) && InClass("1\n2\n3"[2], Digit) && InClass("1\n2\n3"[4], Digit)
    ensures !HasThreeOnOneLine("1\n2\n3", Digit)
  {
    var s := "1\n2\n3";
    forall i, j, k | 0 <= i < j < k < |s| && InClass(s[i], Digit) && InClass(s[j], Digit) && InClass(s[k], Digit)
      ensures !OnOneLine(s, i, k)
    {
      assert s[1] == '\n' && s[3] == '\n';
      assert i == 0 && k == 4;
      assert IsLineTerminator(s[1]);
    }
  }
}
