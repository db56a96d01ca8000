/**
 * The e-mail pattern `^[^\s@]+@[^\s@]+\.[^\s@]+$` shared by the submit-time and the
 * blur-time validators of the contact form.
 *
 * `MatchesEmailPattern` reads the regular expression literally (three non-empty runs of
 * characters that are neither white space nor `@`, separated by `@` and `.`);
 * `IsValidEmail` is the checker the validators use, phrased as a description: no
 * white space, exactly one `@`, a non-empty part before it, and a part after it
 * holding a `.` that is neither its first nor its last character. `EmailPatternIff`
 * proves the two agree on every string.
 */
module Email {
  import opened Wrappers
  import opened Text

  /** A character of the class `[^\s@]`. */
  predicate EmailChar(c: char)
  {
    !IsSpace(c) && c != '@'
  }

  predicate AllEmailChars(s: string)
  {
    forall k :: 0 <= k < |s| ==> EmailChar(s[k])
  }

  /** The regular expression, anchored at both ends, with its backtracking made explicit by `i` and `j`. */
  ghost predicate MatchesEmailPattern(s: string)
    ensures MatchesEmailPattern(s) ==> 5 <= |s| && '@' in s && '.' in s
  {
    exists i, j ::
      && 0 < i && i + 1 < j && j + 1 < |s|
      && s[i] == '@' && s[j] == '.'
      && AllEmailChars(s[..i]) && AllEmailChars(s[i + 1..j]) && AllEmailChars(s[j + 1..])
  }

  /** The position of the first `@`, if any. */
  function FirstAt(s: string): (r: Option<nat>)
    ensures r.Some? ==> r.value < |s| && s[r.value] == '@' && '@' !in s[..r.value]
    ensures r.None? ==> '@' !in s
  {
    if s == [] then None
    else if s[0] == '@' then Some(0)
    else match FirstAt(s[1..])
      case None => None
      case Some(i) => Some(i + 1)
  }

  /** The domain holds a `.` that is neither its first nor its last character. */
  predicate HasInnerDot(d: string)
  {
    exists k :: 0 < k < |d| - 1 && d[k] == '.'
  }

  /**
   * The checker both validators apply: no white space, exactly one `@` with a non-empty part
   * before it, and a domain holding an inner `.`. The shortest accepted address is `a@b.c`.
   */
  predicate IsValidEmail(s: string)
  {
    && NoSpace(s)
    && match FirstAt(s)
       case None => false
       case Some(i) => 0 < i && '@' !in s[i + 1..] && HasInnerDot(s[i + 1..])
  }

  /** An accepted address has at least five characters, as `a@b.c` does, and neither starts nor ends with `@`. */
  lemma {:induction false} ValidEmailLength(s: string)
    requires IsValidEmail(s)
    ensures 5 <= |s| && s[0] != '@' && s[|s| - 1] != '@'
  {
    var i := FirstAt(s).value;
    var k :| 0 < k < |s[i + 1..]| - 1 && s[i + 1..][k] == '.';
    assert s[|s| - 1] == s[i + 1..][|s[i + 1..]| - 1];
  }

  /** The checker accepts exactly the strings the regular expression matches. */
  lemma {:induction false} EmailPatternIff(s: string)
    ensures IsValidEmail(s) <==> MatchesEmailPattern(s)
  {
    if IsValidEmail(s) {
      ValidEmailMatches(s);
    }
    if MatchesEmailPattern(s) {
      MatchImpliesValidEmail(s);
    }
  }

  lemma {:induction false} ValidEmailMatches(s: string)
    requires IsValidEmail(s)
    ensures MatchesEmailPattern(s)
  {
    var i := FirstAt(s).value;
    var d := s[i + 1..];
    var k :| 0 < k < |d| - 1 && d[k] == '.';
    var j := i + 1 + k;
    assert s[j] == '.';
    assert AllEmailChars(s[..i]) by {
      forall m | 0 <= m < i ensures EmailChar(s[..i][m]) {
        assert s[..i][m] in s[..i];
      }
    }
    assert AllEmailChars(s[i + 1..j]) && AllEmailChars(s[j + 1..]) by {
      forall m | i + 1 <= m < |s| ensures EmailChar(s[m]) {
        assert s[m] == d[m - i - 1];
        assert d[m - i - 1] in d;
      }
    }
    assert MatchesEmailPattern(s);
  }

  lemma {:induction false} MatchImpliesValidEmail(s: string)
    requires MatchesEmailPattern(s)
    ensures IsValidEmail(s)
  {
    var i, j :|
      && 0 < i && i + 1 < j && j + 1 < |s|
      && s[i] == '@' && s[j] == '.'
      && AllEmailChars(s[..i]) && AllEmailChars(s[i + 1..j]) && AllEmailChars(s[j + 1..]);
    assert NoSpace(s) by {
      forall m | 0 <= m < |s| ensures !IsSpace(s[m]) {
        if m < i { assert s[m] == s[..i][m]; }
        else if i < m < j { assert s[m] == s[i + 1..j][m - i - 1]; }
        else if j < m { assert s[m] == s[j + 1..][m - j - 1]; }
      }
    }
    assert '@' !in s[..i] by {
      forall m | 0 <= m < i ensures s[..i][m] != '@' {
        assert EmailChar(s[..i][m]);
      }
    }
    FirstAtIs(s, i);
    var d := s[i + 1..];
    assert '@' !in d by {
      forall m | 0 <= m < |d| ensures d[m] != '@' {
        if i + 1 + m < j { assert d[m] == s[i + 1..j][m]; }
        else if i + 1 + m > j { assert d[m] == s[j + 1..][m - (j - i)]; }
      }
    }
    assert d[j - i - 1] == '.';
  }

  /** The first `@` is the one with no `@` before it. */
  lemma {:induction false} FirstAtIs(s: string, i: nat)
    requires i < |s| && s[i] == '@' && '@' !in s[..i]
    ensures FirstAt(s) == Some(i)
  {
    if i > 0 {
      assert s[1..][..i - 1] == s[..i][1..];
      FirstAtIs(s[1..], i - 1);
    }
  }

  /** A valid address holds exactly one `@`. */
  lemma {:induction false} ValidEmailHasOneAt(s: string)
    requires IsValidEmail(s)
    ensures exists i :: 0 < i < |s| && s[i] == '@'
    ensures forall i, j :: 0 <= i < j < |s| && s[i] == '@' ==> s[j] != '@'
  {
    var i := FirstAt(s).value;
    assert s[i] == '@';
    forall a, b | 0 <= a < b < |s| && s[a] == '@' ensures s[b] != '@' {
      if a >= i {
        assert s[i + 1..][b - i - 1] == s[b];
      }
    }
  }

  /** White space anywhere, leading and trailing spaces included, makes an address invalid. */
  lemma {:induction false} SpaceMakesEmailInvalid(s: string, k: nat)
    requires k < |s| && IsSpace(s[k])
    ensures !IsValidEmail(s)
  {
  }
}
