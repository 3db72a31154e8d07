/**
 * The e-mail test both submit handlers apply to the raw e-mail value,
 * `/^[^\s@]+@[^\s@]+\.[^\s@]+$/.test(email)`: a syntactic sanity check, not an
 * address parser.
 */
module EmailPattern {
  import opened Text

  /** The character class `[^\s@]`. */
  predicate Plain(c: char) {
    !IsSpace(c) && c != '@'
  }

  /** `[^\s@]+` matches exactly `s[lo..hi]`. */
  predicate PlainRun(s: string, lo: int, hi: int)
    requires 0 <= lo <= hi <= |s|
  {
    lo < hi && forall k :: lo <= k < hi ==> Plain(s[k])
  }

  /**
   * The pattern as written: the anchored string splits at an '@' (index `at`)
   * and a literal '.' (index `dot`) into three non-empty `[^\s@]+` runs. The
   * domain run is greedy and may itself hold dots; backtracking finds any
   * split, which the existential states directly.
   */
  predicate Matches(s: string) {
    exists at, dot | 0 <= at < |s| && 0 <= dot < |s| && at < dot ::
      s[at] == '@' && s[dot] == '.'
      && PlainRun(s, 0, at) && PlainRun(s, at + 1, dot) && PlainRun(s, dot + 1, |s|)
  }

  predicate NoSpace(s: string) {
    forall k :: 0 <= k < |s| ==> !IsSpace(s[k])
  }

  /** Position `at` holds the only '@' of `s`. */
  predicate OnlyAt(s: string, at: int)
    requires 0 <= at < |s|
  {
    s[at] == '@' && forall k :: 0 <= k < |s| && k != at ==> s[k] != '@'
  }

  /** `d` has a '.' that is neither its first nor its last character. */
  predicate InnerDot(d: string) {
    exists i | 0 < i < |d| - 1 :: d[i] == '.'
  }

  /**
   * The plain reading of the pattern: no whitespace anywhere, exactly one '@',
   * a non-empty part before it, and a part after it with an inner '.'.
   */
  predicate WellShaped(s: string) {
    NoSpace(s) && exists at | 0 < at < |s| :: OnlyAt(s, at) && InnerDot(s[at + 1..])
  }

  /** The pattern matches exactly the well-shaped strings. */
  lemma MatchesIff(s: string)
    ensures Matches(s) <==> WellShaped(s)
  {
    if Matches(s) {
      MatchIsWellShaped(s);
    }
    if WellShaped(s) {
      WellShapedMatches(s);
    }
  }

  lemma MatchIsWellShaped(s: string)
    requires Matches(s)
    ensures WellShaped(s)
  {
    assert !IsSpace('@') && !IsSpace('.');
    var at, dot :| 0 <= at < |s| && 0 <= dot < |s| && at < dot
      && s[at] == '@' && s[dot] == '.'
      && PlainRun(s, 0, at) && PlainRun(s, at + 1, dot) && PlainRun(s, dot + 1, |s|);
    assert NoSpace(s) by {
      forall k | 0 <= k < |s| ensures !IsSpace(s[k]) {
        if k != at && k != dot {
          assert Plain(s[k]);
        }
      }
    }
    assert OnlyAt(s, at) by {
      forall k | 0 <= k < |s| && k != at ensures s[k] != '@' {
        if k != dot {
          assert Plain(s[k]);
        }
      }
    }
    var d := s[at + 1..];
    assert d[dot - at - 1] == '.';
    assert InnerDot(d);
  }

  lemma WellShapedMatches(s: string)
    requires WellShaped(s)
    ensures Matches(s)
  {
    var at :| 0 < at < |s| && OnlyAt(s, at) && InnerDot(s[at + 1..]);
    var d := s[at + 1..];
    var i :| 0 < i < |d| - 1 && d[i] == '.';
    var dot := at + 1 + i;
    assert s[dot] == '.';
    assert forall k :: 0 <= k < |s| && k != at ==> Plain(s[k]);
    assert PlainRun(s, 0, at) && PlainRun(s, at + 1, dot) && PlainRun(s, dot + 1, |s|);
  }

  /** A plain address passes the test. */
  lemma SimpleAddressMatches()
    ensures Matches("a@b.co")
  {
    var s := "a@b.co";
    assert !IsSpace('a') && !IsSpace('b') && !IsSpace('c') && !IsSpace('o');
    assert s[1] == '@' && s[3] == '.';
    assert PlainRun(s, 0, 1) && PlainRun(s, 2, 3) && PlainRun(s, 4, 6);
  }

  /** The test sees the raw value: a leading blank fails it, though `trim` would drop it. */
  lemma LeadingBlankFails(s: string)
    requires |s| > 0 && IsSpace(s[0])
    ensures !Matches(s)
  {
    MatchesIff(s);
  }

  /** A string without a '.' fails the test. */
  lemma NoDotFails(s: string)
    requires '.' !in s
    ensures !Matches(s)
  {
  }
}
