/**
 * The form validators of src/utils/validators.ts: the e-mail shape check,
 * the password rule with its 0..4 strength score, and the score's label.
 */
module Validators {
  import opened Text
  import opened Wrappers

  // ---------------------------------------------------------------- e-mail

  /** A character of the regular-expression class `[^\s@]`. */
  predicate EmailChar(c: char)
  {
    !IsSpace(c) && c != '@'
  }

  predicate EmailChars(s: string)
  {
    forall i :: 0 <= i < |s| ==> EmailChar(s[i])
  }

  /** `e` matches `^[^\s@]+@[^\s@]+\.[^\s@]{2,}$` with its `@` at `a` and the
      dot the pattern's `\.` stands on at `d`. */
  predicate EmailSplitAt(e: string, a: int, d: int)
  {
    1 <= a && a + 2 <= d && d + 3 <= |e|
    && e[a] == '@' && e[d] == '.'
    && EmailChars(e[..a]) && EmailChars(e[a + 1..d]) && EmailChars(e[d + 1..])
  }

  /** The regular expression of validators.ts line 7: with backtracking it
      matches when some `@` and some later `.` cut the string into runs of
      `[^\s@]` of at least 1, 1 and 2 characters. */
  predicate MatchesEmailPattern(e: string)
  {
    exists a, d | 0 <= a < d < |e| :: EmailSplitAt(e, a, d)
  }

  /** `isValidEmail`: non-empty, and the pattern matches the trimmed text. */
  function IsValidEmail(email: string): (r: bool)
    ensures email == [] ==> !r
  {
    email != [] && MatchesEmailPattern(Trim(email))
  }

  /** The pattern on some addresses: one letter on each side of `@` and a
      two-letter top-level part pass; a one-letter top-level part, white space
      in the local part and a second `@` do not. */
  lemma EmailPatternExamples()
    ensures MatchesEmailPattern("a@b.co")
    ensures !MatchesEmailPattern("a@b.c")
    ensures !MatchesEmailPattern("a b@c.de")
    ensures !MatchesEmailPattern("a@b@c.de")
  {
    var e1 := "a@b.co";
    assert e1[..1] == "a" && e1[2..3] == "b" && e1[4..] == "co";
    assert EmailSplitAt(e1, 1, 3);
    var e3 := "a b@c.de";
    forall a, d | 0 <= a < d < |e3| ensures !EmailSplitAt(e3, a, d) {
      if 1 <= a && e3[a] == '@' {
        assert a == 3;
        assert e3[..a][1] == ' ';
      }
    }
    var e4 := "a@b@c.de";
    forall a, d | 0 <= a < d < |e4| ensures !EmailSplitAt(e4, a, d) {
      if a == 1 && e4[d] == '.' && a + 2 <= d {
        assert d == 5;
        assert e4[a + 1..d][1] == '@';
      } else if a == 3 {
        assert e4[..a][1] == '@';
      }
    }
  }

  /** Surrounding white space is ignored. */
  lemma EmailIgnoresSurroundingSpace(s: string)
    ensures IsValidEmail(s) == IsValidEmail(Trim(s))
  {
    TrimIdempotent(s);
  }

  /** Every local part, `@`, domain part, `.` and top-level part of the
      pattern's shape is accepted. */
  lemma EmailFromParts(l: string, x: string, y: string)
    requires |l| >= 1 && |x| >= 1 && |y| >= 2
    requires EmailChars(l) && EmailChars(x) && EmailChars(y)
    ensures IsValidEmail(l + "@" + x + "." + y)
  {
    var e := l + "@" + x + "." + y;
    var a, d := |l|, |l| + 1 + |x|;
    assert e[..a] == l && e[a + 1..d] == x && e[d + 1..] == y;
    assert EmailSplitAt(e, a, d);
    assert NoSpace(e) by {
      forall i | 0 <= i < |e| ensures !IsSpace(e[i]) {
        if i < a { assert e[i] == l[i]; }
        else if a < i < d { assert e[i] == x[i - a - 1]; }
        else if d < i { assert e[i] == y[i - d - 1]; }
      }
    }
    TrimNoSpace(e);
  }

  /** Every accepted address has that shape. */
  lemma EmailParts(s: string) returns (l: string, x: string, y: string)
    requires IsValidEmail(s)
    ensures Trim(s) == l + "@" + x + "." + y
    ensures |l| >= 1 && |x| >= 1 && |y| >= 2
    ensures EmailChars(l) && EmailChars(x) && EmailChars(y)
  {
    var e := Trim(s);
    var a, d :| 0 <= a < d < |e| && EmailSplitAt(e, a, d);
    l, x, y := e[..a], e[a + 1..d], e[d + 1..];
    CutAt(e, a, d);
  }

  lemma CutAt(e: string, a: int, d: int)
    requires 0 <= a < d < |e| && e[a] == '@' && e[d] == '.'
    ensures e == e[..a] + "@" + e[a + 1..d] + "." + e[d + 1..]
  {
    assert e[..d] == e[..a] + "@" + e[a + 1..d];
    assert e == e[..d] + "." + e[d + 1..];
  }

  lemma NoAtCount(s: string)
    requires EmailChars(s)
    ensures multiset(s)['@'] == 0
  {
    assert forall i | 0 <= i < |s| :: s[i] != '@';
    assert '@' !in s;
  }

  /** An accepted address holds exactly one `@`. */
  lemma ValidEmailHasOneAt(s: string)
    requires IsValidEmail(s)
    ensures multiset(Trim(s))['@'] == 1
  {
    var l, x, y := EmailParts(s);
    NoAtCount(l);
    NoAtCount(x);
    NoAtCount(y);
    assert multiset(l + "@" + x + "." + y)
      == multiset(l) + multiset("@") + multiset(x) + multiset(".") + multiset(y);
  }

  lemma EmailSplitAtToLower(e: string, a: int, d: int)
    ensures EmailSplitAt(ToLower(e), a, d) == EmailSplitAt(e, a, d)
  {
    forall c: char ensures IsSpace(Lower(c)) == IsSpace(c) && (Lower(c) == '@') == (c == '@')
      && (Lower(c) == '.') == (c == '.') {
      LowerKeepsClasses(c);
    }
    if 1 <= a && a + 2 <= d && d + 3 <= |e| {
      var le := ToLower(e);
      assert le[..a] == ToLower(e[..a]);
      assert le[a + 1..d] == ToLower(e[a + 1..d]);
      assert le[d + 1..] == ToLower(e[d + 1..]);
      EmailCharsToLower(e[..a]);
      EmailCharsToLower(e[a + 1..d]);
      EmailCharsToLower(e[d + 1..]);
    }
  }

  lemma EmailCharsToLower(s: string)
    ensures EmailChars(ToLower(s)) == EmailChars(s)
  {
    forall i | 0 <= i < |s| ensures EmailChar(ToLower(s)[i]) == EmailChar(s[i]) {
      LowerKeepsClasses(s[i]);
    }
  }

  /** Letter case does not matter to the check. */
  lemma EmailIgnoresCase(s: string)
    ensures IsValidEmail(ToLower(s)) == IsValidEmail(s)
  {
    TrimToLower(s);
    var e := Trim(s);
    forall a, d | 0 <= a < d < |e| ensures EmailSplitAt(ToLower(e), a, d) == EmailSplitAt(e, a, d) {
      EmailSplitAtToLower(e, a, d);
    }
  }

  // -------------------------------------------------------------- password

  /** The four character classes of validators.ts lines 32-35; every
      character belongs to exactly one. */
  datatype CharClass = Lowercase | Uppercase | Digit | Special

  function ClassOf(c: char): CharClass
  {
    if 'a' <= c <= 'z' then Lowercase
    else if 'A' <= c <= 'Z' then Uppercase
    else if '0' <= c <= '9' then Digit
    else Special
  }

  /** The classes that occur in a password. */
  function ClassesIn(p: string): set<CharClass>
  {
    set i | 0 <= i < |p| :: ClassOf(p[i])
  }

  /** `/[a-z]/.test(p)` */
  predicate HasLower(p: string)
  {
    exists i | 0 <= i < |p| :: 'a' <= p[i] <= 'z'
  }

  /** `/[A-Z]/.test(p)` */
  predicate HasUpper(p: string)
  {
    exists i | 0 <= i < |p| :: 'A' <= p[i] <= 'Z'
  }

  /** `/[0-9]/.test(p)` */
  predicate HasDigit(p: string)
  {
    exists i | 0 <= i < |p| :: '0' <= p[i] <= '9'
  }

  /** `/[^A-Za-z0-9]/.test(p)` */
  predicate HasSpecial(p: string)
  {
    exists i | 0 <= i < |p| :: !('a' <= p[i] <= 'z' || 'A' <= p[i] <= 'Z' || '0' <= p[i] <= '9')
  }

  function Count(b: bool): nat
  {
    if b then 1 else 0
  }

  /** `[hasLower, hasUpper, hasDigit, hasSpecial].filter(Boolean).length` */
  function ClassScore(p: string): nat
  {
    Count(HasLower(p)) + Count(HasUpper(p)) + Count(HasDigit(p)) + Count(HasSpecial(p))
  }

  datatype PasswordCheck = PasswordCheck(valid: bool, score: nat, message: Option<string>)

  const TooShortMessage := "Password must be at least 8 characters"
  const TooFewClassesMessage :=
    "Password should include at least three of: lowercase, uppercase, number, special character"

  /** `validatePassword`: a password passes when it has at least 8 characters
      and at least three of the four classes; the message is there exactly
      when it fails; a short password scores 0 whatever it contains. */
  function ValidatePassword(p: string): (r: PasswordCheck)
    ensures |p| < 8 ==> r == PasswordCheck(false, 0, Some(TooShortMessage))
    ensures 0 <= r.score <= 4
    ensures r.valid <==> |p| >= 8 && r.score >= 3
    ensures r.message == None <==> r.valid
  {
    if |p| < 8 then PasswordCheck(false, 0, Some(TooShortMessage))
    else
      var score := ClassScore(p);
      if score < 3 then PasswordCheck(false, score, Some(TooFewClassesMessage))
      else PasswordCheck(true, score, None)
  }

  lemma CardinalityOfFour(s: set<CharClass>, a: bool, b: bool, c: bool, d: bool)
    requires (Lowercase in s <==> a) && (Uppercase in s <==> b)
    requires (Digit in s <==> c) && (Special in s <==> d)
    ensures |s| == Count(a) + Count(b) + Count(c) + Count(d)
  {
    var s1 := s - {Lowercase};
    var s2 := s1 - {Uppercase};
    var s3 := s2 - {Digit};
    var s4 := s3 - {Special};
    RemoveOne(s, Lowercase);
    RemoveOne(s1, Uppercase);
    RemoveOne(s2, Digit);
    RemoveOne(s3, Special);
    forall k | k in s4 ensures false {
      match k
      case Lowercase =>
      case Uppercase =>
      case Digit =>
      case Special =>
    }
    assert s4 == {};
  }

  lemma RemoveOne<T>(s: set<T>, x: T)
    ensures |s| == |s - {x}| + Count(x in s)
  {
    if x in s {
      assert s == (s - {x}) + {x};
    } else {
      assert s == s - {x};
    }
  }

  lemma LowercaseIn(p: string)
    ensures Lowercase in ClassesIn(p) <==> HasLower(p)
  {
    if HasLower(p) { var i :| 0 <= i < |p| && 'a' <= p[i] <= 'z'; assert ClassOf(p[i]) == Lowercase; }
  }

  lemma UppercaseIn(p: string)
    ensures Uppercase in ClassesIn(p) <==> HasUpper(p)
  {
    if HasUpper(p) { var i :| 0 <= i < |p| && 'A' <= p[i] <= 'Z'; assert ClassOf(p[i]) == Uppercase; }
  }

  lemma DigitIn(p: string)
    ensures Digit in ClassesIn(p) <==> HasDigit(p)
  {
    if HasDigit(p) { var i :| 0 <= i < |p| && '0' <= p[i] <= '9'; assert ClassOf(p[i]) == Digit; }
  }

  lemma SpecialIn(p: string)
    ensures Special in ClassesIn(p) <==> HasSpecial(p)
  {
    if HasSpecial(p) {
      var i :| 0 <= i < |p| && !('a' <= p[i] <= 'z' || 'A' <= p[i] <= 'Z' || '0' <= p[i] <= '9');
      assert ClassOf(p[i]) == Special;
    }
  }

  /** The score of a long enough password is the number of distinct
      character classes it uses. */
  lemma ScoreCountsClasses(p: string)
    requires |p| >= 8
    ensures ValidatePassword(p).score == |ClassesIn(p)|
  {
    LowercaseIn(p);
    UppercaseIn(p);
    DigitIn(p);
    SpecialIn(p);
    CardinalityOfFour(ClassesIn(p), HasLower(p), HasUpper(p), HasDigit(p), HasSpecial(p));
  }

  /** Appending characters never lowers the score nor turns a valid
      password invalid. */
  lemma ScoreGrowsWithAppend(p: string, q: string)
    ensures ValidatePassword(p).score <= ValidatePassword(p + q).score
    ensures ValidatePassword(p).valid ==> ValidatePassword(p + q).valid
  {
    if |p| < 8 {
      return;
    }
    var pq := p + q;
    assert ClassesIn(p) <= ClassesIn(pq) by {
      forall i | 0 <= i < |p| ensures ClassOf(p[i]) in ClassesIn(pq) { assert pq[i] == p[i]; }
    }
    ScoreCountsClasses(p);
    ScoreCountsClasses(pq);
    SubsetCardinality(ClassesIn(p), ClassesIn(pq));
  }

  lemma SubsetCardinality<T>(a: set<T>, b: set<T>)
    requires a <= b
    ensures |a| <= |b|
  {
    assert b == a + (b - a);
  }

  /** A password with all four classes, and one with a single class. */
  lemma StrongPasswordExample()
    ensures ValidatePassword("Aa1!aaaa") == PasswordCheck(true, 4, None)
  {
    var p := "Aa1!aaaa";
    assert p[0] == 'A' && p[1] == 'a' && p[2] == '1' && p[3] == '!';
    assert HasUpper(p) && HasLower(p) && HasDigit(p) && HasSpecial(p);
  }

  lemma OneClassPasswordExample()
    ensures ValidatePassword("aaaaaaaa") == PasswordCheck(false, 1, Some(TooFewClassesMessage))
  {
    var q := "aaaaaaaa";
    assert forall i | 0 <= i < |q| :: q[i] == 'a';
    assert HasLower(q) by { assert q[0] == 'a'; }
  }

  // ------------------------------------------------------- strength label

  datatype StrengthLabel = StrengthLabel(name: string, colorClass: string)

  /** Position of a label on the strength meter, weakest first. */
  function LabelRank(name: string): int
  {
    if name == "Very weak" then 0
    else if name == "Weak" then 1
    else if name == "Good" then 2
    else if name == "Strong" then 3
    else -1
  }

  /** The four labels of the meter with their colours, weakest first. */
  const StrengthLabels: seq<StrengthLabel> := [
    StrengthLabel("Very weak", "bg-red-400"),
    StrengthLabel("Weak", "bg-orange-400"),
    StrengthLabel("Good", "bg-yellow-400"),
    StrengthLabel("Strong", "bg-emerald-400")
  ]

  /** `passwordStrengthLabel`: one of the four labels, ranked by the score
      clamped to 1..4, with that label's colour. */
  function PasswordStrengthLabel(score: int): (r: StrengthLabel)
    ensures LabelRank(r.name) == (if score <= 1 then 0 else if score >= 4 then 3 else score - 1)
    ensures r == StrengthLabels[LabelRank(r.name)]
  {
    if score <= 1 then StrengthLabel("Very weak", "bg-red-400")
    else if score == 2 then StrengthLabel("Weak", "bg-orange-400")
    else if score == 3 then StrengthLabel("Good", "bg-yellow-400")
    else StrengthLabel("Strong", "bg-emerald-400")
  }

  /** A higher score never gets a weaker label. */
  lemma StrengthLabelMonotone(s1: int, s2: int)
    requires s1 <= s2
    ensures LabelRank(PasswordStrengthLabel(s1).name) <= LabelRank(PasswordStrengthLabel(s2).name)
  {
  }
}
