/**
 * String primitives of JavaScript that the core relies on: `trim`, `\s`,
 * `toLowerCase`, `split` on one character and `includes`.
 * Strings are sequences of code points; case mapping is ASCII only.
 */
module Text {

  /** JavaScript's WhiteSpace and LineTerminator code points, which both
      `String.prototype.trim` and the regular-expression class `\s` use. */
  predicate IsSpace(c: char)
  {
    c == ' ' || c == '\t' || c == '\n' || c == '\r' || c == '\U{B}' || c == '\U{C}'
    || c == '\U{A0}' || c == '\U{1680}' || ('\U{2000}' <= c <= '\U{200A}')
    || c == '\U{2028}' || c == '\U{2029}' || c == '\U{202F}' || c == '\U{205F}'
    || c == '\U{3000}' || c == '\U{FEFF}'
  }

  predicate NoSpace(s: string)
  {
    forall i :: 0 <= i < |s| ==> !IsSpace(s[i])
  }

  /** The number of white-space characters the string starts with. */
  function LeadingSpaces(s: string): (n: nat)
    ensures n <= |s|
    ensures forall i :: 0 <= i < n ==> IsSpace(s[i])
    ensures n < |s| ==> !IsSpace(s[n])
  {
    if s != [] && IsSpace(s[0]) then 1 + LeadingSpaces(s[1..]) else 0
  }

  /** The number of white-space characters the string ends with. */
  function TrailingSpaces(s: string): (n: nat)
    ensures n <= |s|
    ensures forall i :: |s| - n <= i < |s| ==> IsSpace(s[i])
    ensures n < |s| ==> !IsSpace(s[|s| - 1 - n])
  {
    if s != [] && IsSpace(s[|s| - 1]) then 1 + TrailingSpaces(s[..|s| - 1]) else 0
  }

  /** `String.prototype.trim`: the slice of the input between its leading
      and its trailing white space. */
  function Trim(s: string): (r: string)
    ensures |r| <= |s| - LeadingSpaces(s)
    ensures r == s[LeadingSpaces(s)..LeadingSpaces(s) + |r|]
    ensures forall i :: LeadingSpaces(s) + |r| <= i < |s| ==> IsSpace(s[i])
    ensures r != [] ==> !IsSpace(r[0]) && !IsSpace(r[|r| - 1])
  {
    var t := s[LeadingSpaces(s)..];
    t[..|t| - TrailingSpaces(t)]
  }

  lemma LeadingSpacesOfTrimmed(s: string)
    requires s == [] || !IsSpace(s[0])
    ensures LeadingSpaces(s) == 0
  {
  }

  lemma TrailingSpacesOfTrimmed(s: string)
    requires s == [] || !IsSpace(s[|s| - 1])
    ensures TrailingSpaces(s) == 0
  {
  }

  /** Trimming twice is trimming once. */
  lemma TrimIdempotent(s: string)
    ensures Trim(Trim(s)) == Trim(s)
  {
    var r := Trim(s);
    LeadingSpacesOfTrimmed(r);
    TrailingSpacesOfTrimmed(r);
    assert r[0..] == r;
  }

  /** A string without white space is its own trim. */
  lemma TrimNoSpace(s: string)
    requires NoSpace(s)
    ensures Trim(s) == s
  {
    LeadingSpacesOfTrimmed(s);
    TrailingSpacesOfTrimmed(s);
    assert s[0..] == s;
  }

  lemma {:induction false} LeadingSpacesAppend(s: string, t: string)
    requires LeadingSpaces(s) < |s|
    ensures LeadingSpaces(s + t) == LeadingSpaces(s)
  {
    if IsSpace(s[0]) {
      assert (s + t)[1..] == s[1..] + t;
      LeadingSpacesAppend(s[1..], t);
    }
  }

  /** A run of white space followed by text that does not start with white
      space is the whole leading run. */
  lemma {:induction false} LeadingSpacesRun(w: string, b: string)
    requires forall i :: 0 <= i < |w| ==> IsSpace(w[i])
    requires b == [] || !IsSpace(b[0])
    ensures LeadingSpaces(w + b) == |w|
  {
    if w != [] {
      assert (w + b)[1..] == w[1..] + b;
      LeadingSpacesRun(w[1..], b);
    } else {
      assert w + b == b;
    }
  }

  /** Trailing white space does not survive `trim`. */
  lemma TrimDropsTrailingSpace(s: string, c: char)
    requires IsSpace(c)
    ensures Trim(s + [c]) == Trim(s)
  {
    var u := s + [c];
    var a := LeadingSpaces(s);
    if a == |s| {
      assert forall i :: 0 <= i < |u| ==> IsSpace(u[i]);
      assert LeadingSpaces(u) == |u|;
    } else {
      LeadingSpacesAppend(s, [c]);
      var t := s[a..];
      assert u[a..] == t + [c];
      assert (t + [c])[..|t|] == t;
      assert TrailingSpaces(t + [c]) == 1 + TrailingSpaces(t);
    }
  }

  /** ASCII `toLowerCase` of one character. */
  function Lower(c: char): char
  {
    if 'A' <= c <= 'Z' then (c as int + 32) as char else c
  }

  /** ASCII `toUpperCase` of one character. */
  function Upper(c: char): char
  {
    if 'a' <= c <= 'z' then (c as int - 32) as char else c
  }

  function ToLower(s: string): (r: string)
    ensures |r| == |s|
    ensures forall i :: 0 <= i < |s| ==> r[i] == Lower(s[i])
  {
    seq(|s|, i requires 0 <= i < |s| => Lower(s[i]))
  }

  /** Lower-casing keeps white space, `@` and `.` where they were. */
  lemma LowerKeepsClasses(c: char)
    ensures IsSpace(Lower(c)) == IsSpace(c)
    ensures (Lower(c) == '@') == (c == '@')
    ensures (Lower(c) == '.') == (c == '.')
    ensures Lower(Lower(c)) == Lower(c)
  {
  }

  /** Lower-casing commutes with `trim`. */
  lemma TrimToLower(s: string)
    ensures Trim(ToLower(s)) == ToLower(Trim(s))
  {
    forall c: char ensures IsSpace(Lower(c)) == IsSpace(c) { LowerKeepsClasses(c); }
    LeadingSpacesToLower(s);
    var a := LeadingSpaces(s);
    ToLowerDrop(s, a);
    var t := s[a..];
    TrailingSpacesToLower(t);
    ToLowerTake(t, |t| - TrailingSpaces(t));
  }

  lemma ToLowerDrop(s: string, i: int)
    requires 0 <= i <= |s|
    ensures ToLower(s)[i..] == ToLower(s[i..])
  {
  }

  lemma ToLowerTake(s: string, i: int)
    requires 0 <= i <= |s|
    ensures ToLower(s)[..i] == ToLower(s[..i])
  {
  }

  lemma ToLowerAppend(s: string, t: string)
    ensures ToLower(s + t) == ToLower(s) + ToLower(t)
  {
  }

  lemma {:induction false} LeadingSpacesToLower(s: string)
    requires forall c: char :: IsSpace(Lower(c)) == IsSpace(c)
    ensures LeadingSpaces(ToLower(s)) == LeadingSpaces(s)
  {
    if s != [] && IsSpace(s[0]) {
      assert ToLower(s)[1..] == ToLower(s[1..]);
      LeadingSpacesToLower(s[1..]);
    }
  }

  lemma {:induction false} TrailingSpacesToLower(s: string)
    requires forall c: char :: IsSpace(Lower(c)) == IsSpace(c)
    ensures TrailingSpaces(ToLower(s)) == TrailingSpaces(s)
  {
    if s != [] && IsSpace(s[|s| - 1]) {
      assert ToLower(s)[..|s| - 1] == ToLower(s[..|s| - 1]);
      TrailingSpacesToLower(s[..|s| - 1]);
    }
  }

  /** `s.split(c)` for a one-character separator: the pieces between the
      occurrences of `c`; the empty string splits into one empty piece. */
  function Split(s: string, c: char): (r: seq<string>)
    ensures |r| >= 1
    ensures forall k :: 0 <= k < |r| ==> c !in r[k]
  {
    if s == [] then [[]]
    else
      var rest := Split(s[1..], c);
      if s[0] == c then [[]] + rest
      else [[s[0]] + rest[0]] + rest[1..]
  }

  /** `parts.join(c)`. */
  function Join(parts: seq<string>, c: char): string
  {
    if parts == [] then []
    else if |parts| == 1 then parts[0]
    else parts[0] + [c] + Join(parts[1..], c)
  }

  /** Splitting loses nothing: joining the pieces gives the input back. */
  lemma {:induction false} JoinSplit(s: string, c: char)
    ensures Join(Split(s, c), c) == s
  {
    if s != [] {
      var rest := Split(s[1..], c);
      JoinSplit(s[1..], c);
      if s[0] == c {
        assert Split(s, c) == [[]] + rest;
        assert (Split(s, c))[1..] == rest;
      } else {
        var r := Split(s, c);
        assert r == [[s[0]] + rest[0]] + rest[1..];
        if |rest| == 1 {
        } else {
          assert r[1..] == rest[1..];
          assert Join(rest, c) == rest[0] + [c] + Join(rest[1..], c);
        }
      }
    }
  }

  /** A string without the separator splits into itself alone. */
  lemma {:induction false} SplitWithoutSeparator(s: string, c: char)
    requires c !in s
    ensures Split(s, c) == [s]
  {
    if s != [] {
      SplitWithoutSeparator(s[1..], c);
      assert [s[0]] + s[1..] == s;
    }
  }

  /** `s.includes(sub)`. */
  predicate Contains(s: string, sub: string)
  {
    exists i | 0 <= i <= |s| - |sub| :: OccursAt(s, sub, i)
  }

  predicate OccursAt(s: string, sub: string, i: int)
  {
    0 <= i && i + |sub| <= |s| && s[i..i + |sub|] == sub
  }

  /** `includes` finds a string wherever it stands. */
  lemma ContainsInside(a: string, w: string, b: string)
    ensures Contains(a + w + b, w)
  {
    assert (a + w + b)[|a|..|a| + |w|] == w;
    assert OccursAt(a + w + b, w, |a|);
  }

  /** The set `IsSpace` stands for includes the no-break, ideographic and
      byte-order-mark spaces, but not U+0085, the zero-width space or the
      Mongolian vowel separator, which JavaScript does not count as white space. */
  lemma WhiteSpaceSet()
    ensures IsSpace('\U{A0}') && IsSpace('\U{3000}') && IsSpace('\U{FEFF}') && IsSpace('\U{2028}')
    ensures !IsSpace('\U{85}') && !IsSpace('\U{200B}') && !IsSpace('\U{180E}') && !IsSpace('_')
  {
  }
}
