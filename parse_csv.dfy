/**
 * `parseCsvText` (src/utils/parseCsv.ts): turns the text of an uploaded file
 * into the raw transaction descriptions, one per data line at most.
 */
module ParseCsv {
  import opened Text

  /** A piece produced by the `/\r?\n/` split loses the `\r` of its `\r\n`. */
  function DropCarriageReturn(s: string): (r: string)
    ensures r == s || (s == r + ['\r'])
  {
    if s != [] && s[|s| - 1] == '\r' then s[..|s| - 1] else s
  }

  /** `text.split(/\r?\n/)`: split at every `\n`; every piece but the last was
      ended by its `\n`, so a `\r` just before that `\n` goes with it. */
  function SplitLines(text: string): (r: seq<string>)
    ensures |r| == |Split(text, '\n')|
  {
    var pieces := Split(text, '\n');
    seq(|pieces|, i requires 0 <= i < |pieces| =>
      if i < |pieces| - 1 then DropCarriageReturn(pieces[i]) else pieces[i])
  }

  function TrimAll(ss: seq<string>): (r: seq<string>)
    ensures |r| == |ss| && forall k :: 0 <= k < |ss| ==> r[k] == Trim(ss[k])
  {
    seq(|ss|, k requires 0 <= k < |ss| => Trim(ss[k]))
  }

  /** `xs` is `ys` with some elements left out and the order kept. */
  ghost predicate SubsequenceOf<T>(xs: seq<T>, ys: seq<T>)
  {
    if xs == [] then true
    else if ys == [] then false
    else if xs[0] == ys[0] then SubsequenceOf(xs[1..], ys[1..])
    else SubsequenceOf(xs, ys[1..])
  }

  /** `.filter(Boolean)` on strings: keeps the non-empty ones, in order. */
  function NonEmpty(ss: seq<string>): (r: seq<string>)
    ensures |r| <= |ss|
    ensures forall k :: 0 <= k < |r| ==> r[k] != []
    ensures forall s :: s in r <==> s in ss && s != []
    ensures SubsequenceOf(r, ss)
  {
    if ss == [] then []
    else if ss[0] == [] then NonEmpty(ss[1..])
    else [ss[0]] + NonEmpty(ss[1..])
  }

  lemma {:induction false} NonEmptyAppend(a: seq<string>, b: seq<string>)
    ensures NonEmpty(a + b) == NonEmpty(a) + NonEmpty(b)
  {
    if a != [] {
      assert (a + b)[1..] == a[1..] + b;
      NonEmptyAppend(a[1..], b);
    } else {
      assert a + b == b;
    }
  }

  /** The trimmed, non-blank lines of the text (parseCsv.ts line 3). Since
      trimming removes a final `\r`, they are the trimmed, non-blank pieces
      between the `\n`s. */
  function Lines(text: string): (r: seq<string>)
    ensures forall k :: 0 <= k < |r| ==> r[k] != [] && r[k] == Trim(r[k])
    ensures r == NonEmpty(TrimAll(Split(text, '\n')))
  {
    TrimmedLinesIgnoreCarriageReturn(text);
    var r := NonEmpty(TrimAll(SplitLines(text)));
    forall k | 0 <= k < |r| ensures r[k] == Trim(r[k]) {
      assert r[k] in TrimAll(SplitLines(text));
      TrimIdempotent(SplitLines(text)[IndexIn(r[k], TrimAll(SplitLines(text)))]);
    }
    r
  }

  function IndexIn<T(==)>(x: T, s: seq<T>): (i: nat)
    requires x in s
    ensures i < |s| && s[i] == x
  {
    if s[0] == x then 0 else 1 + IndexIn(x, s[1..])
  }

  /** A first line that mentions one of these words is a header row. */
  predicate IsHeader(line: string)
  {
    var l := ToLower(line);
    Contains(l, "raw") || Contains(l, "description") || Contains(l, "transaction")
  }

  /** Any line holding one of the three words, in any letter case, is a header. */
  lemma HeaderKeyword(a: string, w: string, b: string)
    requires ToLower(w) == "raw" || ToLower(w) == "description" || ToLower(w) == "transaction"
    ensures IsHeader(a + w + b)
  {
    ToLowerAppend(a + w, b);
    ToLowerAppend(a, w);
    ContainsInside(ToLower(a), ToLower(w), ToLower(b));
  }

  /** Letter case does not matter to the header test. */
  lemma HeaderIgnoresCase(line: string)
    ensures IsHeader(ToLower(line)) == IsHeader(line)
  {
    forall i | 0 <= i < |line| ensures Lower(Lower(line[i])) == Lower(line[i]) {
      LowerKeepsClasses(line[i]);
    }
    assert ToLower(ToLower(line)) == ToLower(line);
  }

  /** The lines that carry data: all of them but a header row in front. */
  function DataLines(lines: seq<string>): (r: seq<string>)
    ensures lines != [] && IsHeader(lines[0]) ==> r == lines[1..]
    ensures lines == [] || !IsHeader(lines[0]) ==> r == lines
  {
    if lines != [] && IsHeader(lines[0]) then lines[1..] else lines
  }

  /** `parts.reduce((a, b) => a.length > b.length ? a : b)`, by index: the
      accumulator gives way to every field at least as long, so the field
      chosen is the right-most of the longest ones. */
  function ReduceLongest(parts: seq<string>, acc: nat, k: nat): (i: nat)
    requires acc < k <= |parts|
    requires forall j :: 0 <= j < k ==> |parts[j]| <= |parts[acc]|
    requires forall j :: acc < j < k ==> |parts[j]| < |parts[acc]|
    ensures i < |parts|
    ensures forall j :: 0 <= j < |parts| ==> |parts[j]| <= |parts[i]|
    ensures forall j :: i < j < |parts| ==> |parts[j]| < |parts[i]|
    decreases |parts| - k
  {
    if k == |parts| then acc
    else ReduceLongest(parts, if |parts[acc]| > |parts[k]| then acc else k, k + 1)
  }

  /** Field `i` is a longest one, and every field after it is shorter. */
  predicate RightmostLongest(parts: seq<string>, i: int)
  {
    0 <= i < |parts|
    && (forall j :: 0 <= j < |parts| ==> |parts[j]| <= |parts[i]|)
    && (forall j :: i < j < |parts| ==> |parts[j]| < |parts[i]|)
  }

  /** The comma-separated field of a line taken as its description
      (parseCsv.ts lines 10-11). */
  function Candidate(line: string): (r: string)
    ensures exists i :: RightmostLongest(Split(line, ','), i) && Split(line, ',')[i] == r
  {
    var parts := Split(line, ',');
    var i := if |parts| == 1 then 0 else ReduceLongest(parts, 0, 1);
    assert RightmostLongest(parts, i);
    parts[i]
  }

  /** 1 if the string starts with a `"`, else 0. */
  function LeadingQuote(s: string): (n: nat)
    ensures n <= |s|
  {
    if s != [] && s[0] == '"' then 1 else 0
  }

  /** 1 if a `"` ends the string and is not the one counted in front, else 0. */
  function TrailingQuote(s: string): (n: nat)
    ensures LeadingQuote(s) + n <= |s|
  {
    if |s| > LeadingQuote(s) && s[|s| - 1] == '"' then 1 else 0
  }

  /** `s.replace(/^"|"$/g, '')`: one `"` off the front and one off the back. */
  function StripQuotes(s: string): (r: string)
    ensures r == s[LeadingQuote(s)..|s| - TrailingQuote(s)]
  {
    var t := if s != [] && s[0] == '"' then s[1..] else s;
    if t != [] && t[|t| - 1] == '"' then t[..|t| - 1] else t
  }

  /** The description taken from one data line (parseCsv.ts lines 10-12). */
  function ExtractLine(line: string): (r: string)
    ensures exists i :: (RightmostLongest(Split(line, ','), i)
                         && r == Trim(StripQuotes(Split(line, ',')[i])))
    ensures r == [] || (!IsSpace(r[0]) && !IsSpace(r[|r| - 1]))
  {
    Trim(StripQuotes(Candidate(line)))
  }

  function ExtractAll(lines: seq<string>): (r: seq<string>)
    ensures |r| == |lines| && forall k :: 0 <= k < |lines| ==> r[k] == ExtractLine(lines[k])
  {
    seq(|lines|, k requires 0 <= k < |lines| => ExtractLine(lines[k]))
  }

  /** `parseCsvText`: every description it returns is non-empty, and they come
      in the order of the data lines, at most one per line. The two early
      returns are shortcuts only: for every text the result is exactly the
      non-empty extractions of the data lines. */
  function ParseCsvText(text: string): (r: seq<string>)
    ensures r == NonEmpty(ExtractAll(DataLines(Lines(text))))
    ensures text == [] ==> r == []
    ensures forall k :: 0 <= k < |r| ==> r[k] != []
    ensures |r| <= |Lines(text)|
    ensures SubsequenceOf(r, ExtractAll(DataLines(Lines(text))))
  {
    if text == [] then []
    else
      var lines := Lines(text);
      if lines == [] then []
      else NonEmpty(ExtractAll(DataLines(lines)))
  }

  /** Text with no non-blank line, or with a header line alone, gives nothing. */
  lemma NothingWithoutData(text: string)
    requires |Lines(text)| == 0 || (|Lines(text)| == 1 && IsHeader(Lines(text)[0]))
    ensures ParseCsvText(text) == []
  {
    var data := DataLines(Lines(text));
    assert data == [];
    assert ExtractAll(data) == [];
  }

  /** `/\r?\n/` and `\n` give the same lines once they are trimmed. */
  lemma TrimmedLinesIgnoreCarriageReturn(text: string)
    ensures TrimAll(SplitLines(text)) == TrimAll(Split(text, '\n'))
  {
    var pieces := Split(text, '\n');
    var lines := SplitLines(text);
    forall k | 0 <= k < |pieces| ensures Trim(lines[k]) == Trim(pieces[k]) {
      TrimDropCarriageReturn(pieces[k]);
    }
  }

  /** Trimming removes a final `\r` anyway. */
  lemma TrimDropCarriageReturn(p: string)
    ensures Trim(DropCarriageReturn(p)) == Trim(p)
  {
    if p != [] && p[|p| - 1] == '\r' {
      assert p == p[..|p| - 1] + ['\r'];
      TrimDropsTrailingSpace(p[..|p| - 1], '\r');
    }
  }

  lemma {:induction false} SplitAfterLine(h: string, body: string)
    requires '\n' !in h
    ensures Split(h + "\n" + body, '\n') == [h] + Split(body, '\n')
  {
    if h == [] {
      assert h + "\n" + body == "\n" + body;
      assert ("\n" + body)[1..] == body;
    } else {
      assert (h + "\n" + body)[1..] == h[1..] + "\n" + body;
      SplitAfterLine(h[1..], body);
      assert [h[0]] + h[1..] == h;
    }
  }

  /** The lines of `h\nbody` are the line `h`, then the lines of `body`. */
  lemma LinesAfterLine(h: string, body: string)
    requires '\n' !in h && Trim(h) != []
    ensures Lines(h + "\n" + body) == [Trim(h)] + Lines(body)
  {
    var text := h + "\n" + body;
    SplitAfterLine(h, body);
    TrimmedLinesIgnoreCarriageReturn(text);
    TrimmedLinesIgnoreCarriageReturn(body);
    assert TrimAll(Split(text, '\n')) == [Trim(h)] + TrimAll(Split(body, '\n'));
    NonEmptyAppend([Trim(h)], TrimAll(Split(body, '\n')));
  }

  /** Only the first line is tested for a header: a header-like line in
      front of `body` is dropped, and `body` is then read entirely as data. */
  lemma HeaderLineDropped(h: string, body: string)
    requires '\n' !in h && Trim(h) != [] && IsHeader(Trim(h))
    ensures ParseCsvText(h + "\n" + body) == NonEmpty(ExtractAll(Lines(body)))
  {
    LinesAfterLine(h, body);
    assert ([Trim(h)] + Lines(body))[1..] == Lines(body);
  }

  /** A first line that does not look like a header is data, and is read
      like every line after it. */
  lemma DataLineKept(h: string, body: string)
    requires '\n' !in h && Trim(h) != [] && !IsHeader(Trim(h))
    ensures ParseCsvText(h + "\n" + body)
      == NonEmpty([ExtractLine(Trim(h))]) + NonEmpty(ExtractAll(Lines(body)))
  {
    var text := h + "\n" + body;
    LinesAfterLine(h, body);
    var lines := [Trim(h)] + Lines(body);
    assert Lines(text) == lines && DataLines(lines) == lines;
    ExtractAllAppend([Trim(h)], Lines(body));
    NonEmptyAppend([ExtractLine(Trim(h))], ExtractAll(Lines(body)));
    assert ParseCsvText(text) == NonEmpty(ExtractAll(lines));
  }

  lemma ExtractAllAppend(a: seq<string>, b: seq<string>)
    ensures ExtractAll(a + b) == ExtractAll(a) + ExtractAll(b)
  {
  }

  /** A line without a comma is its own candidate. */
  lemma LineWithoutComma(line: string)
    requires ',' !in line
    ensures ExtractLine(line) == Trim(StripQuotes(line))
  {
    SplitWithoutSeparator(line, ',');
  }

  /** Of two fields of the same maximal length, the right-most one is taken. */
  lemma TieGoesRight()
    ensures Candidate("ab,cd") == "cd"
  {
    var parts := Split("ab,cd", ',');
    SplitWithoutSeparator("cd", ',');
    SplitStep(',', "cd", ',');
    SplitStep('b', ",cd", ',');
    assert ['b'] + "" == "b";
    SplitStep('a', "b,cd", ',');
    assert ['a'] + "b" == "ab";
    assert parts == ["ab", "cd"];
    assert ReduceLongest(parts, 0, 1) == 1;
  }

  lemma SplitStep(x: char, rest: string, c: char)
    ensures Split([x] + rest, c) == if x == c then [[]] + Split(rest, c)
      else [[x] + Split(rest, c)[0]] + Split(rest, c)[1..]
  {
    assert ([x] + rest)[1..] == rest;
  }

  /** Quote stripping removes one quote at each end and keeps the inner ones. */
  lemma StripOneQuotePair(m: string)
    ensures StripQuotes("\"" + m + "\"") == m
  {
    var s := "\"" + m + "\"";
    assert s[1..] == m + "\"";
  }
}
