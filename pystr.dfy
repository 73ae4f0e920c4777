/**
  The Python string operations the keyword indexer relies on, over `seq<char>`:
  `str.count`, `str.strip`, `str.endswith`, the line splitting done by
  `readlines()`, `sep.join`, and `str(n)` for non-negative integers.
  Next to each operation is the partner this model proves it against
  (`str.split`, decimal parsing, a repeated-word reference).
*/
module PyStr {

  //////////////////////////////////////////////////////////////////////////////
  // str.count(sub)
  //////////////////////////////////////////////////////////////////////////////

  /** `w` occurs in `s` starting at position `i`. */
  predicate OccursAt(s: string, w: string, i: int) {
    0 <= i && i + |w| <= |s| && s[i..i + |w|] == w
  }

  /**
    Python's `s.count(w)`: occurrences are taken greedily from the left and
    do not overlap; the empty string occurs once at every position, that is
    `|s| + 1` times.
  */
  function Count(s: string, w: string): (n: nat)
    ensures |w| == 0 ==> n == |s| + 1
    ensures |w| > 0 ==> n * |w| <= |s|
    decreases |s|
  {
    if |w| == 0 then |s| + 1
    else if |s| < |w| then 0
    else if s[..|w|] == w then
      var rest := Count(s[|w|..], w);
      assert (1 + rest) * |w| == rest * |w| + |w|;
      1 + rest
    else Count(s[1..], w)
  }

  lemma OccursAtTail(s: string, w: string, i: nat)
    requires |s| > 0
    ensures OccursAt(s[1..], w, i) <==> OccursAt(s, w, i + 1)
  {
    if 0 <= i && i + 1 + |w| <= |s| {
      assert s[1..][i..i + |w|] == s[i + 1..i + 1 + |w|];
    }
  }

  /** A non-empty word is counted at least once exactly when it occurs somewhere. */
  lemma {:induction false} CountPositiveIff(s: string, w: string)
    requires |w| > 0
    ensures Count(s, w) > 0 <==> exists i :: OccursAt(s, w, i)
    decreases |s|
  {
    if |s| < |w| {
      assert forall i :: !OccursAt(s, w, i);
    } else if s[..|w|] == w {
      assert OccursAt(s, w, 0);
    } else {
      CountPositiveIff(s[1..], w);
      if Count(s, w) > 0 {
        var i :| OccursAt(s[1..], w, i);
        OccursAtTail(s, w, i);
      } else {
        forall i ensures !OccursAt(s, w, i) {
          if i > 0 {
            OccursAtTail(s, w, i - 1);
          }
        }
      }
    }
  }

  /** `k` copies of `w` written one after the other. */
  function Repeat(w: string, k: nat): (r: string)
    ensures |r| == k * |w|
  {
    if k == 0 then [] else w + Repeat(w, k - 1)
  }

  /** A word repeated `k` times is counted exactly `k` times: matches are consumed whole. */
  lemma {:induction false} CountRepeat(w: string, k: nat)
    requires |w| > 0
    ensures Count(Repeat(w, k), w) == k
  {
    if k > 0 {
      var r := Repeat(w, k);
      assert r[..|w|] == w;
      assert r[|w|..] == Repeat(w, k - 1);
      CountRepeat(w, k - 1);
    }
  }

  /** The counts the indexer's behaviour hinges on: whole, non-overlapping matches. */
  lemma CountExamples()
    ensures Count("catcat", "cat") == 2
    ensures Count("aaaa", "aa") == 2
    ensures Count("category", "cat") == 1
    ensures Count("abc", "") == 4
  {
    assert Repeat("cat", 2) == "catcat";
    CountRepeat("cat", 2);
    assert Repeat("aa", 2) == "aaaa";
    CountRepeat("aa", 2);
    var s := "category";
    assert s[..3] == "cat";
    assert s[3..] == "egory";
    assert Count("egory", "cat") == 0 by {
      assert "egory"[..3][0] == 'e';
      assert "egory"[1..] == "gory" && "gory"[..3][0] == 'g';
      assert "gory"[1..] == "ory" && "ory"[..3][0] == 'o';
    }
  }

  //////////////////////////////////////////////////////////////////////////////
  // str.strip()
  //////////////////////////////////////////////////////////////////////////////

  /**
    Python's `str.isspace` for one character: the characters `str.strip()`
    removes (ASCII tab to carriage return, the four information separators,
    space, NEL, no-break space and the Unicode space separators).
  */
  predicate IsSpace(c: char) {
    || ('\t' <= c <= '\r')
    || ('\U{1C}' <= c <= '\U{1F}')
    || c == ' ' || c == '\U{85}' || c == '\U{A0}' || c == '\U{1680}'
    || ('\U{2000}' <= c <= '\U{200A}')
    || c == '\U{2028}' || c == '\U{2029}' || c == '\U{202F}' || c == '\U{205F}'
    || c == '\U{3000}'
  }

  /** The number of whitespace characters `s` starts with. */
  function LeadingSpaces(s: string): (k: nat)
    ensures k <= |s|
    ensures forall j :: 0 <= j < k ==> IsSpace(s[j])
    ensures k < |s| ==> !IsSpace(s[k])
  {
    if s != [] && IsSpace(s[0]) then 1 + LeadingSpaces(s[1..]) else 0
  }

  /** The length of `s` without the whitespace it ends with. */
  function TrailingStart(s: string): (k: nat)
    ensures k <= |s|
    ensures forall j :: k <= j < |s| ==> IsSpace(s[j])
    ensures 0 < k ==> !IsSpace(s[k - 1])
  {
    if s != [] && IsSpace(s[|s| - 1]) then TrailingStart(s[..|s| - 1]) else |s|
  }

  /** `s` is `r` with whitespace only in front of it (the first `i` characters) and behind it. */
  ghost predicate TrimmedAt(s: string, r: string, i: int) {
    && 0 <= i && i + |r| <= |s|
    && r == s[i..i + |r|]
    && (forall j :: 0 <= j < i ==> IsSpace(s[j]))
    && (forall j :: i + |r| <= j < |s| ==> IsSpace(s[j]))
  }

  /**
    `str.strip()`: `s` is the result with whitespace before and after it, and
    the result neither starts nor ends with whitespace.
  */
  function Strip(s: string): (r: string)
    ensures |r| <= |s|
    ensures r == [] || (!IsSpace(r[0]) && !IsSpace(r[|r| - 1]))
    ensures exists i :: TrimmedAt(s, r, i)
  {
    var i := LeadingSpaces(s);
    if i == |s| then
      assert TrimmedAt(s, [], i);
      []
    else
      var j := TrailingStart(s);
      assert i < j;
      assert TrimmedAt(s, s[i..j], i);
      s[i..j]
  }

  /** Stripping twice is stripping once. */
  lemma StripIdempotent(s: string)
    ensures Strip(Strip(s)) == Strip(s)
  {
    var r := Strip(s);
    if r != [] {
      assert LeadingSpaces(r) == 0;
      assert TrailingStart(r) == |r|;
      assert r[0..|r|] == r;
    }
  }

  //////////////////////////////////////////////////////////////////////////////
  // str.endswith(suffix)
  //////////////////////////////////////////////////////////////////////////////

  /** `s.endswith(suffix)`. */
  predicate EndsWith(s: string, suffix: string) {
    |suffix| <= |s| && s[|s| - |suffix|..] == suffix
  }

  /** `s` ends with `suffix` exactly when some tail of `s` is `suffix`. */
  lemma EndsWithIff(s: string, suffix: string)
    ensures EndsWith(s, suffix) <==> exists k :: 0 <= k <= |s| && s[k..] == suffix
  {
    if EndsWith(s, suffix) {
      assert s[|s| - |suffix|..] == suffix;
    }
  }

  /** When `b` ends with `suffix`, so does `a + b`. */
  lemma EndsWithAppend(a: string, b: string, suffix: string)
    requires EndsWith(b, suffix)
    ensures EndsWith(a + b, suffix)
  {
    assert (a + b)[|a + b| - |suffix|..] == b[|b| - |suffix|..];
  }

  //////////////////////////////////////////////////////////////////////////////
  // readlines(): lines of a text read in text mode
  //////////////////////////////////////////////////////////////////////////////

  /** Concatenation of a sequence of strings. */
  function Concat(parts: seq<string>): string {
    if parts == [] then [] else parts[0] + Concat(parts[1..])
  }

  /** Length of the first line of `text`, its `'\n'` included when there is one. */
  function LineLength(text: string): (k: nat)
    ensures k <= |text|
    ensures text != [] ==> k > 0
    ensures forall j :: 0 <= j < k - 1 ==> text[j] != '\n'
    ensures 0 < k < |text| ==> text[k - 1] == '\n'
    decreases |text|
  {
    if text == [] then 0
    else if text[0] == '\n' then 1
    else 1 + LineLength(text[1..])
  }

  /**
    The list `readlines()` returns: the text cut after every `'\n'`, each line
    keeping its terminator; a last line without one is kept, an empty text has
    no lines.
  */
  function ReadLines(text: string): (lines: seq<string>)
    ensures Concat(lines) == text
    ensures forall i :: 0 <= i < |lines| ==> lines[i] != []
    ensures forall i :: 0 <= i < |lines| - 1 ==> lines[i][|lines[i]| - 1] == '\n'
    ensures forall i, j :: 0 <= i < |lines| && 0 <= j < |lines[i]| - 1 ==> lines[i][j] != '\n'
    decreases |text|
  {
    if text == [] then []
    else
      var k := LineLength(text);
      var rest := ReadLines(text[k..]);
      var lines := [text[..k]] + rest;
      assert lines[1..] == rest;
      assert text == text[..k] + text[k..];
      assert forall i :: 1 <= i < |lines| ==> lines[i] == rest[i - 1];
      lines
  }

  //////////////////////////////////////////////////////////////////////////////
  // sep.join(parts) and its partner str.split(sep)
  //////////////////////////////////////////////////////////////////////////////

  /** Python's `sep.join(parts)`. */
  function Join(sep: string, parts: seq<string>): (r: string)
    ensures |parts| == 1 ==> r == parts[0]
  {
    if |parts| == 0 then []
    else if |parts| == 1 then parts[0]
    else parts[0] + sep + Join(sep, parts[1..])
  }

  /** Python's `s.split(c)` for a one-character separator: empty pieces are kept. */
  function Split(s: string, c: char): (parts: seq<string>)
    ensures |parts| > 0
    ensures forall i :: 0 <= i < |parts| ==> c !in parts[i]
    decreases |s|
  {
    if s == [] then [[]]
    else
      var rest := Split(s[1..], c);
      if s[0] == c then [[]] + rest
      else
        var parts := [[s[0]] + rest[0]] + rest[1..];
        assert forall i :: 1 <= i < |parts| ==> parts[i] == rest[i];
        parts
  }

  lemma {:induction false} SplitWithout(a: string, c: char)
    requires c !in a
    ensures Split(a, c) == [a]
    decreases |a|
  {
    if a != [] {
      SplitWithout(a[1..], c);
      assert [a[0]] + a[1..] == a;
    }
  }

  lemma {:induction false} SplitAtFirst(a: string, b: string, c: char)
    requires c !in a
    ensures Split(a + [c] + b, c) == [a] + Split(b, c)
    decreases |a|
  {
    var s := a + [c] + b;
    if a == [] {
      assert s[1..] == b;
    } else {
      assert s[1..] == a[1..] + [c] + b;
      SplitAtFirst(a[1..], b, c);
      assert [a[0]] + a[1..] == a;
    }
  }

  /**
    Splitting a joined text on its one-character separator gives back the
    pieces, provided no piece contains the separator.
  */
  lemma {:induction false} SplitJoin(parts: seq<string>, c: char)
    requires |parts| > 0
    requires forall i :: 0 <= i < |parts| ==> c !in parts[i]
    ensures Split(Join([c], parts), c) == parts
    decreases |parts|
  {
    if |parts| == 1 {
      SplitWithout(parts[0], c);
    } else {
      SplitJoin(parts[1..], c);
      SplitAtFirst(parts[0], Join([c], parts[1..]), c);
      assert [parts[0]] + parts[1..] == parts;
    }
  }

  //////////////////////////////////////////////////////////////////////////////
  // str(n) for n >= 0, and its partner int(s)
  //////////////////////////////////////////////////////////////////////////////

  predicate IsDigit(c: char) {
    '0' <= c <= '9'
  }

  function DigitChar(d: nat): (c: char)
    requires d < 10
    ensures IsDigit(c)
  {
    (48 + d) as char
  }

  /** `str(n)`: decimal digits, most significant first, with no leading zero. */
  function Decimal(n: nat): (s: string)
    ensures |s| > 0
    ensures forall i :: 0 <= i < |s| ==> IsDigit(s[i])
    ensures s[0] == '0' ==> s == "0"
  {
    if n < 10 then [DigitChar(n)]
    else Decimal(n / 10) + [DigitChar(n % 10)]
  }

  /** `int(s)` for a string of decimal digits. */
  function ParseDecimal(s: string): nat
    requires forall i :: 0 <= i < |s| ==> IsDigit(s[i])
  {
    if s == [] then 0
    else
      assert IsDigit(s[|s| - 1]);
      ParseDecimal(s[..|s| - 1]) * 10 + (s[|s| - 1] as int - '0' as int)
  }

  /** `int(str(n)) == n`: the count printed in a statistics line reads back as the count. */
  lemma {:induction false} ParseDecimalOfDecimal(n: nat)
    ensures ParseDecimal(Decimal(n)) == n
  {
    var s := Decimal(n);
    if n >= 10 {
      ParseDecimalOfDecimal(n / 10);
      assert s[..|s| - 1] == Decimal(n / 10);
    }
  }
}
