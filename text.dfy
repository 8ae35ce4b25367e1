/** Character classes and string operations of Python's `str` and `re`,
    restricted to what the crawlers use. */
module Text {

  /** ASCII whitespace as Python's `str.isspace` and the regex class `\s` see it:
      space, tab, line feed, vertical tab, form feed, carriage return and the
      four separator controls 0x1C-0x1F. */
  predicate IsSpace(c: char)
  {
    c == ' ' || c == '\t' || c == '\n' || c == '\r' || c == '\U{0B}' || c == '\U{0C}'
    || ('\U{1C}' <= c <= '\U{1F}')
  }

  /** The class `[A-Za-z0-9]`. */
  predicate IsAsciiAlnum(c: char)
  {
    ('a' <= c <= 'z') || ('A' <= c <= 'Z') || ('0' <= c <= '9')
  }

  predicate IsAsciiDigit(c: char)
  {
    '0' <= c <= '9'
  }

  /** `str.lower` on one character of the ASCII range. */
  function LowerChar(c: char): (r: char)
    ensures 'A' <= c <= 'Z' ==> 'a' <= r <= 'z'
    ensures !('A' <= c <= 'Z') ==> r == c
    ensures IsAsciiAlnum(r) <==> IsAsciiAlnum(c)
  {
    if 'A' <= c <= 'Z' then (c as int + 32) as char else c
  }

  /** `str.lower`, character by character. */
  function Lower(s: string): (r: string)
    ensures |r| == |s|
    ensures forall i :: 0 <= i < |s| ==> r[i] == LowerChar(s[i])
  {
    seq(|s|, i requires 0 <= i < |s| => LowerChar(s[i]))
  }

  /** `str.lstrip()`: the longest suffix that does not start with whitespace,
      obtained by dropping only whitespace. */
  function StripLeft(s: string): (r: string)
    ensures |r| <= |s| && r == s[|s| - |r|..]
    ensures forall i :: 0 <= i < |s| - |r| ==> IsSpace(s[i])
    ensures r == [] || !IsSpace(r[0])
  {
    if s != [] && IsSpace(s[0]) then StripLeft(s[1..]) else s
  }

  /** `str.rstrip()`: the longest prefix that does not end with whitespace,
      obtained by dropping only whitespace. */
  function StripRight(s: string): (r: string)
    ensures |r| <= |s| && r == s[..|r|]
    ensures forall i :: |r| <= i < |s| ==> IsSpace(s[i])
    ensures r == [] || !IsSpace(r[|r| - 1])
  {
    if s != [] && IsSpace(s[|s| - 1]) then StripRight(s[..|s| - 1]) else s
  }

  /** `str.strip()`. */
  function Strip(s: string): string
  {
    StripRight(StripLeft(s))
  }

  predicate AllSpace(s: string)
  {
    forall i :: 0 <= i < |s| ==> IsSpace(s[i])
  }

  /** Whitespace in front of a string is invisible to `lstrip`. */
  lemma {:induction false} StripLeftPrefix(w: string, s: string)
    requires AllSpace(w)
    ensures StripLeft(w + s) == StripLeft(s)
  {
    if w != [] {
      assert (w + s)[0] == w[0] && IsSpace(w[0]);
      assert (w + s)[1..] == w[1..] + s;
      assert AllSpace(w[1..]);
      assert StripLeft(w + s) == StripLeft(w[1..] + s);
      StripLeftPrefix(w[1..], s);
    } else {
      assert w + s == s;
    }
  }

  /** Whitespace after a string is invisible to `rstrip`. */
  lemma {:induction false} StripRightSuffix(s: string, w: string)
    requires AllSpace(w)
    ensures StripRight(s + w) == StripRight(s)
  {
    if w != [] {
      assert (s + w)[|s + w| - 1] == w[|w| - 1] && IsSpace(w[|w| - 1]);
      assert (s + w)[..|s + w| - 1] == s + w[..|w| - 1];
      assert AllSpace(w[..|w| - 1]);
      assert StripRight(s + w) == StripRight(s + w[..|w| - 1]);
      StripRightSuffix(s, w[..|w| - 1]);
    } else {
      assert s + w == s;
    }
  }

  /** `lstrip` of a string followed by whitespace: either everything was
      whitespace, or the whitespace stays behind the stripped text. */
  lemma {:induction false} StripLeftThenSpace(s: string, w: string)
    requires AllSpace(w)
    ensures AllSpace(s) ==> StripLeft(s + w) == []
    ensures !AllSpace(s) ==> StripLeft(s + w) == StripLeft(s) + w
  {
    if s == [] {
      assert s + w == w;
      StripLeftPrefix(w, []);
      assert w + [] == w;
    } else if IsSpace(s[0]) {
      assert (s + w)[0] == s[0];
      assert (s + w)[1..] == s[1..] + w;
      assert AllSpace(s) <==> AllSpace(s[1..]) by {
        assert forall i :: 1 <= i < |s| ==> s[i] == s[1..][i - 1];
      }
      StripLeftThenSpace(s[1..], w);
    } else {
      assert (s + w)[0] == s[0];
      assert !AllSpace(s);
    }
  }

  /** Surrounding whitespace does not change what `strip` returns. */
  lemma StripSurrounding(w1: string, s: string, w2: string)
    requires AllSpace(w1) && AllSpace(w2)
    ensures Strip(w1 + s + w2) == Strip(s)
  {
    assert w1 + s + w2 == w1 + (s + w2);
    StripLeftPrefix(w1, s + w2);
    StripLeftThenSpace(s, w2);
    if AllSpace(s) {
      assert StripLeft(s) == [];
    } else {
      StripRightSuffix(StripLeft(s), w2);
    }
  }

  /** `re.sub(r'\s+', '', s)`: every whitespace character removed. */
  function RemoveWhitespace(s: string): (r: string)
    ensures |r| <= |s|
    ensures forall i :: 0 <= i < |r| ==> !IsSpace(r[i])
  {
    if s == [] then []
    else if IsSpace(s[0]) then RemoveWhitespace(s[1..])
    else [s[0]] + RemoveWhitespace(s[1..])
  }

  /** A string without whitespace comes out of `RemoveWhitespace` unchanged. */
  lemma {:induction false} RemoveWhitespaceNoSpace(s: string)
    requires forall i :: 0 <= i < |s| ==> !IsSpace(s[i])
    ensures RemoveWhitespace(s) == s
  {
    if s != [] {
      RemoveWhitespaceNoSpace(s[1..]);
    }
  }

  /** Removing whitespace works piece by piece. */
  lemma {:induction false} RemoveWhitespaceConcat(x: string, y: string)
    ensures RemoveWhitespace(x + y) == RemoveWhitespace(x) + RemoveWhitespace(y)
  {
    if x != [] {
      assert (x + y)[0] == x[0] && (x + y)[1..] == x[1..] + y;
      RemoveWhitespaceConcat(x[1..], y);
    } else {
      assert x + y == y;
    }
  }

  /** Whitespace disappears entirely. */
  lemma {:induction false} RemoveWhitespaceAllSpace(w: string)
    requires AllSpace(w)
    ensures RemoveWhitespace(w) == []
  {
    if w != [] {
      RemoveWhitespaceAllSpace(w[1..]);
    }
  }

  /** `pat` occurs in `s` starting at index `i`. */
  predicate OccursAt(s: string, i: nat, pat: string)
  {
    i + |pat| <= |s| && s[i..i + |pat|] == pat
  }

  /** Python's `pat in s`. */
  predicate Contains(s: string, pat: string)
  {
    exists i: nat :: i <= |s| && OccursAt(s, i, pat)
  }

  /** Python's `s.endswith(pat)`. */
  predicate EndsWith(s: string, pat: string)
  {
    |pat| <= |s| && s[|s| - |pat|..] == pat
  }

  /** `s.replace(pat, "")` for a non-empty `pat`: scanning left to right,
      every non-overlapping occurrence is removed. */
  function RemoveAll(s: string, pat: string): (r: string)
    requires pat != []
    ensures |r| <= |s|
    decreases |s|
  {
    if |s| < |pat| then s
    else if s[..|pat|] == pat then RemoveAll(s[|pat|..], pat)
    else [s[0]] + RemoveAll(s[1..], pat)
  }

  /** Where `pat` does not occur, `replace` changes nothing. */
  lemma {:induction false} RemoveAllAbsent(s: string, pat: string)
    requires pat != [] && !Contains(s, pat)
    ensures RemoveAll(s, pat) == s
  {
    if |s| >= |pat| {
      assert !OccursAt(s, 0, pat);
      assert !Contains(s[1..], pat) by {
        forall i: nat | i <= |s[1..]| ensures !OccursAt(s[1..], i, pat) {
          assert !OccursAt(s, i + 1, pat);
        }
      }
      RemoveAllAbsent(s[1..], pat);
    }
  }

  /** A leading occurrence of `pat` is cut away. */
  lemma RemoveAllLeading(pat: string, s: string)
    requires pat != [] && !Contains(s, pat)
    ensures RemoveAll(pat + s, pat) == s
  {
    assert (pat + s)[..|pat|] == pat;
    assert (pat + s)[|pat|..] == s;
    RemoveAllAbsent(s, pat);
  }

  /** The index of the first occurrence of `pat` in `s`, or `|s|` when there is none. */
  function FirstOccurrence(s: string, pat: string, from: nat): (i: nat)
    requires from <= |s|
    ensures from <= i <= |s|
    ensures forall j :: from <= j < i ==> !OccursAt(s, j, pat)
    ensures i < |s| ==> OccursAt(s, i, pat)
    decreases |s| - from
  {
    if from == |s| then |s|
    else if OccursAt(s, from, pat) then from
    else FirstOccurrence(s, pat, from + 1)
  }

  /** `s.split(pat)[0]` for a non-empty `pat`: the text before the first occurrence. */
  function BeforeFirst(s: string, pat: string): (r: string)
    requires pat != []
    ensures |r| <= |s| && r == s[..|r|]
    ensures forall j :: 0 <= j < |r| ==> !OccursAt(s, j, pat)
    ensures |r| < |s| ==> OccursAt(s, |r|, pat)
  {
    var i := FirstOccurrence(s, pat, 0);
    if i == |s| then s else s[..i]
  }

  /** `s.split(sep)[-1]` for a one-character separator: the text after the last `sep`. */
  function AfterLast(s: string, sep: char): (r: string)
    ensures |r| <= |s| && r == s[|s| - |r|..]
    ensures sep !in r
    ensures |r| < |s| ==> s[|s| - |r| - 1] == sep
  {
    if s == [] then []
    else if s[|s| - 1] == sep then []
    else AfterLast(s[..|s| - 1], sep) + [s[|s| - 1]]
  }
}
