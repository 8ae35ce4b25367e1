/** The field-name normaliser `to_snake_case` of both crawlers: strip, collapse
    every run of whitespace or hyphens into one space, drop everything outside
    `[A-Za-z0-9 ]`, lowercase, and turn spaces into underscores. */
module SnakeCase {
  import opened Text

  /** The regex class `[\s\-]`. */
  predicate IsSeparator(c: char)
  {
    IsSpace(c) || c == '-'
  }

  /** The characters a normalised field name is made of: `[a-z0-9_]`. */
  predicate IsSnakeChar(c: char)
  {
    ('a' <= c <= 'z') || ('0' <= c <= '9') || c == '_'
  }

  predicate AllAlnum(s: string)
  {
    forall i :: 0 <= i < |s| ==> IsAsciiAlnum(s[i])
  }

  predicate AllSeparators(s: string)
  {
    forall i :: 0 <= i < |s| ==> IsSeparator(s[i])
  }

  /** The rest of `s` after its leading run of separators. */
  function DropSeparators(s: string): (r: string)
    ensures |r| <= |s| && r == s[|s| - |r|..]
    ensures forall i :: 0 <= i < |s| - |r| ==> IsSeparator(s[i])
    ensures r == [] || !IsSeparator(r[0])
  {
    if s != [] && IsSeparator(s[0]) then DropSeparators(s[1..]) else s
  }

  /** `re.sub(r'[\s\-]+', ' ', s)`: each maximal run of separators becomes one space. */
  function CollapseSeparators(s: string): (r: string)
    ensures |r| <= |s|
    decreases |s|
  {
    if s == [] then []
    else if IsSeparator(s[0]) then [' '] + CollapseSeparators(DropSeparators(s))
    else [s[0]] + CollapseSeparators(s[1..])
  }

  /** `re.sub(r'[^A-Za-z0-9 ]+', '', s)`: only ASCII letters, digits and spaces stay. */
  function KeepAllowed(s: string): (r: string)
    ensures |r| <= |s|
    ensures forall i :: 0 <= i < |r| ==> IsAsciiAlnum(r[i]) || r[i] == ' '
  {
    if s == [] then []
    else if IsAsciiAlnum(s[0]) || s[0] == ' ' then [s[0]] + KeepAllowed(s[1..])
    else KeepAllowed(s[1..])
  }

  /** `s.replace(' ', '_')`. */
  function SpacesToUnderscores(s: string): (r: string)
    ensures |r| == |s|
    ensures forall i :: 0 <= i < |s| ==> r[i] == (if s[i] == ' ' then '_' else s[i])
  {
    seq(|s|, i requires 0 <= i < |s| => if s[i] == ' ' then '_' else s[i])
  }

  /** `to_snake_case(s)`. */
  function ToSnakeCase(s: string): (r: string)
    ensures |r| <= |s|
    ensures forall i :: 0 <= i < |r| ==> IsSnakeChar(r[i])
  {
    SpacesToUnderscores(Lower(KeepAllowed(CollapseSeparators(Strip(s)))))
  }

  // ---------------------------------------------------------------------------
  // Letters and digits survive, in order and lowercased.

  /** The ASCII letters and digits of `s`, in order. */
  function AlnumOf(s: string): (r: string)
    ensures |r| <= |s|
  {
    if s == [] then []
    else if IsAsciiAlnum(s[0]) then [s[0]] + AlnumOf(s[1..])
    else AlnumOf(s[1..])
  }

  lemma {:induction false} AlnumOfConcat(a: string, b: string)
    ensures AlnumOf(a + b) == AlnumOf(a) + AlnumOf(b)
  {
    if a == [] {
      assert a + b == b;
    } else {
      assert (a + b)[0] == a[0];
      assert (a + b)[1..] == a[1..] + b;
      AlnumOfConcat(a[1..], b);
    }
  }

  /** A string without letters or digits contributes none. */
  lemma {:induction false} AlnumOfNone(s: string)
    requires forall i :: 0 <= i < |s| ==> !IsAsciiAlnum(s[i])
    ensures AlnumOf(s) == []
  {
    if s != [] {
      AlnumOfNone(s[1..]);
    }
  }

  lemma AlnumOfStripLeft(s: string)
    ensures AlnumOf(StripLeft(s)) == AlnumOf(s)
  {
    var l := StripLeft(s);
    var w := s[..|s| - |l|];
    assert s == w + l;
    AlnumOfConcat(w, l);
    AlnumOfNone(w);
  }

  lemma AlnumOfStripRight(s: string)
    ensures AlnumOf(StripRight(s)) == AlnumOf(s)
  {
    var r := StripRight(s);
    var w := s[|r|..];
    assert s == r + w;
    AlnumOfConcat(r, w);
    AlnumOfNone(w);
  }

  lemma AlnumOfStrip(s: string)
    ensures AlnumOf(Strip(s)) == AlnumOf(s)
  {
    AlnumOfStripLeft(s);
    AlnumOfStripRight(StripLeft(s));
  }

  lemma {:induction false} AlnumOfCollapse(s: string)
    ensures AlnumOf(CollapseSeparators(s)) == AlnumOf(s)
    decreases |s|
  {
    if s == [] {
    } else if IsSeparator(s[0]) {
      var d := DropSeparators(s);
      assert s == s[..|s| - |d|] + d;
      AlnumOfConcat(s[..|s| - |d|], d);
      AlnumOfNone(s[..|s| - |d|]);
      AlnumOfCollapse(d);
      AlnumOfConcat([' '], CollapseSeparators(d));
    } else {
      AlnumOfCollapse(s[1..]);
      AlnumOfConcat([s[0]], CollapseSeparators(s[1..]));
    }
  }

  lemma {:induction false} AlnumOfKeep(s: string)
    ensures AlnumOf(KeepAllowed(s)) == AlnumOf(s)
  {
    if s != [] {
      AlnumOfKeep(s[1..]);
      AlnumOfConcat([s[0]], KeepAllowed(s[1..]));
    }
  }

  lemma {:induction false} AlnumOfLower(s: string)
    ensures AlnumOf(Lower(s)) == Lower(AlnumOf(s))
  {
    if s != [] {
      assert Lower(s) == [LowerChar(s[0])] + Lower(s[1..]);
      AlnumOfConcat([LowerChar(s[0])], Lower(s[1..]));
      AlnumOfLower(s[1..]);
      if IsAsciiAlnum(s[0]) {
        assert Lower([s[0]] + AlnumOf(s[1..])) == [LowerChar(s[0])] + Lower(AlnumOf(s[1..]));
      }
    }
  }

  lemma {:induction false} AlnumOfUnderscores(s: string)
    ensures AlnumOf(SpacesToUnderscores(s)) == AlnumOf(s)
  {
    if s != [] {
      var u := SpacesToUnderscores(s);
      assert u == [u[0]] + SpacesToUnderscores(s[1..]);
      AlnumOfConcat([u[0]], SpacesToUnderscores(s[1..]));
      AlnumOfUnderscores(s[1..]);
    }
  }

  /** Every ASCII letter and digit of the input reaches the output, in order
      and lowercased, and the output holds no other letters or digits. */
  lemma KeepsLettersAndDigits(s: string)
    ensures AlnumOf(ToSnakeCase(s)) == Lower(AlnumOf(s))
  {
    var s1 := Strip(s);
    var s2 := CollapseSeparators(s1);
    var s3 := KeepAllowed(s2);
    var s4 := Lower(s3);
    AlnumOfStrip(s);
    AlnumOfCollapse(s1);
    AlnumOfKeep(s2);
    AlnumOfLower(s3);
    AlnumOfUnderscores(s4);
  }

  // ---------------------------------------------------------------------------
  // Separators, surrounding whitespace and underscores.

  /** Whitespace around a label leaves no trace in its normalised form. */
  lemma SurroundingWhitespaceIgnored(w1: string, s: string, w2: string)
    requires AllSpace(w1) && AllSpace(w2)
    ensures ToSnakeCase(w1 + s + w2) == ToSnakeCase(s)
  {
    StripSurrounding(w1, s, w2);
  }

  /** Letters and digits are not separators. */
  lemma AlnumNoSeparators(b: string)
    requires AllAlnum(b)
    ensures forall i :: 0 <= i < |b| ==> !IsSeparator(b[i])
  {
  }

  lemma {:induction false} CollapseAlnumPrefix(a: string, t: string)
    requires AllAlnum(a)
    ensures CollapseSeparators(a + t) == a + CollapseSeparators(t)
  {
    if a == [] {
      assert a + t == t;
    } else {
      var at := a + t;
      AlnumNoSeparators(a);
      assert at[0] == a[0] && !IsSeparator(a[0]);
      assert at[1..] == a[1..] + t;
      assert AllAlnum(a[1..]) by {
        forall i | 0 <= i < |a[1..]| ensures IsAsciiAlnum(a[1..][i]) {
          assert a[1..][i] == a[i + 1];
        }
      }
      assert CollapseSeparators(at) == [a[0]] + CollapseSeparators(a[1..] + t);
      CollapseAlnumPrefix(a[1..], t);
      assert a == [a[0]] + a[1..];
      assert [a[0]] + (a[1..] + CollapseSeparators(t)) == a + CollapseSeparators(t);
    }
  }

  lemma {:induction false} DropSeparatorRun(sep: string, b: string)
    requires AllSeparators(sep)
    requires b == [] || !IsSeparator(b[0])
    ensures DropSeparators(sep + b) == b
  {
    if sep == [] {
      assert sep + b == b;
    } else {
      assert (sep + b)[0] == sep[0];
      assert (sep + b)[1..] == sep[1..] + b;
      DropSeparatorRun(sep[1..], b);
    }
  }

  lemma {:induction false} KeepAllowedUnchanged(s: string)
    requires forall i :: 0 <= i < |s| ==> IsAsciiAlnum(s[i]) || s[i] == ' '
    ensures KeepAllowed(s) == s
  {
    if s != [] {
      KeepAllowedUnchanged(s[1..]);
    }
  }

  /** A string that starts and ends with a non-whitespace character is its own `strip`. */
  lemma StripUnchanged(s: string)
    requires s != [] && !IsSpace(s[0]) && !IsSpace(s[|s| - 1])
    ensures Strip(s) == s
  {
    assert StripLeft(s) == s;
  }

  /** Without separators there is nothing to collapse. */
  lemma {:induction false} CollapseNoSeparators(s: string)
    requires forall i :: 0 <= i < |s| ==> !IsSeparator(s[i])
    ensures CollapseSeparators(s) == s
  {
    if s != [] {
      assert CollapseSeparators(s) == [s[0]] + CollapseSeparators(s[1..]);
      CollapseNoSeparators(s[1..]);
      assert s == [s[0]] + s[1..];
    }
  }

  /** A run of separators followed by a word collapses to one space and the word. */
  lemma CollapseRunThenWord(sep: string, b: string)
    requires sep != [] && AllSeparators(sep) && AllAlnum(b)
    ensures CollapseSeparators(sep + b) == [' '] + b
  {
    var t := sep + b;
    AlnumNoSeparators(b);
    assert IsSeparator(t[0]) by {
      assert t[0] == sep[0];
    }
    DropSeparatorRun(sep, b);
    assert CollapseSeparators(t) == [' '] + CollapseSeparators(DropSeparators(t));
    CollapseNoSeparators(b);
  }

  lemma CollapseJoined(a: string, sep: string, b: string)
    requires sep != [] && AllAlnum(a) && AllAlnum(b) && AllSeparators(sep)
    ensures CollapseSeparators(a + sep + b) == a + [' '] + b
  {
    assert a + sep + b == a + (sep + b);
    CollapseAlnumPrefix(a, sep + b);
    CollapseRunThenWord(sep, b);
    assert a + ([' '] + b) == a + [' '] + b;
  }

  lemma LowerJoined(a: string, b: string)
    requires AllAlnum(a) && AllAlnum(b)
    ensures SpacesToUnderscores(Lower(a + [' '] + b)) == Lower(a) + "_" + Lower(b)
  {
    var l := Lower(a + [' '] + b);
    assert l == Lower(a) + " " + Lower(b);
  }

  lemma KeepAllowedJoined(a: string, b: string)
    requires AllAlnum(a) && AllAlnum(b)
    ensures KeepAllowed(a + [' '] + b) == a + [' '] + b
  {
    var s := a + [' '] + b;
    forall i | 0 <= i < |s| ensures IsAsciiAlnum(s[i]) || s[i] == ' ' {
      if i < |a| {
        assert s[i] == a[i];
      } else if |a| < i {
        assert s[i] == b[i - |a| - 1];
      }
    }
    KeepAllowedUnchanged(s);
  }

  /** Two words joined by any non-empty run of whitespace and hyphens become
      the lowercased words joined by exactly one underscore. */
  lemma JoinedWords(a: string, sep: string, b: string)
    requires a != [] && b != [] && sep != []
    requires AllAlnum(a) && AllAlnum(b) && AllSeparators(sep)
    ensures ToSnakeCase(a + sep + b) == Lower(a) + "_" + Lower(b)
  {
    var s := a + sep + b;
    assert s[0] == a[0] && s[|s| - 1] == b[|b| - 1];
    assert !IsSpace(s[0]) && !IsSpace(s[|s| - 1]);
    StripUnchanged(s);
    CollapseJoined(a, sep, b);
    KeepAllowedJoined(a, b);
    LowerJoined(a, b);
  }

  lemma {:induction false} KeepAllowedConcat(a: string, b: string)
    ensures KeepAllowed(a + b) == KeepAllowed(a) + KeepAllowed(b)
  {
    if a == [] {
      assert a + b == b;
    } else {
      assert (a + b)[0] == a[0];
      assert (a + b)[1..] == a[1..] + b;
      KeepAllowedConcat(a[1..], b);
    }
  }

  lemma LowerOfLetters(a: string)
    requires AllAlnum(a)
    ensures AllAlnum(Lower(a)) && Lower(Lower(a)) == Lower(a)
  {
  }

  /** Letters, digits and underscores are not separators. */
  lemma LabelNoSeparators(s: string)
    requires forall i :: 0 <= i < |s| ==> IsAsciiAlnum(s[i]) || s[i] == '_'
    ensures forall i :: 0 <= i < |s| ==> !IsSeparator(s[i])
  {
  }

  /** A label made only of letters, digits and underscores passes the first
      two stages untouched. */
  lemma PlainLabel(s: string)
    requires s != [] && forall i :: 0 <= i < |s| ==> IsAsciiAlnum(s[i]) || s[i] == '_'
    ensures ToSnakeCase(s) == SpacesToUnderscores(Lower(KeepAllowed(s)))
  {
    LabelNoSeparators(s);
    assert !IsSeparator(s[0]) && !IsSeparator(s[|s| - 1]);
    StripUnchanged(s);
    assert Strip(s) == s;
    CollapseNoSeparators(s);
    assert CollapseSeparators(Strip(s)) == s;
  }

  lemma KeepAllowedUnderscored(a: string, b: string)
    requires AllAlnum(a) && AllAlnum(b)
    ensures KeepAllowed(a + "_" + b) == a + b
  {
    assert a + "_" + b == a + (['_'] + b);
    KeepAllowedConcat(a, ['_'] + b);
    KeepAllowedConcat(['_'], b);
    KeepAllowedUnchanged(a);
    KeepAllowedUnchanged(b);
    assert KeepAllowed(['_']) == [];
  }

  /** An underscore already in a label is not in `[A-Za-z0-9 ]` and is deleted,
      so the two words around it run together. */
  lemma UnderscoreDeleted(a: string, b: string)
    requires a != [] && b != [] && AllAlnum(a) && AllAlnum(b)
    ensures ToSnakeCase(a + "_" + b) == Lower(a) + Lower(b)
  {
    var s := a + "_" + b;
    forall i | 0 <= i < |s| ensures IsAsciiAlnum(s[i]) || s[i] == '_' {
      if i < |a| {
        assert s[i] == a[i];
      } else if |a| < i {
        assert s[i] == b[i - |a| - 1];
      }
    }
    PlainLabel(s);
    KeepAllowedUnderscored(a, b);
    LowerWords(a, b);
  }

  lemma LowerWords(a: string, b: string)
    requires AllAlnum(a) && AllAlnum(b)
    ensures SpacesToUnderscores(Lower(a + b)) == Lower(a) + Lower(b)
  {
    var l := Lower(a + b);
    assert l == Lower(a) + Lower(b);
    assert forall i :: 0 <= i < |l| ==> l[i] != ' ';
  }

  /** Normalising twice deletes the underscore the first pass produced: the
      function is not idempotent. */
  lemma NotIdempotent(a: string, b: string)
    requires a != [] && b != [] && AllAlnum(a) && AllAlnum(b)
    ensures ToSnakeCase(a + " " + b) == Lower(a) + "_" + Lower(b)
    ensures ToSnakeCase(ToSnakeCase(a + " " + b)) == Lower(a) + Lower(b)
    ensures ToSnakeCase(ToSnakeCase(a + " " + b)) != ToSnakeCase(a + " " + b)
  {
    assert AllSeparators(" ");
    JoinedWords(a, " ", b);
    LowerOfLetters(a);
    LowerOfLetters(b);
    UnderscoreDeleted(Lower(a), Lower(b));
    var once := Lower(a) + "_" + Lower(b);
    assert once[|Lower(a)|] == '_';
    assert |Lower(a) + Lower(b)| < |once|;
  }
}
