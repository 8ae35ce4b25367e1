/** The geolocation scan of a listing page: the first script whose text,
    with all whitespace removed, matches
    `else\s*\{lat_o='([^']+)';lng_o='([^']+)';\}` gives the latitude and
    longitude of its leftmost match. */
module Geolocation {
  import opened Outcomes
  import opened Text

  /** The literal parts of the pattern once whitespace is gone (`\s*`
      matches nothing in a text without whitespace). */
  const Keyword: string := "else"
  const Brace: string := "{lat_o='"
  const Open: string := Keyword + Brace
  const Middle: string := "';lng_o='"
  const Close: string := "';}"

  datatype Geo = Geo(lat: string, lng: string)

  /** The end of the run of characters other than `'` that starts at `i`. */
  function QuoteRunEnd(s: string, i: nat): (j: nat)
    requires i <= |s|
    ensures i <= j <= |s|
    ensures forall k :: i <= k < j ==> s[k] != '\''
    ensures j < |s| ==> s[j] == '\''
    decreases |s| - i
  {
    if i == |s| || s[i] == '\'' then i else QuoteRunEnd(s, i + 1)
  }

  /** The match of the pattern starting at `p`, if there is one. Each group
      `[^']+` can only end where a `'` follows, so it takes the whole run of
      non-quote characters. */
  function MatchAt(s: string, p: nat): (m: Option<Geo>)
    ensures m.Some? ==> m.value.lat != [] && m.value.lng != []
    ensures m.Some? ==> '\'' !in m.value.lat && '\'' !in m.value.lng
  {
    MatchParts(s, p, Open, Middle, Close)
  }

  /** A match of `open`, a group, `middle`, a group and `close` at `p`. */
  function MatchParts(s: string, p: nat, open: string, middle: string, close: string): (m: Option<Geo>)
    ensures m.Some? ==> m.value.lat != [] && m.value.lng != []
    ensures m.Some? ==> '\'' !in m.value.lat && '\'' !in m.value.lng
  {
    if !OccursAt(s, p, open) then None
    else
      var a := p + |open|;
      var aEnd := QuoteRunEnd(s, a);
      if aEnd == a || !OccursAt(s, aEnd, middle) then None
      else
        var b := aEnd + |middle|;
        var bEnd := QuoteRunEnd(s, b);
        if bEnd == b || !OccursAt(s, bEnd, close) then None
        else
          assert forall c :: c in s[a..aEnd] ==> c != '\'';
          assert forall c :: c in s[b..bEnd] ==> c != '\'';
          Some(Geo(s[a..aEnd], s[b..bEnd]))
  }

  /** The first position at or after `from` where a match starts, or `|s|`. */
  function FirstMatch(s: string, from: nat): (i: nat)
    requires from <= |s|
    ensures from <= i <= |s|
    ensures forall j :: from <= j < i ==> MatchAt(s, j) == None
    ensures i < |s| ==> MatchAt(s, i).Some?
    decreases |s| - from
  {
    if from == |s| || MatchAt(s, from).Some? then from else FirstMatch(s, from + 1)
  }

  /** `re.findall(pattern, s)[0]`, or `None` when nothing matches. */
  function FindGeo(s: string): Option<Geo>
  {
    var i := FirstMatch(s, 0);
    if i < |s| then MatchAt(s, i) else None
  }

  /** No match can start at the very end, since the pattern is not empty. */
  lemma NoMatchAtEnd(s: string)
    ensures MatchAt(s, |s|) == None
  {
  }

  /** `FindGeo` returns the leftmost match: it is `None` exactly when no
      position matches, and otherwise the match at a position before which
      none starts; both coordinates are non-empty and hold no `'`. */
  lemma FindGeoLeftmost(s: string)
    ensures FindGeo(s) == None <==> forall p :: 0 <= p <= |s| ==> MatchAt(s, p) == None
    ensures FindGeo(s).Some? ==> exists p :: 0 <= p < |s| && MatchAt(s, p) == FindGeo(s)
                                  && forall q :: 0 <= q < p ==> MatchAt(s, q) == None
    ensures FindGeo(s).Some? ==> FindGeo(s).value.lat != [] && FindGeo(s).value.lng != []
    ensures FindGeo(s).Some? ==> '\'' !in FindGeo(s).value.lat && '\'' !in FindGeo(s).value.lng
  {
    NoMatchAtEnd(s);
  }

  /** The coordinates a single script gives: its text (`script.string`) must
      be present and non-empty, and is searched with whitespace removed. */
  function ScriptGeo(content: Option<string>): Option<Geo>
  {
    if content.Some? && content.value != [] then FindGeo(RemoveWhitespace(content.value)) else None
  }

  /** The first present value of a list. */
  function FirstSome<T>(xs: seq<Option<T>>): Option<T>
  {
    if xs == [] then None else if xs[0].Some? then xs[0] else FirstSome(xs[1..])
  }

  lemma {:induction false} FirstSomeAt<T>(xs: seq<Option<T>>, i: nat)
    requires i < |xs| && xs[i].Some?
    requires forall j :: 0 <= j < i ==> xs[j] == None
    ensures FirstSome(xs) == xs[i]
  {
    if i > 0 {
      FirstSomeAt(xs[1..], i - 1);
    }
  }

  lemma {:induction false} FirstSomeNone<T>(xs: seq<Option<T>>)
    requires forall j :: 0 <= j < |xs| ==> xs[j] == None
    ensures FirstSome(xs) == None
  {
    if xs != [] {
      FirstSomeNone(xs[1..]);
    }
  }

  /** What each script gives, in order. */
  function ScriptGeos(scripts: seq<Option<string>>): (gs: seq<Option<Geo>>)
    ensures |gs| == |scripts|
    ensures forall i :: 0 <= i < |scripts| ==> gs[i] == ScriptGeo(scripts[i])
  {
    seq(|scripts|, i requires 0 <= i < |scripts| => ScriptGeo(scripts[i]))
  }

  /** The coordinates of the first script that gives any. */
  function FirstGeo(scripts: seq<Option<string>>): Option<Geo>
  {
    FirstSome(ScriptGeos(scripts))
  }

  /** `FirstGeo` is the result of the first script, in order, that has one,
      and `None` when no script has one. */
  lemma FirstGeoSpec(scripts: seq<Option<string>>)
    ensures FirstGeo(scripts) == None <==> forall i :: 0 <= i < |scripts| ==> ScriptGeo(scripts[i]) == None
    ensures FirstGeo(scripts).Some? ==>
      exists i :: 0 <= i < |scripts| && ScriptGeo(scripts[i]) == FirstGeo(scripts)
                  && forall j :: 0 <= j < i ==> ScriptGeo(scripts[j]) == None
  {
    var gs := ScriptGeos(scripts);
    if i :| 0 <= i < |gs| && gs[i].Some? {
      var k := FirstSomeIndex(gs, i);
      FirstSomeAt(gs, k);
    } else {
      FirstSomeNone(gs);
    }
  }

  /** The coordinates found in the scripts are both non-empty. */
  lemma FirstGeoCoordinates(scripts: seq<Option<string>>)
    requires FirstGeo(scripts).Some?
    ensures FirstGeo(scripts).value.lat != [] && FirstGeo(scripts).value.lng != []
  {
    FirstGeoSpec(scripts);
    var i :| 0 <= i < |scripts| && ScriptGeo(scripts[i]) == FirstGeo(scripts);
    FindGeoLeftmost(RemoveWhitespace(scripts[i].value));
  }

  /** Some present value comes first. */
  lemma {:induction false} FirstSomeIndex<T>(xs: seq<Option<T>>, i: nat) returns (k: nat)
    requires i < |xs| && xs[i].Some?
    ensures k <= i && xs[k].Some? && forall j :: 0 <= j < k ==> xs[j] == None
  {
    if j :| 0 <= j < i && xs[j].Some? {
      k := FirstSomeIndex(xs, j);
    } else {
      k := i;
    }
  }

  /** The script loop: scans the scripts in order and stops at the first
      one whose text matches. */
  method ScanScripts(scripts: seq<Option<string>>) returns (geo: Option<Geo>)
    ensures geo == FirstGeo(scripts)
  {
    var i := 0;
    while i < |scripts|
      invariant 0 <= i <= |scripts|
      invariant forall j :: 0 <= j < i ==> ScriptGeo(scripts[j]) == None
    {
      var found := ScriptGeo(scripts[i]);
      if found.Some? {
        FirstSomeAt(ScriptGeos(scripts), i);
        return found;
      }
      i := i + 1;
    }
    FirstSomeNone(ScriptGeos(scripts));
    return None;
  }

  predicate QuoteFree(s: string)
  {
    forall i :: 0 <= i < |s| ==> s[i] != '\''
  }

  /** The run of non-quote characters starting after `x` ends at the quote
      that starts `y`. */
  lemma QuoteRunOver(x: string, w: string, y: string)
    requires QuoteFree(w) && y != [] && y[0] == '\''
    ensures QuoteRunEnd(x + w + y, |x|) == |x| + |w|
  {
    var s := x + w + y;
    assert forall k :: |x| <= k < |x| + |w| ==> s[k] == w[k - |x|];
    assert s[|x| + |w|] == y[0];
  }

  lemma OccursIn(x: string, pat: string, y: string)
    ensures OccursAt(x + pat + y, |x|, pat)
  {
    assert (x + pat + y)[|x|..|x| + |pat|] == pat;
  }

  /** A match read off by positions: the literal parts where they are, and
      quote-free runs between them that end at a quote. */
  lemma MatchPartsAt(s: string, open: string, middle: string, close: string, aEnd: nat, bEnd: nat)
    requires OccursAt(s, 0, open) && |open| < aEnd
    requires OccursAt(s, aEnd, middle) && middle != [] && middle[0] == '\''
    requires forall k :: |open| <= k < aEnd ==> s[k] != '\''
    requires aEnd + |middle| < bEnd
    requires OccursAt(s, bEnd, close) && close != [] && close[0] == '\''
    requires forall k :: aEnd + |middle| <= k < bEnd ==> s[k] != '\''
    ensures MatchParts(s, 0, open, middle, close) == Some(Geo(s[|open|..aEnd], s[aEnd + |middle|..bEnd]))
  {
    assert s[aEnd] == middle[0];
    assert QuoteRunEnd(s, |open|) == aEnd;
    assert s[bEnd] == close[0];
    assert QuoteRunEnd(s, aEnd + |middle|) == bEnd;
  }

  /** Literal parts around two non-empty, quote-free groups form a match of
      exactly those groups, when the parts after each group start with a
      quote. */
  lemma MatchPartsStart(open: string, lat: string, middle: string, lng: string, close: string, rest: string)
    requires lat != [] && lng != [] && QuoteFree(lat) && QuoteFree(lng)
    requires middle != [] && middle[0] == '\'' && close != [] && close[0] == '\''
    ensures MatchParts(open + lat + middle + lng + close + rest, 0, open, middle, close) == Some(Geo(lat, lng))
  {
    var s := open + lat + middle + lng + close + rest;
    var aEnd := |open| + |lat|;
    var bEnd := aEnd + |middle| + |lng|;
    assert s[..|open|] == open;
    assert s[|open|..aEnd] == lat;
    assert s[aEnd..aEnd + |middle|] == middle;
    assert s[aEnd + |middle|..bEnd] == lng;
    assert s[bEnd..bEnd + |close|] == close;
    MatchPartsAt(s, open, middle, close, aEnd, bEnd);
  }

  /** A text that starts with such a match yields exactly its coordinates. */
  lemma EmbeddedGeo(lat: string, lng: string, rest: string)
    requires lat != [] && lng != [] && QuoteFree(lat) && QuoteFree(lng)
    ensures FindGeo(Open + lat + Middle + lng + Close + rest) == Some(Geo(lat, lng))
  {
    MatchPartsStart(Open, lat, Middle, lng, Close, rest);
  }

  /** Whitespace anywhere in a script does not hide its coordinates: in
      particular any whitespace between `else` and `{`, which `\s*` allows. */
  lemma SpacedScript(w: string, lat: string, lng: string)
    requires AllSpace(w)
    requires lat != [] && lng != [] && QuoteFree(lat) && QuoteFree(lng)
    requires NoSpace(lat) && NoSpace(lng)
    ensures ScriptGeo(Some(Keyword + w + Brace + lat + Middle + lng + Close)) == Some(Geo(lat, lng))
  {
    SpacedScriptText(w, lat, lng);
    assert Keyword + Brace + lat + Middle + lng + Close == Open + lat + Middle + lng + Close + [];
    EmbeddedGeo(lat, lng, []);
  }

  /** The text the pattern is matched against, for such a script. */
  lemma SpacedScriptText(w: string, lat: string, lng: string)
    requires AllSpace(w) && NoSpace(lat) && NoSpace(lng)
    ensures RemoveWhitespace(Keyword + w + Brace + lat + Middle + lng + Close)
         == Keyword + Brace + lat + Middle + lng + Close
  {
    RemoveWhitespaceConcat(Keyword + w + Brace + lat + Middle + lng, Close);
    RemoveWhitespaceConcat(Keyword + w + Brace + lat + Middle, lng);
    RemoveWhitespaceConcat(Keyword + w + Brace + lat, Middle);
    RemoveWhitespaceConcat(Keyword + w + Brace, lat);
    RemoveWhitespaceConcat(Keyword + w, Brace);
    RemoveWhitespaceConcat(Keyword, w);
    RemoveWhitespaceAllSpace(w);
    KeywordWithoutSpace();
    BraceWithoutSpace();
    MiddleWithoutSpace();
    CloseWithoutSpace();
    RemoveWhitespaceNoSpace(lat);
    RemoveWhitespaceNoSpace(lng);
    assert Keyword + [] == Keyword;
  }

  // Each literal part of the pattern holds no whitespace.
  lemma KeywordWithoutSpace()
    ensures RemoveWhitespace(Keyword) == Keyword
  {
    RemoveWhitespaceNoSpace(Keyword);
  }

  lemma BraceWithoutSpace()
    ensures RemoveWhitespace(Brace) == Brace
  {
    RemoveWhitespaceNoSpace(Brace);
  }

  lemma MiddleWithoutSpace()
    ensures RemoveWhitespace(Middle) == Middle
  {
    RemoveWhitespaceNoSpace(Middle);
  }

  lemma CloseWithoutSpace()
    ensures RemoveWhitespace(Close) == Close
  {
    RemoveWhitespaceNoSpace(Close);
  }

  predicate NoSpace(s: string)
  {
    forall i :: 0 <= i < |s| ==> !IsSpace(s[i])
  }
}
