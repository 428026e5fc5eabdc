/**
 * The two text rules of frontend/src/GameRoom/Dashboard/HandsOnLearning/LessonInterface.tsx:
 * `extractYouTubeID`, a regular-expression search for an 11-character video id after one of
 * three URL prefixes, and the "DO" list, which splits the instructions at newlines, drops the
 * blank lines and trims the rest.
 */
module LessonInterface {
  import opened Wrappers

  // ---------------------------------------------------------------------------------------
  // extractYouTubeID
  // ---------------------------------------------------------------------------------------

  const IdLength: nat := 11

  /** `[a-zA-Z0-9_-]`. */
  predicate IdChar(c: char)
  {
    ('a' <= c <= 'z') || ('A' <= c <= 'Z') || ('0' <= c <= '9') || c == '_' || c == '-'
  }

  /** The three prefixes of the pattern, in the order its alternatives are tried. */
  const Prefixes: seq<string> := ["youtube.com/watch?v=", "youtube.com/embed/", "youtu.be/"]

  predicate HasAt(s: string, p: nat, w: string)
  {
    p + |w| <= |s| && s[p..p + |w|] == w
  }

  /** The id the pattern captures when a match starts at position `p` with prefix `w`. */
  function IdAfter(s: string, p: nat, w: string): Option<string>
  {
    var q := p + |w|;
    if HasAt(s, p, w) && q + IdLength <= |s| && (forall k :: q <= k < q + IdLength ==> IdChar(s[k]))
    then Some(s[q..q + IdLength]) else None
  }

  /** The match starting at position `p`, trying the alternatives in order. */
  function MatchAt(s: string, p: nat): (r: Option<string>)
    ensures r.Some? ==> exists w :: w in Prefixes && IdAfter(s, p, w) == r
    ensures r.None? ==> forall w :: w in Prefixes ==> IdAfter(s, p, w).None?
  {
    var a := IdAfter(s, p, Prefixes[0]);
    var b := IdAfter(s, p, Prefixes[1]);
    var c := IdAfter(s, p, Prefixes[2]);
    if a.Some? then a else if b.Some? then b else c
  }

  /** The leftmost match at a position at or after `p`. */
  function SearchFrom(s: string, p: nat): Option<string>
    decreases |s| - p
  {
    if p >= |s| then None
    else if MatchAt(s, p).Some? then MatchAt(s, p)
    else SearchFrom(s, p + 1)
  }

  /** `extractYouTubeID(url)`: the captured group of the leftmost match, or `null`. */
  function ExtractYouTubeId(url: string): Option<string>
  {
    SearchFrom(url, 0)
  }

  /** An id is 11 characters of the id alphabet, captured right after one of the prefixes. */
  predicate IsIdAt(s: string, p: nat, id: string)
  {
    exists w :: w in Prefixes && IdAfter(s, p, w) == Some(id)
  }

  lemma IdAfterShape(s: string, p: nat, w: string)
    requires IdAfter(s, p, w).Some?
    ensures var id := IdAfter(s, p, w).value;
      |id| == IdLength && (forall k :: 0 <= k < |id| ==> IdChar(id[k])) && id == s[p + |w|..p + |w| + IdLength]
  {
    var q := p + |w|;
    var id := s[q..q + IdLength];
    forall k | 0 <= k < |id| ensures IdChar(id[k]) {
      assert id[k] == s[q + k];
    }
  }

  /** The pattern matches at `i`, and at no position from `p` up to `i`. */
  predicate FirstMatchFrom(s: string, p: nat, i: nat)
  {
    p <= i < |s| && MatchAt(s, i).Some? && forall j :: p <= j < i ==> MatchAt(s, j).None?
  }

  /** The search returns the match at the first position where one starts, and nothing before it. */
  lemma SearchFromLeftmost(s: string, p: nat)
    ensures SearchFrom(s, p).Some? ==> exists i :: FirstMatchFrom(s, p, i) && MatchAt(s, i) == SearchFrom(s, p)
    ensures SearchFrom(s, p).None? ==> forall j :: p <= j < |s| ==> MatchAt(s, j).None?
  {
    if SearchFrom(s, p).Some? {
      var i := SearchFound(s, p);
    } else {
      SearchMissed(s, p);
    }
  }

  lemma {:induction false} SearchFound(s: string, p: nat) returns (i: nat)
    requires SearchFrom(s, p).Some?
    ensures FirstMatchFrom(s, p, i) && MatchAt(s, i) == SearchFrom(s, p)
    decreases |s| - p
  {
    if MatchAt(s, p).Some? {
      i := p;
    } else {
      i := SearchFound(s, p + 1);
    }
  }

  lemma SearchMissed(s: string, p: nat)
    requires SearchFrom(s, p).None?
    ensures forall j :: p <= j < |s| ==> MatchAt(s, j).None?
  {
    forall j | p <= j < |s| ensures MatchAt(s, j).None? {
      if MatchAt(s, j).Some? {
        SearchReaches(s, p, j);
      }
    }
  }

  /** A match at `j` is found by every search that starts at or before `j`. */
  lemma {:induction false} SearchReaches(s: string, p: nat, j: nat)
    requires p <= j < |s| && MatchAt(s, j).Some?
    ensures SearchFrom(s, p).Some?
    decreases j - p
  {
    if p < j && MatchAt(s, p).None? {
      SearchReaches(s, p + 1, j);
    }
  }

  /** `id` is captured at `i`, the leftmost position where the pattern matches. */
  predicate LeftmostIdAt(url: string, i: nat, id: string)
  {
    0 <= i < |url| && IsIdAt(url, i, id) && forall j :: 0 <= j < i ==> MatchAt(url, j).None?
  }

  /**
   * A returned id is 11 id characters that directly follow one of the prefixes, at the leftmost
   * position where the pattern matches; whatever follows the 11 characters is ignored.
   */
  lemma ExtractFindsLeftmost(url: string)
    requires ExtractYouTubeId(url).Some?
    ensures var id := ExtractYouTubeId(url).value;
      && |id| == IdLength && (forall k :: 0 <= k < |id| ==> IdChar(id[k]))
      && exists i :: LeftmostIdAt(url, i, id)
  {
    SearchFromLeftmost(url, 0);
    var id := ExtractYouTubeId(url).value;
    var i :| FirstMatchFrom(url, 0, i) && MatchAt(url, i) == SearchFrom(url, 0);
    var w :| w in Prefixes && IdAfter(url, i, w) == Some(id);
    IdAfterShape(url, i, w);
    assert LeftmostIdAt(url, i, id);
  }

  /** `null` is returned exactly when no prefix followed by 11 id characters occurs anywhere. */
  lemma ExtractNoneIff(url: string)
    ensures ExtractYouTubeId(url).None? <==> forall i, w :: 0 <= i < |url| && w in Prefixes ==> IdAfter(url, i, w).None?
  {
    SearchFromLeftmost(url, 0);
    if ExtractYouTubeId(url).Some? {
      var i :| FirstMatchFrom(url, 0, i) && MatchAt(url, i) == SearchFrom(url, 0);
      var w :| w in Prefixes && IdAfter(url, i, w) == MatchAt(url, i);
      assert IdAfter(url, i, w).Some?;
    } else {
      forall i, w | 0 <= i < |url| && w in Prefixes ensures IdAfter(url, i, w).None? {
        assert MatchAt(url, i).None?;
      }
    }
  }

  /** Every prefix starts with 'y' and is at least 9 characters long. */
  lemma NoMatchAt(s: string, p: nat)
    requires p >= |s| || s[p] != 'y' || p + 9 + IdLength > |s|
    ensures MatchAt(s, p).None?
  {
    forall w | w in Prefixes ensures IdAfter(s, p, w).None? {
      if HasAt(s, p, w) {
        assert s[p..p + |w|][0] == s[p];
      }
    }
  }

  /** Positions without a match are skipped. */
  lemma {:induction false} SearchSkips(s: string, p: nat, i: nat)
    requires p <= i <= |s| && forall j :: p <= j < i ==> MatchAt(s, j).None?
    ensures SearchFrom(s, p) == SearchFrom(s, i)
    decreases i - p
  {
    if p < i {
      SearchSkips(s, p + 1, i);
    }
  }

  /** The short-link prefix starts at position 8 and is followed by 11 id characters. */
  lemma ShortLinkMatch()
    ensures MatchAt("https://youtu.be/dQw4w9WgXcQ", 8) == Some("dQw4w9WgXcQ")
  {
    var a := "https://youtu.be/dQw4w9WgXcQ";
    assert a[8..17] == Prefixes[2];
    assert a[17..28] == "dQw4w9WgXcQ";
    assert forall k :: 17 <= k < 28 ==> IdChar(a[k]);
    assert IdAfter(a, 8, Prefixes[2]) == Some("dQw4w9WgXcQ");
    assert !HasAt(a, 8, Prefixes[0]) && !HasAt(a, 8, Prefixes[1]) by {
      assert a[8..28][5] == '.' && a[8..26][5] == '.';
    }
  }

  /** A short link gives the 11 characters after `youtu.be/`. */
  lemma ExtractShortLink()
    ensures ExtractYouTubeId("https://youtu.be/dQw4w9WgXcQ") == Some("dQw4w9WgXcQ")
  {
    var a := "https://youtu.be/dQw4w9WgXcQ";
    forall j | 0 <= j < 8 ensures MatchAt(a, j).None? {
      NoMatchAt(a, j);
    }
    SearchSkips(a, 0, 8);
    ShortLinkMatch();
  }

  /** Parameters after the id of a watch link are ignored. */
  lemma ExtractWatchLink()
    ensures ExtractYouTubeId("youtube.com/watch?v=dQw4w9WgXcQ&t=42") == Some("dQw4w9WgXcQ")
  {
    var b := "youtube.com/watch?v=dQw4w9WgXcQ&t=42";
    assert b[0..20] == Prefixes[0];
    assert b[20..31] == "dQw4w9WgXcQ";
    assert forall k :: 20 <= k < 31 ==> IdChar(b[k]);
    assert IdAfter(b, 0, Prefixes[0]) == Some("dQw4w9WgXcQ");
    assert MatchAt(b, 0) == Some("dQw4w9WgXcQ");
  }

  /** Fewer than 11 id characters after the prefix give `null`. */
  lemma ExtractTooShort()
    ensures ExtractYouTubeId("https://youtu.be/short") == None
  {
    var c := "https://youtu.be/short";
    forall j | 0 <= j < |c| ensures MatchAt(c, j).None? {
      NoMatchAt(c, j);
    }
    SearchSkips(c, 0, |c|);
  }

  // ---------------------------------------------------------------------------------------
  // instruction steps
  // ---------------------------------------------------------------------------------------

  /** The characters JavaScript's `trim` removes: its WhiteSpace and LineTerminator sets. */
  const Whitespace: set<char> := {
    ' ', '\t', '\n', '\r', '\U{B}', '\U{C}', '\U{A0}', '\U{1680}',
    '\U{2000}', '\U{2001}', '\U{2002}', '\U{2003}', '\U{2004}', '\U{2005}', '\U{2006}',
    '\U{2007}', '\U{2008}', '\U{2009}', '\U{200A}',
    '\U{2028}', '\U{2029}', '\U{202F}', '\U{205F}', '\U{3000}', '\U{FEFF}'
  }

  predicate IsSpace(c: char)
  {
    c in Whitespace
  }

  function TrimStart(s: string): (r: string)
    ensures |r| <= |s|
    decreases |s|
  {
    if s != [] && IsSpace(s[0]) then TrimStart(s[1..]) else s
  }

  function TrimEnd(s: string): (r: string)
    ensures |r| <= |s|
    decreases |s|
  {
    if s != [] && IsSpace(s[|s| - 1]) then TrimEnd(s[..|s| - 1]) else s
  }

  /** `TrimStart` cuts off a prefix of whitespace and leaves a suffix that does not start with it. */
  lemma {:induction false} TrimStartShape(s: string)
    ensures var r := TrimStart(s);
      && r == s[|s| - |r|..]
      && (r == [] || !IsSpace(r[0]))
      && forall k :: 0 <= k < |s| - |r| ==> IsSpace(s[k])
    decreases |s|
  {
    if s != [] && IsSpace(s[0]) {
      TrimStartShape(s[1..]);
      var r := TrimStart(s);
      forall k | 1 <= k < |s| - |r| ensures IsSpace(s[k]) {
        assert s[k] == s[1..][k - 1];
      }
    }
  }

  /** `TrimEnd` cuts off a suffix of whitespace and leaves a prefix that does not end with it. */
  lemma {:induction false} TrimEndShape(s: string)
    ensures var r := TrimEnd(s);
      && r == s[..|r|]
      && (r == [] || !IsSpace(r[|r| - 1]))
      && forall k :: |r| <= k < |s| ==> IsSpace(s[k])
    decreases |s|
  {
    if s != [] && IsSpace(s[|s| - 1]) {
      TrimEndShape(s[..|s| - 1]);
      var r := TrimEnd(s);
      forall k | |r| <= k < |s| - 1 ensures IsSpace(s[k]) {
        assert s[k] == s[..|s| - 1][k];
      }
    }
  }

  /** `trim()`: strips the whitespace at both ends. */
  function Trim(s: string): (r: string)
  {
    TrimEnd(TrimStart(s))
  }

  /** A trimmed string neither starts nor ends with whitespace, and is a slice of the input with only whitespace cut off. */
  lemma TrimShape(s: string)
    ensures var r := Trim(s);
      && (r == [] || (!IsSpace(r[0]) && !IsSpace(r[|r| - 1])))
      && var i := |s| - |TrimStart(s)|;
         && 0 <= i <= i + |r| <= |s| && r == s[i..i + |r|]
         && (forall k :: 0 <= k < i ==> IsSpace(s[k])) && (forall k :: i + |r| <= k < |s| ==> IsSpace(s[k]))
  {
    TrimEnds(s);
    TrimCuts(s);
  }

  /** Neither end of a trimmed string is whitespace. */
  lemma TrimEnds(s: string)
    ensures var r := Trim(s); r == [] || (!IsSpace(r[0]) && !IsSpace(r[|r| - 1]))
  {
    var t := TrimStart(s);
    var r := TrimEnd(t);
    TrimStartShape(s);
    TrimEndShape(t);
    if r != [] {
      assert r[0] == t[0];
    }
  }

  /** A trimmed string is the slice of its input between a whitespace prefix and a whitespace suffix. */
  lemma TrimCuts(s: string)
    ensures var r := Trim(s);
      var i := |s| - |TrimStart(s)|;
      && 0 <= i <= i + |r| <= |s| && r == s[i..i + |r|]
      && (forall k :: 0 <= k < i ==> IsSpace(s[k])) && (forall k :: i + |r| <= k < |s| ==> IsSpace(s[k]))
  {
    var t := TrimStart(s);
    TrimStartShape(s);
    TrimEndShape(t);
    SliceOfSlice(s, t, TrimEnd(t), |s| - |t|);
  }

  /** A prefix `r` of the suffix `t` of `s` from `i` is a slice of `s`; what `t` has after `r` is what `s` has. */
  lemma SliceOfSlice(s: string, t: string, r: string, i: nat)
    requires i <= |s| && t == s[i..] && |r| <= |t| && r == t[..|r|]
    requires forall k :: |r| <= k < |t| ==> IsSpace(t[k])
    ensures i + |r| <= |s| && r == s[i..i + |r|]
    ensures forall k :: i + |r| <= k < |s| ==> IsSpace(s[k])
  {
    forall k | i + |r| <= k < |s| ensures IsSpace(s[k]) {
      assert s[k] == t[k - i];
    }
  }

  /** Trimming twice is trimming once. */
  lemma TrimIdempotent(s: string)
    ensures Trim(Trim(s)) == Trim(s)
  {
    var r := Trim(s);
    TrimShape(s);
    assert TrimStart(r) == r;
    TrimEndShape(r);
  }

  /** `split("\n")`: the pieces between newlines; n newlines give n + 1 pieces. */
  function Split(s: string): (r: seq<string>)
    ensures |r| >= 1
    ensures forall k :: 0 <= k < |r| ==> '\n' !in r[k]
    decreases |s|
  {
    if s == [] then [""]
    else
      var rest := Split(s[1..]);
      if s[0] == '\n' then [""] + rest else [[s[0]] + rest[0]] + rest[1..]
  }

  /** `join("\n")`. */
  function Join(pieces: seq<string>): string
    decreases |pieces|
  {
    if pieces == [] then "" else if |pieces| == 1 then pieces[0] else pieces[0] + "\n" + Join(pieces[1..])
  }

  function Newlines(s: string): nat
    decreases |s|
  {
    if s == [] then 0 else (if s[0] == '\n' then 1 else 0) + Newlines(s[1..])
  }

  /** Splitting loses nothing: joining the pieces gives the text back, and there is one piece more than newlines. */
  lemma {:induction false} SplitJoin(s: string)
    ensures Join(Split(s)) == s && |Split(s)| == Newlines(s) + 1
    decreases |s|
  {
    if s != [] {
      SplitJoin(s[1..]);
      var rest := Split(s[1..]);
      if s[0] == '\n' {
        JoinNewline(rest);
      } else {
        JoinHead(s[0], rest);
      }
      assert [s[0]] + s[1..] == s;
    }
  }

  /** A piece before a newline adds the newline in front of the join of the rest. */
  lemma JoinNewline(rest: seq<string>)
    requires |rest| >= 1
    ensures Join([""] + rest) == "\n" + Join(rest)
  {
    assert ([""] + rest)[1..] == rest;
  }

  /** A character glued to the first piece comes first in the join. */
  lemma JoinHead(c: char, rest: seq<string>)
    requires |rest| >= 1
    ensures Join([[c] + rest[0]] + rest[1..]) == [c] + Join(rest)
  {
    var pieces := [[c] + rest[0]] + rest[1..];
    if |rest| > 1 {
      assert pieces[1..] == rest[1..];
    }
  }

  /** `.filter(line => line.trim() !== "").map(step => step.trim())`. */
  function KeepSteps(lines: seq<string>): (r: seq<string>)
    ensures |r| <= |lines|
    decreases |lines|
  {
    if lines == [] then []
    else
      var rest := KeepSteps(lines[1..]);
      if Trim(lines[0]) != "" then [Trim(lines[0])] + rest else rest
  }

  /** The steps of the "DO" list. */
  function Steps(instructions: string): seq<string>
  {
    KeepSteps(Split(instructions))
  }

  /** `a` is `b` with some elements left out, in order. */
  predicate IsSubsequence(a: seq<string>, b: seq<string>)
    decreases |b|
  {
    if a == [] then true
    else if b == [] then false
    else (a[0] == b[0] && IsSubsequence(a[1..], b[1..])) || IsSubsequence(a, b[1..])
  }

  function TrimAll(lines: seq<string>): (r: seq<string>)
    ensures |r| == |lines| && forall k :: 0 <= k < |lines| ==> r[k] == Trim(lines[k])
    decreases |lines|
  {
    if lines == [] then [] else [Trim(lines[0])] + TrimAll(lines[1..])
  }

  /** The kept steps are the trimmed non-blank lines, in their original order. */
  lemma {:induction false} KeepStepsInOrder(lines: seq<string>)
    ensures IsSubsequence(KeepSteps(lines), TrimAll(lines))
    ensures forall k :: 0 <= k < |KeepSteps(lines)| ==> KeepSteps(lines)[k] != "" && Trim(KeepSteps(lines)[k]) == KeepSteps(lines)[k]
    decreases |lines|
  {
    if lines != [] {
      KeepStepsInOrder(lines[1..]);
      TrimIdempotent(lines[0]);
      var rest := KeepSteps(lines[1..]);
      var r := KeepSteps(lines);
      var t := TrimAll(lines);
      assert t[1..] == TrimAll(lines[1..]);
      if Trim(lines[0]) != "" {
        assert r[1..] == rest;
      }
    }
  }

  /** Every line that is not blank gives a step. */
  lemma {:induction false} KeepStepsComplete(lines: seq<string>)
    ensures forall k :: 0 <= k < |lines| && Trim(lines[k]) != "" ==> Trim(lines[k]) in KeepSteps(lines)
    decreases |lines|
  {
    if lines != [] {
      KeepStepsComplete(lines[1..]);
      forall k | 1 <= k < |lines| && Trim(lines[k]) != "" ensures Trim(lines[k]) in KeepSteps(lines) {
        assert lines[1..][k - 1] == lines[k];
      }
    }
  }

  /** The number of lines that are not blank once trimmed. */
  function NonBlank(lines: seq<string>): nat
    decreases |lines|
  {
    if lines == [] then 0 else (if Trim(lines[0]) != "" then 1 else 0) + NonBlank(lines[1..])
  }

  /** One step is kept per non-blank line, so duplicate lines give duplicate steps. */
  lemma {:induction false} KeepStepsCount(lines: seq<string>)
    ensures |KeepSteps(lines)| == NonBlank(lines)
    decreases |lines|
  {
    if lines != [] {
      KeepStepsCount(lines[1..]);
    }
  }

  /** Steps are non-empty, trimmed, in line order, and there is exactly one per non-blank line. */
  lemma StepsWellFormed(instructions: string)
    ensures var steps := Steps(instructions);
      var lines := Split(instructions);
      && |steps| == NonBlank(lines) <= Newlines(instructions) + 1
      && (forall k :: 0 <= k < |lines| && Trim(lines[k]) != "" ==> Trim(lines[k]) in steps)
      && IsSubsequence(steps, TrimAll(Split(instructions)))
      && forall k :: 0 <= k < |steps| ==> steps[k] != "" && Trim(steps[k]) == steps[k]
  {
    SplitJoin(instructions);
    KeepStepsInOrder(Split(instructions));
    KeepStepsComplete(Split(instructions));
    KeepStepsCount(Split(instructions));
  }
}
