/** The JavaScript string built-ins the services rely on: `trim`, `split(/\s+/)`
    and `join`. `trim` and the regular-expression class `\s` both use the
    ECMAScript WhiteSpace and LineTerminator code points, written out in `IsSpace`. */
module Text {

  predicate IsSpace(c: char) {
    || c == '\t' || c == '\n' || c == '\U{000B}' || c == '\U{000C}' || c == '\r' || c == ' '
    || c == '\U{00A0}' || c == '\U{1680}' || ('\U{2000}' <= c <= '\U{200A}')
    || c == '\U{2028}' || c == '\U{2029}' || c == '\U{202F}' || c == '\U{205F}'
    || c == '\U{3000}' || c == '\U{FEFF}'
  }

  /** Every character is white space (the empty string included). */
  predicate IsBlank(s: string) {
    forall i :: 0 <= i < |s| ==> IsSpace(s[i])
  }

  /** No character is white space: a token of `split(/\s+/)`. */
  predicate HasNoSpace(s: string) {
    forall i :: 0 <= i < |s| ==> !IsSpace(s[i])
  }

  /** The first index at or after `i` that holds no white space (`|s|` if none). */
  function SkipSpaces(s: string, i: nat): (j: nat)
    requires i <= |s|
    ensures i <= j <= |s|
    ensures forall m :: i <= m < j ==> IsSpace(s[m])
    ensures j < |s| ==> !IsSpace(s[j])
    decreases |s| - i
  {
    if i < |s| && IsSpace(s[i]) then SkipSpaces(s, i + 1) else i
  }

  /** The index just past the last character before `j` that is not white
      space (0 if none). */
  function SkipSpacesBack(s: string, j: nat): (i: nat)
    requires j <= |s|
    ensures i <= j
    ensures forall m :: i <= m < j ==> IsSpace(s[m])
    ensures 0 < i ==> !IsSpace(s[i - 1])
  {
    if 0 < j && IsSpace(s[j - 1]) then SkipSpacesBack(s, j - 1) else j
  }

  /** `trimStart`: what is left after dropping the leading white space. */
  function TrimStart(s: string): (r: string)
    ensures |r| <= |s|
    ensures s != [] && IsSpace(s[0]) ==> |r| < |s|
    ensures r == [] || !IsSpace(r[0])
  {
    s[SkipSpaces(s, 0)..]
  }

  /** `trim`: the longest infix that neither starts nor ends with white space,
      empty exactly when `s` is blank. */
  function Trim(s: string): (r: string)
    ensures |r| <= |s|
    ensures r == [] <==> IsBlank(s)
    ensures r != [] ==> !IsSpace(r[0]) && !IsSpace(r[|r| - 1])
    ensures exists k :: 0 <= k <= |s| - |r| && r == s[k..k + |r|] && IsBlank(s[..k]) && IsBlank(s[k + |r|..])
  {
    var a := SkipSpaces(s, 0);
    var b := SkipSpacesBack(s, |s|);
    if a == |s| then
      assert s[..a] == s && s[a..a] == [];
      []
    else
      assert s[a..b][0] == s[a] && s[a..b][b - a - 1] == s[b - 1];
      assert s[a..b] == s[a..a + |s[a..b]|];
      s[a..b]
  }

  /** Trimming twice trims nothing more. */
  lemma {:induction false} TrimIdempotent(s: string)
    ensures Trim(Trim(s)) == Trim(s)
  {
    var t := Trim(s);
    if t != [] {
      TrimmedIsFixed(t);
    }
  }

  /** A string that neither starts nor ends with white space is its own trim. */
  lemma TrimmedIsFixed(s: string)
    requires s != [] && !IsSpace(s[0]) && !IsSpace(s[|s| - 1])
    ensures Trim(s) == s
  {
    assert SkipSpaces(s, 0) == 0;
    assert SkipSpacesBack(s, |s|) == |s|;
  }

  /** `s.split(/\s+/)`: the pieces between maximal runs of white space; a leading
      (trailing) run yields an empty first (last) piece, and "" yields [""]. */
  function SplitOnSpaces(s: string): (r: seq<string>)
    ensures |r| >= 1
    ensures forall i :: 0 <= i < |r| ==> HasNoSpace(r[i])
    decreases |s|
  {
    if s == [] then [""]
    else if IsSpace(s[0]) then [""] + SplitOnSpaces(TrimStart(s))
    else
      var rest := SplitOnSpaces(s[1..]);
      [[s[0]] + rest[0]] + rest[1..]
  }

  /** `ws.join(sep)`. */
  function Join(ws: seq<string>, sep: string): string {
    if |ws| == 0 then ""
    else if |ws| == 1 then ws[0]
    else ws[0] + sep + Join(ws[1..], sep)
  }

  /** The total length of the words. */
  function TotalLength(ws: seq<string>): nat {
    if ws == [] then 0 else |ws[0]| + TotalLength(ws[1..])
  }

  /** A join holds every word and exactly one separator between neighbours. */
  lemma {:induction false} JoinLength(ws: seq<string>, sep: string)
    ensures |Join(ws, sep)| == TotalLength(ws) + (if ws == [] then 0 else (|ws| - 1) * |sep|)
  {
    if |ws| >= 2 {
      JoinLength(ws[1..], sep);
    }
  }

  /** `s.trim().split(/\s+/).filter(word => word.length > 0)`. */
  function Words(s: string): (r: seq<string>)
    ensures forall i :: 0 <= i < |r| ==> r[i] != [] && HasNoSpace(r[i])
    ensures r == [] <==> IsBlank(s)
  {
    var pieces := SplitOnSpaces(Trim(s));
    var r := NonEmpty(pieces);
    assert forall i :: 0 <= i < |r| ==> r[i] in pieces;
    assert IsBlank(s) ==> pieces == [""] && r == [] by {
      if IsBlank(s) {
        assert pieces == [""];
        assert pieces[0] == [] && pieces[1..] == [];
        assert NonEmpty(pieces) == NonEmpty(pieces[1..]);
      }
    }
    assert !IsBlank(s) ==> pieces[0] in r by {
      if !IsBlank(s) {
        FirstPieceNonEmpty(Trim(s));
      }
    }
    r
  }

  /** The non-empty strings of `ws`, in order. */
  function NonEmpty(ws: seq<string>): (r: seq<string>)
    ensures forall i :: 0 <= i < |r| ==> r[i] != []
    ensures forall w :: w in r <==> w in ws && w != []
  {
    if ws == [] then []
    else if ws[0] == [] then NonEmpty(ws[1..])
    else [ws[0]] + NonEmpty(ws[1..])
  }

  /** Splitting a string that starts with a non-space character yields a
      non-empty first piece. */
  lemma FirstPieceNonEmpty(s: string)
    requires s != [] && !IsSpace(s[0])
    ensures SplitOnSpaces(s)[0] != []
  {
  }

  /** Splitting a token (non-empty, no white space) yields the token alone. */
  lemma {:induction false} SplitToken(w: string)
    requires HasNoSpace(w)
    ensures SplitOnSpaces(w) == [w]
    decreases |w|
  {
    if w != [] {
      SplitToken(w[1..]);
      assert [w[0]] + w[1..] == w;
    }
  }

  /** A token in front of a string extends the first piece of its split. */
  lemma {:induction false} SplitAfterToken(w: string, s: string)
    requires HasNoSpace(w)
    ensures SplitOnSpaces(w + s) == [w + SplitOnSpaces(s)[0]] + SplitOnSpaces(s)[1..]
    decreases |w|
  {
    if w == [] {
      assert w + s == s;
      var sp := SplitOnSpaces(s);
      assert w + sp[0] == sp[0];
      assert [sp[0]] + sp[1..] == sp;
    } else {
      var sp := SplitOnSpaces(s);
      var ws := w + s;
      assert ws[0] == w[0] && !IsSpace(ws[0]);
      assert ws[1..] == w[1..] + s;
      SplitAfterToken(w[1..], s);
      var rest := SplitOnSpaces(ws[1..]);
      assert rest == [w[1..] + sp[0]] + sp[1..];
      assert SplitOnSpaces(ws) == [[ws[0]] + rest[0]] + rest[1..];
      assert rest[0] == w[1..] + sp[0];
      assert rest[1..] == sp[1..];
      assert [w[0]] + (w[1..] + sp[0]) == w + sp[0];
    }
  }

  /** Round trip: splitting tokens joined by single spaces gives the tokens back. */
  lemma {:induction false} SplitJoin(ws: seq<string>)
    requires |ws| >= 1
    requires forall i :: 0 <= i < |ws| ==> ws[i] != [] && HasNoSpace(ws[i])
    ensures SplitOnSpaces(Join(ws, " ")) == ws
  {
    if |ws| == 1 {
      SplitToken(ws[0]);
    } else {
      var tail := Join(ws[1..], " ");
      SplitJoin(ws[1..]);
      JoinStartsWithToken(ws[1..]);
      assert TrimStart(" " + tail) == tail by {
        assert SkipSpaces(" " + tail, 1) == 1;
        assert (" " + tail)[1..] == tail;
      }
      assert SplitOnSpaces(" " + tail) == [""] + ws[1..];
      SplitAfterToken(ws[0], " " + tail);
      assert ws[0] + " " + tail == ws[0] + (" " + tail);
      assert ws[0] + "" == ws[0];
      assert [ws[0]] + ws[1..] == ws;
    }
  }

  /** Tokens joined by single spaces neither start nor end with white space. */
  lemma {:induction false} JoinStartsWithToken(ws: seq<string>)
    requires |ws| >= 1
    requires forall i :: 0 <= i < |ws| ==> ws[i] != [] && HasNoSpace(ws[i])
    ensures Join(ws, " ") != []
    ensures Join(ws, " ")[0] == ws[0][0]
    ensures Join(ws, " ")[|Join(ws, " ")| - 1] == ws[|ws| - 1][|ws[|ws| - 1]| - 1]
  {
    if |ws| > 1 {
      JoinStartsWithToken(ws[1..]);
    }
  }

  /** Round trip: the words of tokens joined by single spaces are the tokens. */
  lemma {:induction false} WordsOfJoin(ws: seq<string>)
    requires forall i :: 0 <= i < |ws| ==> ws[i] != [] && HasNoSpace(ws[i])
    ensures Words(Join(ws, " ")) == ws
  {
    if ws != [] {
      var j := Join(ws, " ");
      JoinStartsWithToken(ws);
      TrimmedIsFixed(j);
      SplitJoin(ws);
      NonEmptyKeepsNonEmpty(ws);
    }
  }

  /** Tokens: non-empty and free of white space. */
  predicate AreTokens(ws: seq<string>) {
    forall i :: 0 <= i < |ws| ==> ws[i] != [] && HasNoSpace(ws[i])
  }

  /** Gaps: non-empty runs of white space (spaces, tabs, line breaks, ...). */
  predicate AreGaps(gaps: seq<string>) {
    forall i :: 0 <= i < |gaps| ==> gaps[i] != [] && IsBlank(gaps[i])
  }

  /** Words with a gap of its own between each pair of neighbours:
      `ws[0] + gaps[0] + ws[1] + ... + ws[|ws| - 1]`. */
  function Interleave(ws: seq<string>, gaps: seq<string>): string
    requires |ws| >= 1 && |gaps| == |ws| - 1
    decreases |ws|
  {
    if |ws| == 1 then ws[0] else ws[0] + gaps[0] + Interleave(ws[1..], gaps[1..])
  }

  /** Interleaved tokens start with the first token and end with the last. */
  lemma {:induction false} InterleaveEnds(ws: seq<string>, gaps: seq<string>)
    requires |ws| >= 1 && |gaps| == |ws| - 1 && AreTokens(ws)
    ensures Interleave(ws, gaps) != []
    ensures Interleave(ws, gaps)[0] == ws[0][0]
    ensures Interleave(ws, gaps)[|Interleave(ws, gaps)| - 1] == ws[|ws| - 1][|ws[|ws| - 1]| - 1]
    decreases |ws|
  {
    if |ws| > 1 {
      InterleaveEnds(ws[1..], gaps[1..]);
    }
  }

  /** Skipping white space from the start stops exactly after a blank prefix
      followed by a non-space character (or the end). */
  lemma SkipBlankPrefix(b: string, t: string)
    requires IsBlank(b) && (t == [] || !IsSpace(t[0]))
    ensures SkipSpaces(b + t, 0) == |b|
  {
    var s := b + t;
    assert forall m :: 0 <= m < |b| ==> s[m] == b[m];
    assert t != [] ==> s[|b|] == t[0];
  }

  /** Skipping white space back from the end stops exactly before a blank
      suffix preceded by a non-space character (or the start). */
  lemma SkipBlankSuffix(t: string, b: string)
    requires IsBlank(b) && (t == [] || !IsSpace(t[|t| - 1]))
    ensures SkipSpacesBack(t + b, |t + b|) == |t|
  {
    var s := t + b;
    assert forall m :: |t| <= m < |s| ==> s[m] == b[m - |t|];
    assert t != [] ==> s[|t| - 1] == t[|t| - 1];
  }

  /** Trimming removes blank padding on both sides and nothing else. */
  lemma TrimPadded(pre: string, m: string, post: string)
    requires IsBlank(pre) && IsBlank(post)
    requires m != [] && !IsSpace(m[0]) && !IsSpace(m[|m| - 1])
    ensures Trim(pre + m + post) == m
  {
    var s := pre + m + post;
    assert s == pre + (m + post);
    SkipBlankPrefix(pre, m + post);
    SkipBlankSuffix(pre + m, post);
    assert s[|pre|..|pre + m|] == m;
  }

  /** `split(/\s+/)` cuts at every run of white space, whatever it is made of:
      splitting tokens separated by gaps gives back the tokens. */
  lemma {:induction false} SplitInterleave(ws: seq<string>, gaps: seq<string>)
    requires |ws| >= 1 && |gaps| == |ws| - 1 && AreTokens(ws) && AreGaps(gaps)
    ensures SplitOnSpaces(Interleave(ws, gaps)) == ws
    decreases |ws|
  {
    if |ws| == 1 {
      SplitToken(ws[0]);
    } else {
      var gap, tail := gaps[0], Interleave(ws[1..], gaps[1..]);
      SplitInterleave(ws[1..], gaps[1..]);
      InterleaveEnds(ws[1..], gaps[1..]);
      assert TrimStart(gap + tail) == tail by {
        SkipBlankPrefix(gap, tail);
        assert (gap + tail)[|gap|..] == tail;
      }
      assert (gap + tail)[0] == gap[0];
      assert SplitOnSpaces(gap + tail) == [""] + ws[1..];
      SplitAfterToken(ws[0], gap + tail);
      assert ws[0] + gap + tail == ws[0] + (gap + tail);
      assert ws[0] + "" == ws[0];
      assert [ws[0]] + ws[1..] == ws;
    }
  }

  /** The words of any non-blank text: padding of white space on either side
      and runs of white space of any length and kind between the words leave
      exactly the words. */
  lemma WordsOfSpaced(pre: string, ws: seq<string>, gaps: seq<string>, post: string)
    requires IsBlank(pre) && IsBlank(post)
    requires |ws| >= 1 && |gaps| == |ws| - 1 && AreTokens(ws) && AreGaps(gaps)
    ensures Words(pre + Interleave(ws, gaps) + post) == ws
  {
    var m := Interleave(ws, gaps);
    InterleaveEnds(ws, gaps);
    TrimPadded(pre, m, post);
    SplitInterleave(ws, gaps);
    NonEmptyKeepsNonEmpty(ws);
  }

  lemma InterleaveExtendFirst(c: char, ws: seq<string>, gaps: seq<string>)
    requires |ws| >= 1 && |gaps| == |ws| - 1
    ensures Interleave([[c] + ws[0]] + ws[1..], gaps) == [c] + Interleave(ws, gaps)
  {
    var ws2 := [[c] + ws[0]] + ws[1..];
    assert ws2[1..] == ws[1..];
  }

  lemma InterleaveCons(w: string, gap: string, ws: seq<string>, gaps: seq<string>)
    requires |ws| >= 1 && |gaps| == |ws| - 1
    ensures Interleave([w] + ws, [gap] + gaps) == w + gap + Interleave(ws, gaps)
  {
    assert ([w] + ws)[1..] == ws && ([gap] + gaps)[1..] == gaps;
  }

  /** Every non-blank text has that form: blank padding around tokens with a
      gap between each pair, so `WordsOfSpaced` gives the words of any text. */
  lemma {:induction false} SpacedForm(s: string) returns (pre: string, ws: seq<string>, gaps: seq<string>, post: string)
    requires !IsBlank(s)
    ensures IsBlank(pre) && IsBlank(post)
    ensures |ws| >= 1 && |gaps| == |ws| - 1 && AreTokens(ws) && AreGaps(gaps)
    ensures s == pre + Interleave(ws, gaps) + post
    decreases |s|
  {
    var c, rest := s[0], s[1..];
    assert s == [c] + rest;
    if IsSpace(c) {
      var pre';
      pre', ws, gaps, post := SpacedForm(rest);
      pre := [c] + pre';
    } else if IsBlank(rest) {
      pre, ws, gaps, post := "", [[c]], [], rest;
    } else {
      var pre', ws', gaps', post' := SpacedForm(rest);
      var m' := Interleave(ws', gaps');
      pre, post := "", post';
      if pre' == "" {
        // The character joins the first token.
        ws, gaps := [[c] + ws'[0]] + ws'[1..], gaps';
        InterleaveExtendFirst(c, ws', gaps');
      } else {
        // The character is a token of its own, and the blank prefix a gap.
        ws, gaps := [[c]] + ws', [pre'] + gaps';
        InterleaveCons([c], pre', ws', gaps');
      }
      assert s == [c] + (pre' + m' + post');
    }
  }

  lemma {:induction false} NonEmptyKeepsNonEmpty(ws: seq<string>)
    requires forall i :: 0 <= i < |ws| ==> ws[i] != []
    ensures NonEmpty(ws) == ws
  {
    if ws != [] {
      NonEmptyKeepsNonEmpty(ws[1..]);
      assert [ws[0]] + ws[1..] == ws;
    }
  }
}
