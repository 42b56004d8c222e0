/**
 * The string primitives the statement parser relies on: JavaScript's `\d`
 * and `\s` character classes, `String.prototype.split` on a single character
 * and on the pattern `/\s+/`, and `Array.prototype.join`.
 */
module Text {

  /** `\d`: an ASCII decimal digit. */
  predicate IsDigit(c: char) {
    '0' <= c <= '9'
  }

  /** `\s`: the ECMAScript WhiteSpace and LineTerminator characters. */
  predicate IsSpace(c: char) {
    || c == '\t' || c == '\n' || c == '\U{000B}' || c == '\U{000C}' || c == '\r' || c == ' '
    || c == '\U{00A0}' || c == '\U{1680}' || ('\U{2000}' <= c <= '\U{200A}')
    || c == '\U{2028}' || c == '\U{2029}' || c == '\U{202F}' || c == '\U{205F}'
    || c == '\U{3000}' || c == '\U{FEFF}'
  }

  /** No character of `s` is white space. */
  predicate SpaceFree(s: string) {
    forall k :: 0 <= k < |s| ==> !IsSpace(s[k])
  }

  /** The index of the first `c` in `s`, or `|s|` when there is none. */
  function IndexOf(s: string, c: char): (i: nat)
    ensures i <= |s|
  {
    if |s| == 0 then 0
    else if s[0] == c then 0
    else 1 + IndexOf(s[1..], c)
  }

  /** The index found holds `c`, and no index before it does. */
  lemma {:induction false} IndexOfSpec(s: string, c: char)
    ensures IndexOf(s, c) < |s| ==> s[IndexOf(s, c)] == c
    ensures forall j :: 0 <= j < IndexOf(s, c) ==> s[j] != c
  {
    if |s| > 0 && s[0] != c {
      IndexOfSpec(s[1..], c);
    }
  }

  /** `s.split(sep)` for a one-character separator: the pieces between the separators. */
  function SplitOn(s: string, sep: char): (parts: seq<string>)
    ensures |parts| >= 1
    decreases |s|
  {
    var i := IndexOf(s, sep);
    if i == |s| then [s]
    else [s[..i]] + SplitOn(s[i + 1..], sep)
  }

  /** No piece of a split contains the separator. */
  lemma {:induction false} SplitOnSeparatorFree(s: string, sep: char)
    ensures forall i :: 0 <= i < |SplitOn(s, sep)| ==> sep !in SplitOn(s, sep)[i]
    decreases |s|
  {
    var i := IndexOf(s, sep);
    IndexOfSpec(s, sep);
    if i < |s| {
      SplitOnSeparatorFree(s[i + 1..], sep);
      var parts := SplitOn(s, sep);
      forall k | 0 <= k < |parts| ensures sep !in parts[k] {
        if k == 0 {
          assert parts[0] == s[..i];
        } else {
          assert parts[k] == SplitOn(s[i + 1..], sep)[k - 1];
        }
      }
    }
  }

  /** `parts.join(sep)`. */
  function JoinWith(parts: seq<string>, sep: string): string {
    if |parts| == 0 then ""
    else if |parts| == 1 then parts[0]
    else parts[0] + sep + JoinWith(parts[1..], sep)
  }

  /** Joining the pieces of a split with the separator gives the original string back. */
  lemma {:induction false} JoinSplitOn(s: string, sep: char)
    ensures JoinWith(SplitOn(s, sep), [sep]) == s
    decreases |s|
  {
    var i := IndexOf(s, sep);
    IndexOfSpec(s, sep);
    if i < |s| {
      var rest := s[i + 1..];
      JoinSplitOn(rest, sep);
      var tail := SplitOn(rest, sep);
      assert SplitOn(s, sep) == [s[..i]] + tail;
      assert (([s[..i]] + tail)[1..]) == tail;
      assert s == s[..i] + [sep] + rest;
    }
  }

  /** Splitting a join of separator-free pieces gives the pieces back. */
  lemma {:induction false} SplitOnJoin(parts: seq<string>, sep: char)
    requires |parts| >= 1
    requires forall i :: 0 <= i < |parts| ==> sep !in parts[i]
    ensures SplitOn(JoinWith(parts, [sep]), sep) == parts
  {
    var p := parts[0];
    if |parts| == 1 {
      IndexOfAbsent(p, sep);
      assert JoinWith(parts, [sep]) == p;
    } else {
      var rest := JoinWith(parts[1..], [sep]);
      assert JoinWith(parts, [sep]) == p + [sep] + rest;
      SplitOnCons(p, sep, rest);
      SplitOnJoin(parts[1..], sep);
      assert parts == [p] + parts[1..];
    }
  }

  /** A separator-free piece, the separator and a rest split into that piece and the split of the rest. */
  lemma SplitOnCons(p: string, sep: char, rest: string)
    requires sep !in p
    ensures SplitOn(p + [sep] + rest, sep) == [p] + SplitOn(rest, sep)
  {
    var s := p + [sep] + rest;
    IndexOfAfter(p, sep, [sep] + rest);
    assert s == p + ([sep] + rest);
    assert s[..|p|] == p;
    assert s[|p| + 1..] == rest;
  }

  /** A string without `c` has no index of `c`. */
  lemma {:induction false} IndexOfAbsent(s: string, c: char)
    requires c !in s
    ensures IndexOf(s, c) == |s|
  {
    if |s| > 0 {
      assert s[0] != c;
      assert c !in s[1..];
      IndexOfAbsent(s[1..], c);
    }
  }

  /** The first `c` of `p + t`, when `p` has none and `t` starts with one, is at `|p|`. */
  lemma {:induction false} IndexOfAfter(p: string, c: char, t: string)
    requires c !in p
    requires |t| > 0 && t[0] == c
    ensures IndexOf(p + t, c) == |p|
  {
    var s := p + t;
    IndexOfSpec(s, c);
    assert s[|p|] == c;
  }

  /** The index of the first white-space character of `s`, or `|s|`. */
  function FirstSpace(s: string): (i: nat)
    ensures i <= |s|
  {
    if |s| == 0 then 0
    else if IsSpace(s[0]) then 0
    else 1 + FirstSpace(s[1..])
  }

  /** The index found is white space, and no index before it is. */
  lemma {:induction false} FirstSpaceSpec(s: string)
    ensures FirstSpace(s) < |s| ==> IsSpace(s[FirstSpace(s)])
    ensures forall j :: 0 <= j < FirstSpace(s) ==> !IsSpace(s[j])
  {
    if |s| > 0 && !IsSpace(s[0]) {
      FirstSpaceSpec(s[1..]);
    }
  }

  /** The length of the run of white space that starts `s`. */
  function SpaceRun(s: string): (n: nat)
    ensures n <= |s|
  {
    if |s| == 0 then 0
    else if !IsSpace(s[0]) then 0
    else 1 + SpaceRun(s[1..])
  }

  /** The run is all white space, and the character after it is not. */
  lemma {:induction false} SpaceRunSpec(s: string)
    ensures forall j :: 0 <= j < SpaceRun(s) ==> IsSpace(s[j])
    ensures SpaceRun(s) < |s| ==> !IsSpace(s[SpaceRun(s)])
  {
    if |s| > 0 && IsSpace(s[0]) {
      SpaceRunSpec(s[1..]);
    }
  }

  /**
   * `s.split(/\s+/)`: the pieces between maximal runs of white space. A leading
   * (trailing) run gives an empty first (last) piece; every other piece is
   * non-empty.
   */
  function SplitWs(s: string): (tokens: seq<string>)
    ensures |tokens| >= 1
    decreases |s|
  {
    var i := FirstSpace(s);
    if i == |s| then [s]
    else
      var j := i + SpaceRun(s[i..]);
      [s[..i]] + SplitWs(s[j..])
  }

  /**
   * The tokens hold no white space; all but the first and the last are
   * non-empty, and the first is non-empty when `s` does not start with white
   * space.
   */
  lemma {:induction false} SplitWsSpec(s: string)
    ensures forall k :: 0 <= k < |SplitWs(s)| ==> SpaceFree(SplitWs(s)[k])
    ensures forall k :: 0 < k < |SplitWs(s)| - 1 ==> SplitWs(s)[k] != ""
    ensures |s| > 0 && !IsSpace(s[0]) ==> SplitWs(s)[0] != ""
    decreases |s|
  {
    if FirstSpace(s) < |s| {
      var i := FirstSpace(s);
      var j := SplitWsStep(s);
      var rest := s[j..];
      SplitWsSpec(rest);
      var tokens := SplitWs(s);
      assert SpaceFree(s[..i]) by { FirstSpaceSpec(s); }
      assert rest == "" || !IsSpace(rest[0]);
      forall k | 0 <= k < |tokens| ensures SpaceFree(tokens[k]) && (0 < k < |tokens| - 1 ==> tokens[k] != "") {
        if k > 0 {
          assert tokens[k] == SplitWs(rest)[k - 1];
        }
      }
      assert |s| > 0 && !IsSpace(s[0]) ==> i > 0;
    } else {
      assert SplitWs(s) == [s];
      FirstSpaceSpec(s);
      assert SpaceFree(s);
    }
  }

  /** `g` is a non-empty run of white space, as `\s+` matches. */
  predicate IsSpaceRun(g: string) {
    g != "" && forall k :: 0 <= k < |g| ==> IsSpace(g[k])
  }

  /** `tokens[0] + gaps[0] + tokens[1] + … + gaps[n-2] + tokens[n-1]`. */
  function Interleave(tokens: seq<string>, gaps: seq<string>): string
    requires |tokens| >= 1 && |gaps| == |tokens| - 1
    decreases |tokens|
  {
    if |tokens| == 1 then tokens[0]
    else tokens[0] + gaps[0] + Interleave(tokens[1..], gaps[1..])
  }

  /** A join is the interleaving of the pieces with copies of the separator. */
  lemma {:induction false} JoinWithInterleave(parts: seq<string>, sep: string)
    requires |parts| >= 1
    ensures JoinWith(parts, sep) == Interleave(parts, seq(|parts| - 1, _ => sep))
  {
    if |parts| > 1 {
      JoinWithInterleave(parts[1..], sep);
      assert seq(|parts| - 1, _ => sep)[1..] == seq(|parts[1..]| - 1, _ => sep);
    }
  }

  /** An interleaving begins with its first token. */
  lemma {:induction false} InterleaveFirst(tokens: seq<string>, gaps: seq<string>)
    requires |tokens| >= 1 && |gaps| == |tokens| - 1
    ensures |Interleave(tokens, gaps)| >= |tokens[0]|
    ensures Interleave(tokens, gaps)[..|tokens[0]|] == tokens[0]
  {
    if |tokens| > 1 {
      assert Interleave(tokens, gaps) == tokens[0] + (gaps[0] + Interleave(tokens[1..], gaps[1..]));
    }
  }

  /** The white-space runs `split(/\s+/)` cuts `s` at, in order. */
  function SplitWsGaps(s: string): (gaps: seq<string>)
    decreases |s|
  {
    var i := FirstSpace(s);
    if i == |s| then []
    else
      var j := i + SpaceRun(s[i..]);
      [s[i..j]] + SplitWsGaps(s[j..])
  }

  /**
   * The tokens are the pieces of `s`: `s` is the tokens interleaved with the
   * runs of white space between them.
   */
  lemma {:induction false} SplitWsRebuild(s: string)
    ensures forall k :: 0 <= k < |SplitWsGaps(s)| ==> IsSpaceRun(SplitWsGaps(s)[k])
    ensures |SplitWsGaps(s)| == |SplitWs(s)| - 1 && Interleave(SplitWs(s), SplitWsGaps(s)) == s
    decreases |s|
  {
    SplitWsGapsRuns(s);
    if FirstSpace(s) < |s| {
      var i := FirstSpace(s);
      var j := SplitWsStep(s);
      var rest := s[j..];
      SplitWsRebuild(rest);
      ThreeWay(s, i, j);
      InterleaveCons(s[..i], SplitWs(rest), s[i..j], SplitWsGaps(rest), rest);
    } else {
      assert SplitWs(s) == [s];
    }
  }

  /** Every gap the split cuts at is a non-empty run of white space. */
  lemma {:induction false} SplitWsGapsRuns(s: string)
    ensures forall k :: 0 <= k < |SplitWsGaps(s)| ==> IsSpaceRun(SplitWsGaps(s)[k])
    decreases |s|
  {
    if FirstSpace(s) < |s| {
      var j := SplitWsStep(s);
      var rest := s[j..];
      SplitWsGapsRuns(rest);
      forall k | 0 < k < |SplitWsGaps(s)| ensures IsSpaceRun(SplitWsGaps(s)[k]) {
        assert SplitWsGaps(s)[k] == SplitWsGaps(rest)[k - 1];
      }
    }
  }

  /** An interleaving starting with one more token and gap. */
  lemma InterleaveCons(t: string, tokens: seq<string>, g: string, gaps: seq<string>, rest: string)
    requires |tokens| >= 1 && |gaps| == |tokens| - 1
    requires Interleave(tokens, gaps) == rest
    ensures Interleave([t] + tokens, [g] + gaps) == t + g + rest
  {
    assert ([t] + tokens)[1..] == tokens && ([g] + gaps)[1..] == gaps;
  }

  /** One step of the split: the first token, the run after it, and the rest. */
  lemma SplitWsStep(s: string) returns (j: nat)
    requires FirstSpace(s) < |s|
    ensures FirstSpace(s) < j <= |s|
    ensures SplitWs(s) == [s[..FirstSpace(s)]] + SplitWs(s[j..])
    ensures SplitWsGaps(s) == [s[FirstSpace(s)..j]] + SplitWsGaps(s[j..])
    ensures IsSpaceRun(s[FirstSpace(s)..j])
    ensures j < |s| ==> !IsSpace(s[j])
  {
    var i := FirstSpace(s);
    j := i + SpaceRun(s[i..]);
    assert IsSpace(s[i]) by {
      FirstSpaceSpec(s);
    }
    SpaceRunAt(s, i);
  }

  /** The run of white space starting at a white-space character is non-empty and maximal. */
  lemma SpaceRunAt(s: string, i: nat)
    requires i < |s| && IsSpace(s[i])
    ensures var j := i + SpaceRun(s[i..]);
            i < j <= |s| && IsSpaceRun(s[i..j]) && (j < |s| ==> !IsSpace(s[j]))
  {
    var t := s[i..];
    var j := i + SpaceRun(t);
    assert t[0] == s[i];
    SpaceRunSpec(t);
    forall k | 0 <= k < j - i
      ensures IsSpace(s[i..j][k])
    {
      assert s[i..j][k] == t[k];
    }
    if j < |s| {
      assert s[j] == t[j - i];
    }
  }

  /** A string is its three slices at `i` and `j`, put back together. */
  lemma ThreeWay(s: string, i: nat, j: nat)
    requires i <= j <= |s|
    ensures s == s[..i] + s[i..j] + s[j..]
  {
  }

  /**
   * Splitting white-space-free tokens, of which all but the first and the
   * last are non-empty, interleaved with runs of white space, gives the
   * tokens back.
   */
  lemma {:induction false} SplitWsInterleave(tokens: seq<string>, gaps: seq<string>)
    requires |tokens| >= 1 && |gaps| == |tokens| - 1
    requires forall k :: 0 <= k < |tokens| ==> SpaceFree(tokens[k])
    requires forall k :: 0 < k < |tokens| - 1 ==> tokens[k] != ""
    requires forall k :: 0 <= k < |gaps| ==> IsSpaceRun(gaps[k])
    ensures SplitWs(Interleave(tokens, gaps)) == tokens
  {
    var t := tokens[0];
    if |tokens| == 1 {
      SplitWsSpaceFree(t);
    } else {
      var rest, gs := tokens[1..], gaps[1..];
      var r := Interleave(rest, gs);
      assert Interleave(tokens, gaps) == t + gaps[0] + r;
      assert r == "" || !IsSpace(r[0]) by {
        InterleaveFirst(rest, gs);
        if |rest| > 1 {
          assert rest[0] == tokens[1] && tokens[1] != "";
          assert r[0] == r[..|rest[0]|][0];
        } else {
          assert r == rest[0];
        }
      }
      assert IsSpaceRun(gaps[0]);
      SplitWsCons(t, gaps[0], r);
      SplitWsInterleave(rest, gs);
      assert tokens == [t] + rest;
    }
  }

  /**
   * Splitting a single-space join of white-space-free tokens, of which all but
   * the first and the last are non-empty, gives the tokens back.
   */
  lemma SplitWsJoin(tokens: seq<string>)
    requires |tokens| >= 1
    requires forall k :: 0 <= k < |tokens| ==> SpaceFree(tokens[k])
    requires forall k :: 0 < k < |tokens| - 1 ==> tokens[k] != ""
    ensures SplitWs(JoinWith(tokens, " ")) == tokens
  {
    var gaps := seq(|tokens| - 1, _ => " ");
    JoinWithInterleave(tokens, " ");
    SingleSpaces(gaps);
    SplitWsInterleave(tokens, gaps);
  }

  /** Single spaces are runs of white space. */
  lemma SingleSpaces(gaps: seq<string>)
    requires forall k :: 0 <= k < |gaps| ==> gaps[k] == " "
    ensures forall k :: 0 <= k < |gaps| ==> IsSpaceRun(gaps[k])
  {
    assert IsSpaceRun(" ");
  }

  /** A string without white space is a single token. */
  lemma SplitWsSpaceFree(t: string)
    requires SpaceFree(t)
    ensures SplitWs(t) == [t]
  {
    assert t + "" == t;
    FirstSpaceOfSpaceFree(t, "");
  }

  /**
   * A white-space-free token, a run of white space and then a string that does
   * not start with white space split apart at that run.
   */
  lemma SplitWsCons(t: string, g: string, r: string)
    requires SpaceFree(t) && IsSpaceRun(g)
    requires r == "" || !IsSpace(r[0])
    ensures SplitWs(t + g + r) == [t] + SplitWs(r)
  {
    var s := t + g + r;
    assert s == t + (g + r);
    FirstSpaceOfSpaceFree(t, g + r);
    assert s[|t|..] == g + r;
    SpaceRunOfRun(g, r);
    assert s[..|t|] == t;
    assert s[|t| + |g|..] == r;
  }

  /** The white-space run at the front of `g + r` is exactly `g`. */
  lemma {:induction false} SpaceRunOfRun(g: string, r: string)
    requires forall k :: 0 <= k < |g| ==> IsSpace(g[k])
    requires r == "" || !IsSpace(r[0])
    ensures SpaceRun(g + r) == |g|
  {
    if |g| > 0 {
      assert (g + r)[1..] == g[1..] + r;
      SpaceRunOfRun(g[1..], r);
    } else {
      assert g + r == r;
    }
  }

  /** The first space of `t + u`, for `t` space free and `u` empty or starting with a space, is at `|t|`. */
  lemma {:induction false} FirstSpaceOfSpaceFree(t: string, u: string)
    requires SpaceFree(t)
    requires u == "" || IsSpace(u[0])
    ensures FirstSpace(t + u) == |t|
  {
    if |t| > 0 {
      assert (t + u)[1..] == t[1..] + u;
      FirstSpaceOfSpaceFree(t[1..], u);
    }
  }
}
