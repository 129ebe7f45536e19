/** The string operations the form applies to a company name:
    `trim`, `toLowerCase` and `replace(/\s+/g, rep)`, together with a
    character-by-character reference tokenizer that says what the regular
    expression replacement means. */
module Text {
  import opened Chars

  predicate NoWhitespace(s: string) {
    forall i :: 0 <= i < |s| ==> !IsWhitespace(s[i])
  }

  predicate AllWhitespace(s: string) {
    forall i :: 0 <= i < |s| ==> IsWhitespace(s[i])
  }

  predicate IsLowerCase(s: string) {
    forall i :: 0 <= i < |s| ==> !IsUpper(s[i])
  }

  lemma ConcatNoWhitespace(a: string, b: string)
    requires NoWhitespace(a) && NoWhitespace(b)
    ensures NoWhitespace(a + b)
  {
    forall i | 0 <= i < |a + b| ensures !IsWhitespace((a + b)[i]) {
      if i >= |a| { assert (a + b)[i] == b[i - |a|]; }
    }
  }

  lemma ConcatLowerCase(a: string, b: string)
    requires IsLowerCase(a) && IsLowerCase(b)
    ensures IsLowerCase(a + b)
  {
    forall i | 0 <= i < |a + b| ensures !IsUpper((a + b)[i]) {
      if i >= |a| { assert (a + b)[i] == b[i - |a|]; }
    }
  }

  /** `toLowerCase`, restricted to ASCII letters. */
  function Lower(s: string): (r: string)
    ensures |r| == |s|
    ensures forall i :: 0 <= i < |s| ==> r[i] == ToLower(s[i])
    ensures IsLowerCase(r)
    ensures IsLowerCase(s) ==> r == s
    ensures NoWhitespace(r) <==> NoWhitespace(s)
  {
    if s == [] then [] else [ToLower(s[0])] + Lower(s[1..])
  }

  /** Drops the leading run of white space; what is left is a suffix of
      the input that is empty or starts with a non-white-space character. */
  function TrimStart(s: string): (r: string)
    ensures |r| <= |s| && r == s[|s| - |r|..]
    ensures AllWhitespace(s[..|s| - |r|])
    ensures r == [] || !IsWhitespace(r[0])
    ensures s != [] && IsWhitespace(s[0]) ==> |r| < |s|
  {
    if s != [] && IsWhitespace(s[0]) then TrimStart(s[1..]) else s
  }

  /** Drops the trailing run of white space. */
  function TrimEnd(s: string): (r: string)
    ensures |r| <= |s| && r == s[..|r|]
    ensures AllWhitespace(s[|r|..])
    ensures r == [] || !IsWhitespace(r[|r| - 1])
  {
    if s != [] && IsWhitespace(s[|s| - 1]) then TrimEnd(s[..|s| - 1]) else s
  }

  /** `trim`: both ends stripped; empty exactly when the input is all
      white space. */
  function Trim(s: string): (r: string)
    ensures |r| <= |s|
    ensures r == [] || (!IsWhitespace(r[0]) && !IsWhitespace(r[|r| - 1]))
    ensures r == [] <==> AllWhitespace(s)
  {
    var t := TrimStart(s);
    var r := TrimEnd(t);
    assert r == [] ==> AllWhitespace(t) by {
      if r == [] { assert t[|r|..] == t; }
    }
    assert r == [] && t == [] ==> AllWhitespace(s) by {
      if r == [] && t == [] { assert s[..|s| - |t|] == s; }
    }
    r
  }

  /** The white-space characters deleted, the others kept in order. */
  function NonWs(s: string): (r: string)
    ensures NoWhitespace(r)
    ensures |r| <= |s|
    ensures NoWhitespace(s) ==> r == s
  {
    if s == [] then []
    else if IsWhitespace(s[0]) then NonWs(s[1..])
    else [s[0]] + NonWs(s[1..])
  }

  /** `s.replace(/\s+/g, rep)` for a replacement without `$` patterns:
      every maximal run of white space is replaced by `rep`; every other
      character is copied. */
  function ReplaceRuns(s: string, rep: string): (r: string)
    ensures forall c :: c in r ==> (c in s && !IsWhitespace(c)) || c in rep
    decreases |s|
  {
    if s == [] then []
    else if IsWhitespace(s[0]) then
      var rest := TrimStart(s);
      SuffixMembers(s, |s| - |rest|);
      rep + ReplaceRuns(rest, rep)
    else
      SuffixMembers(s, 1);
      [s[0]] + ReplaceRuns(s[1..], rep)
  }

  /** Every character of a suffix is a character of the whole string. */
  lemma SuffixMembers(s: string, k: nat)
    requires k <= |s|
    ensures forall c :: c in s[k..] ==> c in s
  {
    forall c | c in s[k..] ensures c in s {
      var j :| 0 <= j < |s| - k && s[k..][j] == c;
      assert s[k + j] == c;
    }
  }

  /** A whitespace-free replacement leaves no white space behind. */
  lemma ReplaceRunsNoWhitespace(s: string, rep: string)
    requires NoWhitespace(rep)
    ensures NoWhitespace(ReplaceRuns(s, rep))
  {
    var r := ReplaceRuns(s, rep);
    forall i | 0 <= i < |r| ensures !IsWhitespace(r[i]) {
      assert r[i] in r;
    }
  }

  /** A string without white space has no run to replace. */
  lemma {:induction false} ReplaceRunsFixesNoWhitespace(s: string, rep: string)
    requires NoWhitespace(s)
    ensures ReplaceRuns(s, rep) == s
  {
    if s != [] {
      ReplaceRunsFixesNoWhitespace(s[1..], rep);
    }
  }

  /** Dropping the leading run changes nothing about the kept characters. */
  lemma {:induction false} NonWsSkipsLeadingRun(s: string)
    ensures NonWs(TrimStart(s)) == NonWs(s)
  {
    if s != [] && IsWhitespace(s[0]) {
      NonWsSkipsLeadingRun(s[1..]);
    }
  }

  /** Replacing runs by the empty string deletes every white-space
      character: `replace(/\s+/g, '')` is the white-space filter. */
  lemma {:induction false} DeleteRunsIsNonWs(s: string)
    ensures ReplaceRuns(s, []) == NonWs(s)
    decreases |s|
  {
    if s == [] {
    } else if IsWhitespace(s[0]) {
      DeleteRunsIsNonWs(TrimStart(s));
      NonWsSkipsLeadingRun(s);
    } else {
      DeleteRunsIsNonWs(s[1..]);
    }
  }

  /** Lower-casing keeps white space where it is, so it commutes with
      dropping the leading run. */
  lemma {:induction false} LowerTrimStart(s: string)
    ensures TrimStart(Lower(s)) == Lower(TrimStart(s))
  {
    if s != [] {
      assert Lower(s)[1..] == Lower(s[1..]);
      LowerTrimStart(s[1..]);
    }
  }

  /** `s.endsWith(suffix)`. */
  predicate EndsWith(s: string, suffix: string) {
    |suffix| <= |s| && s[|s| - |suffix|..] == suffix
  }

  /** A trailing run of white space becomes a trailing `rep`. */
  lemma {:induction false} ReplaceRunsTrailing(s: string, rep: string)
    requires s != [] && IsWhitespace(s[|s| - 1])
    ensures EndsWith(ReplaceRuns(s, rep), rep)
    decreases |s|
  {
    if IsWhitespace(s[0]) {
      var t := TrimStart(s);
      var u := ReplaceRuns(t, rep);
      assert ReplaceRuns(s, rep) == rep + u;
      if t != [] {
        assert t[|t| - 1] == s[|s| - 1];
        ReplaceRunsTrailing(t, rep);
        EndsWithExtend(rep, u, rep);
      } else {
        assert rep + u == rep;
      }
    } else {
      var u := ReplaceRuns(s[1..], rep);
      assert ReplaceRuns(s, rep) == [s[0]] + u;
      ReplaceRunsTrailing(s[1..], rep);
      EndsWithExtend([s[0]], u, rep);
    }
  }

  /** Putting something in front keeps the ending. */
  lemma EndsWithExtend(a: string, b: string, suffix: string)
    requires EndsWith(b, suffix)
    ensures EndsWith(a + b, suffix)
  {
    assert (a + b)[|a + b| - |suffix|..] == b[|b| - |suffix|..];
  }

  // ---------------------------------------------------------------------
  // Reference tokenizer: one scan, one character at a time.

  /** A kept character, or the single mark left by a white-space run. */
  datatype Piece = Kept(c: char) | Gap

  /** Scans `s` left to right; `afterWs` says whether the previous
      character was white space. A white-space character opens a `Gap`
      only when it starts a run. */
  function PiecesFrom(s: string, afterWs: bool): seq<Piece> {
    if s == [] then []
    else if IsWhitespace(s[0]) then
      (if afterWs then [] else [Gap]) + PiecesFrom(s[1..], true)
    else [Kept(s[0])] + PiecesFrom(s[1..], false)
  }

  function Pieces(s: string): seq<Piece> {
    PiecesFrom(s, false)
  }

  /** Writes the pieces out, each `Gap` as `rep`. */
  function Render(ps: seq<Piece>, rep: string): string {
    if ps == [] then []
    else (match ps[0] case Kept(c) => [c] case Gap => rep) + Render(ps[1..], rep)
  }

  function KeptChars(ps: seq<Piece>): string {
    if ps == [] then []
    else (match ps[0] case Kept(c) => [c] case Gap => []) + KeptChars(ps[1..])
  }

  predicate NoAdjacentGaps(ps: seq<Piece>) {
    forall i :: 0 < i < |ps| ==> !(ps[i - 1].Gap? && ps[i].Gap?)
  }

  /** The tokenizer never emits two `Gap`s in a row, starts with a kept
      character when it starts right after white space, and keeps exactly
      the non-white-space characters in order. */
  lemma {:induction false} PiecesShape(s: string, afterWs: bool)
    ensures NoAdjacentGaps(PiecesFrom(s, afterWs))
    ensures afterWs && PiecesFrom(s, afterWs) != [] ==> PiecesFrom(s, afterWs)[0].Kept?
    ensures KeptChars(PiecesFrom(s, afterWs)) == NonWs(s)
  {
    if s != [] {
      PiecesShape(s[1..], IsWhitespace(s[0]));
      var ps := PiecesFrom(s, afterWs);
      var tail := PiecesFrom(s[1..], IsWhitespace(s[0]));
      if IsWhitespace(s[0]) && afterWs {
        assert ps == tail;
      } else if IsWhitespace(s[0]) {
        assert ps == [Gap] + tail && ps[1..] == tail;
        assert KeptChars(ps) == KeptChars(tail);
      } else {
        assert ps == [Kept(s[0])] + tail && ps[1..] == tail;
        assert KeptChars(ps) == [s[0]] + KeptChars(tail);
      }
    }
  }

  /** Within a run, the scan emits nothing more until the run ends. */
  lemma {:induction false} PiecesInsideRun(s: string)
    ensures PiecesFrom(s, true) == PiecesFrom(TrimStart(s), false)
  {
    if s != [] && IsWhitespace(s[0]) {
      PiecesInsideRun(s[1..]);
    }
  }

  /** The regular-expression replacement agrees with the reference
      tokenizer: it is the pieces of `s` with each `Gap` written as `rep`. */
  lemma {:induction false} ReplaceRunsRendersPieces(s: string, rep: string)
    ensures ReplaceRuns(s, rep) == Render(Pieces(s), rep)
    decreases |s|
  {
    if s == [] {
    } else if IsWhitespace(s[0]) {
      var ps := Pieces(s);
      assert ps == [Gap] + PiecesFrom(s[1..], true);
      PiecesInsideRun(s[1..]);
      assert TrimStart(s) == TrimStart(s[1..]);
      ReplaceRunsRendersPieces(TrimStart(s), rep);
      assert ps[1..] == PiecesFrom(s[1..], true);
    } else {
      var ps := Pieces(s);
      assert ps == [Kept(s[0])] + Pieces(s[1..]);
      assert ps[1..] == Pieces(s[1..]);
      ReplaceRunsRendersPieces(s[1..], rep);
    }
  }
}
