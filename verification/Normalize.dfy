/** Query normalization: one pass over trimmed, lower-cased text is a canonical form of its words. */
module Normalize {

  /** The characters with the Unicode property White_Space. */
  predicate IsSpace(c: char) {
    || '\U{9}' <= c <= '\U{d}' || c == ' ' || c == '\U{85}' || c == '\U{a0}' || c == '\U{1680}'
    || '\U{2000}' <= c <= '\U{200a}' || c == '\U{2028}' || c == '\U{2029}' || c == '\U{202f}'
    || c == '\U{205f}' || c == '\U{3000}'
  }

  predicate IsWord(w: string) {
    w != "" && forall i :: 0 <= i < |w| ==> !IsSpace(w[i])
  }

  /**
   Lower-casing acts on each word separately, because white space carries no case and ends the
   context of every special rule. It turns words into words and is idempotent.
   */
  ghost predicate LowersWords(lower: string -> string) {
    forall w {:trigger lower(w)} :: IsWord(w) ==> IsWord(lower(w)) && lower(lower(w)) == lower(w)
  }

  // ----- words

  function WordLength(s: string): (n: nat)
    ensures n <= |s| && forall i :: 0 <= i < n ==> !IsSpace(s[i])
    ensures n < |s| ==> IsSpace(s[n])
  {
    if s == "" || IsSpace(s[0]) then 0 else 1 + WordLength(s[1..])
  }

  /** The maximal runs of non-space characters, in order. */
  function Words(s: string): (ws: seq<string>)
    ensures forall i :: 0 <= i < |ws| ==> IsWord(ws[i])
    decreases |s|
  {
    if s == "" then []
    else if IsSpace(s[0]) then Words(s[1..])
    else [s[..WordLength(s)]] + Words(s[WordLength(s)..])
  }

  function Join(ws: seq<string>): string {
    if ws == [] then "" else if |ws| == 1 then ws[0] else ws[0] + " " + Join(ws[1..])
  }

  function MapLower(lower: string -> string, ws: seq<string>): seq<string> {
    seq(|ws|, i requires 0 <= i < |ws| => lower(ws[i]))
  }

  // ----- the three stages of the code

  function TrimStart(s: string): string {
    if s != "" && IsSpace(s[0]) then TrimStart(s[1..]) else s
  }

  function TrimEnd(s: string): string {
    if s != "" && IsSpace(s[|s| - 1]) then TrimEnd(s[..|s| - 1]) else s
  }

  function Lower(lower: string -> string, s: string): string
    decreases |s|
  {
    if s == "" then ""
    else if IsSpace(s[0]) then [s[0]] + Lower(lower, s[1..])
    else lower(s[..WordLength(s)]) + Lower(lower, s[WordLength(s)..])
  }

  /** What the loop appends for the rest of the text. */
  function Collapse(s: string, prevWasSpace: bool): string {
    if s == "" then ""
    else if IsSpace(s[0]) then (if prevWasSpace then "" else " ") + Collapse(s[1..], true)
    else [s[0]] + Collapse(s[1..], false)
  }

  function Normal(lower: string -> string, query: string): string {
    Collapse(Lower(lower, TrimEnd(TrimStart(query))), false)
  }

  method NormalizeQuery(lower: string -> string, query: string) returns (result: string)
    ensures result == Normal(lower, query)
  {
    hide IsSpace;
    var trimmed := Lower(lower, TrimEnd(TrimStart(query)));
    result := "";
    assert trimmed[0..] == trimmed && "" + Collapse(trimmed, false) == Collapse(trimmed, false);
    var prevWasSpace := false;
    for i := 0 to |trimmed|
      invariant result + Collapse(trimmed[i..], prevWasSpace) == Collapse(trimmed, false)
    {
      var c := trimmed[i];
      CollapseHead(trimmed, i, prevWasSpace, result);
      if IsSpace(c) {
        if !prevWasSpace {
          result := result + [' '];
          prevWasSpace := true;
        }
      } else {
        result := result + [c];
        prevWasSpace := false;
      }
    }
    assert trimmed[|trimmed|..] == "" && result + "" == result;
  }

  /** One round of the loop: the next character, collapsed, moves to the end of the result. */
  lemma CollapseHead(s: string, i: nat, prevWasSpace: bool, result: string)
    requires i < |s|
    ensures var rest := s[i + 1..];
            result + Collapse(s[i..], prevWasSpace) ==
              if !IsSpace(s[i]) then (result + [s[i]]) + Collapse(rest, false)
              else if prevWasSpace then result + Collapse(rest, true)
              else (result + [' ']) + Collapse(rest, true)
  {
    var rest := s[i + 1..];
    assert s[i..][0] == s[i] && s[i..][1..] == rest;
    if !IsSpace(s[i]) {
      assert result + ([s[i]] + Collapse(rest, false)) == (result + [s[i]]) + Collapse(rest, false);
    } else if prevWasSpace {
      assert "" + Collapse(rest, true) == Collapse(rest, true);
    } else {
      assert result + (" " + Collapse(rest, true)) == (result + [' ']) + Collapse(rest, true);
    }
  }

  // ----- words of the stages

  ghost predicate Breaks(s: string) {
    s == "" || IsSpace(s[0])
  }

  lemma WordLengthOf(w: string, r: string)
    requires IsWord(w) && Breaks(r)
    ensures WordLength(w + r) == |w|
  {
    var n := WordLength(w + r);
    assert forall i :: 0 <= i < |w| ==> (w + r)[i] == w[i];
    assert r != "" ==> (w + r)[|w|] == r[0];
  }

  lemma WordsCons(w: string, r: string)
    requires IsWord(w) && Breaks(r)
    ensures Words(w + r) == [w] + Words(r)
  {
    WordLengthOf(w, r);
    assert (w + r)[..|w|] == w && (w + r)[|w|..] == r;
    assert (w + r)[0] == w[0];
  }

  lemma {:induction false} WordsTrimStart(s: string)
    ensures Words(TrimStart(s)) == Words(s)
    decreases |s|
  {
    if s != "" && IsSpace(s[0]) {
      WordsTrimStart(s[1..]);
    }
  }

  lemma {:induction false} WordsSpaceAfter(s: string, c: char)
    requires IsSpace(c)
    ensures Words(s + [c]) == Words(s)
    decreases |s|
  {
    if s == "" {
      assert (s + [c])[1..] == "";
    } else if IsSpace(s[0]) {
      assert (s + [c])[1..] == s[1..] + [c];
      WordsSpaceAfter(s[1..], c);
    } else {
      var n := WordLength(s);
      var w, r := s[..n], s[n..];
      assert s == w + r && s + [c] == w + (r + [c]);
      WordsSpaceAfter(r, c);
      assert r != "" ==> (r + [c])[0] == r[0];
      WordsCons(w, r);
      WordsCons(w, r + [c]);
    }
  }

  lemma {:induction false} WordsTrimEnd(s: string)
    ensures Words(TrimEnd(s)) == Words(s)
    decreases |s|
  {
    if s != "" && IsSpace(s[|s| - 1]) {
      WordsTrimEnd(s[..|s| - 1]);
      WordsSpaceAfter(s[..|s| - 1], s[|s| - 1]);
      assert s == s[..|s| - 1] + [s[|s| - 1]];
    }
  }

  lemma {:induction false} WordsLower(lower: string -> string, s: string)
    requires LowersWords(lower)
    ensures Words(Lower(lower, s)) == MapLower(lower, Words(s))
    ensures Breaks(s) ==> Breaks(Lower(lower, s))
    decreases |s|
  {
    hide IsSpace, WordLength;
    if s == "" {
    } else if IsSpace(s[0]) {
      WordsLower(lower, s[1..]);
      WordsAfterSpace(s[0], Lower(lower, s[1..]));
    } else {
      var w, r := s[..WordLength(s)], s[WordLength(s)..];
      WordsLower(lower, r);
      assert IsWord(w);
      hide Words, IsWord;
      WordsFirst(s);
      WordsCons(lower(w), Lower(lower, r));
      MapLowerFirst(lower, w, Words(r));
    }
  }

  lemma WordsAfterSpace(c: char, r: string)
    requires IsSpace(c)
    ensures Words([c] + r) == Words(r)
  {
    assert ([c] + r)[1..] == r;
  }

  lemma WordsFirst(s: string)
    requires s != "" && !IsSpace(s[0])
    ensures Words(s) == [s[..WordLength(s)]] + Words(s[WordLength(s)..])
  {
  }

  lemma MapLowerFirst(lower: string -> string, w: string, ws: seq<string>)
    ensures MapLower(lower, [w] + ws) == [lower(w)] + MapLower(lower, ws)
  {
  }

  // ----- collapsing trimmed text

  ghost predicate Trimmed(s: string) {
    s == "" || (!IsSpace(s[0]) && !IsSpace(s[|s| - 1]))
  }

  lemma {:induction false} CollapseWord(w: string, r: string)
    requires forall i :: 0 <= i < |w| ==> !IsSpace(w[i])
    ensures w != "" ==> forall b :: Collapse(w + r, b) == w + Collapse(r, false)
    decreases |w|
  {
    if w != "" {
      CollapseWord(w[1..], r);
      assert (w + r)[0] == w[0] && (w + r)[1..] == w[1..] + r;
      if |w| == 1 {
        assert w[1..] + r == r && w + Collapse(r, false) == [w[0]] + Collapse(r, false);
      } else {
        assert [w[0]] + (w[1..] + Collapse(r, false)) == w + Collapse(r, false);
      }
    }
  }

  lemma {:induction false} CollapseSpaces(s: string)
    requires s != "" && !IsSpace(s[|s| - 1])
    ensures TrimStart(s) != "" && !IsSpace(TrimStart(s)[0]) && !IsSpace(TrimStart(s)[|TrimStart(s)| - 1])
    ensures |TrimStart(s)| <= |s|
    ensures Collapse(s, true) == Collapse(TrimStart(s), false)
    decreases |s|
  {
    if IsSpace(s[0]) {
      CollapseSpaces(s[1..]);
    }
  }

  lemma {:induction false} CollapseTrimmed(s: string)
    requires Trimmed(s)
    ensures Collapse(s, false) == Join(Words(s))
    decreases |s|
  {
    hide IsSpace;
    if s != "" {
      var n := WordLength(s);
      var w, r := s[..n], s[n..];
      assert s == w + r;
      CollapseWord(w, r);
      WordsCons(w, r);
      if r == "" {
        assert w + "" == w;
      } else {
        var t := TrimStart(r);
        CollapseSpaces(r);
        assert r[0] == s[n] && r[|r| - 1] == s[|s| - 1];
        SkipFirst(r);
        CollapseTrimmed(t);
        WordsTrimStart(r);
        SomeWord(t);
        assert ([w] + Words(t))[1..] == Words(t);
      }
    }
  }

  lemma SkipFirst(r: string)
    requires r != "" && IsSpace(r[0]) && !IsSpace(r[|r| - 1])
    ensures Collapse(r, false) == " " + Collapse(TrimStart(r), false)
  {
    CollapseSpaces(r[1..]);
  }

  lemma SomeWord(t: string)
    requires t != "" && !IsSpace(t[0])
    ensures Words(t) != []
  {
  }

  lemma {:induction false} TrimEndTrims(s: string)
    requires s == "" || !IsSpace(s[0])
    ensures Trimmed(TrimEnd(s))
    decreases |s|
  {
    if s != "" && IsSpace(s[|s| - 1]) {
      assert |s| > 1 ==> s[..|s| - 1][0] == s[0];
      TrimEndTrims(s[..|s| - 1]);
    }
  }

  lemma {:induction false} TrimStartTrims(s: string)
    ensures TrimStart(s) == "" || !IsSpace(TrimStart(s)[0])
    decreases |s|
  {
    if s != "" && IsSpace(s[0]) {
      TrimStartTrims(s[1..]);
    }
  }

  lemma {:induction false} LowerTrimmed(lower: string -> string, s: string)
    requires LowersWords(lower)
    ensures s != "" && !IsSpace(s[|s| - 1]) ==>
            Lower(lower, s) != "" && !IsSpace(Lower(lower, s)[|Lower(lower, s)| - 1])
    ensures s != "" && !IsSpace(s[0]) ==> Lower(lower, s) != "" && !IsSpace(Lower(lower, s)[0])
    decreases |s|
  {
    hide IsSpace, WordLength;
    if s == "" {
    } else if IsSpace(s[0]) {
      LowerTrimmed(lower, s[1..]);
    } else {
      var n := WordLength(s);
      LowerTrimmed(lower, s[n..]);
      assert IsWord(s[..n]);
      assert IsWord(lower(s[..n]));
      assert s[n..] == "" ==> Lower(lower, s) == lower(s[..n]) + "";
    }
  }

  // ----- the canonical form

  /** The one-pass loop joins the lower-cased words with single spaces. */
  lemma NormalJoinsWords(lower: string -> string, query: string)
    requires LowersWords(lower)
    ensures Normal(lower, query) == Join(MapLower(lower, Words(query)))
  {
    var a := TrimStart(query);
    var b := TrimEnd(a);
    TrimStartTrims(query);
    TrimEndTrims(a);
    LowerTrimmed(lower, b);
    CollapseTrimmed(Lower(lower, b));
    WordsLower(lower, b);
    WordsTrimEnd(a);
    WordsTrimStart(query);
  }

  lemma SpaceBreaks(s: string)
    ensures Breaks(" " + s) && Words(" " + s) == Words(s)
  {
    WordsAfterSpace(' ', s);
  }

  lemma {:induction false} WordsJoin(ws: seq<string>)
    requires forall i :: 0 <= i < |ws| ==> IsWord(ws[i])
    ensures Words(Join(ws)) == ws
    decreases |ws|
  {
    if |ws| == 1 {
      WordsCons(ws[0], "");
      assert ws[0] + "" == ws[0] && ws == [ws[0]];
    } else if |ws| > 1 {
      JoinFirst(ws);
      hide Words, Join, IsWord, Breaks;
      WordsJoin(ws[1..]);
      SpaceBreaks(Join(ws[1..]));
      WordsCons(ws[0], " " + Join(ws[1..]));
      assert ws == [ws[0]] + ws[1..];
    }
  }

  lemma JoinFirst(ws: seq<string>)
    requires |ws| > 1
    ensures Join(ws) == ws[0] + (" " + Join(ws[1..]))
  {
    assert ws[0] + " " + Join(ws[1..]) == ws[0] + (" " + Join(ws[1..]));
  }

  /** Two queries share a key exactly when their lower-cased word lists agree. */
  lemma SameKeyIffSameWords(lower: string -> string, a: string, b: string)
    requires LowersWords(lower)
    ensures Normal(lower, a) == Normal(lower, b) <==> MapLower(lower, Words(a)) == MapLower(lower, Words(b))
  {
    NormalJoinsWords(lower, a);
    NormalJoinsWords(lower, b);
    WordsJoin(MapLower(lower, Words(a)));
    WordsJoin(MapLower(lower, Words(b)));
  }

  lemma NormalIsIdempotent(lower: string -> string, query: string)
    requires LowersWords(lower)
    ensures Normal(lower, Normal(lower, query)) == Normal(lower, query)
  {
    var ws := MapLower(lower, Words(query));
    NormalJoinsWords(lower, query);
    NormalJoinsWords(lower, Join(ws));
    WordsJoin(ws);
    assert MapLower(lower, ws) == ws;
  }
}
