/** The few pieces of the Java platform and of Apache Commons Lang that the command
    resolver relies on, with the semantics those libraries give them: nullable strings,
    `Map.get`, `Character.isWhitespace`, `StringUtils.isBlank`, `Boolean.valueOf`,
    `String.toLowerCase`, `String.contains` and the two forms of `String.split` the
    resolver uses (on the regular expression `\s+` and on a one-character separator).
 */
module JavaLang {

  /** A Java reference that may be null. */
  datatype Option<+T> = None | Some(value: T)

  /** `Map.get`: the value stored under `key`, or null when the map has no entry for it. */
  function Get(m: map<string, string>, key: string): (r: Option<string>)
    ensures r.Some? <==> key in m
    ensures r.Some? ==> r.value == m[key]
  {
    if key in m then Some(m[key]) else None
  }

  // ---------------------------------------------------------------------------
  // Characters

  /** `Character.isWhitespace`: the Unicode space, line and paragraph separators other
      than the non-breaking ones (U+00A0, U+2007, U+202F), plus tab, line feed, vertical
      tab, form feed, carriage return and the four information separators U+001C..U+001F. */
  predicate IsWhitespace(c: char)
  {
    ('\t' <= c <= '\r') || ('\U{1C}' <= c <= '\U{1F}') || c == ' '
    || c == '\U{1680}' || ('\U{2000}' <= c <= '\U{2006}') || ('\U{2008}' <= c <= '\U{200A}')
    || c == '\U{2028}' || c == '\U{2029}' || c == '\U{205F}' || c == '\U{3000}'
  }

  /** The regular-expression class `\s` (without UNICODE_CHARACTER_CLASS): space, tab,
      line feed, vertical tab, form feed and carriage return. */
  predicate IsSpace(c: char)
  {
    c == ' ' || ('\t' <= c <= '\r')
  }

  /** True when every character of `s` is in `\s` (the empty string included). */
  predicate AllSpaces(s: string)
  {
    forall i :: 0 <= i < |s| ==> IsSpace(s[i])
  }

  /** True when some character of `s` is in `\s`: the regular expression `\s+` matches in `s`. */
  predicate HasSpace(s: string)
  {
    exists i :: 0 <= i < |s| && IsSpace(s[i])
  }

  /** `StringUtils.isBlank`: null, empty, or made of whitespace only. */
  predicate IsBlank(s: Option<string>)
  {
    match s
    case None => true
    case Some(v) => forall i :: 0 <= i < |v| ==> IsWhitespace(v[i])
  }

  /** `Character.toLowerCase` restricted to the ASCII letters. */
  function ToLower(c: char): char
  {
    if 'A' <= c <= 'Z' then (c as int + 32) as char else c
  }

  /** `String.toLowerCase`, character by character. */
  function ToLowerCase(s: string): (r: string)
    ensures |r| == |s|
    ensures forall i :: 0 <= i < |s| ==> r[i] == ToLower(s[i])
  {
    if s == [] then [] else [ToLower(s[0])] + ToLowerCase(s[1..])
  }

  /** `String.equalsIgnoreCase` for a non-null argument. */
  predicate EqualsIgnoreCase(s: string, t: string)
  {
    ToLowerCase(s) == ToLowerCase(t)
  }

  /** `Boolean.valueOf(String)`: true exactly for a non-null "true" in any letter case. */
  predicate BooleanValueOf(s: Option<string>)
  {
    s.Some? && EqualsIgnoreCase(s.value, "true")
  }

  /** `sub` occurs in `s` starting at index `i`. */
  ghost predicate OccursAt(s: string, sub: string, i: int)
  {
    0 <= i && i + |sub| <= |s| && s[i..i + |sub|] == sub
  }

  /** `String.contains`: a left-to-right search for `sub` in `s`. */
  function Contains(s: string, sub: string): (r: bool)
    ensures r ==> exists i :: OccursAt(s, sub, i)
    ensures (exists i :: OccursAt(s, sub, i)) ==> r
    decreases |s|
  {
    if |s| < |sub| then false
    else if s[..|sub|] == sub then assert OccursAt(s, sub, 0); true
    else
      var found := Contains(s[1..], sub);
      assert found ==> exists i :: OccursAt(s, sub, i) by {
        if found {
          var k :| OccursAt(s[1..], sub, k);
          assert s[k + 1..k + 1 + |sub|] == s[1..][k..k + |sub|];
          assert OccursAt(s, sub, k + 1);
        }
      }
      assert (exists i :: OccursAt(s, sub, i)) ==> found by {
        if exists i :: OccursAt(s, sub, i) {
          var k :| OccursAt(s, sub, k);
          assert k != 0;
          assert s[1..][k - 1..k - 1 + |sub|] == s[k..k + |sub|];
          assert OccursAt(s[1..], sub, k - 1);
        }
      }
      found
  }

  // ---------------------------------------------------------------------------
  // Concatenation and removal of blanks (used to state what splitting keeps)

  /** All strings of `xs`, concatenated in order. */
  function Concat(xs: seq<string>): string
  {
    if xs == [] then "" else xs[0] + Concat(xs[1..])
  }

  /** `s` with every `\s` character removed, the others kept in order. */
  function RemoveSpaces(s: string): string
  {
    if s == [] then "" else (if IsSpace(s[0]) then "" else [s[0]]) + RemoveSpaces(s[1..])
  }

  lemma {:induction false} ConcatAppend(xs: seq<string>, ys: seq<string>)
    ensures Concat(xs + ys) == Concat(xs) + Concat(ys)
    decreases |xs|
  {
    if xs == [] {
      assert xs + ys == ys;
    } else {
      assert (xs + ys)[1..] == xs[1..] + ys;
      ConcatAppend(xs[1..], ys);
    }
  }

  lemma {:induction false} RemoveSpacesOfSpaceless(s: string)
    requires !HasSpace(s)
    ensures RemoveSpaces(s) == s
    decreases |s|
  {
    if s != [] {
      forall k | 0 <= k < |s[1..]| ensures !IsSpace(s[1..][k]) {
        assert s[1..][k] == s[k + 1];
      }
      RemoveSpacesOfSpaceless(s[1..]);
    }
  }

  /** A string with no character outside `\s` loses everything to RemoveSpaces, and only such a string does. */
  lemma {:induction false} RemoveSpacesEmpty(s: string)
    ensures RemoveSpaces(s) == "" <==> AllSpaces(s)
    decreases |s|
  {
    if s != [] {
      RemoveSpacesEmpty(s[1..]);
      assert AllSpaces(s) <==> IsSpace(s[0]) && AllSpaces(s[1..]) by {
        if IsSpace(s[0]) && AllSpaces(s[1..]) {
          forall i | 0 <= i < |s| ensures IsSpace(s[i]) {
            if i > 0 { assert s[i] == s[1..][i - 1]; }
          }
        }
        if AllSpaces(s) {
          forall i | 0 <= i < |s[1..]| ensures IsSpace(s[1..][i]) {
            assert s[1..][i] == s[i + 1];
          }
        }
      }
    }
  }

  // ---------------------------------------------------------------------------
  // String.split("\\s+")

  /** What is left of `s` once its leading run of `\s` is consumed. */
  function SkipSpaces(s: string): (r: string)
    ensures |r| <= |s| && r == s[|s| - |r|..]
    ensures r == [] || !IsSpace(r[0])
    ensures AllSpaces(s[..|s| - |r|])
    decreases |s|
  {
    if s != [] && IsSpace(s[0]) then
      var r := SkipSpaces(s[1..]);
      assert s[..|s| - |r|] == [s[0]] + s[1..][..|s[1..]| - |r|];
      r
    else s
  }

  /** The substrings of `s` around the maximal runs of `\s`, before the trailing empty
      ones are discarded: a leading run gives an empty first piece, a trailing run an
      empty last piece. */
  function SpacePieces(s: string): (r: seq<string>)
    ensures |r| >= 1
    decreases |s|
  {
    if s == [] then [""]
    else if IsSpace(s[0]) then [""] + SpacePieces(SkipSpaces(s))
    else
      var rest := SpacePieces(s[1..]);
      [[s[0]] + rest[0]] + rest[1..]
  }

  /** The limit-zero rule of `String.split`: trailing empty strings are removed. */
  function DropTrailingEmpty(xs: seq<string>): (r: seq<string>)
    ensures r <= xs
    ensures r == [] || r[|r| - 1] != ""
    ensures forall i :: |r| <= i < |xs| ==> xs[i] == ""
    decreases |xs|
  {
    if xs != [] && xs[|xs| - 1] == "" then DropTrailingEmpty(xs[..|xs| - 1]) else xs
  }

  /** `s.split("\\s+")`: the input itself when the pattern never matches, otherwise the
      pieces around the whitespace runs with trailing empty pieces removed. */
  function SplitOnSpaces(s: string): seq<string>
  {
    if !HasSpace(s) then [s] else DropTrailingEmpty(SpacePieces(s))
  }

  lemma {:induction false} ConcatDropTrailingEmpty(xs: seq<string>)
    ensures Concat(DropTrailingEmpty(xs)) == Concat(xs)
    decreases |xs|
  {
    if xs != [] && xs[|xs| - 1] == "" {
      ConcatDropTrailingEmpty(xs[..|xs| - 1]);
      assert xs == xs[..|xs| - 1] + [""];
      ConcatAppend(xs[..|xs| - 1], [""]);
    }
  }

  lemma {:induction false} SkipSpacesKeepsRemoved(s: string)
    ensures RemoveSpaces(SkipSpaces(s)) == RemoveSpaces(s)
    decreases |s|
  {
    if s != [] && IsSpace(s[0]) {
      SkipSpacesKeepsRemoved(s[1..]);
    }
  }

  /** No piece holds a `\s` character. */
  lemma {:induction false} SpacePiecesSpaceless(s: string)
    ensures forall i :: 0 <= i < |SpacePieces(s)| ==> !HasSpace(SpacePieces(s)[i])
    decreases |s|
  {
    var r := SpacePieces(s);
    if s == [] {
    } else if IsSpace(s[0]) {
      var u := SkipSpaces(s);
      SpacePiecesSpaceless(u);
      forall i | 0 <= i < |r| ensures !HasSpace(r[i]) {
        if i > 0 { assert r[i] == SpacePieces(u)[i - 1]; }
      }
    } else {
      var rest := SpacePieces(s[1..]);
      SpacePiecesSpaceless(s[1..]);
      var head := [s[0]] + rest[0];
      forall k | 0 <= k < |head| ensures !IsSpace(head[k]) {
        if k > 0 { assert head[k] == rest[0][k - 1]; }
      }
      forall i | 0 < i < |r| ensures !HasSpace(r[i]) {
        assert r[i] == rest[i];
      }
    }
  }

  /** Together the pieces hold exactly the characters of `s` that are not `\s`, in order. */
  lemma {:induction false} SpacePiecesConcat(s: string)
    ensures Concat(SpacePieces(s)) == RemoveSpaces(s)
    decreases |s|
  {
    var r := SpacePieces(s);
    if s == [] {
    } else if IsSpace(s[0]) {
      var u := SkipSpaces(s);
      SpacePiecesConcat(u);
      SkipSpacesKeepsRemoved(s);
      assert r == [""] + SpacePieces(u);
      assert Concat(r) == "" + Concat(SpacePieces(u));
    } else {
      var rest := SpacePieces(s[1..]);
      SpacePiecesConcat(s[1..]);
      assert Concat(rest) == rest[0] + Concat(rest[1..]);
      assert r == [[s[0]] + rest[0]] + rest[1..];
      assert Concat(r) == [s[0]] + rest[0] + Concat(rest[1..]);
    }
  }

  /** Apart from the first and the last, no piece is empty; the first is empty exactly
      when `s` is empty or starts with `\s`. */
  lemma {:induction false} SpacePiecesNonEmpty(s: string)
    ensures forall i :: 0 < i < |SpacePieces(s)| - 1 ==> SpacePieces(s)[i] != ""
    ensures SpacePieces(s)[0] == "" <==> s == [] || IsSpace(s[0])
    decreases |s|
  {
    var r := SpacePieces(s);
    if s == [] {
    } else if IsSpace(s[0]) {
      var u := SkipSpaces(s);
      SpacePiecesNonEmpty(u);
      forall i | 0 < i < |r| - 1 ensures r[i] != "" {
        assert r[i] == SpacePieces(u)[i - 1];
      }
    } else {
      var rest := SpacePieces(s[1..]);
      SpacePiecesNonEmpty(s[1..]);
      forall i | 0 < i < |r| - 1 ensures r[i] != "" {
        assert r[i] == rest[i];
      }
    }
  }

  /** Outside the case where the pattern never matches, `split("\\s+")` keeps a prefix
      of the pieces: every piece up to the last non-empty one. */
  lemma SplitOnSpacesPieces(s: string)
    requires HasSpace(s)
    ensures SplitOnSpaces(s) <= SpacePieces(s)
    ensures Concat(SplitOnSpaces(s)) == RemoveSpaces(s)
    ensures forall i :: 0 <= i < |SplitOnSpaces(s)| ==> !HasSpace(SplitOnSpaces(s)[i])
  {
    var p := SpacePieces(s);
    var r := SplitOnSpaces(s);
    SpacePiecesSpaceless(s);
    SpacePiecesConcat(s);
    ConcatDropTrailingEmpty(p);
    forall i | 0 <= i < |r| ensures !HasSpace(r[i]) {
      assert r[i] == p[i];
    }
  }

  lemma SplitOnSpacesNonEmpty(s: string)
    requires HasSpace(s)
    ensures forall i :: 0 < i < |SplitOnSpaces(s)| ==> SplitOnSpaces(s)[i] != ""
    ensures |SplitOnSpaces(s)| >= 1 ==> (SplitOnSpaces(s)[0] == "" <==> IsSpace(s[0]))
  {
    var p := SpacePieces(s);
    var r := SplitOnSpaces(s);
    SpacePiecesNonEmpty(s);
    forall i | 0 < i < |r| ensures r[i] != "" {
      if i == |p| - 1 {
        assert r[|r| - 1] != "";
      } else {
        assert r[i] == p[i];
      }
    }
    if |r| >= 1 {
      assert r[0] == p[0];
    }
  }

  /** What `split("\\s+")` returns for any string: tokens free of `\s` that together
      hold the non-blank characters of `s` in their original order, none of them empty
      except possibly the first, which is empty exactly when `s` starts with `\s`. */
  lemma SplitOnSpacesShape(s: string)
    ensures forall i :: 0 <= i < |SplitOnSpaces(s)| ==> !HasSpace(SplitOnSpaces(s)[i])
    ensures Concat(SplitOnSpaces(s)) == RemoveSpaces(s)
    ensures forall i :: 0 < i < |SplitOnSpaces(s)| ==> SplitOnSpaces(s)[i] != ""
    ensures !AllSpaces(s) ==> |SplitOnSpaces(s)| >= 1 && (SplitOnSpaces(s)[0] == "" <==> IsSpace(s[0]))
  {
    var r := SplitOnSpaces(s);
    RemoveSpacesEmpty(s);
    if !HasSpace(s) {
      RemoveSpacesOfSpaceless(s);
      assert Concat(r) == s + Concat([]);
      if !AllSpaces(s) {
        assert s != [] && !IsSpace(s[0]);
      }
    } else {
      SplitOnSpacesPieces(s);
      SplitOnSpacesNonEmpty(s);
      if !AllSpaces(s) {
        assert Concat(r) != "";
      }
    }
  }

  /** `tokens` separated by the runs `gaps`: the inverse of splitting. */
  function JoinWith(tokens: seq<string>, gaps: seq<string>): (r: string)
    requires |tokens| == |gaps| + 1
    ensures tokens[0] <= r
    decreases |gaps|
  {
    if gaps == [] then tokens[0] else tokens[0] + gaps[0] + JoinWith(tokens[1..], gaps[1..])
  }

  /** A token that `split("\\s+")` can give back unchanged: non-empty and free of `\s`. */
  ghost predicate IsWord(t: string)
  {
    t != "" && !HasSpace(t)
  }

  /** A separator between two tokens: a non-empty run of `\s`. */
  ghost predicate IsGap(g: string)
  {
    g != "" && AllSpaces(g)
  }

  /** `tokens` are words and `gaps` the runs between them, one between each two words. */
  ghost predicate Separated(tokens: seq<string>, gaps: seq<string>)
    decreases |gaps|
  {
    && |tokens| == |gaps| + 1
    && IsWord(tokens[0])
    && (gaps != [] ==> IsGap(gaps[0]) && Separated(tokens[1..], gaps[1..]))
  }

  lemma {:induction false} SeparatedLastWord(tokens: seq<string>, gaps: seq<string>)
    requires Separated(tokens, gaps)
    ensures IsWord(tokens[|tokens| - 1])
    decreases |gaps|
  {
    if gaps != [] {
      SeparatedLastWord(tokens[1..], gaps[1..]);
      assert tokens[1..][|tokens| - 2] == tokens[|tokens| - 1];
    }
  }

  lemma {:induction false} SpacelessPiecesPrefix(t: string, u: string)
    requires !HasSpace(t)
    ensures SpacePieces(t + u) == [t + SpacePieces(u)[0]] + SpacePieces(u)[1..]
    decreases |t|
  {
    var p := SpacePieces(u);
    if t == [] {
      assert t + u == u;
      assert t + p[0] == p[0];
      assert [t + p[0]] + p[1..] == p;
    } else {
      assert !IsSpace(t[0]);
      forall k | 0 <= k < |t[1..]| ensures !IsSpace(t[1..][k]) {
        assert t[1..][k] == t[k + 1];
      }
      assert (t + u)[0] == t[0];
      assert (t + u)[1..] == t[1..] + u;
      SpacelessPiecesPrefix(t[1..], u);
      assert [t[0]] + (t[1..] + p[0]) == t + p[0];
    }
  }

  lemma {:induction false} SkipSpacesOfRun(g: string, u: string)
    requires AllSpaces(g)
    requires u == [] || !IsSpace(u[0])
    ensures SkipSpaces(g + u) == u
    decreases |g|
  {
    if g == [] {
      assert g + u == u;
    } else {
      assert (g + u)[1..] == g[1..] + u;
      SkipSpacesOfRun(g[1..], u);
    }
  }

  lemma GapPieces(g: string, u: string)
    requires IsGap(g)
    requires u == [] || !IsSpace(u[0])
    ensures SpacePieces(g + u) == [""] + SpacePieces(u)
  {
    SkipSpacesOfRun(g, u);
  }

  lemma WordPieces(t: string, trail: string)
    requires IsWord(t) && AllSpaces(trail)
    ensures SpacePieces(t + trail) == [t] + (if trail == "" then [] else [""])
  {
    SpacelessPiecesPrefix(t, trail);
    assert t + "" == t;
    if trail != "" {
      GapPieces(trail, "");
      assert trail + "" == trail;
      assert SpacePieces(trail) == ["", ""];
    } else {
      assert SpacePieces(trail) == [""];
    }
  }

  lemma WordGapPieces(t: string, g: string, rest: string)
    requires IsWord(t) && IsGap(g)
    requires rest == [] || !IsSpace(rest[0])
    ensures SpacePieces(t + (g + rest)) == [t] + SpacePieces(rest)
  {
    var p := SpacePieces(g + rest);
    GapPieces(g, rest);
    SpacelessPiecesPrefix(t, g + rest);
    assert p[0] == "" && p[1..] == SpacePieces(rest);
    assert t + p[0] == t;
  }

  /** Joined words followed by a run of `\s` start with the first word's first character. */
  lemma JoinedStart(tokens: seq<string>, gaps: seq<string>, trail: string)
    requires Separated(tokens, gaps)
    ensures JoinWith(tokens, gaps) + trail != []
    ensures !IsSpace((JoinWith(tokens, gaps) + trail)[0])
  {
    var r := JoinWith(tokens, gaps) + trail;
    assert r[0] == tokens[0][0];
    assert !IsSpace(tokens[0][0]);
  }

  lemma PiecesStep(t: string, g: string, rest: string, restTokens: seq<string>, tail: seq<string>)
    requires IsWord(t) && IsGap(g)
    requires rest != [] && !IsSpace(rest[0])
    requires SpacePieces(rest) == restTokens + tail
    ensures SpacePieces(t + (g + rest)) == [t] + restTokens + tail
  {
    WordGapPieces(t, g, rest);
  }

  lemma {:induction false} JoinWithPieces(tokens: seq<string>, gaps: seq<string>, trail: string)
    requires Separated(tokens, gaps) && AllSpaces(trail)
    ensures SpacePieces(JoinWith(tokens, gaps) + trail) == tokens + (if trail == "" then [] else [""])
    decreases |gaps|
  {
    if gaps == [] {
      WordPieces(tokens[0], trail);
    } else {
      var rest := JoinWith(tokens[1..], gaps[1..]) + trail;
      var tail: seq<string> := if trail == "" then [] else [""];
      assert rest != [] && !IsSpace(rest[0]) && SpacePieces(rest) == tokens[1..] + tail by {
        JoinedStart(tokens[1..], gaps[1..], trail);
        JoinWithPieces(tokens[1..], gaps[1..], trail);
      }
      assert JoinWith(tokens, gaps) + trail == tokens[0] + (gaps[0] + rest);
      PiecesStep(tokens[0], gaps[0], rest, tokens[1..], tail);
      assert [tokens[0]] + tokens[1..] == tokens;
    }
  }

  lemma LeadPieces(lead: string, body: string)
    requires AllSpaces(lead)
    requires body != [] && !IsSpace(body[0])
    ensures SpacePieces(lead + body) == (if lead == "" then [] else [""]) + SpacePieces(body)
  {
    if lead == "" {
      assert lead + body == body;
    } else {
      GapPieces(lead, body);
    }
  }

  lemma JoinedPieces(lead: string, tokens: seq<string>, gaps: seq<string>, trail: string)
    requires Separated(tokens, gaps) && AllSpaces(lead) && AllSpaces(trail)
    ensures SpacePieces(lead + (JoinWith(tokens, gaps) + trail))
         == (if lead == "" then [] else [""]) + (tokens + (if trail == "" then [] else [""]))
  {
    JoinWithPieces(tokens, gaps, trail);
    JoinedStart(tokens, gaps, trail);
    LeadPieces(lead, JoinWith(tokens, gaps) + trail);
  }

  lemma DropTrailingAfterWord(front: seq<string>, tokens: seq<string>, tail: seq<string>)
    requires tokens != [] && tokens[|tokens| - 1] != ""
    requires tail == [] || tail == [""]
    ensures DropTrailingEmpty(front + (tokens + tail)) == front + tokens
  {
    var p := front + (tokens + tail);
    if tail == [] {
      assert tokens + tail == tokens;
      assert p[|p| - 1] == tokens[|tokens| - 1];
    } else {
      assert p[..|p| - 1] == front + tokens;
      assert (front + tokens)[|front + tokens| - 1] == tokens[|tokens| - 1];
    }
  }

  lemma JoinedHasSpace(lead: string, tokens: seq<string>, gaps: seq<string>, trail: string)
    requires Separated(tokens, gaps) && AllSpaces(lead) && AllSpaces(trail)
    requires lead != "" || trail != "" || gaps != []
    ensures HasSpace(lead + (JoinWith(tokens, gaps) + trail))
  {
    var s := lead + (JoinWith(tokens, gaps) + trail);
    if lead != "" {
      assert s[0] == lead[0];
      assert IsSpace(s[0]);
    } else if trail != "" {
      assert s[|s| - 1] == trail[|trail| - 1];
      assert IsSpace(s[|s| - 1]);
    } else {
      assert s == tokens[0] + gaps[0] + JoinWith(tokens[1..], gaps[1..]) + "";
      assert s[|tokens[0]|] == gaps[0][0];
      assert IsSpace(s[|tokens[0]|]);
    }
  }

  /** Splitting undoes joining: words separated by non-empty runs of `\s`, with optional
      runs before and after, split back into those words, plus an empty first token when
      there is a leading run. */
  lemma SplitOnSpacesRoundTrip(lead: string, tokens: seq<string>, gaps: seq<string>, trail: string)
    requires Separated(tokens, gaps)
    requires AllSpaces(lead) && AllSpaces(trail)
    ensures SplitOnSpaces(lead + (JoinWith(tokens, gaps) + trail)) == (if lead == "" then [] else [""]) + tokens
  {
    if lead == "" && trail == "" && gaps == [] {
      assert lead + (JoinWith(tokens, gaps) + trail) == tokens[0];
    } else {
      JoinedHasSpace(lead, tokens, gaps, trail);
      JoinedPieces(lead, tokens, gaps, trail);
      SeparatedLastWord(tokens, gaps);
      DropTrailingAfterWord(if lead == "" then [] else [""], tokens, if trail == "" then [] else [""]);
    }
  }

  // ---------------------------------------------------------------------------
  // String.split(separator) for a one-character separator that is not a regex metacharacter

  /** The substrings of `s` between occurrences of `sep`, before trailing empty ones are discarded. */
  function CharPieces(s: string, sep: char): (r: seq<string>)
    ensures |r| >= 1
    decreases |s|
  {
    if s == [] then [""]
    else if s[0] == sep then [""] + CharPieces(s[1..], sep)
    else
      var rest := CharPieces(s[1..], sep);
      [[s[0]] + rest[0]] + rest[1..]
  }

  /** `s.split(sep)`: the input itself when `sep` does not occur, otherwise the pieces
      between the separators with trailing empty pieces removed. */
  function SplitOnChar(s: string, sep: char): seq<string>
  {
    if sep !in s then [s] else DropTrailingEmpty(CharPieces(s, sep))
  }

  /** `parts` separated by single `sep` characters. */
  function JoinOn(parts: seq<string>, sep: char): (r: string)
    requires |parts| >= 1
    ensures parts[0] <= r
    ensures |parts| > 1 ==> |parts[0]| < |r| && r[|parts[0]|] == sep
    decreases |parts|
  {
    if |parts| == 1 then parts[0] else parts[0] + [sep] + JoinOn(parts[1..], sep)
  }

  lemma {:induction false} CharPiecesPrefix(t: string, u: string, sep: char)
    requires sep !in t
    ensures CharPieces(t + u, sep) == [t + CharPieces(u, sep)[0]] + CharPieces(u, sep)[1..]
    decreases |t|
  {
    var p := CharPieces(u, sep);
    if t == [] {
      assert t + u == u;
      assert t + p[0] == p[0];
      assert [t + p[0]] + p[1..] == p;
    } else {
      assert (t + u)[0] == t[0];
      assert (t + u)[1..] == t[1..] + u;
      CharPiecesPrefix(t[1..], u, sep);
      assert [t[0]] + (t[1..] + p[0]) == t + p[0];
    }
  }

  lemma {:induction false} JoinOnPieces(parts: seq<string>, sep: char)
    requires |parts| >= 1
    requires forall i :: 0 <= i < |parts| ==> sep !in parts[i]
    ensures CharPieces(JoinOn(parts, sep), sep) == parts
    decreases |parts|
  {
    CharPiecesPrefix(parts[0], "", sep);
    assert parts[0] + "" == parts[0];
    if |parts| > 1 {
      var rest := JoinOn(parts[1..], sep);
      JoinOnPieces(parts[1..], sep);
      assert ([sep] + rest)[1..] == rest;
      CharPiecesPrefix(parts[0], [sep] + rest, sep);
      assert JoinOn(parts, sep) == parts[0] + ([sep] + rest);
      assert parts == [parts[0]] + parts[1..];
    }
  }

  /** Splitting a separator-joined list gives the list back, as long as no entry holds
      the separator and the last entry is not empty (trailing empty entries are lost). */
  lemma SplitOnCharRoundTrip(parts: seq<string>, sep: char)
    requires |parts| >= 1
    requires forall i :: 0 <= i < |parts| ==> sep !in parts[i]
    requires |parts| == 1 || parts[|parts| - 1] != ""
    ensures SplitOnChar(JoinOn(parts, sep), sep) == parts
  {
    JoinOnPieces(parts, sep);
  }
}
