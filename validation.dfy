/**
 * Input sanitising and question validation (lib/validation.ts): the three
 * fixed text rewrites of `sanitizeInput` and the ordered rejection chain of
 * `validateQuestion`. Each regular expression is written out as a
 * hand-made matcher on `string`.
 */
module Validation {
  import opened Wrappers
  import opened JsText
  import opened Json

  // ---------------------------------------------------------------------
  // Step 1: strip every `<...>` span (the global pattern `<[^>]*>`).
  // ---------------------------------------------------------------------

  /** No `<` is followed, anywhere later, by a `>`. */
  predicate NoTagClose(s: string)
  {
    forall i, j :: 0 <= i < j < |s| && s[i] == '<' ==> s[j] != '>'
  }

  /** Index of the first occurrence of `c` in `s`. */
  function FindChar(s: string, c: char): (r: Option<nat>)
    ensures r.Some? ==> r.value < |s| && s[r.value] == c
    ensures r.Some? ==> forall k :: 0 <= k < r.value ==> s[k] != c
    ensures r.None? <==> c !in s
  {
    if s == [] then None
    else if s[0] == c then Some(0)
    else match FindChar(s[1..], c)
      case None => None
      case Some(k) => Some(k + 1)
  }

  /** The global replace of `<[^>]*>` by the empty string. Scanning from the
    * left, a `<` starts a match exactly when a `>` follows it somewhere; the
    * match then ends at the first such `>`. A `<` with no later `>` stays. */
  function StripTags(s: string): (r: string)
    ensures |r| <= |s|
    ensures '>' !in s ==> '>' !in r
    ensures NoTagClose(r)
    decreases |s|
  {
    if s == [] then []
    else if s[0] == '<' && FindChar(s[1..], '>').Some? then
      StripTags(s[FindChar(s[1..], '>').value + 2..])
    else
      [s[0]] + StripTags(s[1..])
  }

  /** Text free of `<...>` spans is left alone by the tag strip. */
  lemma {:induction false} StripTagsUnchanged(s: string)
    requires NoTagClose(s)
    ensures StripTags(s) == s
    decreases |s|
  {
    if s != [] {
      var u := s[1..];
      if s[0] == '<' {
        assert '>' !in u by {
          forall j | 0 <= j < |u| ensures u[j] != '>' {
            assert u[j] == s[j + 1];
          }
        }
      }
      NoTagCloseSlice(s, 1, u);
      StripTagsUnchanged(u);
      assert StripTags(s) == [s[0]] + StripTags(u);
      assert s == [s[0]] + u;
    }
  }

  /** Text without `<` passes through the tag strip as a prefix. */
  lemma {:induction false} StripTagsPlainPrefix(p: string, rest: string)
    requires '<' !in p
    ensures StripTags(p + rest) == p + StripTags(rest)
    decreases |p|
  {
    if p != [] {
      assert (p + rest)[0] == p[0] && (p + rest)[1..] == p[1..] + rest;
      assert p[0] != '<' && '<' !in p[1..];
      StripTagsPlainPrefix(p[1..], rest);
      assert StripTags(p + rest) == [p[0]] + StripTags(p[1..] + rest);
      assert [p[0]] + (p[1..] + StripTags(rest)) == p + StripTags(rest);
    } else {
      assert p + rest == rest;
    }
  }

  /** A complete `<...>` span at the front is deleted. */
  lemma StripTagsDropsSpan(t: string, rest: string)
    requires '>' !in t
    ensures StripTags(['<'] + t + ['>'] + rest) == StripTags(rest)
  {
    var s := ['<'] + t + ['>'] + rest;
    assert s[1..] == t + ['>'] + rest;
    var f := FindChar(s[1..], '>');
    assert s[1..][|t|] == '>';
    assert forall k :: 0 <= k < |t| ==> s[1..][k] == t[k];
    assert f.value == |t|;
    assert s[|t| + 2..] == rest;
  }

  // ---------------------------------------------------------------------
  // Step 2: strip script blocks, the global case-insensitive pattern
  // `<script\b[^<]*(?:(?!<\/script>)<[^<]*)*<\/script>`.
  // ---------------------------------------------------------------------

  /** `s` starts with the lower-case ASCII text `p`, ignoring ASCII case. */
  predicate StartsWithCI(s: string, p: string)
  {
    |p| <= |s| && forall k :: 0 <= k < |p| ==> Lower(s[k]) == p[k]
  }

  /** The first index at or after `from` where `p` occurs, ignoring case. */
  function FindCI(s: string, p: string, from: nat): (r: Option<nat>)
    ensures r.Some? ==> from <= r.value && r.value + |p| <= |s| && StartsWithCI(s[r.value..], p)
    ensures r.Some? ==> forall k :: from <= k < r.value ==> !StartsWithCI(s[k..], p)
    ensures r.None? ==> forall k :: from <= k && k + |p| <= |s| ==> !StartsWithCI(s[k..], p)
    decreases |s| - from
  {
    if from + |p| > |s| then None
    else if StartsWithCI(s[from..], p) then Some(from)
    else FindCI(s, p, from + 1)
  }

  /** The length of the script-block match that starts at the front of `s`,
    * if one does. The body `[^<]*(?:(?!<\/script>)<[^<]*)*` accepts any text
    * in which no `<` begins `</script>`, so the match runs to the first
    * `</script>` after the opening `<script`; `\b` asks that the opening
    * word end there. */
  function ScriptBlockAt(s: string): (r: Option<nat>)
    ensures r.Some? ==> 16 <= r.value <= |s| && s[0] == '<' && s[r.value - 1] == '>'
  {
    if StartsWithCI(s, "<script") && (|s| == 7 || !IsWordChar(s[7])) then
      match FindCI(s, "</script>", 7)
      case None => None
      case Some(j) =>
        assert Lower(s[0]) == '<' && Lower(s[j + 8]) == '>' by {
          assert s[j..][0] == s[j] && s[j..][8] == s[j + 8];
        }
        Some(j + 9)
    else None
  }

  /** The global replace of script blocks by the empty string. */
  function StripScripts(s: string): (r: string)
    ensures |r| <= |s|
    decreases |s|
  {
    if s == [] then []
    else match ScriptBlockAt(s)
      case Some(n) => StripScripts(s[n..])
      case None => [s[0]] + StripScripts(s[1..])
  }

  /** Every script block starts with `<` and ends with `>`, so once the tag
    * strip has run there is none left: the second rewrite never fires. */
  lemma {:induction false} StripScriptsUnchanged(s: string)
    requires NoTagClose(s)
    ensures StripScripts(s) == s
    decreases |s|
  {
    if s != [] {
      assert ScriptBlockAt(s).None?;
      StripScriptsUnchanged(s[1..]);
    }
  }

  /** The search for a pattern that starts with `<` passes over text
    * without `<`. */
  lemma {:induction false} FindCIPassesOver(s: string, p: string, from: nat, n: nat)
    requires from + n + |p| <= |s| && |p| > 0 && p[0] == '<'
    requires forall m :: from <= m < from + n ==> s[m] != '<'
    ensures FindCI(s, p, from) == FindCI(s, p, from + n)
    decreases n
  {
    if n > 0 {
      FindCIPassesOver(s, p, from, n - 1);
      assert s[from + n - 1] != '<';
      FindCISkipsOne(s, p, from + n - 1);
    }
  }

  /** The search stops at an occurrence where it starts. */
  lemma FindCIHere(s: string, p: string, from: nat)
    requires from + |p| <= |s| && StartsWithCI(s[from..], p)
    ensures FindCI(s, p, from) == Some(from)
  {
  }

  /** One step of the search: a position holding no `<` is skipped. */
  lemma FindCISkipsOne(s: string, p: string, from: nat)
    requires from + |p| <= |s| && |p| > 0 && p[0] == '<' && s[from] != '<'
    ensures FindCI(s, p, from) == FindCI(s, p, from + 1)
  {
    var t := s[from..];
    assert Lower(t[0]) != p[0];
  }

  /** A text that case folding leaves alone starts, ignoring case, any
    * text it starts. */
  lemma StartsWithOwnFolding(p: string, x: string)
    requires forall k :: 0 <= k < |p| ==> Lower(p[k]) == p[k]
    ensures StartsWithCI(p + x, p)
  {
    assert forall k :: 0 <= k < |p| ==> (p + x)[k] == p[k];
  }

  /** The script tags are spelled in characters case folding leaves alone. */
  lemma ScriptTagsFolded()
    ensures "<script>" == "<script" + ">"
    ensures forall k :: 0 <= k < 7 ==> Lower("<script"[k]) == "<script"[k]
    ensures forall k :: 0 <= k < 9 ==> Lower("</script>"[k]) == "</script>"[k]
  {
  }

  /** A script block with contents free of `<` is matched whole. */
  lemma ScriptBlockMatched(c: string, rest: string)
    requires '<' !in c
    ensures ScriptBlockAt("<script>" + c + "</script>" + rest) == Some(17 + |c|)
  {
    var s := "<script>" + c + "</script>" + rest;
    var k := 8 + |c|;
    ScriptBlockParts(c, rest, s);
    FindCIPassesOver(s, "</script>", 7, k - 7);
    FindCIHere(s, "</script>", k);
    ScriptBlockFound(s, k);
  }

  /** The pieces of a script block that the matcher looks at: the opener,
    * the text up to the closer, and the closer. */
  lemma ScriptBlockParts(c: string, rest: string, s: string)
    requires '<' !in c
    requires s == "<script>" + c + "</script>" + rest
    ensures |s| == 17 + |c| + |rest|
    ensures StartsWithCI(s, "<script") && s[7] == '>'
    ensures forall m :: 7 <= m < 8 + |c| ==> s[m] != '<'
    ensures StartsWithCI(s[8 + |c|..], "</script>")
  {
    var open, close := "<script", "</script>";
    ScriptTagsFolded();
    assert s == open + (">" + c + close + rest);
    StartsWithOwnFolding(open, ">" + c + close + rest);
    var k := 8 + |c|;
    assert s[k..] == close + rest;
    StartsWithOwnFolding(close, rest);
    forall m | 7 <= m < k
      ensures s[m] != '<'
    {
      if m > 7 {
        assert s[m] == c[m - 8] && c[m - 8] in c;
      }
    }
  }

  /** A script opener whose closer the search finds at `j` is a match
    * through that closer. */
  lemma ScriptBlockFound(s: string, j: nat)
    requires StartsWithCI(s, "<script") && (|s| == 7 || !IsWordChar(s[7]))
    requires FindCI(s, "</script>", 7) == Some(j)
    ensures ScriptBlockAt(s) == Some(j + 9)
  {
  }

  /** On its own, the script strip deletes a whole block, contents included
    * (here for contents without `<`). */
  lemma ScriptBlockDeleted(c: string, rest: string)
    requires '<' !in c
    ensures StripScripts("<script>" + c + "</script>" + rest) == StripScripts(rest)
  {
    var s := "<script>" + c + "</script>" + rest;
    ScriptBlockMatched(c, rest);
    assert s[17 + |c|..] == rest;
  }

  // ---------------------------------------------------------------------
  // Step 3: `replace(/\s+/g, ' ').trim()`.
  // ---------------------------------------------------------------------

  /** The only whitespace is a single space, and never two in a row. */
  ghost predicate SingleSpaced(s: string)
  {
    (forall i :: 0 <= i < |s| && IsSpace(s[i]) ==> s[i] == ' ') &&
    (forall i, j :: 0 <= i < j < |s| && j == i + 1 ==> !IsSpace(s[i]) || !IsSpace(s[j]))
  }

  /** A text found as a slice of a text free of `<...>` spans is free of
    * them too. */
  lemma NoTagCloseSlice(s: string, a: nat, t: string)
    requires a + |t| <= |s| && t == s[a..a + |t|] && NoTagClose(s)
    ensures NoTagClose(t)
  {
    forall i, j | 0 <= i < j < |t| && t[i] == '<' ensures t[j] != '>' {
      assert t[i] == s[a + i] && t[j] == s[a + j];
    }
  }

  /** A text found as a slice of a single-spaced text is single-spaced. */
  lemma SingleSpacedSlice(s: string, a: nat, t: string)
    requires a + |t| <= |s| && t == s[a..a + |t|] && SingleSpaced(s)
    ensures SingleSpaced(t)
  {
    forall i | 0 <= i < |t|
      ensures t[i] == s[a + i]
    {
    }
  }

  /** Prepending one character keeps a text free of `<...>` spans when that
    * character is not a `<` opening one. */
  lemma NoTagCloseCons(c: char, rest: string, s: string)
    requires s == [c] + rest
    requires NoTagClose(rest)
    requires c == '<' ==> '>' !in rest
    ensures NoTagClose(s)
  {
    forall i, j | 0 <= i < j < |s| && s[i] == '<' ensures s[j] != '>' {
      assert s[j] == rest[j - 1];
      if i > 0 { assert s[i] == rest[i - 1]; }
    }
  }

  /** Prepending one character keeps a text single-spaced when that
    * character is not whitespace, or is a space before non-whitespace. */
  lemma SingleSpacedCons(c: char, rest: string)
    requires SingleSpaced(rest)
    requires IsSpace(c) ==> c == ' ' && (rest == [] || !IsSpace(rest[0]))
    ensures SingleSpaced([c] + rest)
  {
    var s := [c] + rest;
    forall i | 0 < i < |s|
      ensures s[i] == rest[i - 1]
    {
    }
  }

  /** Every maximal run of whitespace replaced by one space. */
  function CollapseSpaces(s: string): (r: string)
    ensures |r| <= |s|
    ensures SingleSpaced(r)
    ensures r != [] && IsSpace(r[0]) ==> IsSpace(s[0])
    ensures r == [] <==> s == []
    decreases |s|
  {
    if s == [] then []
    else if IsSpace(s[0]) then
      var rest := CollapseSpaces(TrimStart(s[1..]));
      SingleSpacedCons(' ', rest);
      [' '] + rest
    else
      var rest := CollapseSpaces(s[1..]);
      SingleSpacedCons(s[0], rest);
      [s[0]] + rest
  }

  /** The characters of `s` that are not whitespace, in order. */
  function NonSpace(s: string): (r: string)
    ensures forall i :: 0 <= i < |r| ==> !IsSpace(r[i])
  {
    if s == [] then []
    else if IsSpace(s[0]) then NonSpace(s[1..])
    else [s[0]] + NonSpace(s[1..])
  }

  /** Dropping leading whitespace keeps the non-whitespace characters. */
  lemma {:induction false} NonSpaceTrimStart(s: string)
    ensures NonSpace(TrimStart(s)) == NonSpace(s)
  {
    if s != [] && IsSpace(s[0]) {
      NonSpaceTrimStart(s[1..]);
    }
  }

  /** Collapsing whitespace keeps every other character, in order: only
    * whitespace is rewritten or dropped. */
  lemma {:induction false} CollapseKeepsNonSpace(s: string)
    ensures NonSpace(CollapseSpaces(s)) == NonSpace(s)
    decreases |s|
  {
    if s != [] {
      if IsSpace(s[0]) {
        var t := TrimStart(s[1..]);
        assert |t| <= |s[1..]|;
        CollapseKeepsNonSpace(t);
        NonSpaceTrimStart(s[1..]);
        assert CollapseSpaces(s) == [' '] + CollapseSpaces(t);
        assert NonSpace([' '] + CollapseSpaces(t)) == NonSpace(CollapseSpaces(t)) by {
          assert ([' '] + CollapseSpaces(t))[1..] == CollapseSpaces(t);
        }
      } else {
        CollapseKeepsNonSpace(s[1..]);
        assert CollapseSpaces(s) == [s[0]] + CollapseSpaces(s[1..]);
        assert ([s[0]] + CollapseSpaces(s[1..]))[1..] == CollapseSpaces(s[1..]);
      }
    }
  }

  /** A run of whitespace, however long and of whatever kind, becomes one
    * space ahead of the text that follows it. */
  lemma CollapseRun(w: string, rest: string)
    requires w != [] && forall i :: 0 <= i < |w| ==> IsSpace(w[i])
    requires rest == [] || !IsSpace(rest[0])
    ensures CollapseSpaces(w + rest) == [' '] + CollapseSpaces(rest)
  {
    var s := w + rest;
    assert s[1..] == w[1..] + rest;
    TrimStartOfRun(w[1..], rest);
  }

  /** Leading whitespace followed by non-whitespace trims to what follows. */
  lemma {:induction false} TrimStartOfRun(w: string, rest: string)
    requires forall i :: 0 <= i < |w| ==> IsSpace(w[i])
    requires rest == [] || !IsSpace(rest[0])
    ensures TrimStart(w + rest) == rest
    decreases |w|
  {
    if w != [] {
      assert (w + rest)[1..] == w[1..] + rest;
      TrimStartOfRun(w[1..], rest);
    }
  }

  /** Text without whitespace passes through unchanged, ahead of what
    * follows it. */
  lemma {:induction false} CollapsePlainPrefix(x: string, rest: string)
    requires forall i :: 0 <= i < |x| ==> !IsSpace(x[i])
    ensures CollapseSpaces(x + rest) == x + CollapseSpaces(rest)
    decreases |x|
  {
    if x == [] {
      assert x + rest == rest;
    } else {
      assert (x + rest)[0] == x[0] && !IsSpace(x[0]);
      assert (x + rest)[1..] == x[1..] + rest;
      assert forall i :: 0 <= i < |x[1..]| ==> x[1..][i] == x[i + 1];
      CollapsePlainPrefix(x[1..], rest);
    }
  }

  /** Collapsing whitespace introduces no `>`. */
  lemma {:induction false} CollapseAddsNoClose(s: string)
    requires '>' !in s
    ensures '>' !in CollapseSpaces(s)
    decreases |s|
  {
    if s != [] {
      if IsSpace(s[0]) {
        var t := TrimStart(s[1..]);
        assert t == s[|s| - |t|..];
        CollapseAddsNoClose(t);
      } else {
        CollapseAddsNoClose(s[1..]);
      }
    }
  }

  /** Collapsing whitespace keeps a text free of `<...>` spans: it only turns
    * whitespace into spaces and deletes whitespace. */
  lemma {:induction false} CollapseKeepsNoTagClose(s: string)
    requires NoTagClose(s)
    ensures NoTagClose(CollapseSpaces(s))
    decreases |s|
  {
    if s != [] {
      var u := s[1..];
      NoTagCloseSlice(s, 1, u);
      if IsSpace(s[0]) {
        var t := TrimStart(u);
        NoTagCloseSlice(u, |u| - |t|, t);
        CollapseKeepsNoTagClose(t);
        NoTagCloseCons(' ', CollapseSpaces(t), CollapseSpaces(s));
      } else {
        CollapseKeepsNoTagClose(u);
        if s[0] == '<' {
          assert '>' !in u by {
            forall j | 0 <= j < |u| ensures u[j] != '>' {
              assert u[j] == s[j + 1];
            }
          }
          CollapseAddsNoClose(u);
        }
        NoTagCloseCons(s[0], CollapseSpaces(u), CollapseSpaces(s));
      }
    }
  }

  /** A single-spaced text that starts with whitespace starts with a space
    * followed by non-whitespace. */
  lemma SingleSpacedHead(s: string)
    requires SingleSpaced(s) && s != [] && IsSpace(s[0])
    ensures s[0] == ' ' && (|s| == 1 || !IsSpace(s[1]))
    ensures s[1..] == [] || !IsSpace(s[1..][0])
  {
    if |s| > 1 {
      assert s[1..][0] == s[1];
    }
  }

  /** Text that is already single-spaced is not changed by collapsing. */
  lemma {:induction false} CollapseSpacesUnchanged(s: string)
    requires SingleSpaced(s)
    ensures CollapseSpaces(s) == s
    decreases |s|
  {
    if s != [] {
      var u := s[1..];
      SingleSpacedSlice(s, 1, u);
      CollapseSpacesUnchanged(u);
      if IsSpace(s[0]) {
        SingleSpacedHead(s);
        assert TrimStart(u) == u;
        assert CollapseSpaces(s) == [' '] + CollapseSpaces(u);
      } else {
        assert CollapseSpaces(s) == [s[0]] + CollapseSpaces(u);
      }
      assert s == [s[0]] + u;
    }
  }

  // ---------------------------------------------------------------------
  // sanitizeInput
  // ---------------------------------------------------------------------

  /** `sanitizeInput`: the three rewrites in order; empty input gives `''`.
    * The result is never longer than the input. */
  function SanitizeInput(input: string): (r: string)
    ensures |r| <= |input|
    ensures input == [] ==> r == []
  {
    if input == [] then [] else Trim(CollapseSpaces(StripScripts(StripTags(input))))
  }

  /** Trimming keeps a text free of `<` followed by `>`. */
  lemma TrimKeepsNoTagClose(s: string)
    requires NoTagClose(s)
    ensures NoTagClose(Trim(s))
  {
    var a := TrimSlice(s);
    NoTagCloseSlice(s, a, Trim(s));
  }

  /** Trimming keeps a text single-spaced. */
  lemma TrimKeepsSingleSpaced(s: string)
    requires SingleSpaced(s)
    ensures SingleSpaced(Trim(s))
  {
    var a := TrimSlice(s);
    SingleSpacedSlice(s, a, Trim(s));
  }

  /** No `<` of a sanitised text is followed by a `>`. */
  lemma SanitizeNoTagClose(input: string)
    ensures NoTagClose(SanitizeInput(input))
  {
    if input != [] {
      var tagless := StripTags(input);
      StripScriptsUnchanged(tagless);
      CollapseKeepsNoTagClose(tagless);
      TrimKeepsNoTagClose(CollapseSpaces(tagless));
    }
  }

  /** A sanitised text has no whitespace at either end, and its only
    * whitespace is single spaces. */
  lemma SanitizeSpacing(input: string)
    ensures SingleSpaced(SanitizeInput(input))
    ensures var r := SanitizeInput(input); r == [] || (!IsSpace(r[0]) && !IsSpace(r[|r| - 1]))
  {
    if input != [] {
      var c := CollapseSpaces(StripScripts(StripTags(input)));
      var r := SanitizeInput(input);
      assert r == Trim(c);
      TrimKeepsSingleSpaced(c);
      TrimEnds(c);
    }
  }

  /** A text already in sanitised form (no `<` followed by a `>`, single
    * spaces only, no whitespace at the ends) is left as it is. */
  lemma SanitizedFormUnchanged(t: string)
    requires NoTagClose(t) && SingleSpaced(t)
    requires t == [] || (!IsSpace(t[0]) && !IsSpace(t[|t| - 1]))
    ensures SanitizeInput(t) == t
  {
    if t != [] {
      StripTagsUnchanged(t);
      StripScriptsUnchanged(t);
      CollapseSpacesUnchanged(t);
      TrimUnchanged(t);
    }
  }

  /** Sanitising is a projection: a sanitised text sanitises to itself. */
  lemma SanitizeIdempotent(input: string)
    ensures SanitizeInput(SanitizeInput(input)) == SanitizeInput(input)
  {
    SanitizeNoTagClose(input);
    SanitizeSpacing(input);
    SanitizedFormUnchanged(SanitizeInput(input));
  }

  /** Text between two complete tags loses only the tags. */
  lemma TextBetweenTags(a: string, c: string, b: string)
    requires '>' !in a && '>' !in b && '<' !in c
    ensures StripTags(['<'] + a + ['>'] + c + (['<'] + b + ['>'])) == c
  {
    var close := ['<'] + b + ['>'];
    assert ['<'] + a + ['>'] + c + close == ['<'] + a + ['>'] + (c + close);
    StripTagsDropsSpan(a, c + close);
    StripTagsPlainPrefix(c, close);
    assert close == ['<'] + b + ['>'] + [];
    StripTagsDropsSpan(b, []);
    assert c + [] == c;
  }

  /** Because tags are stripped first, a script block loses only its tags:
    * its contents survive as text. */
  lemma ScriptContentsSurvive(c: string)
    requires '<' !in c && '>' !in c
    ensures StripTags("<script>" + c + "</script>") == c
  {
    ScriptTagsSpelled();
    TextBetweenTags("script", c, "/script");
  }

  /** The two script tags, spelled out as `<`, a name and `>`. */
  lemma ScriptTagsSpelled()
    ensures "<script>" == ['<'] + "script" + ['>']
    ensures "</script>" == ['<'] + "/script" + ['>']
  {
  }

  /** A script block around text that is already in sanitised form (no
    * `<` or `>`, single-spaced, no whitespace at the ends) sanitises to that
    * text: `<script>alert(1)</script>` becomes `alert(1)`, because the
    * script-block rewrite never sees a block to remove. */
  lemma ScriptBlockSanitized(c: string)
    requires '<' !in c && '>' !in c && SingleSpaced(c)
    requires c == [] || (!IsSpace(c[0]) && !IsSpace(c[|c| - 1]))
    ensures SanitizeInput("<script>" + c + "</script>") == c
  {
    ScriptContentsSurvive(c);
    assert NoTagClose(c);
    StripScriptsUnchanged(c);
    CollapseSpacesUnchanged(c);
    TrimUnchanged(c);
  }

  /** The example itself. */
  lemma ScriptExampleSanitized()
    ensures SanitizeInput("<script>alert(1)</script>") == "alert(1)"
  {
    AlertSpelled();
    AlertSanitizedForm();
    ScriptBlockSanitized("alert(1)");
  }

  /** The example split into its tags and its text. */
  lemma AlertSpelled()
    ensures "<script>alert(1)</script>" == "<script>" + "alert(1)" + "</script>"
  {
  }

  /** The example's text is in sanitised form. */
  lemma AlertSanitizedForm()
    ensures var c := "alert(1)";
      '<' !in c && '>' !in c && SingleSpaced(c) && !IsSpace(c[0]) && !IsSpace(c[|c| - 1])
  {
    var c := "alert(1)";
    assert forall i :: 0 <= i < |c| ==> !IsSpace(c[i]);
  }

  // ---------------------------------------------------------------------
  // The suspicious patterns.
  // ---------------------------------------------------------------------

  /** `p` occurs in `s` at index `i`, ignoring ASCII case. */
  predicate OccursCIAt(s: string, p: string, i: int)
  {
    0 <= i && i + |p| <= |s| && StartsWithCI(s[i..], p)
  }

  /** A case-insensitive pattern made of a fixed text matches somewhere. */
  ghost predicate OccursCI(s: string, p: string)
  {
    exists i :: OccursCIAt(s, p, i)
  }

  /** A `/text/i` pattern's test: the search from the front finds `p`,
    * ignoring case, exactly when it occurs somewhere. */
  function SearchCI(s: string, p: string): (b: bool)
    ensures b <==> OccursCI(s, p)
  {
    var r := FindCI(s, p, 0);
    assert r.Some? ==> OccursCIAt(s, p, r.value);
    assert r.None? ==> forall i :: !OccursCIAt(s, p, i);
    r.Some?
  }

  /** The first index at or after `from` that is not a word character. */
  function SkipWord(s: string, from: nat): (r: nat)
    requires from <= |s|
    ensures from <= r <= |s| && (r == |s| || !IsWordChar(s[r]))
    ensures forall m :: from <= m < r ==> IsWordChar(s[m])
    decreases |s| - from
  {
    if from < |s| && IsWordChar(s[from]) then SkipWord(s, from + 1) else from
  }

  /** The first index at or after `from` that is not whitespace. */
  function SkipSpaces(s: string, from: nat): (r: nat)
    requires from <= |s|
    ensures from <= r <= |s| && (r == |s| || !IsSpace(s[r]))
    ensures forall m :: from <= m < r ==> IsSpace(s[m])
    decreases |s| - from
  {
    if from < |s| && IsSpace(s[from]) then SkipSpaces(s, from + 1) else from
  }

  /** The language of `/on\w+\s*=/i` at index `i`: `on` in any case, one or
    * more word characters up to `j`, whitespace up to `k`, then `=`. */
  ghost predicate HandlerMatch(s: string, i: int, j: int, k: int)
  {
    0 <= i && i + 2 < j <= k < |s| &&
    Lower(s[i]) == 'o' && Lower(s[i + 1]) == 'n' &&
    (forall m :: i + 2 <= m < j ==> IsWordChar(s[m])) &&
    (forall m :: j <= m < k ==> IsSpace(s[m])) &&
    s[k] == '='
  }

  /** The event-handler pattern matches somewhere in `s`. */
  ghost predicate HandlerOccurs(s: string)
  {
    exists i, j, k :: HandlerMatch(s, i, j, k)
  }

  /** The matcher at one index: since word characters, whitespace and `=` are
    * disjoint, `\w+` must take the whole run of word characters and `\s*`
    * the whole run of whitespace that follows. */
  predicate HandlerAt(s: string, i: nat)
  {
    i + 2 <= |s| && Lower(s[i]) == 'o' && Lower(s[i + 1]) == 'n' &&
    var j := SkipWord(s, i + 2);
    j > i + 2 && var k := SkipSpaces(s, j); k < |s| && s[k] == '='
  }

  /** The one-index matcher accepts exactly where the regular language does. */
  lemma HandlerAtIff(s: string, i: nat)
    ensures HandlerAt(s, i) <==> exists j, k :: HandlerMatch(s, i, j, k)
  {
    if HandlerAt(s, i) {
      var j := SkipWord(s, i + 2);
      var k := SkipSpaces(s, j);
      assert HandlerMatch(s, i, j, k);
    }
    if exists j, k :: HandlerMatch(s, i, j, k) {
      var j, k :| HandlerMatch(s, i, j, k);
      assert !IsWordChar(s[j]);
      assert SkipWord(s, i + 2) == j;
      assert !IsSpace(s[k]);
      assert SkipSpaces(s, j) == k;
    }
  }

  /** Left-to-right search with the one-index matcher from index `from`. */
  function SearchHandler(s: string, from: nat): (b: bool)
    ensures b <==> exists i, j, k :: from <= i && HandlerMatch(s, i, j, k)
    decreases |s| - from
  {
    HandlerAtIff(s, from);
    if from >= |s| then false
    else if HandlerAt(s, from) then true
    else
      var b := SearchHandler(s, from + 1);
      assert (exists i, j, k :: from <= i && HandlerMatch(s, i, j, k)) ==> b by {
        if exists i, j, k :: from <= i && HandlerMatch(s, i, j, k) {
          var i, j, k :| from <= i && HandlerMatch(s, i, j, k);
          assert i != from;
        }
      }
      b
  }

  /** The five entries of `suspiciousPatterns`, in order. */
  datatype Pattern = ScriptOpen | JavascriptScheme | EventHandler | EvalCall | CssExpression

  const SuspiciousPatterns: seq<Pattern> :=
    [ScriptOpen, JavascriptScheme, EventHandler, EvalCall, CssExpression]

  /** The text of a fixed-text pattern, in lower case. */
  function PatternText(p: Pattern): string
    requires p != EventHandler
  {
    match p
    case ScriptOpen => "<script"
    case JavascriptScheme => "javascript:"
    case EvalCall => "eval("
    case CssExpression => "expression("
  }

  /** What a pattern's test means, stated without the matchers. */
  ghost predicate Matches(p: Pattern, s: string)
  {
    if p == EventHandler then HandlerOccurs(s) else OccursCI(s, PatternText(p))
  }

  /** `pattern.test(s)`: true exactly when the pattern matches somewhere. */
  function Test(p: Pattern, s: string): (b: bool)
    ensures b <==> Matches(p, s)
  {
    if p == EventHandler then
      assert SearchHandler(s, 0) <==> HandlerOccurs(s);
      SearchHandler(s, 0)
    else SearchCI(s, PatternText(p))
  }

  /** Some pattern of `ps` matches `s`. */
  ghost predicate MatchesAny(ps: seq<Pattern>, s: string)
  {
    exists n :: 0 <= n < |ps| && Matches(ps[n], s)
  }

  /** The `for ... of` loop over the patterns: some pattern's test succeeds. */
  function AnySuspicious(ps: seq<Pattern>, s: string): (b: bool)
    ensures b <==> MatchesAny(ps, s)
  {
    if ps == [] then false
    else
      var first := Test(ps[0], s);
      var rest := AnySuspicious(ps[1..], s);
      assert rest <==> exists n :: 1 <= n < |ps| && Matches(ps[n], s) by {
        if rest {
          var n :| 0 <= n < |ps[1..]| && Matches(ps[1..][n], s);
          assert Matches(ps[n + 1], s);
        }
        if exists n :: 1 <= n < |ps| && Matches(ps[n], s) {
          var n :| 1 <= n < |ps| && Matches(ps[n], s);
          assert ps[1..][n - 1] == ps[n];
        }
      }
      first || rest
  }

  // ---------------------------------------------------------------------
  // validateQuestion
  // ---------------------------------------------------------------------

  /** Why a question was rejected, one kind per early return. */
  datatype QuestionError = Required | NotText | Empty | TooShort | TooLong | Suspicious

  /** The message each rejection carries. */
  function ErrorMessage(e: QuestionError): string
  {
    match e
    case Required => "Vraag is verplicht"
    case NotText => "Vraag moet een tekst zijn"
    case Empty => "Vraag kan niet leeg zijn"
    case TooShort => "Vraag moet minimaal 10 karakters bevatten"
    case TooLong => "Vraag mag maximaal 500 karakters bevatten"
    case Suspicious => "Vraag bevat ongeldige karakters"
  }

  /** `ValidationResult`: valid with the sanitised text, or an error. */
  datatype ValidationResult = Valid(sanitized: string) | Invalid(error: QuestionError)

  /** The question passes every check. */
  ghost predicate Acceptable(question: Option<Json>)
  {
    question.Some? && question.value.JString? &&
    var t := SanitizeInput(question.value.s);
    10 <= Utf16Length(t) <= 500 &&
    !MatchesAny(SuspiciousPatterns, t)
  }

  /** The checks `validateQuestion` applies once the question is a string,
    * to its sanitised text `t`, in source order: each error is returned
    * exactly when every earlier check passed and its own check failed. */
  function CheckSanitized(t: string): (r: ValidationResult)
    ensures r == Invalid(Empty) <==> t == []
    ensures r == Invalid(TooShort) <==> t != [] && Utf16Length(t) < 10
    ensures r == Invalid(TooLong) <==> Utf16Length(t) > 500
    ensures r == Invalid(Suspicious) <==>
      10 <= Utf16Length(t) <= 500 && MatchesAny(SuspiciousPatterns, t)
    ensures r.Valid? <==> 10 <= Utf16Length(t) <= 500 && !MatchesAny(SuspiciousPatterns, t)
    ensures r.Valid? ==> r.sanitized == t
    ensures r != Invalid(Required) && r != Invalid(NotText)
  {
    if |t| == 0 then Invalid(Empty)
    else if Utf16Length(t) < 10 then Invalid(TooShort)
    else if Utf16Length(t) > 500 then Invalid(TooLong)
    else if AnySuspicious(SuspiciousPatterns, t) then Invalid(Suspicious)
    else Valid(t)
  }

  /** `validateQuestion`: a missing or falsy question, then a non-string
    * one, is rejected before anything else; a string is sanitised and its
    * sanitised text checked. The question is accepted exactly when it is a
    * string whose sanitised form has 10 to 500 UTF-16 units and matches none
    * of the five patterns; then the sanitised form is returned. */
  function ValidateQuestion(question: Option<Json>): (r: ValidationResult)
    ensures r.Valid? <==> Acceptable(question)
    ensures r.Valid? ==> r.sanitized == SanitizeInput(question.value.s)
  {
    if !Truthy(question) then Invalid(Required)
    else if !question.value.JString? then Invalid(NotText)
    else CheckSanitized(SanitizeInput(question.value.s))
  }

  /** The first failing check decides the error: each error is returned
    * exactly when every earlier check passed and its own check failed. */
  lemma ValidateQuestionOrder(question: Option<Json>)
    ensures ValidateQuestion(question) == Invalid(Required) <==> !Truthy(question)
    ensures ValidateQuestion(question) == Invalid(NotText) <==>
      Truthy(question) && !question.value.JString?
    ensures ValidateQuestion(question) == Invalid(Empty) <==>
      Truthy(question) && question.value.JString? && SanitizeInput(question.value.s) == []
    ensures ValidateQuestion(question) == Invalid(TooShort) <==>
      Truthy(question) && question.value.JString? &&
      0 < |SanitizeInput(question.value.s)| && Utf16Length(SanitizeInput(question.value.s)) < 10
    ensures ValidateQuestion(question) == Invalid(TooLong) <==>
      Truthy(question) && question.value.JString? && Utf16Length(SanitizeInput(question.value.s)) > 500
  {
  }

  /** The pattern check comes last: a question is rejected as suspicious
    * exactly when it passes the length checks and some pattern matches. */
  lemma SuspiciousRejectedIff(question: Option<Json>)
    ensures ValidateQuestion(question) == Invalid(Suspicious) <==>
      question.Some? && question.value.JString? &&
      10 <= Utf16Length(SanitizeInput(question.value.s)) <= 500 &&
      MatchesAny(SuspiciousPatterns, SanitizeInput(question.value.s))
  {
    if question.Some? && question.value.JString? && !Truthy(question) {
      assert SanitizeInput(question.value.s) == [];
    }
  }

  /** A question that sanitises to fewer than 10 UTF-16 units, but to some
    * text, is rejected as too short. */
  lemma ShortQuestionRejected(q: string)
    requires SanitizeInput(q) != [] && Utf16Length(SanitizeInput(q)) < 10
    ensures ValidateQuestion(Some(JString(q))) == Invalid(TooShort)
  {
    assert q != [] && Truthy(Some(JString(q)));
  }

  /** A script block around a short text in sanitised form is rejected as
    * too short, not as suspicious: sanitising has already reduced it to
    * that text. */
  lemma ScriptBlockTooShort(c: string)
    requires '<' !in c && '>' !in c && SingleSpaced(c)
    requires c != [] && !IsSpace(c[0]) && !IsSpace(c[|c| - 1])
    requires Utf16Length(c) < 10
    ensures ValidateQuestion(Some(JString("<script>" + c + "</script>"))) == Invalid(TooShort)
    ensures Utf16Length("<script>" + c + "</script>") == Utf16Length(c) + 17
  {
    ScriptWrappedLength(c);
    ScriptBlockSanitized(c);
    ShortQuestionRejected("<script>" + c + "</script>");
  }

  /** Wrapping text in the two script tags adds their 17 UTF-16 units. */
  lemma ScriptWrappedLength(c: string)
    ensures Utf16Length("<script>" + c + "</script>") == Utf16Length(c) + 17
  {
    ScriptTagsLength();
    Utf16LengthAppend("<script>", c);
    Utf16LengthAppend("<script>" + c, "</script>");
  }

  /** The two script tags are 8 and 9 UTF-16 units long. */
  lemma ScriptTagsLength()
    ensures Utf16Length("<script>") == 8 && Utf16Length("</script>") == 9
  {
    Utf16LengthBmp("<script>");
    Utf16LengthBmp("</script>");
  }

  /** The example script injection is rejected, as too short: what is left
    * of it after sanitising is the 8-character `alert(1)`. */
  lemma ScriptInjectionRejected()
    ensures ValidateQuestion(Some(JString("<script>alert(1)</script>"))) == Invalid(TooShort)
  {
    AlertSpelled();
    AlertSanitizedForm();
    Utf16LengthBmp("alert(1)");
    ScriptBlockTooShort("alert(1)");
  }

  /** A text that matches none of the patterns as a list matches none of
    * them one by one. */
  lemma MatchesNoneOfList(t: string, p: Pattern)
    requires !MatchesAny(SuspiciousPatterns, t)
    ensures !Matches(p, t)
  {
    var n := match p
      case ScriptOpen => 0
      case JavascriptScheme => 1
      case EventHandler => 2
      case EvalCall => 3
      case CssExpression => 4;
    assert SuspiciousPatterns[n] == p;
  }

  /** An accepted question never contains any of the five patterns. */
  lemma ValidNeverSuspicious(question: Option<Json>, p: Pattern)
    requires ValidateQuestion(question).Valid?
    ensures !Matches(p, ValidateQuestion(question).sanitized)
  {
    MatchesNoneOfList(ValidateQuestion(question).sanitized, p);
  }

  /** An accepted question's text is a sanitised text: it sanitises to
    * itself and contains no `<` followed by a `>`. */
  lemma ValidIsSanitized(question: Option<Json>)
    requires ValidateQuestion(question).Valid?
    ensures var t := ValidateQuestion(question).sanitized;
      SanitizeInput(t) == t && NoTagClose(t)
  {
    SanitizeIdempotent(question.value.s);
    SanitizeNoTagClose(question.value.s);
  }
}
