/** The string helpers `escapeHtml` and `interpolate` (app.js). */
module Text {
  import opened Numbers

  // ---------------------------------------------------------------------------
  // escapeHtml

  /** `s.replaceAll(c, rep)` for a one-character pattern. */
  function ReplaceAll(s: string, c: char, rep: string): (r: string)
    ensures forall d :: d in r ==> d in rep || (d in s && d != c)
  {
    if s == [] then []
    else (if s[0] == c then rep else [s[0]]) + ReplaceAll(s[1..], c, rep)
  }

  function EscapeAmp(s: string): string { ReplaceAll(s, '&', "&amp;") }
  function EscapeLt(s: string): string { ReplaceAll(s, '<', "&lt;") }
  function EscapeGt(s: string): string { ReplaceAll(s, '>', "&gt;") }
  function EscapeQuot(s: string): string { ReplaceAll(s, '"', "&quot;") }
  function EscapeApos(s: string): string { ReplaceAll(s, '\'', "&#039;") }

  /** `escapeHtml(s)`: the five replacements in the source's order, `&` first. */
  function EscapeHtml(s: string): (r: string)
    ensures '<' !in r && '>' !in r && '"' !in r && '\'' !in r
  {
    EscapeApos(EscapeQuot(EscapeGt(EscapeLt(EscapeAmp(s)))))
  }

  /** The entity for one character; none contains a markup character. */
  function EscapeChar(c: char): (r: string)
    ensures c != '&' && c != '<' && c != '>' && c != '"' && c != '\'' ==> r == [c]
    ensures c == '&' ==> r == "&amp;"
    ensures '<' !in r && '>' !in r && '"' !in r && '\'' !in r
  {
    if c == '&' then "&amp;"
    else if c == '<' then "&lt;"
    else if c == '>' then "&gt;"
    else if c == '"' then "&quot;"
    else if c == '\'' then "&#039;"
    else [c]
  }

  /** Each character replaced by its entity, independently of its neighbours. */
  function EscapeEach(s: string): string {
    if s == [] then [] else EscapeChar(s[0]) + EscapeEach(s[1..])
  }

  lemma {:induction false} ReplaceAllConcat(a: string, b: string, c: char, rep: string)
    ensures ReplaceAll(a + b, c, rep) == ReplaceAll(a, c, rep) + ReplaceAll(b, c, rep)
  {
    if a == [] {
      assert a + b == b;
    } else {
      assert (a + b)[0] == a[0];
      assert (a + b)[1..] == a[1..] + b;
      ReplaceAllConcat(a[1..], b, c, rep);
    }
  }

  lemma {:induction false} ReplaceAllAbsent(s: string, c: char, rep: string)
    requires c !in s
    ensures ReplaceAll(s, c, rep) == s
  {
    if s != [] {
      ReplaceAllAbsent(s[1..], c, rep);
    }
  }

  lemma EscapeHtmlConcat(a: string, b: string)
    ensures EscapeHtml(a + b) == EscapeHtml(a) + EscapeHtml(b)
  {
    ReplaceAllConcat(a, b, '&', "&amp;");
    var a1, b1 := EscapeAmp(a), EscapeAmp(b);
    ReplaceAllConcat(a1, b1, '<', "&lt;");
    var a2, b2 := EscapeLt(a1), EscapeLt(b1);
    ReplaceAllConcat(a2, b2, '>', "&gt;");
    var a3, b3 := EscapeGt(a2), EscapeGt(b2);
    ReplaceAllConcat(a3, b3, '"', "&quot;");
    var a4, b4 := EscapeQuot(a3), EscapeQuot(b3);
    ReplaceAllConcat(a4, b4, '\'', "&#039;");
  }

  lemma ReplaceOne(c: char, x: char, rep: string)
    ensures ReplaceAll([c], x, rep) == if c == x then rep else [c]
  {
    assert [c][1..] == [];
  }

  /** Text free of the characters of the later stages passes them unchanged. */
  lemma AfterLt(s: string)
    requires '<' !in s && '>' !in s && '"' !in s && '\'' !in s
    ensures EscapeApos(EscapeQuot(EscapeGt(EscapeLt(s)))) == s
  {
    ReplaceAllAbsent(s, '<', "&lt;");
    AfterGt(s);
  }

  lemma AfterGt(s: string)
    requires '>' !in s && '"' !in s && '\'' !in s
    ensures EscapeApos(EscapeQuot(EscapeGt(s))) == s
  {
    ReplaceAllAbsent(s, '>', "&gt;");
    AfterQuot(s);
  }

  lemma AfterQuot(s: string)
    requires '"' !in s && '\'' !in s
    ensures EscapeApos(EscapeQuot(s)) == s
  {
    ReplaceAllAbsent(s, '"', "&quot;");
    ReplaceAllAbsent(s, '\'', "&#039;");
  }

  /** One character goes through the chain to its own entity: no replacement
      introduces a character a later one would rewrite. */
  lemma EscapeHtmlChar(c: char)
    ensures EscapeHtml([c]) == EscapeChar(c)
  {
    ReplaceOne(c, '&', "&amp;");
    if c == '&' {
      AfterLt("&amp;");
      return;
    }
    ReplaceOne(c, '<', "&lt;");
    if c == '<' {
      AfterGt("&lt;");
      return;
    }
    ReplaceOne(c, '>', "&gt;");
    if c == '>' {
      AfterQuot("&gt;");
      return;
    }
    ReplaceOne(c, '"', "&quot;");
    if c == '"' {
      ReplaceAllAbsent("&quot;", '\'', "&#039;");
      return;
    }
    ReplaceOne(c, '\'', "&#039;");
  }

  /** The chain of replacements escapes every character on its own. */
  lemma {:induction false} EscapeHtmlPerChar(s: string)
    ensures EscapeHtml(s) == EscapeEach(s)
  {
    if s != [] {
      assert s == [s[0]] + s[1..];
      EscapeHtmlConcat([s[0]], s[1..]);
      EscapeHtmlChar(s[0]);
      EscapeHtmlPerChar(s[1..]);
    }
  }

  /** Text with nothing to escape is shown as it is. */
  lemma EscapeHtmlPlain(s: string)
    requires '&' !in s && '<' !in s && '>' !in s && '"' !in s && '\'' !in s
    ensures EscapeHtml(s) == s
  {
    ReplaceAllAbsent(s, '&', "&amp;");
    AfterLt(s);
  }

  lemma {:induction false} EscapeEachSafe(s: string)
    ensures '<' !in EscapeEach(s) && '>' !in EscapeEach(s)
    ensures '"' !in EscapeEach(s) && '\'' !in EscapeEach(s)
  {
    if s != [] {
      EscapeEachSafe(s[1..]);
    }
  }

  predicate StartsWith(s: string, prefix: string) {
    |prefix| <= |s| && s[..|prefix|] == prefix
  }

  /** Decodes the five entities `escapeHtml` writes. */
  function Unescape(s: string): string
    decreases |s|
  {
    if s == [] then []
    else if StartsWith(s, "&amp;") then "&" + Unescape(s[5..])
    else if StartsWith(s, "&lt;") then "<" + Unescape(s[4..])
    else if StartsWith(s, "&gt;") then ">" + Unescape(s[4..])
    else if StartsWith(s, "&quot;") then "\"" + Unescape(s[6..])
    else if StartsWith(s, "&#039;") then "'" + Unescape(s[6..])
    else [s[0]] + Unescape(s[1..])
  }

  /** Text starting with `e` starts with no entity whose character at `j` differs. */
  lemma Mismatch(s: string, e: string, j: nat)
    requires j < |e| && j < |s| && s[j] != e[j]
    ensures !StartsWith(s, e)
  {
  }

  lemma PrefixOf(e: string, rest: string)
    ensures StartsWith(e + rest, e) && (e + rest)[|e|..] == rest
  {
    assert (e + rest)[..|e|] == e;
  }

  lemma UnescapeStep(c: char, rest: string)
    ensures Unescape(EscapeChar(c) + rest) == [c] + Unescape(rest)
  {
    var e := EscapeChar(c) + rest;
    PrefixOf(EscapeChar(c), rest);
    if c == '&' {
    } else if c == '<' {
      Mismatch(e, "&amp;", 1);
    } else if c == '>' {
      Mismatch(e, "&amp;", 1);
      Mismatch(e, "&lt;", 1);
    } else if c == '"' {
      Mismatch(e, "&amp;", 1);
      Mismatch(e, "&lt;", 1);
      Mismatch(e, "&gt;", 1);
    } else if c == '\'' {
      Mismatch(e, "&amp;", 1);
      Mismatch(e, "&lt;", 1);
      Mismatch(e, "&gt;", 1);
      Mismatch(e, "&quot;", 1);
    } else {
      Mismatch(e, "&amp;", 0);
      Mismatch(e, "&lt;", 0);
      Mismatch(e, "&gt;", 0);
      Mismatch(e, "&quot;", 0);
      Mismatch(e, "&#039;", 0);
    }
  }

  /** Escaping loses nothing: decoding the entities gives the text back. */
  lemma {:induction false} EscapeHtmlRoundTrip(s: string)
    ensures Unescape(EscapeHtml(s)) == s
  {
    EscapeHtmlPerChar(s);
    EscapeEachRoundTrip(s);
  }

  lemma {:induction false} EscapeEachRoundTrip(s: string)
    ensures Unescape(EscapeEach(s)) == s
  {
    if s != [] {
      UnescapeStep(s[0], EscapeEach(s[1..]));
      EscapeEachRoundTrip(s[1..]);
      assert s == [s[0]] + s[1..];
    }
  }

  // ---------------------------------------------------------------------------
  // interpolate

  /** A character of the regular expression class `\w`. */
  predicate IsWordChar(c: char) {
    ('a' <= c <= 'z') || ('A' <= c <= 'Z') || ('0' <= c <= '9') || c == '_'
  }

  /** Length of the run of word characters at the start of `s`. */
  function WordRun(s: string): (n: nat)
    ensures n <= |s|
    ensures forall i :: 0 <= i < n ==> IsWordChar(s[i])
    ensures n < |s| ==> !IsWordChar(s[n])
  {
    if s == [] || !IsWordChar(s[0]) then 0
    else 1 + WordRun(s[1..])
  }

  /** The key of the placeholder `{key}` at the start of `s`, if one is there:
      a non-empty run of word characters between braces. */
  function PlaceholderKey(s: string): (r: Option<string>)
    ensures r.Some? ==> 0 < |r.value| && |r.value| + 2 <= |s| && s[..|r.value| + 2] == "{" + r.value + "}"
  {
    if s != [] && s[0] == '{' && 0 < WordRun(s[1..]) && 1 + WordRun(s[1..]) < |s| && s[1 + WordRun(s[1..])] == '}' then
      Some(s[1..1 + WordRun(s[1..])])
    else None
  }

  /** `str.replace(/\{(\w+)\}/g, …)`: every `{key}` with a non-empty word key is
      replaced by `vars[key]` when the key is bound and left as it is
      otherwise; matches are found left to right and do not overlap. */
  function Interpolate(s: string, vars: map<string, string>): (r: string)
    ensures forall c :: c in r && c !in s ==> exists key :: key in vars && c in vars[key]
    decreases |s|
  {
    if s == [] then []
    else match PlaceholderKey(s)
      case Some(key) =>
        (if key in vars then vars[key] else "{" + key + "}") + Interpolate(s[|key| + 2..], vars)
      case None => [s[0]] + Interpolate(s[1..], vars)
  }

  /** Without variables every placeholder is left intact. */
  lemma {:induction false} InterpolateNoVars(s: string)
    ensures Interpolate(s, map[]) == s
    decreases |s|
  {
    if s != [] {
      match PlaceholderKey(s)
      case Some(key) =>
        InterpolateNoVars(s[|key| + 2..]);
        assert s == s[..|key| + 2] + s[|key| + 2..];
      case None =>
        InterpolateNoVars(s[1..]);
        assert s == [s[0]] + s[1..];
    }
  }

  /** A placeholder whose key is bound is replaced by the key's value; one whose
      key is not bound stays as written. */
  lemma InterpolatePlaceholder(key: string, rest: string, vars: map<string, string>)
    requires key != [] && forall i :: 0 <= i < |key| ==> IsWordChar(key[i])
    ensures Interpolate("{" + key + "}" + rest, vars) ==
      (if key in vars then vars[key] else "{" + key + "}") + Interpolate(rest, vars)
  {
    var s := "{" + key + "}" + rest;
    assert s[1..] == key + "}" + rest;
    WordRunOf(key, "}" + rest);
    assert s[1 + |key|] == '}';
    assert s[1..1 + |key|] == key;
    assert PlaceholderKey(s) == Some(key);
    assert s[|key| + 2..] == rest;
  }

  lemma {:induction false} WordRunOf(key: string, rest: string)
    requires forall i :: 0 <= i < |key| ==> IsWordChar(key[i])
    requires rest != [] && !IsWordChar(rest[0])
    ensures WordRun(key + rest) == |key|
  {
    if key != [] {
      assert (key + rest)[1..] == key[1..] + rest;
      WordRunOf(key[1..], rest);
    }
  }

  /** Text without an opening brace is returned unchanged. */
  lemma {:induction false} InterpolatePlain(s: string, vars: map<string, string>)
    requires '{' !in s
    ensures Interpolate(s, vars) == s
    decreases |s|
  {
    if s != [] {
      assert PlaceholderKey(s).None?;
      InterpolatePlain(s[1..], vars);
      assert s == [s[0]] + s[1..];
    }
  }
}
