/** `escapeHtml` of the facet front end, and the attribute decoding a
    browser applies to the text it produces. */
module Html {

  /** The characters `escapeHtml` never lets through. */
  predicate IsMarkup(c: char) {
    c == '<' || c == '>' || c == '"' || c == '\''
  }

  /** The characters `escapeHtml` rewrites: the markup ones and `&`. */
  predicate IsSpecial(c: char) {
    c == '&' || IsMarkup(c)
  }

  function EscapeChar(c: char): string {
    match c
    case '&' => "&amp;"
    case '<' => "&lt;"
    case '>' => "&gt;"
    case '"' => "&quot;"
    case '\'' => "&#039;"
    case _ => [c]
  }

  /** `escapeHtml(text)`: every special character becomes its entity. */
  function Escape(s: string): (r: string)
    ensures forall i :: 0 <= i < |r| ==> !IsMarkup(r[i])
    ensures |r| >= |s|
    decreases |s|
  {
    if |s| == 0 then ""
    else
      var head := EscapeChar(s[0]);
      var tail := Escape(s[1..]);
      assert forall i :: 0 <= i < |head| ==> !IsMarkup(head[i]);
      head + tail
  }

  predicate StartsWith(s: string, p: string) {
    |p| <= |s| && s[..|p|] == p
  }

  /** Decoding of the five entities `escapeHtml` emits, left to right; any
      other text is kept as it is. */
  function Unescape(s: string): string
    decreases |s|
  {
    if |s| == 0 then ""
    else if StartsWith(s, "&amp;") then "&" + Unescape(s[5..])
    else if StartsWith(s, "&lt;") then "<" + Unescape(s[4..])
    else if StartsWith(s, "&gt;") then ">" + Unescape(s[4..])
    else if StartsWith(s, "&quot;") then "\"" + Unescape(s[6..])
    else if StartsWith(s, "&#039;") then "'" + Unescape(s[6..])
    else [s[0]] + Unescape(s[1..])
  }

  lemma UnescapeEntity(e: string, c: char, rest: string)
    requires e == EscapeChar(c) && IsSpecial(c)
    ensures Unescape(e + rest) == [c] + Unescape(rest)
  {
    var s := e + rest;
    assert s[..|e|] == e && s[|e|..] == rest;
    assert |s| > 0;
    if c == '&' {
      assert StartsWith(s, "&amp;");
    } else if c == '<' {
      assert s[1] == 'l';
      assert !StartsWith(s, "&amp;");
      assert StartsWith(s, "&lt;");
    } else if c == '>' {
      assert s[1] == 'g';
      assert !StartsWith(s, "&amp;") && !StartsWith(s, "&lt;");
      assert StartsWith(s, "&gt;");
    } else if c == '"' {
      assert s[1] == 'q';
      assert !StartsWith(s, "&amp;") && !StartsWith(s, "&lt;") && !StartsWith(s, "&gt;");
      assert StartsWith(s, "&quot;");
    } else {
      assert s[1] == '#';
      assert !StartsWith(s, "&amp;") && !StartsWith(s, "&lt;") && !StartsWith(s, "&gt;");
      assert !StartsWith(s, "&quot;");
      assert StartsWith(s, "&#039;");
    }
  }

  lemma UnescapePlain(c: char, rest: string)
    requires !IsSpecial(c)
    ensures Unescape([c] + rest) == [c] + Unescape(rest)
  {
    var s := [c] + rest;
    assert s[0] == c;
    assert !StartsWith(s, "&amp;") && !StartsWith(s, "&lt;") && !StartsWith(s, "&gt;");
    assert !StartsWith(s, "&quot;") && !StartsWith(s, "&#039;");
    assert s[1..] == rest;
  }

  lemma UnescapeStep(c: char, rest: string)
    ensures Unescape(EscapeChar(c) + rest) == [c] + Unescape(rest)
  {
    if IsSpecial(c) {
      UnescapeEntity(EscapeChar(c), c, rest);
    } else {
      assert EscapeChar(c) == [c];
      UnescapePlain(c, rest);
    }
  }

  /** Decoding what `escapeHtml` produced gives the original text back. */
  lemma {:induction false} UnescapeEscape(s: string)
    ensures Unescape(Escape(s)) == s
    decreases |s|
  {
    if |s| > 0 {
      UnescapeEscape(s[1..]);
      UnescapeStep(s[0], Escape(s[1..]));
      assert s == [s[0]] + s[1..];
    }
  }

  /** Distinct texts escape to distinct texts. */
  lemma EscapeInjective(a: string, b: string)
    ensures Escape(a) == Escape(b) <==> a == b
  {
    if Escape(a) == Escape(b) {
      UnescapeEscape(a);
      UnescapeEscape(b);
    }
  }

  /** Text without special characters is left unchanged. */
  lemma {:induction false} EscapePlain(s: string)
    requires forall i :: 0 <= i < |s| ==> !IsSpecial(s[i])
    ensures Escape(s) == s
    decreases |s|
  {
    if |s| > 0 {
      EscapePlain(s[1..]);
      assert s == [s[0]] + s[1..];
    }
  }
}
