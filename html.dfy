/** `escapeHtml`: replaces the five characters that are special in HTML
    markup and attribute values by their character references. */
module Html {
  import opened Text


  /** The character reference for one character, or the character itself:
      a special character becomes a reference starting with `&` and ending
      with `;`, any other character stays as it is, and no `<`, `>`, `"` or
      `'` is left. */
  function EscapeChar(c: char): (r: string)
    ensures Special(c) ==> |r| >= 4 && r[0] == '&' && r[|r| - 1] == ';'
    ensures !Special(c) ==> r == [c]
    ensures forall k :: 0 <= k < |r| ==> r[k] != '<' && r[k] != '>' && r[k] != '"' && r[k] != '\''
  {
    match c
    case '&' => "&amp;"
    case '<' => "&lt;"
    case '>' => "&gt;"
    case '"' => "&quot;"
    case '\'' => "&#39;"
    case _ => [c]
  }

  predicate Special(c: char) {
    c == '&' || c == '<' || c == '>' || c == '"' || c == '\''
  }

  /** `escapeHtml(s)`: the output holds no `<`, `>`, `"` or `'`, is at least
      as long as the input, and equals the input when nothing needs escaping. */
  function EscapeHtml(s: string): (r: string)
    ensures forall k :: 0 <= k < |r| ==> r[k] != '<' && r[k] != '>' && r[k] != '"' && r[k] != '\''
    ensures |r| >= |s|
    ensures (forall k :: 0 <= k < |s| ==> !Special(s[k])) ==> r == s
    decreases |s|
  {
    if s == [] then [] else EscapeChar(s[0]) + EscapeHtml(s[1..])
  }

  /** Reference decoder for the five references `escapeHtml` writes; any other
      character, including a lone `&`, stands for itself. */
  function UnescapeHtml(s: string): string
    decreases |s|
  {
    if s == [] then []
    else if StartsWith(s, "&amp;") then "&" + UnescapeHtml(s[5..])
    else if StartsWith(s, "&lt;") then "<" + UnescapeHtml(s[4..])
    else if StartsWith(s, "&gt;") then ">" + UnescapeHtml(s[4..])
    else if StartsWith(s, "&quot;") then "\"" + UnescapeHtml(s[6..])
    else if StartsWith(s, "&#39;") then "'" + UnescapeHtml(s[5..])
    else [s[0]] + UnescapeHtml(s[1..])
  }

  /** `p + rest` starts with `p`, and what follows it is `rest`. */
  lemma PrefixSplit(t: string, p: string, rest: string)
    requires t == p + rest
    ensures StartsWith(t, p) && t[|p|..] == rest
  {
    assert t[..|p|] == p && t[|p|..] == rest;
  }

  /** Decoding reads `&amp;` as `&`. */
  lemma UnescapeAmp(rest: string)
    ensures UnescapeHtml("&amp;" + rest) == "&" + UnescapeHtml(rest)
  {
    PrefixSplit("&amp;" + rest, "&amp;", rest);
  }

  /** Decoding reads `&lt;` as `<`. */
  lemma UnescapeLt(rest: string)
    ensures UnescapeHtml("&lt;" + rest) == "<" + UnescapeHtml(rest)
  {
    var t := "&lt;" + rest;
    assert t[1] == 'l';
    assert !StartsWith(t, "&amp;");
    PrefixSplit(t, "&lt;", rest);
  }

  /** Decoding reads `&gt;` as `>`. */
  lemma UnescapeGt(rest: string)
    ensures UnescapeHtml("&gt;" + rest) == ">" + UnescapeHtml(rest)
  {
    var t := "&gt;" + rest;
    assert t[1] == 'g';
    assert !StartsWith(t, "&amp;") && !StartsWith(t, "&lt;");
    PrefixSplit(t, "&gt;", rest);
  }

  /** Decoding reads `&quot;` as `"`. */
  lemma UnescapeQuot(rest: string)
    ensures UnescapeHtml("&quot;" + rest) == "\"" + UnescapeHtml(rest)
  {
    var t := "&quot;" + rest;
    assert t[1] == 'q';
    assert !StartsWith(t, "&amp;") && !StartsWith(t, "&lt;") && !StartsWith(t, "&gt;");
    PrefixSplit(t, "&quot;", rest);
  }

  /** Decoding reads `&#39;` as `'`. */
  lemma UnescapeApos(rest: string)
    ensures UnescapeHtml("&#39;" + rest) == "'" + UnescapeHtml(rest)
  {
    var t := "&#39;" + rest;
    assert t[1] == '#';
    assert !StartsWith(t, "&amp;") && !StartsWith(t, "&lt;") && !StartsWith(t, "&gt;");
    assert !StartsWith(t, "&quot;");
    PrefixSplit(t, "&#39;", rest);
  }

  /** A text whose first character is not `&` starts with no reference. */
  lemma NoReferenceAtHead(t: string, p: string)
    requires t != [] && t[0] != '&' && p != [] && p[0] == '&'
    ensures !StartsWith(t, p)
  {
  }

  /** Decoding copies a character other than `&` through. */
  lemma UnescapePlain(c: char, rest: string)
    requires c != '&'
    ensures UnescapeHtml([c] + rest) == [c] + UnescapeHtml(rest)
  {
    var t := [c] + rest;
    assert t[0] == c && t[1..] == rest;
    NoReferenceAtHead(t, "&amp;");
    NoReferenceAtHead(t, "&lt;");
    NoReferenceAtHead(t, "&gt;");
    NoReferenceAtHead(t, "&quot;");
    NoReferenceAtHead(t, "&#39;");
  }

  /** Decoding consumes the escape of one character and yields that character. */
  lemma UnescapeHead(c: char, rest: string)
    ensures UnescapeHtml(EscapeChar(c) + rest) == [c] + UnescapeHtml(rest)
  {
    if c == '&' {
      UnescapeAmp(rest);
    } else if c == '<' {
      UnescapeLt(rest);
    } else if c == '>' {
      UnescapeGt(rest);
    } else if c == '"' {
      UnescapeQuot(rest);
    } else if c == '\'' {
      UnescapeApos(rest);
    } else {
      assert EscapeChar(c) == [c];
      UnescapePlain(c, rest);
    }
  }

  /** Escaping loses nothing: decoding the escaped text gives back the input. */
  lemma {:induction false} EscapeRoundTrip(s: string)
    ensures UnescapeHtml(EscapeHtml(s)) == s
    decreases |s|
  {
    if s != [] {
      EscapeRoundTrip(s[1..]);
      UnescapeHead(s[0], EscapeHtml(s[1..]));
    }
  }

  /** Escaping distributes over concatenation. */
  lemma {:induction false} EscapeConcat(a: string, b: string)
    ensures EscapeHtml(a + b) == EscapeHtml(a) + EscapeHtml(b)
    decreases |a|
  {
    if a != [] {
      assert (a + b)[1..] == a[1..] + b;
      EscapeConcat(a[1..], b);
    } else {
      assert a + b == b;
    }
  }
}
