/** The JavaScript string built-ins the client relies on, stated over `seq<char>`:
    the `\s` character class (which `String.prototype.trim` shares), `trim`,
    `toLowerCase` on ASCII letters, `replace(/\s+/g, "-")`, the decimal text of
    a non-negative integer, and `indexOf(...) !== -1`. */
module Text {

  /** White space as JavaScript's `\s` and `trim` understand it:
      WhiteSpace and LineTerminator of ECMA-262. No visible ASCII character
      (`!` to `~`) is white space. */
  predicate IsSpace(c: char)
    ensures IsSpace(c) ==> !('!' <= c <= '~')
  {
    || c == ' ' || c == '\t' || c == '\n' || c == '\U{B}' || c == '\U{C}' || c == '\r'
    || c == '\U{A0}' || c == '\U{1680}' || ('\U{2000}' <= c <= '\U{200A}')
    || c == '\U{2028}' || c == '\U{2029}' || c == '\U{202F}' || c == '\U{205F}'
    || c == '\U{3000}' || c == '\U{FEFF}'
  }

  predicate Blank(s: string) {
    forall k :: 0 <= k < |s| ==> IsSpace(s[k])
  }

  /** Drops leading white space: the result is the longest suffix of `s`
      that does not start with white space. */
  function TrimStart(s: string): (r: string)
    ensures |r| <= |s| && r == s[|s| - |r|..]
    ensures forall k :: 0 <= k < |s| - |r| ==> IsSpace(s[k])
    ensures r != [] ==> !IsSpace(r[0])
  {
    if s != [] && IsSpace(s[0]) then TrimStart(s[1..]) else s
  }

  /** Drops trailing white space: the result is the longest prefix of `s`
      that does not end with white space. */
  function TrimEnd(s: string): (r: string)
    ensures |r| <= |s| && r == s[..|r|]
    ensures forall k :: |r| <= k < |s| ==> IsSpace(s[k])
    ensures r != [] ==> !IsSpace(r[|r| - 1])
  {
    if s != [] && IsSpace(s[|s| - 1]) then TrimEnd(s[..|s| - 1]) else s
  }

  /** `String.prototype.trim`: no longer than `s`, and neither starting nor
      ending with white space. */
  function Trim(s: string): (r: string)
    ensures |r| <= |s|
    ensures r != [] ==> !IsSpace(r[0]) && !IsSpace(r[|r| - 1])
  {
    var t := TrimStart(s);
    var r := TrimEnd(t);
    assert r != [] ==> r[0] == t[0];
    r
  }

  /** `s.trim()` is falsy exactly when `s` consists of white space only. */
  lemma TrimEmptyIffBlank(s: string)
    ensures Trim(s) == [] <==> Blank(s)
  {
    var t := TrimStart(s);
    if t != [] {
      assert t[0] == s[|s| - |t|];
    }
  }

  /** `t` is `s` with white space cut from both ends and nothing else. */
  predicate TrimmedFrom(t: string, s: string) {
    exists i, j :: 0 <= i <= j <= |s| && Blank(s[..i]) && Blank(s[j..]) && t == s[i..j]
  }

  /** `t` neither starts nor ends with white space. */
  predicate EdgesTrimmed(t: string) {
    t == [] || (!IsSpace(t[0]) && !IsSpace(t[|t| - 1]))
  }

  /** The trimmed string is the piece of `s` left once white space is cut
      from both ends, and only white space is cut. */
  lemma TrimShape(s: string)
    ensures TrimmedFrom(Trim(s), s)
  {
    var t := TrimStart(s);
    var r := TrimEnd(t);
    var i, j := |s| - |t|, |s| - |t| + |r|;
    assert r == s[i..j] by {
      assert t == s[i..] && r == t[..|r|];
    }
    assert Blank(s[..i]) by {
      forall k | 0 <= k < i ensures IsSpace(s[..i][k]) {
        assert s[..i][k] == s[k];
      }
    }
    assert Blank(s[j..]) by {
      assert t == s[i..];
      forall k | 0 <= k < |s| - j ensures IsSpace(s[j..][k]) {
        assert s[j..][k] == t[|r| + k];
      }
    }
    assert Trim(s) == s[i..j];
  }

  /** Trimming twice is trimming once. */
  lemma TrimIdempotent(s: string)
    ensures Trim(Trim(s)) == Trim(s)
  {
    var t := Trim(s);
    if t != [] {
      assert TrimStart(t) == t;
      assert TrimEnd(t) == t;
    }
  }

  /** ASCII letters to lower case; every other character unchanged. */
  function LowerChar(c: char): (r: char)
    ensures 'A' <= c <= 'Z' ==> 'a' <= r <= 'z' && r as int - c as int == 32
    ensures !('A' <= c <= 'Z') ==> r == c
  {
    if 'A' <= c <= 'Z' then (c as int - 'A' as int + 'a' as int) as char else c
  }

  /** `toLowerCase` on ASCII text. */
  function Lower(s: string): (r: string)
    ensures |r| == |s|
    ensures forall k :: 0 <= k < |r| ==> r[k] == LowerChar(s[k])
  {
    seq(|s|, k requires 0 <= k < |s| => LowerChar(s[k]))
  }

  /** Lower-casing twice is lower-casing once, and the result holds no
      upper-case ASCII letter. */
  lemma LowerIdempotent(s: string)
    ensures Lower(Lower(s)) == Lower(s)
    ensures forall k :: 0 <= k < |s| ==> !('A' <= Lower(s)[k] <= 'Z')
  {
  }

  /** `s.replace(/\s+/g, "-")`: every maximal run of white space becomes one
      `-`; the result holds no white space and is empty only for empty input. */
  function DashSpaces(s: string): (r: string)
    ensures forall k :: 0 <= k < |r| ==> !IsSpace(r[k])
    ensures |r| <= |s| && (s != [] ==> r != [])
    decreases |s|
  {
    if s == [] then []
    else if IsSpace(s[0]) then
      var rest := TrimStart(s);
      assert rest != [] ==> rest[0] == s[|s| - |rest|];
      "-" + DashSpaces(rest)
    else [s[0]] + DashSpaces(s[1..])
  }

  /** Text without white space passes unchanged. */
  lemma {:induction false} DashSpacesIdentity(s: string)
    requires forall k :: 0 <= k < |s| ==> !IsSpace(s[k])
    ensures DashSpaces(s) == s
    decreases |s|
  {
    if s != [] {
      DashSpacesIdentity(s[1..]);
      assert DashSpaces(s) == [s[0]] + DashSpaces(s[1..]);
    }
  }

  /** The replacement adds no upper-case letter. */
  lemma {:induction false} DashSpacesNoUpper(s: string)
    requires forall k :: 0 <= k < |s| ==> !('A' <= s[k] <= 'Z')
    ensures forall k :: 0 <= k < |DashSpaces(s)| ==> !('A' <= DashSpaces(s)[k] <= 'Z')
    decreases |s|
  {
    if s != [] {
      if IsSpace(s[0]) {
        var rest := TrimStart(s);
        assert forall k :: 0 <= k < |rest| ==> rest[k] == s[|s| - |rest| + k];
        DashSpacesNoUpper(rest);
        assert DashSpaces(s) == "-" + DashSpaces(rest);
      } else {
        DashSpacesNoUpper(s[1..]);
        assert DashSpaces(s) == [s[0]] + DashSpaces(s[1..]);
      }
    }
  }

  /** Leading white space followed by text that does not start with white
      space: dropping the leading white space leaves that text. */
  lemma {:induction false} TrimStartBlankPrefix(w: string, b: string)
    requires Blank(w) && (b == [] || !IsSpace(b[0]))
    ensures TrimStart(w + b) == b
    decreases |w|
  {
    if w == [] {
      assert w + b == b;
    } else {
      assert (w + b)[1..] == w[1..] + b;
      TrimStartBlankPrefix(w[1..], b);
    }
  }

  /** A run of white space at the head becomes one dash. */
  lemma DashSpacesBlankRun(w: string, b: string)
    requires w != [] && Blank(w) && (b == [] || !IsSpace(b[0]))
    ensures DashSpaces(w + b) == "-" + DashSpaces(b)
  {
    var s := w + b;
    assert s[0] == w[0];
    TrimStartBlankPrefix(w, b);
  }

  /** A character other than white space at the head is copied. */
  lemma DashSpacesCons(a: string, t: string)
    requires a != [] && !IsSpace(a[0])
    ensures DashSpaces(a + t) == [a[0]] + DashSpaces(a[1..] + t)
  {
    var s := a + t;
    assert s[0] == a[0] && s[1..] == a[1..] + t;
  }

  /** A whole run of white space between a space-free word and the rest
      becomes one dash: `"a  \t b"` gives `"a-b"`, not `"a---b"`. */
  lemma {:induction false} DashSpacesJoin(a: string, w: string, b: string)
    requires forall k :: 0 <= k < |a| ==> !IsSpace(a[k])
    requires w != [] && Blank(w) && (b == [] || !IsSpace(b[0]))
    ensures DashSpaces(a + (w + b)) == a + ("-" + DashSpaces(b))
    decreases |a|
  {
    var t := w + b;
    var rest := "-" + DashSpaces(b);
    if a == [] {
      assert DashSpaces(a + t) == a + rest by {
        assert a + t == t && a + rest == rest;
        DashSpacesBlankRun(w, b);
      }
    } else {
      var a' := a[1..];
      assert DashSpaces(a' + t) == a' + rest by {
        assert forall k :: 0 <= k < |a'| ==> a'[k] == a[k + 1];
        DashSpacesJoin(a', w, b);
      }
      assert DashSpaces(a + t) == [a[0]] + DashSpaces(a' + t) by {
        DashSpacesCons(a, t);
      }
      assert a + rest == [a[0]] + (a' + rest) by {
        assert a == [a[0]] + a';
      }
    }
  }

  /** The decimal digit for `d`. */
  function Digit(d: nat): (c: char)
    requires d < 10
    ensures '0' <= c <= '9' && c as int - '0' as int == d
  {
    (d + '0' as int) as char
  }

  predicate AllDigits(s: string) {
    forall k :: 0 <= k < |s| ==> '0' <= s[k] <= '9'
  }

  /** The decimal text of `n`, as `String(n)` writes it for a safe integer:
      no sign, no leading zero except for `0` itself. */
  function NatToString(n: nat): (r: string)
    ensures r != [] && AllDigits(r)
    ensures |r| > 1 ==> r[0] != '0'
    decreases n
  {
    if n < 10 then [Digit(n)] else NatToString(n / 10) + [Digit(n % 10)]
  }

  /** The value of a string of decimal digits (`parseInt(s, 10)`): zero
      exactly when every digit is `0`. */
  function ParseDigits(s: string): (r: nat)
    requires AllDigits(s)
    ensures r == 0 <==> forall k :: 0 <= k < |s| ==> s[k] == '0'
  {
    if s == [] then 0
    else ParseDigits(s[..|s| - 1]) * 10 + (s[|s| - 1] as int - '0' as int)
  }

  /** Reading back the decimal text of `n` gives `n`; so two different numbers
      never have the same text. */
  lemma {:induction false} ParseNatToString(n: nat)
    ensures ParseDigits(NatToString(n)) == n
    decreases n
  {
    var r := NatToString(n);
    if n >= 10 {
      ParseNatToString(n / 10);
      assert r[..|r| - 1] == NatToString(n / 10);
    }
  }

  lemma NatToStringInjective(m: nat, n: nat)
    ensures NatToString(m) == NatToString(n) <==> m == n
  {
    if NatToString(m) == NatToString(n) {
      ParseNatToString(m);
      ParseNatToString(n);
    }
  }

  /** `s` begins with `p`. */
  predicate StartsWith(s: string, p: string) {
    |p| <= |s| && s[..|p|] == p
  }

  /** `s.indexOf(pat) !== -1`: `pat` occurs in `s` at some position. */
  predicate Contains(s: string, pat: string)
    ensures Contains(s, pat) ==> |pat| <= |s|
    ensures pat == [] ==> Contains(s, pat)
    decreases |s|
  {
    |pat| <= |s| && (s[..|pat|] == pat || Contains(s[1..], pat))
  }

  /** `pat` occurs in `s` starting at position `i`. */
  predicate OccursAt(s: string, pat: string, i: int) {
    0 <= i <= |s| - |pat| && s[i..i + |pat|] == pat
  }

  /** `Contains` agrees with the positional definition of an occurrence. */
  lemma {:induction false} ContainsAt(s: string, pat: string)
    ensures Contains(s, pat) <==> exists i :: OccursAt(s, pat, i)
    decreases |s|
  {
    if |pat| <= |s| {
      if s[..|pat|] == pat {
        assert OccursAt(s, pat, 0);
      } else {
        ContainsAt(s[1..], pat);
        if exists i :: OccursAt(s, pat, i) {
          var i :| OccursAt(s, pat, i);
          assert i != 0;
          assert OccursAt(s[1..], pat, i - 1);
        }
        if Contains(s[1..], pat) {
          var i :| OccursAt(s[1..], pat, i);
          assert OccursAt(s, pat, i + 1);
        }
      }
    }
  }

  /** A pattern whose first character never appears in `s` does not occur in `s`. */
  lemma {:induction false} MissingFirstCharNotContained(s: string, pat: string)
    requires pat != []
    requires forall k :: 0 <= k < |s| ==> s[k] != pat[0]
    ensures !Contains(s, pat)
    decreases |s|
  {
    if |pat| <= |s| {
      assert s[..|pat|][0] == s[0];
      MissingFirstCharNotContained(s[1..], pat);
    }
  }
}
