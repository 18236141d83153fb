/**
 * The Python string operations the bot relies on: `str.startswith`,
 * `str.lstrip(chars)`, `str.rstrip(chars)`, `str.strip()` and `sep.join(parts)`,
 * on strings as sequences of characters.
 */
module PyStr {

  /**
   * The characters Python's `str.isspace` accepts, which `str.strip()` with no
   * argument removes: the ASCII controls TAB to CR and FS to US, SPACE, NEL,
   * NO-BREAK SPACE, and the Unicode space separators and line/paragraph separators.
   */
  const Whitespace: set<char> := {
    '\t', '\n', '\U{0B}', '\U{0C}', '\r', '\U{1C}', '\U{1D}', '\U{1E}', '\U{1F}', ' ',
    '\U{85}', '\U{A0}', '\U{1680}',
    '\U{2000}', '\U{2001}', '\U{2002}', '\U{2003}', '\U{2004}', '\U{2005}',
    '\U{2006}', '\U{2007}', '\U{2008}', '\U{2009}', '\U{200A}',
    '\U{2028}', '\U{2029}', '\U{202F}', '\U{205F}', '\U{3000}'
  }

  /** `s.startswith(prefix)` */
  predicate StartsWith(s: string, prefix: string): (b: bool)
    ensures b <==> |prefix| <= |s| && forall k :: 0 <= k < |prefix| ==> s[k] == prefix[k]
  {
    |prefix| <= |s| && s[..|prefix|] == prefix
  }

  /** `s.endswith(suffix)` */
  predicate EndsWith(s: string, suffix: string) {
    |suffix| <= |s| && s[|s| - |suffix|..] == suffix
  }

  /** Neither empty nor starting or ending with whitespace: what `strip` leaves of a non-blank string. */
  predicate Trimmed(s: string) {
    s != [] && s[0] !in Whitespace && s[|s| - 1] !in Whitespace
  }

  /** Every character of `s` is whitespace (so `s.strip()` is empty and `if s.strip():` is false). */
  predicate Blank(s: string) {
    forall k :: 0 <= k < |s| ==> s[k] in Whitespace
  }

  /** `s.lstrip(chars)`: the longest suffix of `s` whose first character is not in `chars`. */
  function LStrip(s: string, chars: set<char>): (r: string)
    ensures |r| <= |s| && r == s[|s| - |r|..]
    ensures forall k :: 0 <= k < |s| - |r| ==> s[k] in chars
    ensures r != [] ==> r[0] !in chars
    decreases |s|
  {
    if s != [] && s[0] in chars then LStrip(s[1..], chars) else s
  }

  /** `s.rstrip(chars)`: the longest prefix of `s` whose last character is not in `chars`. */
  function RStrip(s: string, chars: set<char>): (r: string)
    ensures |r| <= |s| && r == s[..|r|]
    ensures forall k :: |r| <= k < |s| ==> s[k] in chars
    ensures r != [] ==> r[|r| - 1] !in chars
    decreases |s|
  {
    if s != [] && s[|s| - 1] in chars then RStrip(s[..|s| - 1], chars) else s
  }

  /**
   * `s.strip()`: `s` without its leading and trailing whitespace. The result is
   * empty exactly when `s` is blank, and otherwise it is trimmed.
   */
  function Strip(s: string): (r: string)
    ensures r == [] <==> Blank(s)
    ensures r != [] ==> Trimmed(r)
    ensures |r| <= |s|
  {
    var l := LStrip(s, Whitespace);
    var r := RStrip(l, Whitespace);
    assert r == [] ==> Blank(s) by {
      if r == [] {
        forall k | 0 <= k < |s| ensures s[k] in Whitespace {
          if k >= |s| - |l| {
            assert s[k] == l[k - (|s| - |l|)];
          }
        }
      }
    }
    r
  }

  /** `sep.join(parts)`: the parts in order with `sep` between neighbours. */
  function Join(sep: string, parts: seq<string>): (r: string)
    ensures parts == [] ==> r == []
    ensures |parts| == 1 ==> r == parts[0]
    ensures parts != [] ==> StartsWith(r, parts[0]) && EndsWith(r, parts[|parts| - 1])
    decreases |parts|
  {
    if |parts| == 0 then []
    else if |parts| == 1 then parts[0]
    else Join(sep, parts[..|parts| - 1]) + sep + parts[|parts| - 1]
  }

  /** `sep.join` puts `sep` between the first part and the join of the rest. */
  lemma {:induction false} JoinCons(sep: string, p: string, rest: seq<string>)
    requires rest != []
    ensures Join(sep, [p] + rest) == p + sep + Join(sep, rest)
    decreases |rest|
  {
    var parts := [p] + rest;
    if |rest| == 1 {
      assert parts[..1] == [p];
    } else {
      var init := rest[..|rest| - 1];
      var last := rest[|rest| - 1];
      assert parts[..|parts| - 1] == [p] + init;
      assert parts[|parts| - 1] == last;
      JoinCons(sep, p, init);
      assert Join(sep, rest) == Join(sep, init) + sep + last;
      calc {
        Join(sep, parts);
        Join(sep, [p] + init) + sep + last;
        (p + sep + Join(sep, init)) + sep + last;
        p + sep + (Join(sep, init) + sep + last);
      }
    }
  }

  /** `strip` leaves a trimmed string as it is; with Strip's contract this makes `strip` idempotent. */
  lemma StripTrimmed(s: string)
    requires Trimmed(s)
    ensures Strip(s) == s
  {
    assert LStrip(s, Whitespace) == s;
    assert RStrip(s, Whitespace) == s;
  }

  /** `strip` applied twice is `strip` applied once. */
  lemma StripIdempotent(s: string)
    ensures Strip(Strip(s)) == Strip(s)
  {
    if Strip(s) != [] {
      StripTrimmed(Strip(s));
    }
  }

  /** Joining trimmed parts, whatever the separator, gives a trimmed string. */
  lemma JoinTrimmed(sep: string, parts: seq<string>)
    requires parts != []
    requires forall k :: 0 <= k < |parts| ==> Trimmed(parts[k])
    ensures Trimmed(Join(sep, parts))
  {
    var r, first, last := Join(sep, parts), parts[0], parts[|parts| - 1];
    assert r[0] == r[..|first|][0] == first[0];
    assert r[|r| - 1] == r[|r| - |last|..][|last| - 1] == last[|last| - 1];
  }

  /** `lstrip` removes exactly a leading run of stripped characters. */
  lemma {:induction false} LStripPrefix(pre: string, s: string, chars: set<char>)
    requires forall k :: 0 <= k < |pre| ==> pre[k] in chars
    requires s == [] || s[0] !in chars
    ensures LStrip(pre + s, chars) == s
    decreases |pre|
  {
    if pre == [] {
      assert pre + s == s;
    } else {
      assert (pre + s)[1..] == pre[1..] + s;
      LStripPrefix(pre[1..], s, chars);
    }
  }

  /** `rstrip` removes exactly a trailing run of stripped characters. */
  lemma {:induction false} RStripSuffix(s: string, post: string, chars: set<char>)
    requires forall k :: 0 <= k < |post| ==> post[k] in chars
    requires s == [] || s[|s| - 1] !in chars
    ensures RStrip(s + post, chars) == s
    decreases |post|
  {
    if post == [] {
      assert s + post == s;
    } else {
      var shorter := post[..|post| - 1];
      assert (s + post)[..|s + post| - 1] == s + shorter;
      RStripSuffix(s, shorter, chars);
    }
  }

  /** `strip` of a trimmed text padded with whitespace on both sides is that text. */
  lemma StripPadded(pre: string, core: string, post: string)
    requires Blank(pre) && Blank(post) && Trimmed(core)
    ensures Strip(pre + core + post) == core
  {
    assert pre + core + post == pre + (core + post);
    LStripPrefix(pre, core + post, Whitespace);
    RStripSuffix(core, post, Whitespace);
  }
}
