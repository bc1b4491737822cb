/** `sanitize_filename`: reduces a video title to characters safe in a file name. */
module Sanitize {

  /** Letters and digits, read as ASCII (`str.isalnum` restricted to ASCII). */
  predicate IsAlnum(c: char) {
    'a' <= c <= 'z' || 'A' <= c <= 'Z' || '0' <= c <= '9'
  }

  /** The characters a sanitized title may contain. */
  predicate IsAllowed(c: char) {
    IsAlnum(c) || c == ' ' || c == '.' || c == '_' || c == '-'
  }

  /** `str.isspace` on ASCII: tab through carriage return, the four separators, and space. */
  predicate IsWhitespace(c: char) {
    '\t' <= c <= '\r' || '\U{1C}' <= c <= ' '
  }

  /**
   * `a` is obtained from `b` by deleting characters. Matching each character of `a`
   * with its earliest occurrence in `b` loses no solutions, so the test is greedy.
   */
  predicate IsSubsequence(a: string, b: string)
    decreases |b|
  {
    a == [] || (b != [] && if a[0] == b[0] then IsSubsequence(a[1..], b[1..]) else IsSubsequence(a, b[1..]))
  }

  /** The generator `c for c in title if c.isalnum() or c in " ._-"`, joined. */
  function KeepAllowed(s: string): (r: string)
    ensures forall i :: 0 <= i < |r| ==> IsAllowed(r[i])
    ensures IsSubsequence(r, s)
    decreases |s|
  {
    if s == [] then []
    else
      var rest := KeepAllowed(s[1..]);
      if IsAllowed(s[0]) then
        var r := [s[0]] + rest;
        assert r[1..] == rest;
        r
      else rest
  }

  /** Every allowed character survives as often as it occurs; every other one is gone. */
  lemma {:induction false} KeepAllowedCounts(s: string)
    ensures forall c :: multiset(KeepAllowed(s))[c] == if IsAllowed(c) then multiset(s)[c] else 0
    decreases |s|
  {
    if s != [] {
      KeepAllowedCounts(s[1..]);
      assert s == [s[0]] + s[1..];
    }
  }

  /** `str.rstrip()`: drops trailing whitespace. */
  function TrimEnd(s: string): (r: string)
    ensures r <= s
    ensures forall i :: |r| <= i < |s| ==> IsWhitespace(s[i])
    ensures r == [] || !IsWhitespace(r[|r| - 1])
    decreases |s|
  {
    if s != [] && IsWhitespace(s[|s| - 1]) then TrimEnd(s[..|s| - 1]) else s
  }

  /** `sanitize_filename` */
  function SanitizeFilename(title: string): (r: string)
    ensures forall i :: 0 <= i < |r| ==> IsAllowed(r[i])
    ensures IsSubsequence(r, title)
    ensures r == [] || r[|r| - 1] != ' '
    ensures r <= KeepAllowed(title)
    ensures forall i :: |r| <= i < |KeepAllowed(title)| ==> KeepAllowed(title)[i] == ' '
  {
    var kept := KeepAllowed(title);
    var r := TrimEnd(kept);
    PrefixOfSubsequence(r, kept, title);
    r
  }

  /** A prefix of a subsequence is a subsequence. */
  lemma {:induction false} PrefixOfSubsequence(p: string, a: string, b: string)
    requires p <= a && IsSubsequence(a, b)
    ensures IsSubsequence(p, b)
    decreases |b|
  {
    if p != [] {
      assert a != [] && b != [] && p[0] == a[0];
      if a[0] == b[0] {
        PrefixOfSubsequence(p[1..], a[1..], b[1..]);
      } else {
        PrefixOfSubsequence(p, a, b[1..]);
      }
    }
  }

  /** Keeping the allowed characters of a string made only of them changes nothing. */
  lemma {:induction false} KeepAllowedOfAllowed(s: string)
    requires forall i :: 0 <= i < |s| ==> IsAllowed(s[i])
    ensures KeepAllowed(s) == s
    decreases |s|
  {
    if s != [] {
      KeepAllowedOfAllowed(s[1..]);
    }
  }

  /** A string with no allowed character is removed entirely. */
  lemma {:induction false} KeepAllowedOfDisallowed(s: string)
    requires forall i :: 0 <= i < |s| ==> !IsAllowed(s[i])
    ensures KeepAllowed(s) == []
    decreases |s|
  {
    if s != [] {
      KeepAllowedOfDisallowed(s[1..]);
    }
  }

  /** Keeping allowed characters distributes over concatenation: each character is kept or dropped on its own. */
  lemma {:induction false} KeepAllowedAppend(a: string, b: string)
    ensures KeepAllowed(a + b) == KeepAllowed(a) + KeepAllowed(b)
    decreases |a|
  {
    if a != [] {
      var ab, ka, kb := a + b, KeepAllowed(a[1..]), KeepAllowed(b);
      assert ab[0] == a[0] && ab[1..] == a[1..] + b;
      KeepAllowedAppend(a[1..], b);
      if IsAllowed(a[0]) {
        assert [a[0]] + (ka + kb) == ([a[0]] + ka) + kb;
      }
    } else {
      assert a + b == b;
    }
  }

  /** Sanitizing is idempotent. */
  lemma SanitizeIdempotent(title: string)
    ensures SanitizeFilename(SanitizeFilename(title)) == SanitizeFilename(title)
  {
    var r := SanitizeFilename(title);
    KeepAllowedOfAllowed(r);
  }

  /** A sanitized title never holds a bracket. */
  lemma SanitizedHasNoBracket(title: string)
    ensures '[' !in SanitizeFilename(title)
  {
  }

  /** Characters outside the allowed set are dropped, not replaced. */
  lemma DisallowedDropped(a: string, b: string, c: string)
    requires forall i :: 0 <= i < |a| ==> IsAllowed(a[i])
    requires forall i :: 0 <= i < |b| ==> !IsAllowed(b[i])
    requires forall i :: 0 <= i < |c| ==> IsAllowed(c[i])
    requires c != [] && !IsWhitespace(c[|c| - 1])
    ensures SanitizeFilename(a + b + c) == a + c
  {
    KeepAllowedOfAllowed(a);
    KeepAllowedOfAllowed(c);
    KeepAllowedAppend(a, b);
    KeepAllowedAppend(a + b, c);
    KeepAllowedOfDisallowed(b);
    assert a + [] == a;
    assert KeepAllowed(a + b + c) == a + c;
    assert (a + c)[|a + c| - 1] == c[|c| - 1];
    assert TrimEnd(a + c) == a + c;
  }

  /** `"My Video! Title.mp4"` loses only its exclamation mark. */
  lemma SanitizeExample()
    ensures SanitizeFilename("My Video! Title.mp4") == "My Video Title.mp4"
  {
    var a, b, c := "My Video", "!", " Title.mp4";
    assert a + b + c == "My Video! Title.mp4";
    assert a + c == "My Video Title.mp4";
    DisallowedDropped(a, b, c);
  }

  lemma SanitizeEmpty()
    ensures SanitizeFilename("") == ""
  {
  }
}
