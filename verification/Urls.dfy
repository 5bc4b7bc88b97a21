/** `normalizeUrl` of script.js: trim, keep an `http://`/`https://` URL as it is, and prefix
    `https://` onto a bare domain such as `example.com/path`. */
module Urls {
  import opened JsText

  /** ASCII lower-casing: the case folding of a regular expression with the `i` flag and
      without the `u` flag never maps a non-ASCII character onto an ASCII one. */
  function LowerAscii(c: char): char {
    if 'A' <= c <= 'Z' then (c as int + 32) as char else c
  }

  function LowerAsciiString(s: string): (r: string)
    ensures |r| == |s|
  {
    seq(|s|, i requires 0 <= i < |s| => LowerAscii(s[i]))
  }

  /** `/^https?:\/\//i`. */
  predicate HasHttpScheme(s: string) {
    || (|s| >= 7 && LowerAsciiString(s[..7]) == "http://")
    || (|s| >= 8 && LowerAsciiString(s[..8]) == "https://")
  }

  predicate IsAsciiLetter(c: char) {
    ('a' <= c <= 'z') || ('A' <= c <= 'Z')
  }

  /** `[\w.-]`: a word character, a dot or a hyphen. */
  predicate IsHostChar(c: char) {
    IsAsciiLetter(c) || ('0' <= c <= '9') || c == '_' || c == '.' || c == '-'
  }

  /** The characters `.` does not match in a regular expression without the `s` flag. */
  predicate IsLineTerminator(c: char) {
    c == '\n' || c == '\r' || c == '\U{2028}' || c == '\U{2029}'
  }

  /** One way of matching `/^[\w.-]+\.[a-z]{2,}(\/.*)?$/i` against `s`: `s[..a]` is the
      `[\w.-]+` part, `s[a]` the escaped dot, `s[a + 1..t]` the `[a-z]{2,}` part and `s[t..]`
      the optional path. */
  ghost predicate BareDomainAt(s: string, a: nat, t: nat) {
    && 0 < a && a + 3 <= t <= |s|
    && (forall k | 0 <= k < a :: IsHostChar(s[k]))
    && s[a] == '.'
    && (forall k | a < k < t :: IsAsciiLetter(s[k]))
    && (t == |s| || (s[t] == '/' && forall k | t < k < |s| :: !IsLineTerminator(s[k])))
  }

  /** The regular expression matches `s`. */
  ghost predicate MatchesBareDomain(s: string) {
    exists a: nat, t: nat :: BareDomainAt(s, a, t)
  }

  /** Position of the first `c` in `s`, or `|s|` when there is none. */
  function IndexOf(s: string, c: char): (i: nat)
    ensures i <= |s|
    ensures i < |s| ==> s[i] == c
    ensures forall j | 0 <= j < i :: s[j] != c
  {
    if s == [] then 0 else if s[0] == c then 0 else 1 + IndexOf(s[1..], c)
  }

  /** Position of the last `c` in `s`, or `-1` when there is none. */
  function LastIndexOf(s: string, c: char): (i: int)
    ensures -1 <= i < |s|
    ensures 0 <= i ==> s[i] == c
    ensures forall j | i < j < |s| :: s[j] != c
  {
    if s == [] then -1
    else if s[|s| - 1] == c then |s| - 1
    else LastIndexOf(s[..|s| - 1], c)
  }

  /** Executable matcher for the bare-domain pattern: the domain runs up to the first slash,
      and its top-level label is what follows its last dot. */
  predicate IsBareDomain(s: string) {
    var t := IndexOf(s, '/');
    var a := LastIndexOf(s[..t], '.');
    && 0 < a && a + 3 <= t
    && (forall k | 0 <= k < a :: IsHostChar(s[k]))
    && (forall k | a < k < t :: IsAsciiLetter(s[k]))
    && (forall k | t < k < |s| :: !IsLineTerminator(s[k]))
  }

  /** The matcher decides exactly the regular expression, in both directions. */
  lemma BareDomainMatcherCorrect(s: string)
    ensures IsBareDomain(s) <==> MatchesBareDomain(s)
  {
    var t := IndexOf(s, '/');
    var a := LastIndexOf(s[..t], '.');
    if IsBareDomain(s) {
      assert s[..t][a] == s[a];
      assert BareDomainAt(s, a, t);
    }
    if MatchesBareDomain(s) {
      var a': nat, t': nat :| BareDomainAt(s, a', t');
      assert forall k | 0 <= k < t' :: s[k] != '/' by {
        forall k | 0 <= k < t' ensures s[k] != '/' {
          if k < a' { assert IsHostChar(s[k]); }
          else if k > a' { assert IsAsciiLetter(s[k]); }
        }
      }
      assert t == t';
      assert s[..t][a'] == '.';
      assert forall k | a' < k < t :: s[..t][k] != '.' by {
        forall k | a' < k < t ensures s[..t][k] != '.' {
          assert IsAsciiLetter(s[k]);
        }
      }
      assert a == a';
    }
  }

  /** `normalizeUrl`: the trimmed input, with `https://` in front when it is a bare domain. */
  function NormalizeUrl(str: string): (r: string)
    ensures HasHttpScheme(Trim(str)) ==> r == Trim(str)
    ensures !HasHttpScheme(Trim(str)) && MatchesBareDomain(Trim(str)) ==> r == "https://" + Trim(str)
    ensures !HasHttpScheme(Trim(str)) && !MatchesBareDomain(Trim(str)) ==> r == Trim(str)
  {
    BareDomainMatcherCorrect(Trim(str));
    var s := Trim(str);
    if HasHttpScheme(s) then s
    else if IsBareDomain(s) then "https://" + s
    else s
  }

  /** What `normalizeUrl` returns neither starts nor ends with white space, and a bare domain
      comes back with an `https://` scheme. */
  lemma NormalizeUrlShape(str: string)
    ensures IsTrimmed(NormalizeUrl(str))
    ensures MatchesBareDomain(Trim(str)) ==> HasHttpScheme(NormalizeUrl(str))
  {
    var s := Trim(str);
    TrimIsTrimmed(str);
    BareDomainMatcherCorrect(s);
    if HasHttpScheme(s) {
      assert NormalizeUrl(str) == s;
    } else if IsBareDomain(s) {
      assert NormalizeUrl(str) == "https://" + s;
      HttpsPrefixHasScheme(s);
      HttpsPrefixTrimmed(s);
    } else {
      assert NormalizeUrl(str) == s;
    }
  }

  lemma HttpsPrefixTrimmed(s: string)
    requires IsTrimmed(s)
    ensures IsTrimmed("https://" + s)
  {
    var r := "https://" + s;
    assert r[0] == 'h';
    if s != [] {
      assert r[|r| - 1] == s[|s| - 1];
    }
  }

  lemma HttpsPrefixHasScheme(s: string)
    ensures HasHttpScheme("https://" + s)
  {
    var p := ("https://" + s)[..8];
    assert p == "https://";
    var l := LowerAsciiString(p);
    assert l[0] == 'h' && l[1] == 't' && l[2] == 't' && l[3] == 'p' && l[4] == 's';
    assert l[5] == ':' && l[6] == '/' && l[7] == '/';
    assert l == "https://";
  }

  /** Normalising twice is normalising once. */
  lemma NormalizeUrlIdempotent(str: string)
    ensures NormalizeUrl(NormalizeUrl(str)) == NormalizeUrl(str)
  {
    var s := Trim(str);
    var r := NormalizeUrl(str);
    NormalizeUrlShape(str);
    TrimOfTrimmed(r);
    TrimIdempotent(str);
    BareDomainMatcherCorrect(s);
  }
}
