/**
  The two string predicates of the validator: the `X.Y.Z` version pattern and
  the absolute-URL test built on the scheme/authority split of `urlparse`
  (section 3 of RFC 3986), plus Python's notion of a blank string.
 */
module Predicates {

  predicate IsDigit(c: char)
  {
    '0' <= c <= '9'
  }

  predicate AllDigits(s: string)
  {
    forall k :: 0 <= k < |s| ==> IsDigit(s[k])
  }

  /** The end of the longest run of digits that starts at position `i` (greedy `\d+`). */
  function DigitRunEnd(s: string, i: nat): (e: nat)
    requires i <= |s|
    ensures i <= e <= |s|
    ensures forall k :: i <= k < e ==> IsDigit(s[k])
    ensures e < |s| ==> !IsDigit(s[e])
    decreases |s| - i
  {
    if i < |s| && IsDigit(s[i]) then DigitRunEnd(s, i + 1) else i
  }

  /**
    `re.match(r'^\d+\.\d+\.\d+$', s)`: three digit runs, each ended by the
    next character, with a dot after the first two and the end of the string
    after the third. Digits never match a dot, so the greedy runs are the only
    way the pattern can match.
   */
  predicate ValidVersion(s: string)
  {
    var e1 := DigitRunEnd(s, 0);
    0 < e1 < |s| && s[e1] == '.' &&
    var e2 := DigitRunEnd(s, e1 + 1);
    e1 + 1 < e2 < |s| && s[e2] == '.' &&
    var e3 := DigitRunEnd(s, e2 + 1);
    e2 + 1 < e3 == |s|
  }

  /** `s` is the version `major.minor.patch`, each part a non-empty run of digits. */
  predicate VersionParts(s: string, major: string, minor: string, patch: string)
  {
    major != [] && minor != [] && patch != [] &&
    AllDigits(major) && AllDigits(minor) && AllDigits(patch) &&
    s == major + "." + minor + "." + patch
  }

  /** A digit run that is followed by a non-digit or the end is where DigitRunEnd stops. */
  lemma DigitRunEndAt(s: string, i: nat, j: nat)
    requires i <= j <= |s|
    requires forall k :: i <= k < j ==> IsDigit(s[k])
    requires j < |s| ==> !IsDigit(s[j])
    ensures DigitRunEnd(s, i) == j
  {
  }

  /** A string the pattern accepts splits at its two dots into three digit runs. */
  lemma ValidVersionHasParts(s: string)
    requires ValidVersion(s)
    ensures exists major, minor, patch :: VersionParts(s, major, minor, patch)
  {
    var e1 := DigitRunEnd(s, 0);
    var e2 := DigitRunEnd(s, e1 + 1);
    var major, minor, patch := s[..e1], s[e1 + 1..e2], s[e2 + 1..];
    assert AllDigits(major) && AllDigits(minor) && AllDigits(patch);
    assert s == major + "." + minor + "." + patch;
    assert VersionParts(s, major, minor, patch);
  }

  /** Three digit runs joined by two dots are accepted by the pattern. */
  lemma PartsAreValidVersion(s: string, major: string, minor: string, patch: string)
    requires VersionParts(s, major, minor, patch)
    ensures ValidVersion(s)
  {
    var e1, e2 := |major|, |major| + 1 + |minor|;
    assert |s| == e2 + 1 + |patch|;
    assert s[e1] == '.' && s[e2] == '.';
    forall k | 0 <= k < e1 ensures IsDigit(s[k]) {
      assert s[k] == major[k];
    }
    DigitRunEndAt(s, 0, e1);
    forall k | e1 + 1 <= k < e2 ensures IsDigit(s[k]) {
      assert s[k] == minor[k - e1 - 1];
    }
    DigitRunEndAt(s, e1 + 1, e2);
    forall k | e2 + 1 <= k < |s| ensures IsDigit(s[k]) {
      assert s[k] == patch[k - e2 - 1];
    }
    DigitRunEndAt(s, e2 + 1, |s|);
  }

  /** The version pattern holds exactly of three non-empty digit runs joined by two dots. */
  lemma ValidVersionIff(s: string)
    ensures ValidVersion(s) <==> exists major, minor, patch :: VersionParts(s, major, minor, patch)
  {
    if ValidVersion(s) {
      ValidVersionHasParts(s);
    }
    if exists major, minor, patch :: VersionParts(s, major, minor, patch) {
      var major, minor, patch :| VersionParts(s, major, minor, patch);
      PartsAreValidVersion(s, major, minor, patch);
    }
  }

  // The example lemmas take their inputs as parameters fixed by `requires`:
  // given a literal argument, the verifier would unfold the recursive definitions eagerly.
  /** Versions the pattern accepts, leading zeros included. */
  lemma VersionsAccepted(plain: string, zeros: string, padded: string)
    requires plain == "1.2.3" && zeros == "0.0.1" && padded == "01.2.3"
    ensures ValidVersion(plain) && ValidVersion(zeros) && ValidVersion(padded)
  {
    PartsAreValidVersion(plain, "1", "2", "3");
    PartsAreValidVersion(zeros, "0", "0", "1");
    PartsAreValidVersion(padded, "01", "2", "3");
  }

  /** Versions the pattern rejects: too few parts, a prefix, a pre-release suffix, nothing. */
  lemma VersionsRejected(short: string, prefixed: string, suffixed: string)
    requires short == "1.2" && prefixed == "v1.2.3" && suffixed == "1.2.3-beta"
    ensures !ValidVersion(short) && !ValidVersion(prefixed) && !ValidVersion(suffixed)
    ensures !ValidVersion("")
  {
    DigitRunEndAt(short, 0, 1);
    DigitRunEndAt(short, 2, 3);
    DigitRunEndAt(prefixed, 0, 0);
    DigitRunEndAt(suffixed, 0, 1);
    DigitRunEndAt(suffixed, 2, 3);
    DigitRunEndAt(suffixed, 4, 5);
  }

  // ---------------------------------------------------------------------------
  // Blank strings

  /** Python's `str.isspace` for one character: the characters `str.strip()` removes. */
  predicate IsPyWhitespace(c: char)
  {
    ('\t' <= c <= '\r') || ('\U{1C}' <= c <= ' ') || c == '\U{85}' || c == '\U{A0}' ||
    c == '\U{1680}' || ('\U{2000}' <= c <= '\U{200A}') || c == '\U{2028}' || c == '\U{2029}' ||
    c == '\U{202F}' || c == '\U{205F}' || c == '\U{3000}'
  }

  /** `not s.strip()`: the string is empty once its surrounding whitespace is removed. */
  predicate IsBlank(s: string)
  {
    forall k :: 0 <= k < |s| ==> IsPyWhitespace(s[k])
  }

  /** A blank string never matches the version pattern. */
  lemma BlankIsNoVersion(s: string)
    requires IsBlank(s)
    ensures !ValidVersion(s)
  {
    if s != [] {
      assert !IsDigit(s[0]);
    }
  }

  // ---------------------------------------------------------------------------
  // URLs

  /** The characters `urlsplit` strips from the front of a URL (C0 controls and space). */
  predicate IsC0OrSpace(c: char)
  {
    c <= ' '
  }

  /** The characters `urlsplit` deletes wherever they occur: tab, carriage return, line feed. */
  predicate IsUnsafe(c: char)
  {
    c == '\t' || c == '\r' || c == '\n'
  }

  predicate IsAsciiAlpha(c: char)
  {
    ('a' <= c <= 'z') || ('A' <= c <= 'Z')
  }

  /** `urllib.parse.scheme_chars`. */
  predicate IsSchemeChar(c: char)
  {
    IsAsciiAlpha(c) || IsDigit(c) || c == '+' || c == '-' || c == '.'
  }

  predicate IsColon(c: char)
  {
    c == ':'
  }

  /** The characters that end the network location: path, query and fragment delimiters. */
  predicate IsNetlocDelimiter(c: char)
  {
    c == '/' || c == '?' || c == '#'
  }

  /** `s.lstrip(_WHATWG_C0_CONTROL_OR_SPACE)`. */
  function StripLeading(s: string): string
  {
    if s != [] && IsC0OrSpace(s[0]) then StripLeading(s[1..]) else s
  }

  /** `s` with every tab, carriage return and line feed removed. */
  function RemoveUnsafe(s: string): string
  {
    if s == [] then []
    else if IsUnsafe(s[0]) then RemoveUnsafe(s[1..])
    else [s[0]] + RemoveUnsafe(s[1..])
  }

  /** The URL as `urlsplit` sees it after its two clean-up steps. */
  function Clean(s: string): string
  {
    RemoveUnsafe(StripLeading(s))
  }

  /** The first position at or after `from` whose character satisfies `p`, or `|s|`. */
  function FindFrom(s: string, from: nat, p: char -> bool): (i: nat)
    requires from <= |s|
    ensures from <= i <= |s|
    decreases |s| - from
  {
    if from == |s| || p(s[from]) then from else FindFrom(s, from + 1, p)
  }

  /** FindFrom stops at the first character satisfying `p`, or at the end. */
  lemma {:induction false} FindFromFirst(s: string, from: nat, p: char -> bool)
    requires from <= |s|
    ensures var i := FindFrom(s, from, p);
            (i < |s| ==> p(s[i])) && forall k :: from <= k < i ==> !p(s[k])
    decreases |s| - from
  {
    if from < |s| && !p(s[from]) {
      FindFromFirst(s, from + 1, p);
    }
  }

  /**
    The length of the scheme `urlsplit` finds in a cleaned URL, or 0 when it
    finds none: the text before the first `:` is the scheme when it is
    non-empty, starts with an ASCII letter and holds only scheme characters.
   */
  function SchemeLength(u: string): (n: nat)
    ensures n <= |u|
    ensures n > 0 ==> n < |u|
  {
    var i := FindFrom(u, 0, IsColon);
    if 0 < i < |u| && IsAsciiAlpha(u[0]) && (forall k :: 0 <= k < i ==> IsSchemeChar(u[k])) then i else 0
  }

  /**
    The network location of what follows the scheme: after a leading `//`,
    everything up to the first `/`, `?` or `#`; empty without the `//`.
   */
  function Netloc(rest: string): string
  {
    if |rest| >= 2 && rest[0] == '/' && rest[1] == '/'
    then rest[2..FindFrom(rest, 2, IsNetlocDelimiter)]
    else []
  }

  /** `urlsplit` raises `ValueError` when a network location has a lone `[` or a lone `]`. */
  predicate UnbalancedBrackets(netloc: string)
  {
    ('[' in netloc && ']' !in netloc) || (']' in netloc && '[' !in netloc)
  }

  /** A cleaned URL whose split has a scheme and a network location, and does not raise. */
  predicate HasSchemeAndNetloc(u: string)
  {
    var n := SchemeLength(u);
    n > 0 && var netloc := Netloc(u[n + 1..]); netloc != [] && !UnbalancedBrackets(netloc)
  }

  /**
    `validate_url`: `urlparse` succeeds and both the scheme and the network
    location are non-empty. A raised `ValueError` is caught and reads as false,
    so the predicate is total.
   */
  predicate ValidUrl(s: string)
  {
    HasSchemeAndNetloc(Clean(s))
  }

  /**
    An absolute URL, stated without `urlsplit`'s search: a scheme at positions
    `[0, i)`, then `://`, then a non-empty authority at `[i + 3, j)` that holds
    no delimiter and is ended by one or by the end of the string.
   */
  predicate AbsoluteUrlAt(u: string, i: nat, j: nat)
  {
    0 < i && i + 3 < j <= |u| &&
    IsAsciiAlpha(u[0]) && (forall k :: 0 <= k < i ==> IsSchemeChar(u[k])) &&
    u[i] == ':' && u[i + 1] == '/' && u[i + 2] == '/' &&
    (forall k :: i + 3 <= k < j ==> !IsNetlocDelimiter(u[k])) &&
    (j < |u| ==> IsNetlocDelimiter(u[j])) &&
    !UnbalancedBrackets(u[i + 3..j])
  }

  /** The first position of a character is where FindFrom stops. */
  lemma {:induction false} FindFromAt(s: string, from: nat, p: char -> bool, i: nat)
    requires from <= i <= |s|
    requires i < |s| ==> p(s[i])
    requires forall k :: from <= k < i ==> !p(s[k])
    ensures FindFrom(s, from, p) == i
    decreases i - from
  {
    if from < i {
      FindFromAt(s, from + 1, p, i);
    }
  }

  lemma SplitIsAbsolute(u: string)
    requires HasSchemeAndNetloc(u)
    ensures exists i, j :: AbsoluteUrlAt(u, i, j)
  {
    var i := SchemeLength(u);
    FindFromFirst(u, 0, IsColon);
    var rest := u[i + 1..];
    var d := FindFrom(rest, 2, IsNetlocDelimiter);
    FindFromFirst(rest, 2, IsNetlocDelimiter);
    var j := i + 1 + d;
    forall k | i + 3 <= k < j ensures !IsNetlocDelimiter(u[k]) {
      assert u[k] == rest[k - i - 1];
    }
    assert u[i + 3..j] == rest[2..d];
    assert AbsoluteUrlAt(u, i, j);
  }

  lemma AbsoluteSplits(u: string, i: nat, j: nat)
    requires AbsoluteUrlAt(u, i, j)
    ensures HasSchemeAndNetloc(u)
  {
    FindFromAt(u, 0, IsColon, i);
    assert SchemeLength(u) == i;
    var rest := u[i + 1..];
    forall k | 2 <= k < j - i - 1 ensures !IsNetlocDelimiter(rest[k]) {
      assert rest[k] == u[k + i + 1];
    }
    FindFromAt(rest, 2, IsNetlocDelimiter, j - i - 1);
    assert Netloc(rest) == u[i + 3..j];
  }

  /** `validate_url` holds exactly when the cleaned URL has the shape scheme `://` authority. */
  lemma ValidUrlIff(s: string)
    ensures ValidUrl(s) <==> exists i, j :: AbsoluteUrlAt(Clean(s), i, j)
  {
    var u := Clean(s);
    if HasSchemeAndNetloc(u) {
      SplitIsAbsolute(u);
    }
    if exists i, j :: AbsoluteUrlAt(u, i, j) {
      var i, j :| AbsoluteUrlAt(u, i, j);
      AbsoluteSplits(u, i, j);
    }
  }

  /** Stripping the front of a string leaves one of its suffixes. */
  lemma {:induction false} StripLeadingIsSuffix(s: string)
    ensures |StripLeading(s)| <= |s| && StripLeading(s) == s[|s| - |StripLeading(s)|..]
  {
    if s != [] && IsC0OrSpace(s[0]) {
      StripLeadingIsSuffix(s[1..]);
    }
  }

  /** Every character left after the removal comes from the original string. */
  lemma {:induction false} RemoveUnsafeDrawsFrom(s: string, k: nat)
    requires k < |RemoveUnsafe(s)|
    ensures RemoveUnsafe(s)[k] in s
  {
    if IsUnsafe(s[0]) {
      RemoveUnsafeDrawsFrom(s[1..], k);
    } else if k > 0 {
      RemoveUnsafeDrawsFrom(s[1..], k - 1);
    }
  }

  /** A blank string holds no `:`, so it never has a scheme and is never a valid URL. */
  lemma BlankIsNoUrl(s: string)
    requires IsBlank(s)
    ensures !ValidUrl(s)
  {
    var u := Clean(s);
    StripLeadingIsSuffix(s);
    forall k | 0 <= k < |u| ensures !IsColon(u[k]) {
      RemoveUnsafeDrawsFrom(StripLeading(s), k);
    }
    FindFromAt(u, 0, IsColon, |u|);
  }

  /** A URL with no leading control character or space and no tab or line break is left as it is. */
  lemma {:induction false} CleanKeeps(s: string)
    requires s == [] || !IsC0OrSpace(s[0])
    requires forall k :: 0 <= k < |s| ==> !IsUnsafe(s[k])
    ensures Clean(s) == s
  {
    RemoveUnsafeKeeps(s);
  }

  lemma {:induction false} RemoveUnsafeKeeps(s: string)
    requires forall k :: 0 <= k < |s| ==> !IsUnsafe(s[k])
    ensures RemoveUnsafe(s) == s
  {
    if s != [] {
      RemoveUnsafeKeeps(s[1..]);
    }
  }

  // The example lemmas take their inputs as parameters fixed by `requires`:
  // given a literal argument, the verifier would unfold the recursive definitions eagerly.
  /** `https://example.com/x` splits into a scheme and a network location. */
  lemma ExampleIsAbsolute(u: string)
    requires u == "https://example.com/x"
    ensures HasSchemeAndNetloc(u)
  {
    assert AbsoluteUrlAt(u, 5, 19);
    AbsoluteSplits(u, 5, 19);
  }

  /** An absolute URL with a path passes. */
  lemma UrlAccepted(u: string)
    requires u == "https://example.com/x"
    ensures ValidUrl(u)
  {
    CleanKeeps(u);
    ExampleIsAbsolute(u);
  }

  /** A bare host has no scheme and fails. */
  lemma BareHostRejected(v: string)
    requires v == "example.com"
    ensures !ValidUrl(v)
  {
    CleanKeeps(v);
    FindFromAt(v, 0, IsColon, |v|);
  }

  /** The empty string fails. */
  lemma EmptyUrlRejected()
    ensures !ValidUrl("")
  {
    CleanKeeps("");
  }

  lemma UnclosedBracketSplit(u: string)
    requires u == "https://[::1/x"
    ensures !HasSchemeAndNetloc(u)
  {
    FindFromAt(u, 0, IsColon, 5);
    assert SchemeLength(u) == 5;
    var rest := u[6..];
    assert rest == "//[::1/x";
    FindFromAt(rest, 2, IsNetlocDelimiter, 6);
    assert Netloc(rest) == rest[2..6] == "[::1";
    assert UnbalancedBrackets(Netloc(rest)) by {
      assert Netloc(rest)[0] == '[';
    }
  }

  /** An opening bracket without a closing one makes `urlsplit` raise, which reads as false. */
  lemma UnclosedBracketRejected(u: string)
    requires u == "https://[::1/x"
    ensures !ValidUrl(u)
  {
    CleanKeeps(u);
    UnclosedBracketSplit(u);
  }
}
