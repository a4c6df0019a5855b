/**
 * The request URL: the endpoint template with every `{token}` replaced by the
 * bot token and then every `{method}` by the method name, each match found
 * case-insensitively, as `String.prototype.replaceAll` with a global,
 * case-insensitive regular expression and a string replacement does it.
 */
module Endpoint {

  /** The endpoint used when the constructor is given none. */
  const DefaultEndpoint: string := "https://api.telegram.org/bot{token}/{method}"

  const DefaultHost: string := "https://api.telegram.org/bot"

  /**
   * The case-insensitive comparison of a non-Unicode regular expression:
   * characters are compared by their upper-case form. A non-ASCII character
   * whose upper-case form is ASCII keeps its own form, so for the ASCII
   * patterns used here, folding ASCII letters alone is exact.
   */
  function Fold(c: char): char {
    if 'a' <= c <= 'z' then (c as int - 32) as char else c
  }

  /** The pattern occurs at position `i` of `s`, up to case. */
  predicate MatchesAt(s: string, pat: string, i: nat) {
    i + |pat| <= |s| && forall k :: 0 <= k < |pat| ==> Fold(s[i + k]) == Fold(pat[k])
  }

  /**
   * The replacement text for a match of length `len` at `pos`: `$$` gives `$`,
   * `$&` the match, `` $` `` the text before it and `$'` the text after it.
   * The pattern has no capture groups, so every other `$` is literal.
   */
  function Expand(rep: string, s: string, pos: nat, len: nat): (r: string)
    requires pos + len <= |s|
    ensures '$' !in rep ==> r == rep
    decreases |rep|
  {
    if rep == [] then []
    else if rep[0] == '$' && |rep| >= 2 && rep[1] == '$' then "$" + Expand(rep[2..], s, pos, len)
    else if rep[0] == '$' && |rep| >= 2 && rep[1] == '&' then s[pos..pos + len] + Expand(rep[2..], s, pos, len)
    else if rep[0] == '$' && |rep| >= 2 && rep[1] == '`' then s[..pos] + Expand(rep[2..], s, pos, len)
    else if rep[0] == '$' && |rep| >= 2 && rep[1] == '\'' then s[pos + len..] + Expand(rep[2..], s, pos, len)
    else [rep[0]] + Expand(rep[1..], s, pos, len)
  }

  /**
   * `s.replaceAll(/pat/gi, rep)` from position `i` on: the leftmost match is
   * replaced and the scan resumes after it; other characters are copied.
   */
  function ReplaceAllFrom(s: string, pat: string, rep: string, i: nat): string
    requires pat != [] && i <= |s|
    decreases |s| - i
  {
    if i == |s| then []
    else if MatchesAt(s, pat, i) then Expand(rep, s, i, |pat|) + ReplaceAllFrom(s, pat, rep, i + |pat|)
    else [s[i]] + ReplaceAllFrom(s, pat, rep, i + 1)
  }

  function ReplaceAll(s: string, pat: string, rep: string): string
    requires pat != []
  {
    ReplaceAllFrom(s, pat, rep, 0)
  }

  /** `endpoint.replaceAll(/{token}/gi, token).replaceAll(/{method}/gi, name)` */
  function Url(endpoint: string, token: string, name: string): string {
    ReplaceAll(ReplaceAll(endpoint, "{token}", token), "{method}", name)
  }

  // ----- lemmas -----

  /** A stretch of text with no `{` is copied unchanged by a scan for a pattern that starts with `{`. */
  lemma {:induction false} CopiesBraceFree(s: string, pat: string, rep: string, i: nat, j: nat)
    requires pat != [] && pat[0] == '{' && i <= j <= |s|
    requires '{' !in s[i..j]
    ensures ReplaceAllFrom(s, pat, rep, i) == s[i..j] + ReplaceAllFrom(s, pat, rep, j)
    decreases j - i
  {
    if i < j {
      assert s[i] in s[i..j];
      assert !MatchesAt(s, pat, i) by {
        assert Fold(s[i]) != Fold(pat[0]);
      }
      assert s[i + 1..j] == s[i..j][1..];
      CopiesBraceFree(s, pat, rep, i + 1, j);
      assert s[i..j] == [s[i]] + s[i + 1..j];
    }
  }

  /** Scanning the tail of `a + b` is scanning `b`, when the replacement has no `$` pattern. */
  lemma {:induction false} ScanSuffix(a: string, b: string, pat: string, rep: string, i: nat)
    requires pat != [] && i <= |b| && '$' !in rep
    ensures ReplaceAllFrom(a + b, pat, rep, |a| + i) == ReplaceAllFrom(b, pat, rep, i)
    decreases |b| - i
  {
    if i < |b| {
      if MatchesAt(b, pat, i) {
        ScanSuffix(a, b, pat, rep, i + |pat|);
        SuffixMatch(a, b, pat, rep, i);
      } else {
        ScanSuffix(a, b, pat, rep, i + 1);
        SuffixCopy(a, b, pat, rep, i);
      }
    } else {
      assert |a| + i == |a + b|;
    }
  }

  lemma SuffixMatch(a: string, b: string, pat: string, rep: string, i: nat)
    requires pat != [] && i < |b| && '$' !in rep && MatchesAt(b, pat, i)
    requires ReplaceAllFrom(a + b, pat, rep, |a| + (i + |pat|)) == ReplaceAllFrom(b, pat, rep, i + |pat|)
    ensures ReplaceAllFrom(a + b, pat, rep, |a| + i) == ReplaceAllFrom(b, pat, rep, i)
  {
    MatchesShift(a, b, pat, i);
    ScanMatch(a + b, pat, rep, |a| + i);
    ScanMatch(b, pat, rep, i);
  }

  lemma SuffixCopy(a: string, b: string, pat: string, rep: string, i: nat)
    requires pat != [] && i < |b| && !MatchesAt(b, pat, i)
    requires ReplaceAllFrom(a + b, pat, rep, |a| + (i + 1)) == ReplaceAllFrom(b, pat, rep, i + 1)
    ensures ReplaceAllFrom(a + b, pat, rep, |a| + i) == ReplaceAllFrom(b, pat, rep, i)
  {
    MatchesShift(a, b, pat, i);
    ScanCopy(a + b, pat, rep, |a| + i);
    ScanCopy(b, pat, rep, i);
    assert (a + b)[|a| + i] == b[i];
  }

  /** At a match the scan emits the replacement and resumes after the match. */
  lemma ScanMatch(s: string, pat: string, rep: string, i: nat)
    requires pat != [] && i < |s| && '$' !in rep && MatchesAt(s, pat, i)
    ensures ReplaceAllFrom(s, pat, rep, i) == rep + ReplaceAllFrom(s, pat, rep, i + |pat|)
  {
  }

  /** Elsewhere the scan copies one character. */
  lemma ScanCopy(s: string, pat: string, rep: string, i: nat)
    requires pat != [] && i < |s| && !MatchesAt(s, pat, i)
    ensures ReplaceAllFrom(s, pat, rep, i) == [s[i]] + ReplaceAllFrom(s, pat, rep, i + 1)
  {
  }

  /** A match in the tail of `a + b` is a match in `b`. */
  lemma MatchesShift(a: string, b: string, pat: string, i: nat)
    requires i <= |b|
    ensures MatchesAt(a + b, pat, |a| + i) == MatchesAt(b, pat, i)
  {
    if i + |pat| <= |b| {
      assert forall k' :: i <= k' < i + |pat| ==> (a + b)[|a| + k'] == b[k'];
    }
  }

  /**
   * Text with no `{`, then an occurrence of the pattern in any letter case,
   * then the rest: the first part is copied, the occurrence replaced and the
   * rest scanned on its own.
   */
  lemma ReplaceFirstMatch(pre: string, found: string, post: string, pat: string, rep: string)
    requires pat != [] && pat[0] == '{' && '{' !in pre && '$' !in rep
    requires |found| == |pat| && forall k :: 0 <= k < |pat| ==> Fold(found[k]) == Fold(pat[k])
    ensures ReplaceAll(pre + found + post, pat, rep) == pre + rep + ReplaceAll(post, pat, rep)
  {
    var s := pre + found + post;
    assert s[0..|pre|] == pre;
    CopiesBraceFree(s, pat, rep, 0, |pre|);
    assert MatchesAt(s, pat, |pre|) by {
      assert forall k :: 0 <= k < |pat| ==> s[|pre| + k] == found[k];
    }
    ScanSuffix(pre + found, post, pat, rep, 0);
  }

  /** A template that is one occurrence of the pattern, in any letter case, becomes the replacement. */
  lemma WholeMatch(found: string, pat: string, rep: string)
    requires pat != [] && pat[0] == '{' && '$' !in rep
    requires |found| == |pat| && forall k :: 0 <= k < |pat| ==> Fold(found[k]) == Fold(pat[k])
    ensures ReplaceAll(found, pat, rep) == rep
  {
    ReplaceFirstMatch("", found, "", pat, rep);
    assert "" + found + "" == found;
  }

  /** `{TOKEN}` and `{Method}` are replaced too: the patterns ignore letter case. */
  lemma AnyCase(token: string, name: string)
    requires '$' !in token && '$' !in name
    ensures ReplaceAll("{TOKEN}", "{token}", token) == token
    ensures ReplaceAll("{Method}", "{method}", name) == name
  {
    WholeMatch("{TOKEN}", "{token}", token);
    WholeMatch("{Method}", "{method}", name);
  }

  /**
   * Brace-free text around a `{` that does not start a match (its next
   * character differs from the pattern's second) is copied unchanged.
   */
  lemma BraceWithoutMatch(pre: string, post: string, pat: string, rep: string)
    requires |pat| >= 2 && pat[0] == '{' && '{' !in pre && '{' !in post
    requires post != [] && Fold(post[0]) != Fold(pat[1])
    ensures ReplaceAll(pre + "{" + post, pat, rep) == pre + "{" + post
  {
    var s := pre + "{" + post;
    assert s[0..|pre|] == pre && s[|pre| + 1..|s|] == post;
    assert s[|pre|] == '{' && s[|pre| + 1] == post[0];
    assert !MatchesAt(s, pat, |pre|);
    calc {
      ReplaceAll(s, pat, rep);
      { CopiesBraceFree(s, pat, rep, 0, |pre|); }
      pre + ReplaceAllFrom(s, pat, rep, |pre|);
      { ScanCopy(s, pat, rep, |pre|); }
      pre + ("{" + ReplaceAllFrom(s, pat, rep, |pre| + 1));
      { CopiesBraceFree(s, pat, rep, |pre| + 1, |s|); }
      pre + ("{" + (post + ReplaceAllFrom(s, pat, rep, |s|)));
      pre + ("{" + post);
    }
  }

  /** The scan for `{token}` copies `/{method}`. */
  lemma MethodPartKept(token: string)
    ensures ReplaceAll("/{method}", "{token}", token) == "/{method}"
  {
    assert "/{method}" == "/" + "{" + "method}";
    BraceWithoutMatch("/", "method}", "{token}", token);
  }

  /** An endpoint with no `{` is used as it is. */
  lemma FixedEndpoint(endpoint: string, token: string, name: string)
    requires '{' !in endpoint
    ensures Url(endpoint, token, name) == endpoint
  {
    assert endpoint[0..|endpoint|] == endpoint;
    CopiesBraceFree(endpoint, "{token}", token, 0, |endpoint|);
    assert ReplaceAll(endpoint, "{token}", token) == endpoint;
    CopiesBraceFree(endpoint, "{method}", name, 0, |endpoint|);
  }

  /** The `{method}` pass over `<host><token>/{method}`. */
  lemma MethodPass(host: string, token: string, name: string)
    requires '{' !in host && '{' !in token && '$' !in name
    ensures ReplaceAll(host + token + "/{method}", "{method}", name) == host + token + "/" + name
  {
    var pre := host + token + "/";
    assert '{' !in pre;
    assert host + token + "/{method}" == pre + "{method}" + "";
    ReplaceFirstMatch(pre, "{method}", "", "{method}", name);
  }

  /** The `{token}` pass over the default endpoint. */
  lemma TokenPass(token: string)
    requires '$' !in token
    ensures ReplaceAll(DefaultEndpoint, "{token}", token) == DefaultHost + token + "/{method}"
  {
    assert DefaultEndpoint == DefaultHost + "{token}" + "/{method}";
    assert '{' !in DefaultHost;
    ReplaceFirstMatch(DefaultHost, "{token}", "/{method}", "{token}", token);
    MethodPartKept(token);
  }

  /**
   * With a token and method name free of `$`, and a token free of `{`, the
   * default endpoint gives `https://api.telegram.org/bot<token>/<method>`.
   */
  lemma DefaultUrl(token: string, name: string)
    requires '{' !in token && '$' !in token && '$' !in name
    ensures Url(DefaultEndpoint, token, name) == DefaultHost + token + "/" + name
  {
    assert '{' !in DefaultHost;
    TokenPass(token);
    MethodPass(DefaultHost, token, name);
  }
}
