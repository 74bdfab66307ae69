/**
 * The build step that stamps the package version into the service worker:
 * `swContent.replace('__APP_VERSION__', version)`, which replaces only the
 * first occurrence and expands `$` patterns in the replacement.
 */
module UpdateVersion {
  import opened Wrappers
  import opened Text
  import ServiceWorker

  const Placeholder: string := "__APP_VERSION__"

  /** No `$` in `s` is followed by one of the characters that make it a pattern. */
  predicate NoDollarPattern(s: string) {
    forall i :: 0 <= i < |s| - 1 && s[i] == '$' ==> s[i + 1] !in "$&`'"
  }

  /**
   * GetSubstitution for a string pattern (no capture groups): `$$` is `$`,
   * `$&` the matched text, `` $` `` the text before the match, `$'` the
   * text after it; any other `$` is kept literally, so a replacement with no
   * such pattern (in particular one without `$`) is inserted verbatim.
   */
  function Substitute(replacement: string, matched: string, before: string, after: string): (r: string)
    ensures NoDollarPattern(replacement) ==> r == replacement
    ensures |replacement| >= 2 && replacement[0] == '$' && replacement[1] in "$&`'" && NoDollarPattern(replacement[2..]) ==>
      r == (if replacement[1] == '$' then "$" else if replacement[1] == '&' then matched
            else if replacement[1] == '`' then before else after) + replacement[2..]
    decreases |replacement|
  {
    if replacement == [] then []
    else if replacement[0] == '$' && |replacement| >= 2 then
      var c := replacement[1];
      var rest := Substitute(replacement[2..], matched, before, after);
      if c == '$' then "$" + rest
      else if c == '&' then matched + rest
      else if c == '`' then before + rest
      else if c == '\'' then after + rest
      else [replacement[0]] + Substitute(replacement[1..], matched, before, after)
    else [replacement[0]] + Substitute(replacement[1..], matched, before, after)
  }

  /** `s.replace(pattern, replacement)` with a string pattern: only the first occurrence is replaced. */
  function ReplaceFirst(s: string, pattern: string, replacement: string): (r: string)
    ensures !Contains(s, pattern) ==> r == s
  {
    match IndexOf(s, pattern)
    case None => s
    case Some(i) =>
      var after := s[i + |pattern|..];
      s[..i] + Substitute(replacement, pattern, s[..i], after) + after
  }

  /** The stamping step of the build script; content without the placeholder is written out unchanged. */
  function StampVersion(content: string, version: string): (r: string)
    ensures !Contains(content, Placeholder) ==> r == content
  {
    ReplaceFirst(content, Placeholder, version)
  }

  /**
   * When the placeholder occurs, the result is the text before its first
   * occurrence, then the version (one without `$`), then the text after
   * that occurrence, both verbatim; the text before holds no occurrence.
   */
  lemma StampFirstOccurrence(content: string, version: string)
    requires Contains(content, Placeholder) && '$' !in version
    ensures var i := IndexOf(content, Placeholder).value;
      && content == content[..i] + Placeholder + content[i + |Placeholder|..]
      && StampVersion(content, version) == content[..i] + version + content[i + |Placeholder|..]
      && forall j: nat :: j < i ==> !OccursAt(content, Placeholder, j)
  {
    var i := IndexOf(content, Placeholder).value;
    var before, after := content[..i], content[i + |Placeholder|..];
    assert NoDollarPattern(version);
    assert StampVersion(content, version) == before + version + after;
    SplitAround(content, Placeholder, i);
  }

  /** A string is the text before an occurrence, the occurrence, and the text after it. */
  lemma SplitAround(s: string, pat: string, i: nat)
    requires OccursAt(s, pat, i)
    ensures s == s[..i] + pat + s[i + |pat|..]
  {
    assert s == s[..i] + s[i..i + |pat|] + s[i + |pat|..];
  }

  /** A second occurrence of the placeholder survives stamping, shifted by the change in length. */
  lemma LaterOccurrenceSurvives(content: string, version: string, j: nat)
    requires Contains(content, Placeholder) && '$' !in version
    requires var i := IndexOf(content, Placeholder).value; i + |Placeholder| <= j && OccursAt(content, Placeholder, j)
    ensures var i := IndexOf(content, Placeholder).value;
      OccursAt(StampVersion(content, version), Placeholder, j - |Placeholder| + |version|)
  {
    var i := IndexOf(content, Placeholder).value;
    var before, after := content[..i], content[i + |Placeholder|..];
    var m := j - i - |Placeholder|;
    assert StampVersion(content, version) == (before + version) + after by {
      StampFirstOccurrence(content, version);
    }
    assert OccursAt(after, Placeholder, m) by {
      OccursAfterDrop(content, Placeholder, i + |Placeholder|, j);
    }
    OccursAfterPrefix(before + version, after, Placeholder, m);
    assert |before + version| + m == j - |Placeholder| + |version|;
  }

  /** An occurrence at or after `d` is an occurrence in `s[d..]`. */
  lemma OccursAfterDrop(s: string, pat: string, d: nat, j: nat)
    requires d <= j && OccursAt(s, pat, j)
    ensures OccursAt(s[d..], pat, j - d)
  {
    assert s[d..][j - d..j - d + |pat|] == s[j..j + |pat|];
  }

  /** An occurrence in `b` is an occurrence in `a + b`, shifted by `|a|`. */
  lemma OccursAfterPrefix(a: string, b: string, pat: string, m: nat)
    requires OccursAt(b, pat, m)
    ensures OccursAt(a + b, pat, |a| + m)
  {
    assert (a + b)[|a| + m..|a| + m + |pat|] == b[m..m + |pat|];
  }

  /** Line 2 of the service worker template, split around its placeholder. */
  const TemplateHead: string := "const APP_VERSION = '"
  const TemplateTail: string := "';"

  function TemplateLine(): string {
    TemplateHead + Placeholder + TemplateTail
  }

  /** The placeholder first occurs in the template line right after the opening quote. */
  lemma TemplatePlaceholderIndex()
    ensures IndexOf(TemplateLine(), Placeholder) == Some(|TemplateHead|)
  {
    var line := TemplateLine();
    assert |TemplateHead| == 21;
    assert OccursAt(line, Placeholder, 21) by { assert line[21..36] == Placeholder; }
    forall j: nat | j < 21 ensures !OccursAt(line, Placeholder, j) {
      if j == 9 {
        assert line[j + 1] != Placeholder[1];
      } else if j + 15 <= |line| {
        assert line[j] != Placeholder[0];
      }
    }
    assert Contains(line, Placeholder);
    var k := IndexOf(line, Placeholder).value;
    assert k <= 21;
  }

  /** Stamping the template line with a version without `$` gives the line that sets `APP_VERSION` to it. */
  lemma StampTemplate(version: string)
    requires '$' !in version
    ensures StampVersion(TemplateLine(), version) == TemplateHead + version + TemplateTail
  {
    TemplatePlaceholderIndex();
    var line := TemplateLine();
    assert NoDollarPattern(version);
    assert line[..21] == TemplateHead && line[36..] == TemplateTail;
  }

  /**
   * The whole worker script: whatever precedes the version line (when it has
   * no placeholder of its own) and whatever follows it, stamping replaces
   * exactly the placeholder in that line and leaves the rest verbatim.
   */
  lemma StampWorkerScript(prefix: string, suffix: string, version: string)
    requires !Contains(prefix, Placeholder) && '$' !in version
    ensures StampVersion(prefix + TemplateLine() + suffix, version)
      == prefix + TemplateHead + version + TemplateTail + suffix
  {
    var before, after := prefix + TemplateHead, TemplateTail + suffix;
    assert prefix + TemplateLine() + suffix == before + Placeholder + after;
    ScriptPlaceholderIndex(prefix, suffix);
    assert NoDollarPattern(version);
    ReplaceAtFirst(before, Placeholder, after, version);
  }

  /** Replacing the first occurrence, when it sits right after `a`, swaps it for the substitution. */
  lemma ReplaceAtFirst(a: string, pat: string, b: string, replacement: string)
    requires IndexOf(a + pat + b, pat) == Some(|a|) && NoDollarPattern(replacement)
    ensures ReplaceFirst(a + pat + b, pat, replacement) == a + replacement + b
  {
    var s := a + pat + b;
    assert s[..|a|] == a && s[|a| + |pat|..] == b;
  }

  /** In the whole script, the placeholder first occurs inside the version line. */
  lemma ScriptPlaceholderIndex(prefix: string, suffix: string)
    requires !Contains(prefix, Placeholder)
    ensures IndexOf(prefix + TemplateLine() + suffix, Placeholder) == Some(|prefix| + |TemplateHead|)
  {
    TemplatePlaceholderIndex();
    var line := TemplateLine();
    assert line[0] == 'c' && 'c' !in Placeholder;
    FirstOccurrenceInMiddle(prefix, line, suffix, Placeholder, |TemplateHead|);
  }

  /**
   * When `a` has no occurrence, no occurrence can run from `a` into `b`
   * (`b` starts with a character the pattern lacks) and the first one in `b`
   * is at `k` (the one `indexOf` finds in `b`), the first one in `a + b + c` is at `|a| + k`.
   */
  lemma FirstOccurrenceInMiddle(a: string, b: string, c: string, pat: string, k: nat)
    requires !Contains(a, pat) && OccursAt(b, pat, k) && forall m: nat :: m < k ==> !OccursAt(b, pat, m)
    requires b != [] && b[0] !in pat
    ensures IndexOf(a + b + c, pat) == Some(|a| + k)
  {
    var s := a + b + c;
    NoneBefore(a, b, c, pat, k);
    OccursInMiddle(a, b, c, pat, k);
    IndexOfIs(s, pat, |a| + k);
  }

  /** No occurrence in `a + b + c` starts before `|a| + k`. */
  lemma NoneBefore(a: string, b: string, c: string, pat: string, k: nat)
    requires !Contains(a, pat) && forall m: nat :: m < k ==> !OccursAt(b, pat, m)
    requires b != [] && b[0] !in pat && k + |pat| <= |b|
    ensures forall j: nat :: j < |a| + k ==> !OccursAt(a + b + c, pat, j)
  {
    forall j: nat | j < |a| + k ensures !OccursAt(a + b + c, pat, j) {
      NoOccurrenceBefore(a, b, c, pat, k, j);
    }
  }

  /** The case split behind `FirstOccurrenceInMiddle`, for one start position `j`. */
  lemma NoOccurrenceBefore(a: string, b: string, c: string, pat: string, k: nat, j: nat)
    requires j + |pat| <= |a| ==> !OccursAt(a, pat, j)
    requires |a| <= j ==> !OccursAt(b, pat, j - |a|)
    requires b != [] && b[0] !in pat && k + |pat| <= |b| && j < |a| + k
    ensures !OccursAt(a + b + c, pat, j)
  {
    if j + |pat| <= |a| {
      InPrefix(a, b + c, pat, j);
      assert a + (b + c) == a + b + c;
    } else if j < |a| {
      Straddle(a, b, c, pat, j);
    } else {
      InMiddle(a, b, c, pat, j - |a|);
    }
  }

  /** Inside `a`, an occurrence in `a + rest` is one in `a`. */
  lemma InPrefix(a: string, rest: string, pat: string, j: nat)
    requires j + |pat| <= |a| && !OccursAt(a, pat, j)
    ensures !OccursAt(a + rest, pat, j)
  {
    assert (a + rest)[j..j + |pat|] == a[j..j + |pat|];
  }

  /** Inside `b`, an occurrence in `a + b + c` is one in `b`. */
  lemma InMiddle(a: string, b: string, c: string, pat: string, m: nat)
    requires m + |pat| <= |b| && !OccursAt(b, pat, m)
    ensures !OccursAt(a + b + c, pat, |a| + m)
  {
    OccursInMiddle(a, b, c, pat, m);
  }

  /** An occurrence starting in `a` and running into `b` would contain `b[0]`. */
  lemma Straddle(a: string, b: string, c: string, pat: string, j: nat)
    requires b != [] && b[0] !in pat && j < |a| < j + |pat|
    ensures !OccursAt(a + b + c, pat, j)
  {
    var s := a + b + c;
    if j + |pat| <= |s| {
      assert s[j..j + |pat|][|a| - j] == b[0];
    }
  }

  /** An occurrence inside the middle part of `a + b + c` is an occurrence in `b`, and back. */
  lemma OccursInMiddle(a: string, b: string, c: string, pat: string, m: nat)
    requires m + |pat| <= |b|
    ensures OccursAt(a + b + c, pat, |a| + m) <==> OccursAt(b, pat, m)
  {
    assert (a + b + c)[|a| + m..|a| + m + |pat|] == b[m..m + |pat|];
  }
}
