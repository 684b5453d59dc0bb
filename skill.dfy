/**
 * The structural validator of SKILL.md files: the naming rule, the YAML
 * frontmatter check, the token-count warning and `validate_skill`, which
 * runs them and separates errors from warnings. File contents, existence and
 * the path's name parts are inputs; the YAML parser is an oracle.
 */
module SkillValidation {
  import opened Wrappers
  import opened Strings
  import opened Lists

  // ---------------------------------------------------------------------------
  // kebab case: `^[a-z][a-z0-9]*(-[a-z0-9]+)*$`

  predicate IsLowerOrDigit(c: char) { IsLowerAscii(c) || IsDigit(c) }

  /**
   * `[a-z0-9]*(-[a-z0-9]+)*` matches all of `t`: a letter or digit, or a
   * hyphen followed by a letter or digit, then the rest.
   */
  predicate KebabTail(t: string)
    decreases |t|
  {
    t == []
    || (IsLowerOrDigit(t[0]) && KebabTail(t[1..]))
    || (|t| >= 2 && t[0] == '-' && IsLowerOrDigit(t[1]) && KebabTail(t[2..]))
  }

  /** The pattern matches the whole of `s` (`re.fullmatch`). */
  predicate KebabMatch(s: string) {
    s != [] && IsLowerAscii(s[0]) && KebabTail(s[1..])
  }

  /**
   * What `KEBAB_CASE_RE.match(s)` accepts: without `re.MULTILINE`, `$` also
   * matches just before a newline that ends the text.
   */
  predicate KebabMatchAsWritten(s: string) {
    KebabMatch(s) || (s != [] && s[|s| - 1] == '\n' && KebabMatch(s[..|s| - 1]))
  }

  /**
   * Kebab case: a lower-case letter first, then letters, digits and
   * hyphens, where every hyphen is followed by a letter or digit (so none is
   * last and no two are adjacent).
   */
  predicate IsKebabCase(s: string) {
    && s != [] && IsLowerAscii(s[0])
    && (forall i :: 0 <= i < |s| ==> IsLowerOrDigit(s[i]) || s[i] == '-')
    && (forall i :: 0 <= i < |s| && s[i] == '-' ==> i + 1 < |s| && IsLowerOrDigit(s[i + 1]))
  }

  predicate TailShape(t: string) {
    && (forall i :: 0 <= i < |t| ==> IsLowerOrDigit(t[i]) || t[i] == '-')
    && (forall i :: 0 <= i < |t| && t[i] == '-' ==> i + 1 < |t| && IsLowerOrDigit(t[i + 1]))
  }

  lemma {:induction false} KebabTailMeaning(t: string)
    ensures KebabTail(t) <==> TailShape(t)
    decreases |t|
  {
    if t != [] {
      KebabTailMeaning(t[1..]);
      assert forall i :: 1 <= i < |t| ==> t[1..][i - 1] == t[i];
      if |t| >= 2 {
        KebabTailMeaning(t[2..]);
        assert forall i :: 2 <= i < |t| ==> t[2..][i - 2] == t[i];
      }
    }
  }

  /** The full match of the pattern is exactly kebab case. */
  lemma KebabMatchMeaning(s: string)
    ensures KebabMatch(s) <==> IsKebabCase(s)
  {
    if s != [] {
      KebabTailMeaning(s[1..]);
      assert forall i :: 1 <= i < |s| ==> s[1..][i - 1] == s[i];
    }
  }

  /** `re.match` with `$` accepts a name that ends in a newline, which is not kebab case. */
  lemma KebabMatchAsWrittenAcceptsNewline()
    ensures KebabMatchAsWritten("skill\n") && !IsKebabCase("skill\n")
  {
    assert "skill\n"[..5] == "skill";
    assert KebabTail("kill") by {
      assert "kill"[1..] == "ill" && "ill"[1..] == "ll" && "ll"[1..] == "l" && "l"[1..] == "";
    }
    assert "skill"[1..] == "kill";
    assert !IsLowerOrDigit("skill\n"[5]) && "skill\n"[5] != '-';
  }

  // ---------------------------------------------------------------------------
  // the validators

  const TokenLimit: nat := 500

  /** `_approx_tokens`: a quarter of the length, rounded down. */
  function ApproxTokens(text: string): (n: nat)
    ensures 4 * n <= |text| < 4 * n + 4
  {
    |text| / 4
  }

  const NamingTag := "naming: "
  const FrontmatterTag := "frontmatter: "
  const WarnTag := "WARN "

  /** A message: the check's tag, then the text. */
  function Tagged(tag: string, text: string): (r: string)
    ensures StartsWith(r, tag) && r[|tag|..] == text
  {
    tag + text
  }

  /** `{s!r}` for a text without quotes or backslashes. */
  function Repr(s: string): string {
    "'" + s + "'"
  }

  /** `validate_file_exists`. */
  function FileExistsErrors(path: string, found: bool): (r: seq<string>)
    ensures r == [] <==> found
  {
    if found then [] else ["file_not_found: " + path]
  }

  /** The two naming messages of `validate_naming`, as the list it builds. */
  function NamingErrors(fileName: string, dirName: string): seq<string> {
    (if fileName != "SKILL.md" then [Tagged(NamingTag, "file must be SKILL.md, got " + Repr(fileName))] else [])
    + (if !KebabMatch(dirName) then [Tagged(NamingTag, "directory must be kebab-case, got " + Repr(dirName))] else [])
  }

  /**
   * The naming messages with the directory test as `validate_naming` writes
   * it, `KEBAB_CASE_RE.match`, which lets a final newline through.
   */
  function NamingErrorsAsWritten(fileName: string, dirName: string): seq<string> {
    (if fileName != "SKILL.md" then [Tagged(NamingTag, "file must be SKILL.md, got " + Repr(fileName))] else [])
    + (if !KebabMatchAsWritten(dirName) then [Tagged(NamingTag, "directory must be kebab-case, got " + Repr(dirName))] else [])
  }

  /**
   * The two differ: as written, `SKILL.md` in the directory `skill\n` draws no
   * naming error; with the full match it draws the kebab-case error.
   */
  lemma NamingAsWrittenAcceptsNewline()
    ensures NamingErrorsAsWritten("SKILL.md", "skill\n") == []
    ensures NamingErrors("SKILL.md", "skill\n") != []
  {
    KebabMatchAsWrittenAcceptsNewline();
    KebabMatchMeaning("skill\n");
  }

  /**
   * `validate_naming`, with the file name and the directory name of the path
   * as inputs and the directory tested with the full match.
   */
  method ValidateNaming(fileName: string, dirName: string) returns (errors: seq<string>)
    ensures errors == NamingErrors(fileName, dirName)
  {
    errors := [];
    if fileName != "SKILL.md" {
      errors := errors + [Tagged(NamingTag, "file must be SKILL.md, got " + Repr(fileName))];
    }
    if !KebabMatch(dirName) {
      errors := errors + [Tagged(NamingTag, "directory must be kebab-case, got " + Repr(dirName))];
    }
  }

  /**
   * At most two naming errors, one per broken rule; none iff the file is
   * `SKILL.md` in a kebab-case directory. Each starts with `naming: `.
   */
  lemma NamingErrorsFacts(fileName: string, dirName: string)
    ensures var e := NamingErrors(fileName, dirName);
      && |e| == (if fileName != "SKILL.md" then 1 else 0) + (if IsKebabCase(dirName) then 0 else 1)
      && (e == [] <==> fileName == "SKILL.md" && IsKebabCase(dirName))
      && (forall k :: 0 <= k < |e| ==> StartsWith(e[k], NamingTag))
  {
    KebabMatchMeaning(dirName);
  }

  /** What `yaml.safe_load` makes of a value: its truth value and `str()` of it. */
  datatype YamlValue = YamlValue(truthy: bool, text: string)

  /** The outcome of `yaml.safe_load` on the frontmatter block. */
  datatype Yaml = YamlError(message: string) | Mapping(entries: map<string, YamlValue>) | NotMapping

  const RequiredKeys: seq<string> := ["name", "description"]

  /** A present value counts as filled when it is truthy and its text is not all whitespace. */
  predicate Filled(v: YamlValue) {
    v.truthy && Strip(v.text) != []
  }

  /** The message for one required key, if it is missing or empty. */
  function KeyErrors(fm: map<string, YamlValue>, key: string): (r: seq<string>)
    ensures |r| <= 1 && (r == [] <==> key in fm && Filled(fm[key]))
  {
    if key !in fm then [Tagged(FrontmatterTag, "missing required key " + Repr(key))]
    else if !Filled(fm[key]) then [Tagged(FrontmatterTag, "key " + Repr(key) + " is empty")]
    else []
  }

  /** The messages the key loop has gathered after the first `n` keys. */
  function KeysErrors(fm: map<string, YamlValue>, keys: seq<string>, n: nat): (r: seq<string>)
    requires n <= |keys|
    ensures |r| <= n
    ensures r == [] <==> forall k :: 0 <= k < n ==> keys[k] in fm && Filled(fm[keys[k]])
  {
    if n == 0 then []
    else
      var prev, e := KeysErrors(fm, keys, n - 1), KeyErrors(fm, keys[n - 1]);
      assert prev + e == [] <==> prev == [] && e == [];
      prev + e
  }

  /** `s.split(sep, maxsplit)` for a non-empty separator. */
  function SplitMax(s: string, sep: string, maxsplit: nat): (r: seq<string>)
    requires sep != []
    ensures 1 <= |r| <= maxsplit + 1
    decreases maxsplit
  {
    if maxsplit == 0 then [s]
    else match FindFrom(s, sep, 0)
      case None => [s]
      case Some(k) => [s[..k]] + SplitMax(s[k + |sep|..], sep, maxsplit - 1)
  }

  /** What `validate_frontmatter` returns for the text of the file. */
  function FrontmatterErrors(text: string, parse: string -> Yaml): seq<string> {
    if !StartsWith(text, "---") then [Tagged(FrontmatterTag, "no YAML frontmatter found (must start with ---)")]
    else
      var parts := SplitMax(text, "---", 2);
      if |parts| < 3 then [Tagged(FrontmatterTag, "unclosed YAML block (missing closing ---)")]
      else match parse(parts[1])
        case YamlError(e) => [Tagged(FrontmatterTag, "YAML parse error: " + e)]
        case NotMapping => [Tagged(FrontmatterTag, "YAML block is not a mapping")]
        case Mapping(fm) => KeysErrors(fm, RequiredKeys, |RequiredKeys|)
  }

  /** `validate_frontmatter`. */
  method ValidateFrontmatter(text: string, parse: string -> Yaml) returns (errors: seq<string>)
    ensures errors == FrontmatterErrors(text, parse)
  {
    if !StartsWith(text, "---") {
      return [Tagged(FrontmatterTag, "no YAML frontmatter found (must start with ---)")];
    }
    var parts := SplitMax(text, "---", 2);
    if |parts| < 3 {
      return [Tagged(FrontmatterTag, "unclosed YAML block (missing closing ---)")];
    }
    match parse(parts[1])
    case YamlError(e) =>
      return [Tagged(FrontmatterTag, "YAML parse error: " + e)];
    case NotMapping =>
      return [Tagged(FrontmatterTag, "YAML block is not a mapping")];
    case Mapping(fm) =>
      errors := [];
      for i := 0 to |RequiredKeys|
        invariant errors == KeysErrors(fm, RequiredKeys, i)
      {
        var key := RequiredKeys[i];
        if key !in fm {
          errors := errors + [Tagged(FrontmatterTag, "missing required key " + Repr(key))];
        } else if !Filled(fm[key]) {
          errors := errors + [Tagged(FrontmatterTag, "key " + Repr(key) + " is empty")];
        }
      }
  }

  /**
   * After a leading `---`, `split('---', 2)` has three parts exactly when a
   * second `---` follows, and the YAML block is the text between the two.
   */
  lemma SplitFrontmatter(text: string)
    requires StartsWith(text, "---")
    ensures var parts := SplitMax(text, "---", 2);
      && (|parts| == 3 <==> FindFrom(text, "---", 3).Some?)
      && (|parts| == 3 ==> parts[1] == text[3..FindFrom(text, "---", 3).value])
  {
    assert OccursAt(text, "---", 0);
    var rest := text[3..];
    FindFromShift(text, "---", 3);
    match FindFrom(rest, "---", 0)
    case None =>
    case Some(k) =>
      assert SplitMax(text, "---", 2) == [""] + SplitMax(rest, "---", 1);
      assert SplitMax(rest, "---", 1) == [rest[..k]] + SplitMax(rest[k + 3..], "---", 0);
      assert rest[..k] == text[3..3 + k];
  }

  /** Searching a suffix finds the occurrences of the whole text, shifted. */
  lemma {:induction false} FindFromShift(s: string, pat: string, d: nat)
    requires d <= |s|
    ensures FindFrom(s[d..], pat, 0).None? <==> FindFrom(s, pat, d).None?
    ensures FindFrom(s[d..], pat, 0).Some? ==> FindFrom(s, pat, d).value == d + FindFrom(s[d..], pat, 0).value
  {
    var t := s[d..];
    forall j | 0 <= j ensures OccursAt(t, pat, j) <==> OccursAt(s, pat, d + j) {
      if j + |pat| <= |t| {
        assert t[j..j + |pat|] == s[d + j..d + j + |pat|];
      }
    }
    match FindFrom(t, pat, 0)
    case None =>
      assert forall j :: d <= j ==> !OccursAt(s, pat, j) by {
        forall j | d <= j ensures !OccursAt(s, pat, j) {
          assert !OccursAt(t, pat, j - d);
        }
      }
      FindFromNone(s, pat, d);
    case Some(k) =>
      assert OccursAt(s, pat, d + k);
      forall j | d <= j < d + k ensures !OccursAt(s, pat, j) {
        assert !OccursAt(t, pat, j - d);
      }
      FindFromFirst(s, pat, d, d + k);
  }

  lemma FindFromNone(s: string, pat: string, i: nat)
    requires forall j :: i <= j ==> !OccursAt(s, pat, j)
    ensures FindFrom(s, pat, i).None?
  {
  }

  lemma FindFromFirst(s: string, pat: string, i: nat, k: nat)
    requires i <= k && OccursAt(s, pat, k) && forall j :: i <= j < k ==> !OccursAt(s, pat, j)
    ensures FindFrom(s, pat, i) == Some(k)
  {
  }

  /**
   * A text without a leading `---`, without a closing one, whose block does
   * not parse or is not a mapping gets exactly one error. A mapping gets one
   * error per required key that is missing or empty, and none iff both are
   * filled. Every message starts with `frontmatter: `.
   */
  lemma FrontmatterErrorsFacts(text: string, parse: string -> Yaml)
    ensures var e := FrontmatterErrors(text, parse);
      && (!StartsWith(text, "---") ==> |e| == 1)
      && (StartsWith(text, "---") && FindFrom(text, "---", 3).None? ==>
            e == [Tagged(FrontmatterTag, "unclosed YAML block (missing closing ---)")])
      && (StartsWith(text, "---") && FindFrom(text, "---", 3).Some? ==>
            var block := text[3..FindFrom(text, "---", 3).value];
            match parse(block)
            case Mapping(fm) =>
              |e| <= 2 && (e == [] <==> forall k :: 0 <= k < 2 ==> RequiredKeys[k] in fm && Filled(fm[RequiredKeys[k]]))
            case _ => |e| == 1)
      && (forall k :: 0 <= k < |e| ==> StartsWith(e[k], FrontmatterTag))
  {
    if StartsWith(text, "---") {
      SplitFrontmatter(text);
      var parts := SplitMax(text, "---", 2);
      if |parts| == 3 {
        match parse(parts[1])
        case Mapping(fm) =>
          KeysPrefix(fm, RequiredKeys, 2);
        case _ =>
      }
    }
  }

  lemma {:induction false} KeysPrefix(fm: map<string, YamlValue>, keys: seq<string>, n: nat)
    requires n <= |keys|
    ensures forall k :: 0 <= k < |KeysErrors(fm, keys, n)| ==> StartsWith(KeysErrors(fm, keys, n)[k], FrontmatterTag)
  {
    if n > 0 {
      KeysPrefix(fm, keys, n - 1);
      var a, b := KeysErrors(fm, keys, n - 1), KeyErrors(fm, keys[n - 1]);
      assert forall k :: 0 <= k < |b| ==> StartsWith(b[k], FrontmatterTag);
      assert forall k :: |a| <= k < |a + b| ==> (a + b)[k] == b[k - |a|];
    }
  }

  /** `validate_token_count`: a warning when the estimate reaches the limit. */
  function TokenCountWarnings(text: string): (r: seq<string>)
    ensures |r| <= 1 && (r != [] <==> |text| >= 4 * TokenLimit)
    ensures forall k :: 0 <= k < |r| ==> StartsWith(r[k], WarnTag)
  {
    var count := ApproxTokens(text);
    if count >= TokenLimit then
      [Tagged(WarnTag, "token_count: ~" + Decimal(count) + " tokens >= " + Decimal(TokenLimit) + " ideal (consider moving content to reference.md)")]
    else []
  }

  // ---------------------------------------------------------------------------
  // validate_skill

  predicate IsWarning(m: string) { StartsWith(m, WarnTag) }
  predicate IsError(m: string) { !IsWarning(m) }

  /** The result dictionary of `validate_skill`. */
  datatype Report = Report(passed: bool, errors: seq<string>, warnings: seq<string>, tokenCount: nat)

  /**
   * `validate_skill` on a path whose file exists or not, with the given
   * file name, directory name and text, and the YAML parser `parse`.
   */
  method ValidateSkill(path: string, found: bool, fileName: string, dirName: string, text: string,
                       parse: string -> Yaml) returns (r: Report)
    ensures !found ==> r == Report(false, ["file_not_found: " + path], [], 0)
    ensures found ==>
      var all := NamingErrors(fileName, dirName) + FrontmatterErrors(text, parse) + TokenCountWarnings(text);
      && r.errors == Filter(all, IsError) && r.warnings == Filter(all, IsWarning)
      && r.passed == (r.errors == []) && r.tokenCount == ApproxTokens(text)
  {
    var all: seq<string> := [];
    all := all + FileExistsErrors(path, found);
    if all != [] {
      return Report(false, all, [], 0);
    }
    var naming := ValidateNaming(fileName, dirName);
    all := all + naming;
    var frontmatter := ValidateFrontmatter(text, parse);
    all := all + frontmatter;
    all := all + TokenCountWarnings(text);
    var tokenCount := ApproxTokens(text);
    var errors := Filter(all, IsError);
    var warnings := Filter(all, IsWarning);
    assert [] + naming == naming;
    r := Report(errors == [], errors, warnings, tokenCount);
  }

  /**
   * For an existing file the errors are the naming and frontmatter
   * messages and the warnings are the token warning, so the skill passes
   * iff it is well named and its frontmatter is sound, whatever its size.
   */
  lemma ReportSplit(fileName: string, dirName: string, text: string, parse: string -> Yaml)
    ensures var n, f, t := NamingErrors(fileName, dirName), FrontmatterErrors(text, parse), TokenCountWarnings(text);
      && Filter(n + f + t, IsError) == n + f
      && Filter(n + f + t, IsWarning) == t
      && (Filter(n + f + t, IsError) == [] <==> fileName == "SKILL.md" && IsKebabCase(dirName) && f == [])
  {
    var n, f, t := NamingErrors(fileName, dirName), FrontmatterErrors(text, parse), TokenCountWarnings(text);
    NamingErrorsFacts(fileName, dirName);
    FrontmatterErrorsFacts(text, parse);
    NotWarnings(n, NamingTag);
    NotWarnings(f, FrontmatterTag);
    SplitMessages(n, f, t);
  }

  /** Filtering errors and warnings out of errors followed by warnings. */
  lemma SplitMessages(n: seq<string>, f: seq<string>, t: seq<string>)
    requires forall k :: 0 <= k < |n| ==> !IsWarning(n[k])
    requires forall k :: 0 <= k < |f| ==> !IsWarning(f[k])
    requires forall k :: 0 <= k < |t| ==> IsWarning(t[k])
    ensures Filter(n + f + t, IsError) == n + f && Filter(n + f + t, IsWarning) == t
  {
    var e := n + f;
    assert forall k :: 0 <= k < |e| ==> !IsWarning(e[k]) by {
      assert forall k :: 0 <= k < |e| ==> e[k] == if k < |n| then n[k] else f[k - |n|];
    }
    ErrorsThenWarnings(e, t);
  }

  lemma ErrorsThenWarnings(e: seq<string>, t: seq<string>)
    requires forall k :: 0 <= k < |e| ==> IsError(e[k])
    requires forall k :: 0 <= k < |t| ==> IsWarning(t[k])
    ensures Filter(e + t, IsError) == e && Filter(e + t, IsWarning) == t
  {
    KeepErrors(e, t);
    KeepWarnings(e, t);
  }

  lemma KeepErrors(e: seq<string>, t: seq<string>)
    requires forall k :: 0 <= k < |e| ==> IsError(e[k])
    requires forall k :: 0 <= k < |t| ==> IsWarning(t[k])
    ensures Filter(e + t, IsError) == e
  {
    FilterConcat(e, t, IsError);
    FilterAllOrNone(e, IsError);
    FilterAllOrNone(t, IsError);
  }

  lemma KeepWarnings(e: seq<string>, t: seq<string>)
    requires forall k :: 0 <= k < |e| ==> IsError(e[k])
    requires forall k :: 0 <= k < |t| ==> IsWarning(t[k])
    ensures Filter(e + t, IsWarning) == t
  {
    FilterConcat(e, t, IsWarning);
    FilterAllOrNone(e, IsWarning);
    FilterAllOrNone(t, IsWarning);
  }

  /** Messages that start with another prefix than `WARN ` are not warnings. */
  lemma NotWarnings(ms: seq<string>, prefix: string)
    requires prefix != [] && prefix[0] != WarnTag[0]
    requires forall k :: 0 <= k < |ms| ==> StartsWith(ms[k], prefix)
    ensures forall k :: 0 <= k < |ms| ==> !IsWarning(ms[k])
  {
    forall k | 0 <= k < |ms| ensures !IsWarning(ms[k]) {
      assert ms[k][0] == ms[k][..|prefix|][0];
    }
  }
}
