/**
 * The anonymizer: strategy selection, the memoizing tokenizer, the span
 * rewriting of `anonymize_text`, and the audit-log bookkeeping of
 * `anonymize_file`.
 */
module Anonymize {
  import opened Wrappers
  import opened Strings
  import opened Lists
  import opened Sorting
  import opened Entities
  import opened Splicing
  import opened Masking
  import Detect

  // ---------------------------------------------------------------------------
  // what the anonymizer draws from outside

  predicate IsHexDigit(c: char) { '0' <= c <= '9' || 'a' <= c <= 'f' }

  /** What `secrets.token_hex(4)` returns: eight lower-case hexadecimal digits. */
  predicate IsHex8(s: string) {
    |s| == 8 && forall i :: 0 <= i < 8 ==> IsHexDigit(s[i])
  }

  type Hex8 = s: string | IsHex8(s) witness "00000000"

  /** The form of every token `_tokenize` hands out: `TKN_` and eight hex digits. */
  predicate IsToken(t: string) {
    |t| == 12 && t[..4] == "TKN_" && IsHex8(t[4..])
  }

  /**
   * The values the anonymizer takes from libraries this model leaves out:
   * the SHA-256 hex digest of a text; the value of the n-th Faker draw made by
   * one anonymizer, for an entity of a given type and text; and the hex
   * string of the n-th `secrets.token_hex(4)` call made by one anonymizer.
   * Indexing the draws keeps two draws for the same text independent.
   */
  datatype Oracle = Oracle(digest: string -> string, fake: (nat, string, string) -> string, hex: nat -> Hex8)

  // ---------------------------------------------------------------------------
  // choosing a strategy

  /** `MIXED_STRATEGY_MAP`. */
  const MixedStrategyMap: map<string, string> := map["high" := "hash", "medium" := "pseudo", "low" := "pseudo"]

  /**
   * `MIXED_STRATEGY_MAP.get(severity, 'pseudo')`: hashing for high severity,
   * pseudonyms for every other severity, known or not.
   */
  function MixedStrategy(severity: string): (s: string)
    ensures s == "hash" <==> severity == "high"
    ensures s == "pseudo" <==> severity != "high"
  {
    if severity in MixedStrategyMap then MixedStrategyMap[severity] else "pseudo"
  }

  /** The `effective_strategy` of one entity. */
  function EffectiveStrategy(configured: string, severity: string): string {
    if configured == "mixed" then MixedStrategy(severity) else configured
  }

  /** Whether `_apply_strategy` under `strategy` draws from Faker for an entity of type `kind`. */
  predicate DrawsFake(strategy: string, kind: string) {
    strategy == "pseudo" && kind != "DEPARTMENT"
  }

  // ---------------------------------------------------------------------------
  // the percentage exception of `_pseudonymize` (the HEADCOUNT overflow is not modelled)

  /** The exception `float()` raises on a text that is not a number. */
  const ValueError := "ValueError"

  /** A character of the class `[\d.]`. */
  predicate IsPctChar(c: char) { IsDigit(c) || c == '.' }

  /** Where `re.search(r'[\d.]+', text)` finds its match: the first digit or dot, or the end. */
  function PctStart(text: string): (i: nat)
    ensures i <= |text|
    ensures forall j :: 0 <= j < i ==> !IsPctChar(text[j])
    ensures i < |text| ==> IsPctChar(text[i])
  {
    if text == [] || IsPctChar(text[0]) then 0 else 1 + PctStart(text[1..])
  }

  /**
   * `re.search(r'[\d.]+', text).group(0)`: the first maximal run of digits
   * and dots, or none when the text has neither.
   */
  function PctRun(text: string): Option<string> {
    var i := PctStart(text);
    if i == |text| then None else Some(text[i..i + RunLength(text[i..], IsPctChar)])
  }

  /**
   * What `PctRun` finds is the leftmost match of `[\d.]+`: a non-empty run
   * of digits and dots at the first such character, which the next character
   * does not continue; and nothing exactly when the text has no digit or dot.
   */
  lemma PctRunMeaning(text: string)
    ensures PctRun(text).None? <==> forall j :: 0 <= j < |text| ==> !IsPctChar(text[j])
    ensures PctRun(text).Some? ==> var run, i := PctRun(text).value, PctStart(text);
      && 0 < |run| && i + |run| <= |text| && text[i..i + |run|] == run
      && (forall c :: c in run ==> IsPctChar(c))
      && (forall j :: 0 <= j < i ==> !IsPctChar(text[j]))
      && (i + |run| == |text| || !IsPctChar(text[i + |run|]))
  {
    var i := PctStart(text);
    if i < |text| {
      var n := RunLength(text[i..], IsPctChar);
      assert IsPctChar(text[i..][0]);
      assert text[i..i + n] == text[i..][..n];
    }
  }

  /** The leading run of a text that starts with `n` digits or dots and then something else. */
  lemma PctRunOfPrefix(text: string, n: nat)
    requires 0 < n <= |text|
    requires forall j :: 0 <= j < n ==> IsPctChar(text[j])
    requires n == |text| || !IsPctChar(text[n])
    ensures PctRun(text) == Some(text[..n])
  {
    assert PctStart(text) == 0;
  }

  /** Whether a text holds an ASCII digit. */
  predicate HasDigit(s: string) {
    s != [] && (IsDigit(s[0]) || HasDigit(s[1..]))
  }

  /** Whether `float()` accepts a run of digits and dots: some digit, and at most one dot. */
  predicate FloatParses(run: string) {
    Count(run, '.') <= 1 && HasDigit(run)
  }

  /**
   * `_pseudonymize` raises `ValueError` for a FINANCIAL_PCT whose first run
   * of digits and dots is not a number, such as `1.2.3% growth`: nothing
   * catches the `float()` call.
   */
  predicate PctRaises(kind: string, text: string) {
    kind == "FINANCIAL_PCT" && PctRun(text).Some? && !FloatParses(PctRun(text).value)
  }

  /** Whether `_apply_strategy` under `strategy` raises for an entity of type `kind`. */
  predicate StrategyRaises(strategy: string, kind: string, text: string) {
    strategy == "pseudo" && PctRaises(kind, text)
  }

  /** Whether the round of `anonymize_text` for `e` raises, under the configured strategy. */
  predicate EntityRaises(configured: string, e: Entity) {
    StrategyRaises(EffectiveStrategy(configured, e.severity), e.kind, e.text)
  }

  /** A percentage with two dots in its number makes `_pseudonymize` raise. */
  lemma PctRaisesOnTwoDots()
    ensures PctRaises("FINANCIAL_PCT", "1.2.3% growth")
  {
    var t := "1.2.3% growth";
    assert IsPctChar(t[0]) && IsPctChar(t[1]) && IsPctChar(t[2]) && IsPctChar(t[3]) && IsPctChar(t[4]);
    PctRunOfPrefix(t, 5);
    assert t[..5] == "1.2.3";
    assert Count("1.2.3", '.') == 2;
  }

  /** So does one whose run starts with an ellipsis. */
  lemma PctRaisesOnLeadingDots()
    ensures PctRaises("FINANCIAL_PCT", "...10% growth")
  {
    var t := "...10% growth";
    assert IsPctChar(t[0]) && IsPctChar(t[1]) && IsPctChar(t[2]) && IsPctChar(t[3]) && IsPctChar(t[4]);
    PctRunOfPrefix(t, 5);
    assert t[..5] == "...10";
    assert Count("...10", '.') == 3;
  }

  /** A well-formed percentage does not. */
  lemma PctParsesOnPercentage()
    ensures !PctRaises("FINANCIAL_PCT", "12.5% margin")
  {
    var t := "12.5% margin";
    assert IsPctChar(t[0]) && IsPctChar(t[1]) && IsPctChar(t[2]) && IsPctChar(t[3]) && !IsPctChar(t[4]);
    PctRunOfPrefix(t, 4);
    assert t[..4] == "12.5";
    assert Count("12.5", '.') == 1 && HasDigit("12.5");
  }

  /**
   * `_pseudonymize`: the department table for departments; `ValueError` for
   * a FINANCIAL_PCT whose number `float()` rejects; otherwise the Faker
   * value of draw number `draw`.
   */
  function Pseudonymize(text: string, kind: string, draw: nat, oracle: Oracle): (r: Outcome<string>)
    ensures r.Raised? <==> PctRaises(kind, text)
    ensures r.Raised? ==> r.exception == ValueError
  {
    if kind == "DEPARTMENT" then Returned(DeptRename(text))
    else if PctRaises(kind, text) then Raised(ValueError)
    else Returned(oracle.fake(draw, kind, text))
  }

  /**
   * What `_apply_strategy` returned for `original` under `strategy`, given the
   * token cache and the number of Faker draws made before: tokens are the
   * cached token of the text, pseudonyms come from the next draw, unknown
   * strategies leave the text as it is.
   */
  ghost predicate Replaced(strategy: string, original: string, kind: string, replacement: string,
                           cache: map<string, string>, draw: nat, oracle: Oracle)
  {
    if strategy == "mask" then replacement == Mask(original, kind)
    else if strategy == "hash" then replacement == oracle.digest(original)
    else if strategy == "pseudo" then Pseudonymize(original, kind, draw, oracle) == Returned(replacement)
    else if strategy == "token" then original in cache && replacement == cache[original]
    else replacement == original
  }

  /** The cache only gains entries: every key keeps its token. */
  ghost predicate Extends(before: map<string, string>, after: map<string, string>) {
    forall t :: t in before ==> t in after && after[t] == before[t]
  }

  lemma ReplacedExtends(strategy: string, original: string, kind: string, replacement: string,
                        cache: map<string, string>, later: map<string, string>, draw: nat, oracle: Oracle)
    requires Replaced(strategy, original, kind, replacement, cache, draw, oracle)
    requires Extends(cache, later)
    ensures Replaced(strategy, original, kind, replacement, later, draw, oracle)
  {
  }

  // ---------------------------------------------------------------------------
  // mappings

  /** One entry of the `mappings` list of `anonymize_text`. */
  datatype Mapping = Mapping(kind: string, category: string, original: string, replacement: string,
                             strategy: string, line: nat, column: nat)

  function Replacements(ms: seq<Mapping>): (r: seq<string>)
    ensures |r| == |ms| && forall k :: 0 <= k < |ms| ==> r[k] == ms[k].replacement
  {
    seq(|ms|, k requires 0 <= k < |ms| => ms[k].replacement)
  }

  /**
   * `m` records entity `e` of `text`: its type, category and text, the
   * strategy chosen for it, and its line and column in the original text.
   */
  predicate Records(m: Mapping, e: Entity, text: string, configured: string) {
    && m.kind == e.kind && m.category == e.category && m.original == e.text
    && m.strategy == EffectiveStrategy(configured, e.severity)
    && (m.line, m.column) == Detect.LineColumn(text, e.start)
  }

  /** `m` records `e`, and its replacement is made by that strategy, with Faker draw number `draw`. */
  ghost predicate Describes(m: Mapping, e: Entity, text: string, configured: string,
                            cache: map<string, string>, draw: nat, oracle: Oracle)
  {
    Records(m, e, text, configured) && Replaced(m.strategy, e.text, e.kind, m.replacement, cache, draw, oracle)
  }

  /** How many of the first `k` mappings drew from Faker. */
  function DrawsBefore(ms: seq<Mapping>, k: nat): (n: nat)
    requires k <= |ms|
    ensures n <= k
  {
    if k == 0 then 0
    else DrawsBefore(ms, k - 1) + (if DrawsFake(ms[k - 1].strategy, ms[k - 1].kind) then 1 else 0)
  }

  /**
   * Every mapping describes the entity at its position, the k-th with
   * Faker draw number `start` plus the draws of the mappings before it.
   */
  ghost predicate DescribesAll(ms: seq<Mapping>, sorted: seq<Entity>, text: string, configured: string,
                               cache: map<string, string>, start: nat, oracle: Oracle)
  {
    && |ms| <= |sorted|
    && forall k {:trigger ms[k], sorted[k]} :: 0 <= k < |ms| ==>
         Describes(ms[k], sorted[k], text, configured, cache, start + DrawsBefore(ms, k), oracle)
  }

  /** Every mapping describes the entity at its position, with the draw number listed for it. */
  ghost predicate DescribesEach(ms: seq<Mapping>, sorted: seq<Entity>, text: string, configured: string,
                                cache: map<string, string>, draws: seq<nat>, oracle: Oracle)
  {
    && |ms| == |draws| && |ms| <= |sorted|
    && forall k {:trigger ms[k], draws[k]} :: 0 <= k < |ms| ==>
         Describes(ms[k], sorted[k], text, configured, cache, draws[k], oracle)
  }

  /** The draw number of the k-th mapping is `start` plus the draws of the mappings before it. */
  ghost predicate CountsDraws(draws: seq<nat>, ms: seq<Mapping>, start: nat) {
    && |draws| == |ms|
    && forall k {:trigger draws[k]} :: 0 <= k < |ms| ==> draws[k] == start + DrawsBefore(ms, k)
  }

  lemma DescribesCounted(ms: seq<Mapping>, sorted: seq<Entity>, text: string, configured: string,
                         cache: map<string, string>, draws: seq<nat>, start: nat, oracle: Oracle)
    requires DescribesEach(ms, sorted, text, configured, cache, draws, oracle)
    requires CountsDraws(draws, ms, start)
    ensures DescribesAll(ms, sorted, text, configured, cache, start, oracle)
  {
    forall k {:trigger ms[k], sorted[k]} | 0 <= k < |ms|
      ensures Describes(ms[k], sorted[k], text, configured, cache, start + DrawsBefore(ms, k), oracle)
    {
      DescribesMoved(ms[k], ms[k], sorted[k], text, configured, cache, draws[k], start + DrawsBefore(ms, k), oracle);
    }
  }

  lemma CountsDrawsSnoc(draws: seq<nat>, ms: seq<Mapping>, m: Mapping, start: nat, draw: nat)
    requires CountsDraws(draws, ms, start)
    requires draw == start + DrawsBefore(ms, |ms|)
    ensures CountsDraws(draws + [draw], ms + [m], start)
  {
    var ds, all := draws + [draw], ms + [m];
    forall k {:trigger ds[k]} | 0 <= k < |all| ensures ds[k] == start + DrawsBefore(all, k) {
      DrawsBeforeSnoc(ms, m, k);
      assert ds[k] == if k < |ms| then draws[k] else draw;
    }
  }

  /** After one more mapping the draws made so far are counted by the longer list. */
  lemma DrawsAfterRound(ms: seq<Mapping>, m: Mapping, start: nat, before: nat, after: nat)
    requires before == start + DrawsBefore(ms, |ms|)
    requires after == before + (if DrawsFake(m.strategy, m.kind) then 1 else 0)
    ensures after == start + DrawsBefore(ms + [m], |ms + [m]|)
  {
    DrawsBeforeSnoc(ms, m, |ms|);
    assert (ms + [m])[|ms|] == m;
  }

  /** Appending a mapping leaves the counts before the earlier positions as they were. */
  lemma {:induction false} DrawsBeforeSnoc(ms: seq<Mapping>, m: Mapping, k: nat)
    requires k <= |ms|
    ensures DrawsBefore(ms + [m], k) == DrawsBefore(ms, k)
  {
    if k > 0 {
      DrawsBeforeSnoc(ms, m, k - 1);
      assert (ms + [m])[k - 1] == ms[k - 1];
    }
  }

  /** Counting over more mappings counts at least as many draws. */
  lemma {:induction false} DrawsBeforeMonotone(ms: seq<Mapping>, k: nat, l: nat)
    requires k <= l <= |ms|
    ensures DrawsBefore(ms, k) <= DrawsBefore(ms, l)
    decreases l
  {
    if k < l {
      DrawsBeforeMonotone(ms, k, l - 1);
    }
  }

  /**
   * Two mappings that both draw from Faker use different draws, so the same
   * text met twice gets two independent pseudonyms.
   */
  lemma DrawsDistinct(ms: seq<Mapping>, k: nat, l: nat)
    requires k < l <= |ms| && DrawsFake(ms[k].strategy, ms[k].kind)
    ensures DrawsBefore(ms, k) < DrawsBefore(ms, l)
  {
    DrawsBeforeMonotone(ms, k + 1, l);
  }

  /** The order of `sorted(entities, key=start, reverse=True)`. */
  predicate ByStartDescending(a: Entity, b: Entity) {
    a.start >= b.start
  }

  lemma ByStartDescendingIsPreorder()
    ensures Total(ByStartDescending) && Transitive(ByStartDescending)
  {
  }

  /** Spans within the text that pairwise do not overlap, listed rightmost first, fit. */
  lemma {:induction false} DisjointFits(d: seq<Entity>, bound: nat)
    requires forall k :: 0 <= k < |d| ==> d[k].start <= d[k].end <= bound
    requires forall k, l :: 0 <= k < l < |d| ==> d[l].end <= d[k].start
    ensures Fits(d, bound)
  {
    if d != [] {
      var rest := d[1..];
      assert forall k :: 0 <= k < |rest| ==> rest[k] == d[k + 1];
      DisjointFits(rest, d[0].start);
    }
  }

  // ---------------------------------------------------------------------------
  // the anonymizer object

  class Anonymizer {
    const strategy: string
    /** `token_cache`: the token handed out for each text so far. */
    var tokenCache: map<string, string>
    /** How many values `self.faker` has drawn so far. */
    var fakerCalls: nat

    ghost predicate Valid()
      reads this
    {
      forall t :: t in tokenCache ==> IsToken(tokenCache[t])
    }

    constructor (strategy: string)
      ensures this.strategy == strategy && tokenCache == map[] && fakerCalls == 0 && Valid()
    {
      this.strategy := strategy;
      tokenCache := map[];
      fakerCalls := 0;
    }

    /**
     * `_tokenize`: a cached text gets its cached token back; a new text gets
     * a fresh `TKN_` token, which is remembered. The cache only grows, so a
     * text keeps its token for the life of the anonymizer.
     */
    method Tokenize(text: string, oracle: Oracle) returns (token: string)
      requires Valid()
      modifies this
      ensures Valid() && IsToken(token)
      ensures text in old(tokenCache) ==> token == old(tokenCache)[text] && tokenCache == old(tokenCache)
      ensures text !in old(tokenCache) ==>
        token == "TKN_" + oracle.hex(|old(tokenCache)|) && tokenCache == old(tokenCache)[text := token]
      ensures Extends(old(tokenCache), tokenCache) && text in tokenCache && tokenCache[text] == token
      ensures fakerCalls == old(fakerCalls)
    {
      if text in tokenCache {
        token := tokenCache[text];
        return;
      }
      token := "TKN_" + oracle.hex(|tokenCache|);
      assert token[4..] == oracle.hex(|tokenCache|);
      tokenCache := tokenCache[text := token];
    }

    /**
     * `_apply_strategy`: only tokenizing touches the cache, and only a
     * pseudonym for a type other than DEPARTMENT makes a Faker draw. The
     * `float()` of a malformed FINANCIAL_PCT raises before any draw.
     */
    method ApplyStrategy(text: string, kind: string, strategy: string, oracle: Oracle)
      returns (replacement: Outcome<string>)
      requires Valid()
      modifies this
      ensures Valid() && Extends(old(tokenCache), tokenCache)
      ensures strategy != "token" ==> tokenCache == old(tokenCache)
      ensures replacement.Raised? <==> StrategyRaises(strategy, kind, text)
      ensures replacement.Raised? ==> replacement.exception == ValueError && fakerCalls == old(fakerCalls)
      ensures replacement.Returned? ==>
        && fakerCalls == old(fakerCalls) + (if DrawsFake(strategy, kind) then 1 else 0)
        && Replaced(strategy, text, kind, replacement.value, tokenCache, old(fakerCalls), oracle)
    {
      if strategy == "mask" {
        replacement := Returned(Mask(text, kind));
      } else if strategy == "hash" {
        replacement := Returned(oracle.digest(text));
      } else if strategy == "pseudo" {
        replacement := Pseudonymize(text, kind, fakerCalls, oracle);
        if replacement.Returned? && kind != "DEPARTMENT" {
          fakerCalls := fakerCalls + 1;
        }
      } else if strategy == "token" {
        var token := Tokenize(text, oracle);
        replacement := Returned(token);
      } else {
        replacement := Returned(text);
      }
    }

    /**
     * `anonymize_text`: the entities sorted by descending start, one mapping
     * for each in that order, and the text rewritten span by span. When the
     * spans lie in the text and do not overlap, the result is the original
     * text with each span replaced in place. It raises `ValueError` exactly
     * when some entity's strategy raises.
     */
    method AnonymizeText(text: string, entities: seq<Entity>, oracle: Oracle)
      returns (result: Outcome<(string, seq<Mapping>)>)
      requires Valid()
      modifies this
      ensures Valid() && Extends(old(tokenCache), tokenCache)
      ensures result.Raised? <==> exists e :: e in entities && EntityRaises(strategy, e)
      ensures result.Raised? ==> result.exception == ValueError
      ensures result.Returned? ==> var (anonymized, mappings) := result.value;
        var sorted := SortBy(entities, ByStartDescending);
        && |mappings| == |sorted| == |entities|
        && anonymized == Rewrite(text, sorted, Replacements(mappings))
        && (Fits(sorted, |text|) ==> anonymized == Splice(text, sorted, Replacements(mappings)))
        && DescribesAll(mappings, sorted, text, strategy, tokenCache, old(fakerCalls), oracle)
        && fakerCalls == old(fakerCalls) + DrawsBefore(mappings, |mappings|)
    {
      var sorted := SortBy(entities, ByStartDescending);
      SortByLength(entities, ByStartDescending);
      SameMembers(sorted, entities, (e: Entity) => EntityRaises(strategy, e));
      result := RewriteSorted(text, sorted, oracle);
      if result.Returned? {
        RewriteAll(text, sorted, Replacements(result.value.1), result.value.0);
      }
    }

    /** The loop of `anonymize_text` over the already sorted entities, left by the first exception. */
    method RewriteSorted(text: string, sorted: seq<Entity>, oracle: Oracle)
      returns (result: Outcome<(string, seq<Mapping>)>)
      requires Valid()
      modifies this
      ensures Valid() && Extends(old(tokenCache), tokenCache)
      ensures result.Raised? <==> exists k :: 0 <= k < |sorted| && EntityRaises(strategy, sorted[k])
      ensures result.Raised? ==> result.exception == ValueError
      ensures result.Returned? ==> var (anonymized, mappings) := result.value;
        && |mappings| == |sorted|
        && anonymized == Rewrite(text, sorted[..|sorted|], Replacements(mappings))
        && DescribesAll(mappings, sorted, text, strategy, tokenCache, old(fakerCalls), oracle)
        && fakerCalls == old(fakerCalls) + DrawsBefore(mappings, |mappings|)
    {
      ghost var start := fakerCalls;
      ghost var draws: seq<nat> := [];
      var anonymized, mappings := text, [];
      for i := 0 to |sorted|
        invariant Valid() && Extends(old(tokenCache), tokenCache)
        invariant |mappings| == i
        invariant forall k {:trigger EntityRaises(strategy, sorted[k])} :: 0 <= k < i ==> !EntityRaises(strategy, sorted[k])
        invariant anonymized == Rewrite(text, sorted[..i], Replacements(mappings))
        invariant DescribesEach(mappings, sorted, text, strategy, tokenCache, draws, oracle)
        invariant CountsDraws(draws, mappings, start)
        invariant fakerCalls == start + DrawsBefore(mappings, |mappings|)
      {
        var raised;
        raised, anonymized, mappings, draws := Round(text, sorted, anonymized, mappings, draws, start, oracle);
        if raised {
          return Raised(ValueError);
        }
        NoneRaisesStep(strategy, sorted, i);
      }
      DescribesCounted(mappings, sorted, text, strategy, tokenCache, draws, start, oracle);
      result := Returned((anonymized, mappings));
    }

    /**
     * One round of the loop of `anonymize_text`: map the next entity and
     * rewrite its span, unless mapping it raises.
     */
    method Round(text: string, sorted: seq<Entity>, anonymized: string, mappings: seq<Mapping>,
                 ghost draws: seq<nat>, ghost start: nat, oracle: Oracle)
      returns (raised: bool, anonymized': string, mappings': seq<Mapping>, ghost draws': seq<nat>)
      requires Valid() && |mappings| < |sorted|
      requires anonymized == Rewrite(text, sorted[..|mappings|], Replacements(mappings))
      requires DescribesEach(mappings, sorted, text, strategy, tokenCache, draws, oracle)
      requires CountsDraws(draws, mappings, start)
      requires fakerCalls == start + DrawsBefore(mappings, |mappings|)
      modifies this
      ensures Valid() && Extends(old(tokenCache), tokenCache)
      ensures raised <==> EntityRaises(strategy, sorted[|mappings|])
      ensures !raised ==>
        && |mappings'| == |mappings| + 1
        && anonymized' == Rewrite(text, sorted[..|mappings'|], Replacements(mappings'))
        && DescribesEach(mappings', sorted, text, strategy, tokenCache, draws', oracle)
        && CountsDraws(draws', mappings', start)
        && fakerCalls == start + DrawsBefore(mappings', |mappings'|)
    {
      var e := sorted[|mappings|];
      ghost var before := tokenCache;
      ghost var draw := fakerCalls;
      var outcome := MapEntity(text, e, oracle);
      if outcome.Raised? {
        return true, anonymized, mappings, draws;
      }
      var m := outcome.value;
      RewriteAppend(text, sorted, mappings, m, anonymized);
      DescribesAppend(text, sorted, mappings, m, strategy, before, tokenCache, draws, draw, oracle);
      CountsDrawsSnoc(draws, mappings, m, start, draw);
      DrawsAfterRound(mappings, m, start, draw, fakerCalls);
      raised := false;
      anonymized' := Step(anonymized, e, m.replacement);
      mappings' := mappings + [m];
      draws' := draws + [draw];
    }

    /** One round of the loop of `anonymize_text`, apart from the rewriting: the mapping of one entity. */
    method MapEntity(text: string, e: Entity, oracle: Oracle) returns (m: Outcome<Mapping>)
      requires Valid()
      modifies this
      ensures Valid() && Extends(old(tokenCache), tokenCache)
      ensures m.Raised? <==> EntityRaises(strategy, e)
      ensures m.Raised? ==> m.exception == ValueError && fakerCalls == old(fakerCalls)
      ensures m.Returned? ==>
        && Describes(m.value, e, text, strategy, tokenCache, old(fakerCalls), oracle)
        && fakerCalls == old(fakerCalls) + (if DrawsFake(m.value.strategy, m.value.kind) then 1 else 0)
    {
      var effective := EffectiveStrategy(strategy, e.severity);
      var replacement := ApplyStrategy(e.text, e.kind, effective, oracle);
      if replacement.Raised? {
        return Raised(replacement.exception);
      }
      var lc := Detect.LineColumn(text, e.start);
      m := Returned(Mapping(e.kind, e.category, e.text, replacement.value, effective, lc.0, lc.1));
    }
  }

  /** No entity before position `i + 1` raises when none before `i` does and the one at `i` does not. */
  lemma NoneRaisesStep(configured: string, sorted: seq<Entity>, i: nat)
    requires i < |sorted|
    requires forall k {:trigger EntityRaises(configured, sorted[k])} :: 0 <= k < i ==> !EntityRaises(configured, sorted[k])
    requires !EntityRaises(configured, sorted[i])
    ensures forall k {:trigger EntityRaises(configured, sorted[k])} :: 0 <= k < i + 1 ==> !EntityRaises(configured, sorted[k])
  {
  }

  /** One round of the `anonymize_text` loop keeps the mapping half of its invariant. */
  lemma DescribesAppend(text: string, sorted: seq<Entity>, mappings: seq<Mapping>, m: Mapping, configured: string,
                        before: map<string, string>, after: map<string, string>, draws: seq<nat>, draw: nat,
                        oracle: Oracle)
    requires |mappings| < |sorted|
    requires DescribesEach(mappings, sorted, text, configured, before, draws, oracle)
    requires Extends(before, after)
    requires Describes(m, sorted[|mappings|], text, configured, after, draw, oracle)
    ensures DescribesEach(mappings + [m], sorted, text, configured, after, draws + [draw], oracle)
  {
    DescribesExtend(text, sorted, mappings, configured, before, after, draws, oracle);
    var all, ds := mappings + [m], draws + [draw];
    forall k | 0 <= k < |all| ensures Describes(all[k], sorted[k], text, configured, after, ds[k], oracle) {
      if k < |mappings| {
        assert all[k] == mappings[k] && ds[k] == draws[k];
      } else {
        assert all[k] == m && ds[k] == draw;
      }
    }
  }

  lemma DescribesMoved(x: Mapping, y: Mapping, e: Entity, text: string, configured: string,
                       cache: map<string, string>, d: nat, d': nat, oracle: Oracle)
    requires Describes(x, e, text, configured, cache, d, oracle) && x == y && d == d'
    ensures Describes(y, e, text, configured, cache, d', oracle)
  {
  }

  /** After the last round the loop has rewritten every span, and on fitting spans it has spliced them. */
  lemma RewriteAll(text: string, sorted: seq<Entity>, reps: seq<string>, anonymized: string)
    requires |reps| == |sorted|
    requires anonymized == Rewrite(text, sorted[..|sorted|], reps)
    ensures anonymized == Rewrite(text, sorted, reps)
    ensures Fits(sorted, |text|) ==> anonymized == Splice(text, sorted, reps)
  {
    assert sorted[..|sorted|] == sorted;
    if Fits(sorted, |text|) {
      RewriteIsSplice(text, sorted, reps);
    }
  }

  /** One round of the `anonymize_text` loop keeps the text half of its invariant. */
  lemma RewriteAppend(text: string, sorted: seq<Entity>, mappings: seq<Mapping>, m: Mapping, anonymized: string)
    requires |mappings| < |sorted|
    requires anonymized == Rewrite(text, sorted[..|mappings|], Replacements(mappings))
    ensures Step(anonymized, sorted[|mappings|], m.replacement)
      == Rewrite(text, sorted[..|mappings| + 1], Replacements(mappings + [m]))
  {
    var i := |mappings|;
    var d, reps, e, r := sorted[..i], Replacements(mappings), sorted[i], m.replacement;
    calc {
      Rewrite(text, sorted[..i + 1], Replacements(mappings + [m]));
      == { PrefixSnoc(sorted, i); ReplacementsSnoc(mappings, m); }
      Rewrite(text, d + [e], reps + [r]);
      == { RewriteSnoc(text, d, reps, e, r); }
      Step(anonymized, e, r);
    }
  }

  lemma PrefixSnoc<T>(s: seq<T>, i: nat)
    requires i < |s|
    ensures s[..i + 1] == s[..i] + [s[i]]
  {
  }

  lemma ReplacementsSnoc(ms: seq<Mapping>, m: Mapping)
    ensures Replacements(ms + [m]) == Replacements(ms) + [m.replacement]
  {
    var a, b := Replacements(ms + [m]), Replacements(ms) + [m.replacement];
    forall k | 0 <= k < |a| ensures a[k] == b[k] {
      assert (ms + [m])[k] == if k < |ms| then ms[k] else m;
    }
  }

  /** Mappings made before a round stay valid as the token cache grows. */
  lemma DescribesExtend(text: string, sorted: seq<Entity>, mappings: seq<Mapping>, configured: string,
                        before: map<string, string>, after: map<string, string>, draws: seq<nat>, oracle: Oracle)
    requires DescribesEach(mappings, sorted, text, configured, before, draws, oracle)
    requires Extends(before, after)
    ensures DescribesEach(mappings, sorted, text, configured, after, draws, oracle)
  {
    forall k | 0 <= k < |mappings| ensures Describes(mappings[k], sorted[k], text, configured, after, draws[k], oracle) {
      var mk := mappings[k];
      ReplacedExtends(mk.strategy, mk.original, mk.kind, mk.replacement, before, after, draws[k], oracle);
    }
  }

  // ---------------------------------------------------------------------------
  // the audit log

  /** How many mappings have type `t`: what `by_type[t]` counts. */
  function KindCount(ms: seq<Mapping>, t: string): (n: nat)
    ensures n <= |ms|
  {
    if ms == [] then 0
    else KindCount(ms[..|ms| - 1], t) + (if ms[|ms| - 1].kind == t then 1 else 0)
  }

  /** A type is counted exactly when some mapping has it. */
  lemma {:induction false} KindCountPositive(ms: seq<Mapping>, t: string)
    ensures KindCount(ms, t) > 0 <==> exists k :: 0 <= k < |ms| && ms[k].kind == t
  {
    if ms != [] {
      var init := ms[..|ms| - 1];
      KindCountPositive(init, t);
      assert forall k :: 0 <= k < |init| ==> init[k] == ms[k];
    }
  }

  predicate IsPiiMapping(m: Mapping) { m.category == "PII" }
  predicate IsBusinessMapping(m: Mapping) { m.category == "BUSINESS" }
  predicate IsReversibleMapping(m: Mapping) { m.strategy == "pseudo" || m.strategy == "token" }

  /** The `summary` of the audit log. */
  datatype Summary = Summary(total: nat, pii: nat, business: nat, byType: map<string, int>)

  /** The audit log of `anonymize_file`, with the anonymized text it writes. */
  datatype AuditLog = AuditLog(strategy: string, reversible: bool, mappings: seq<Mapping>,
                               summary: Summary, anonymized: string)

  /**
   * The `summary` of a list of mappings: their number, how many are PII and
   * how many business data, and for each type that occurs how many have it.
   */
  ghost predicate Summarizes(summary: Summary, ms: seq<Mapping>) {
    && summary.total == |ms|
    && summary.pii == |Filter(ms, IsPiiMapping)|
    && summary.business == |Filter(ms, IsBusinessMapping)|
    && (forall t :: t in summary.byType <==> KindCount(ms, t) > 0)
    && (forall t :: t in summary.byType ==> summary.byType[t] == KindCount(ms, t))
    && SumValues(summary.byType) == |ms|
  }

  /** The summary block of `anonymize_file`. */
  method Summarize(mappings: seq<Mapping>) returns (summary: Summary)
    ensures Summarizes(summary, mappings)
  {
    var byType := CountByType(mappings);
    summary := Summary(|mappings|, |Filter(mappings, IsPiiMapping)|, |Filter(mappings, IsBusinessMapping)|, byType);
  }

  /** The `by_type` loop of `anonymize_file`. */
  method CountByType(mappings: seq<Mapping>) returns (byType: map<string, int>)
    ensures forall t :: t in byType <==> KindCount(mappings, t) > 0
    ensures forall t :: t in byType ==> byType[t] == KindCount(mappings, t)
    ensures SumValues(byType) == |mappings|
  {
    byType := map[];
    for i := 0 to |mappings|
      invariant forall t :: t in byType <==> KindCount(mappings[..i], t) > 0
      invariant forall t :: t in byType ==> byType[t] == KindCount(mappings[..i], t)
      invariant SumValues(byType) == i
    {
      var t := mappings[i].kind;
      var current := if t in byType then byType[t] else 0;
      CountStep(mappings, i, byType);
      byType := byType[t := current + 1];
    }
    assert mappings[..|mappings|] == mappings;
  }

  /** One round of the `by_type` loop keeps its invariant. */
  lemma CountStep(mappings: seq<Mapping>, i: nat, byType: map<string, int>)
    requires i < |mappings|
    requires forall t :: t in byType <==> KindCount(mappings[..i], t) > 0
    requires forall t :: t in byType ==> byType[t] == KindCount(mappings[..i], t)
    requires SumValues(byType) == i
    ensures var t := mappings[i].kind;
      var next := byType[t := (if t in byType then byType[t] else 0) + 1];
      && (forall u :: u in next <==> KindCount(mappings[..i + 1], u) > 0)
      && (forall u :: u in next ==> next[u] == KindCount(mappings[..i + 1], u))
      && SumValues(next) == i + 1
  {
    var t := mappings[i].kind;
    var current := if t in byType then byType[t] else 0;
    SumValuesUpdate(byType, t, current + 1);
    forall u ensures KindCount(mappings[..i + 1], u) == KindCount(mappings[..i], u) + (if u == t then 1 else 0) {
      KindCountSnoc(mappings, i, u);
    }
  }

  lemma KindCountSnoc(ms: seq<Mapping>, i: nat, t: string)
    requires i < |ms|
    ensures KindCount(ms[..i + 1], t) == KindCount(ms[..i], t) + (if ms[i].kind == t then 1 else 0)
  {
    var prefix := ms[..i + 1];
    assert prefix[..i] == ms[..i] && prefix[i] == ms[i];
  }

  /** Under `mixed`, some mapping is reversible exactly when some entity is not of high severity. */
  lemma MixedReversible(text: string, sorted: seq<Entity>, mappings: seq<Mapping>)
    requires |mappings| == |sorted|
    requires forall k :: 0 <= k < |mappings| ==> Records(mappings[k], sorted[k], text, "mixed")
    ensures (exists k :: 0 <= k < |mappings| && IsReversibleMapping(mappings[k]))
      <==> exists k :: 0 <= k < |sorted| && sorted[k].severity != "high"
  {
    if exists k :: 0 <= k < |sorted| && sorted[k].severity != "high" {
      var k :| 0 <= k < |sorted| && sorted[k].severity != "high";
      assert IsReversibleMapping(mappings[k]);
    }
  }

  /**
   * The audit log `anonymize_file` writes for the mappings of a run:
   * reversibility decided by the strategy (under `mixed`, by whether some
   * mapping is reversible), the mappings kept only when reversible, and
   * the summary.
   */
  ghost predicate Logs(log: AuditLog, entities: seq<Entity>, strategy: string,
                       anonymized: string, mappings: seq<Mapping>)
  {
    && log.strategy == strategy
    && log.anonymized == anonymized
    && (strategy == "mixed" ==>
          (log.reversible <==> exists k :: 0 <= k < |mappings| && IsReversibleMapping(mappings[k]))
          && (log.reversible <==> exists e :: e in entities && e.severity != "high"))
    && (strategy != "mixed" ==> (log.reversible <==> strategy == "pseudo" || strategy == "token"))
    && log.mappings == (if log.reversible then mappings else [])
    && Summarizes(log.summary, mappings)
  }

  /** The reversibility test, the `by_type` counts and the `audit_log` dictionary of `anonymize_file`. */
  method BuildAuditLog(text: string, unique: seq<Entity>, strategy: string, anonymized: string, mappings: seq<Mapping>)
    returns (log: AuditLog)
    requires |mappings| == |SortBy(unique, ByStartDescending)|
    requires var sorted := SortBy(unique, ByStartDescending);
      forall k :: 0 <= k < |mappings| ==> Records(mappings[k], sorted[k], text, strategy)
    ensures Logs(log, unique, strategy, anonymized, mappings)
  {
    var sorted := SortBy(unique, ByStartDescending);
    var reversible;
    if strategy == "mixed" {
      reversible := exists k :: 0 <= k < |mappings| && IsReversibleMapping(mappings[k]);
      MixedReversible(text, sorted, mappings);
      SameMembers(sorted, unique, (e: Entity) => e.severity != "high");
    } else {
      reversible := strategy == "pseudo" || strategy == "token";
    }
    var summary := Summarize(mappings);
    log := AuditLog(strategy, reversible, if reversible then mappings else [], summary, anonymized);
  }

  /**
   * `anonymize_file` after the file is read and the detectors have run on
   * it: de-duplication, the error for an empty result, anonymization with a
   * new anonymizer, and the audit log. `mappings` is the full mapping list,
   * which the log keeps only when the result is reversible. The `ValueError`
   * of `anonymize_text` is not caught, so it reaches the caller.
   */
  method AnonymizeFile(text: string, all: seq<Entity>, strategy: string, oracle: Oracle)
    returns (result: Outcome<Result<AuditLog>>, mappings: seq<Mapping>)
    ensures result.Raised? <==> exists e :: e in Unique(all) && EntityRaises(strategy, e)
    ensures result.Raised? ==> result.exception == ValueError
    ensures result.Returned? && result.value.Err? <==> all == []
    ensures result.Returned? && result.value.Err? ==>
      result.value.message == "No sensitive data detected. Nothing to anonymize." && mappings == []
    ensures result.Returned? && result.value.Ok? ==>
      var unique := Unique(all); var sorted := SortBy(unique, ByStartDescending);
      && |mappings| == |sorted| == |unique|
      && (forall k :: 0 <= k < |mappings| ==> Records(mappings[k], sorted[k], text, strategy))
      && Logs(result.value.value, unique, strategy, Rewrite(text, sorted, Replacements(mappings)), mappings)
  {
    var unique := UniqueByPosition(all);
    UniqueEmpty(all);
    if unique == [] {
      return Returned(Err("No sensitive data detected. Nothing to anonymize.")), [];
    }
    var anonymizer := new Anonymizer(strategy);
    var anonymized := anonymizer.AnonymizeText(text, unique, oracle);
    if anonymized.Raised? {
      return Raised(anonymized.exception), [];
    }
    mappings := anonymized.value.1;
    var log := BuildAuditLog(text, unique, strategy, anonymized.value.0, mappings);
    result := Returned(Ok(log));
  }

  lemma UniqueEmpty(all: seq<Entity>)
    ensures Unique(all) == [] <==> all == []
  {
    UniqueFacts(all);
  }

  /** Sorting keeps the members of a list, so some member has a property after it exactly when before. */
  lemma SameMembers(sorted: seq<Entity>, unique: seq<Entity>, p: Entity -> bool)
    requires sorted == SortBy(unique, ByStartDescending)
    ensures (exists k :: 0 <= k < |sorted| && p(sorted[k])) <==> exists e :: e in unique && p(e)
  {
    if exists k :: 0 <= k < |sorted| && p(sorted[k]) {
      var k :| 0 <= k < |sorted| && p(sorted[k]);
      assert sorted[k] in multiset(unique);
    }
    if exists e :: e in unique && p(e) {
      var e :| e in unique && p(e);
      assert e in multiset(sorted);
      var k :| 0 <= k < |sorted| && sorted[k] == e;
    }
  }
}
