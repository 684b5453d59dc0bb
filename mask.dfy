/**
 * The deterministic replacement rules of the anonymizer: `_mask` and the
 * department table of `_pseudonymize`.
 */
module Masking {
  import opened Wrappers
  import opened Strings

  /** `'*' * n`. */
  function Stars(n: nat): (r: string)
    ensures |r| == n && forall i :: 0 <= i < n ==> r[i] == '*'
  {
    seq(n, i => '*')
  }

  // ---------------------------------------------------------------------------
  // EMAIL

  /** The EMAIL rule of `_mask`, for a text with an `@`: `***@***.tld`. */
  function MaskEmail(text: string, at: nat): (r: string)
    requires at < |text| && text[at] == '@'
  {
    Stars(at) + "@***" + KeptTld(text[at + 1..])
  }

  /** Where `text.split('@', 1)` cuts: the first `@`, or none when `'@' not in text`. */
  function FirstAt(text: string): (r: Option<nat>)
    ensures r.Some? ==> r.value < |text| && text[r.value] == '@' && '@' !in text[..r.value]
    ensures r.None? <==> '@' !in text
  {
    FirstAtFacts(text);
    FindFrom(text, "@", 0)
  }

  lemma FirstAtFacts(text: string)
    ensures var f := FindFrom(text, "@", 0);
      && (f.Some? ==> f.value < |text| && text[f.value] == '@' && '@' !in text[..f.value])
      && (f.None? <==> '@' !in text)
  {
    var f := FindFrom(text, "@", 0);
    forall j | 0 <= j < |text| && text[j] == '@' ensures OccursAt(text, "@", j) {
      assert text[j..j + 1] == "@";
    }
    if f.Some? {
      assert text[f.value..f.value + 1] == "@";
      assert forall j :: 0 <= j < f.value ==> text[..f.value][j] == text[j];
    }
  }

  /** The part of the domain the mask keeps: a dot and what follows the last dot, if anything does. */
  function KeptTld(domain: string): string {
    var tld := if '.' in domain then AfterLast(domain, '.') else "";
    if tld != "" then "." + tld else ""
  }

  /** The kept part is empty exactly when the domain has no dot or ends with one; otherwise it ends the domain. */
  lemma KeptTldShape(domain: string)
    ensures var kept := KeptTld(domain);
      && (kept == [] <==> '.' !in domain || domain[|domain| - 1] == '.')
      && (kept != [] ==> kept[0] == '.' && EndsWith(domain, kept) && '.' !in kept[1..] && |kept| >= 2)
  {
    if '.' in domain {
      var tld := AfterLast(domain, '.');
      AfterLastFacts(domain, '.');
      assert tld == [] <==> domain[|domain| - 1] == '.';
      if tld != [] {
        assert domain[|domain| - |tld| - 1..] == "." + tld;
      }
    }
  }

  /**
   * Masking an address whose first `@` is at `at`: one `*` per character of
   * the user name, then `@***`, then either nothing or a dot and the text
   * after the last dot of the domain, which is a non-empty suffix of the
   * address without a dot. The suffix is dropped exactly when the domain
   * has no dot or ends with one.
   */
  lemma MaskEmailShape(text: string, at: nat)
    requires at < |text| && text[at] == '@' && '@' !in text[..at]
    ensures var r := MaskEmail(text, at); var tail := r[at + 4..];
      && |r| >= at + 4 && r[..at] == Stars(at) && r[at..at + 4] == "@***"
      && (tail == [] <==> '.' !in text[at + 1..] || text[|text| - 1] == '.')
      && (tail != [] ==> tail[0] == '.' && EndsWith(text, tail) && '.' !in tail[1..] && |tail| >= 2)
  {
    MaskEmailParts(text, at);
    KeptTldOfAddress(text, at);
  }

  lemma MaskEmailParts(text: string, at: nat)
    requires at < |text| && text[at] == '@'
    ensures var r := MaskEmail(text, at);
      && |r| == at + 4 + |KeptTld(text[at + 1..])|
      && r[..at] == Stars(at) && r[at..at + 4] == "@***" && r[at + 4..] == KeptTld(text[at + 1..])
  {
    var head, kept := Stars(at) + "@***", KeptTld(text[at + 1..]);
    var r := head + kept;
    assert r[..at] == Stars(at) && r[at..at + 4] == "@***" && r[at + 4..] == kept;
  }

  /** `KeptTldShape` read on the whole address rather than on its domain. */
  lemma KeptTldOfAddress(text: string, at: nat)
    requires at < |text|
    ensures var kept := KeptTld(text[at + 1..]);
      && (kept == [] <==> '.' !in text[at + 1..] || text[|text| - 1] == '.')
      && (kept != [] ==> kept[0] == '.' && EndsWith(text, kept) && '.' !in kept[1..] && |kept| >= 2)
  {
    var domain := text[at + 1..];
    var kept := KeptTld(domain);
    KeptTldShape(domain);
    assert domain != [] ==> text[|text| - 1] == domain[|domain| - 1];
    if kept != [] {
      assert text[|text| - |kept|..] == domain[|domain| - |kept|..];
    }
  }

  // ---------------------------------------------------------------------------
  // PHONE

  /** `re.sub(r'\d', '*', text)`. */
  function MaskDigits(text: string): (r: string)
    ensures |r| == |text|
    ensures forall i :: 0 <= i < |text| ==> r[i] == if IsDigit(text[i]) then '*' else text[i]
  {
    seq(|text|, i requires 0 <= i < |text| => if IsDigit(text[i]) then '*' else text[i])
  }

  // ---------------------------------------------------------------------------
  // monetary amounts

  predicate IsDigitOrComma(c: char) { IsDigit(c) || c == ',' }

  /**
   * The length of the match of `[\d,]+\.?\d*` at the start of `s`: the
   * greedy run of digits and commas, then a dot and the digits after it
   * when a dot follows the run.
   */
  function AmountLength(s: string): (n: nat)
    requires s != [] && IsDigitOrComma(s[0])
    ensures 1 <= n <= |s|
    ensures forall i :: 0 <= i < n ==> IsDigitOrComma(s[i]) || s[i] == '.'
    ensures forall i :: 0 <= i < n && s[i] == '.' ==> i > 0 && IsDigitOrComma(s[i - 1])
    ensures n < |s| && s[n] == '.' ==> s[n - 1] != ','
  {
    var run := RunLength(s, IsDigitOrComma);
    if run < |s| && s[run] == '.' then
      var digits := RunLength(s[run + 1..], IsDigit);
      assert forall i :: run < i < run + 1 + digits ==> s[i] == s[run + 1..][i - run - 1];
      run + 1 + digits
    else run
  }

  /**
   * `re.sub(r'[\d,]+\.?\d*', lambda m: '*' * len(m.group(0)), text)`: each
   * left-to-right match is replaced by as many stars, every other character
   * is kept.
   */
  function MaskAmounts(text: string): (r: string)
    decreases |text|
  {
    if text == [] then []
    else if IsDigitOrComma(text[0]) then
      var n := AmountLength(text);
      Stars(n) + MaskAmounts(text[n..])
    else [text[0]] + MaskAmounts(text[1..])
  }

  /**
   * Masking amounts keeps the length, stars every digit and comma, keeps
   * every character that is none of digit, comma or dot, and stars a dot
   * only right after a digit or comma (always right after a comma).
   */
  lemma {:induction false} MaskAmountsShape(text: string)
    ensures var r := MaskAmounts(text);
      && |r| == |text|
      && (forall i :: 0 <= i < |text| && IsDigitOrComma(text[i]) ==> r[i] == '*')
      && (forall i :: 0 <= i < |text| && !IsDigitOrComma(text[i]) && text[i] != '.' ==> r[i] == text[i])
      && (forall i :: 0 <= i < |text| && text[i] == '.' ==>
            (r[i] == '.' || (r[i] == '*' && i > 0 && IsDigitOrComma(text[i - 1]))))
      && (forall i :: 0 < i < |text| && text[i] == '.' && text[i - 1] == ',' ==> r[i] == '*')
    decreases |text|
  {
    if text != [] {
      var r := MaskAmounts(text);
      var dc := IsDigitOrComma(text[0]);
      var n := if dc then AmountLength(text) else 1;
      var tail := text[n..];
      MaskAmountsShape(tail);
      var rt := MaskAmounts(tail);
      assert r == (if dc then Stars(n) else [text[0]]) + rt;
      assert |r| == |text|;
      forall i | n <= i < |text| ensures text[i] == tail[i - n] && r[i] == rt[i - n] {
      }
      forall i | 0 <= i < |text| && text[i] == '.'
        ensures r[i] == '.' || (r[i] == '*' && i > 0 && IsDigitOrComma(text[i - 1]))
      {
        if i >= n {
          assert i - n > 0 ==> tail[i - n - 1] == text[i - 1];
        }
      }
      forall i | 0 < i < |text| && text[i] == '.' && text[i - 1] == ',' ensures r[i] == '*' {
        if i > n {
          assert tail[i - n - 1] == text[i - 1];
        }
      }
    }
  }

  // ---------------------------------------------------------------------------
  // other types

  /** `' '.join('*' * len(word) for word in text.split())`. */
  function StarWords(ws: seq<string>): (r: seq<string>)
    ensures |r| == |ws| && forall k :: 0 <= k < |ws| ==> r[k] == Stars(|ws[k]|)
  {
    if ws == [] then [] else [Stars(|ws[0]|)] + StarWords(ws[1..])
  }

  function MaskWords(text: string): (r: string)
    ensures Words(r) == StarWords(Words(text))
  {
    var ws := StarWords(Words(text));
    assert forall k :: 0 <= k < |ws| ==> IsWord(ws[k]);
    WordsOfJoin(ws);
    Join(" ", ws)
  }

  /** The entity types `_mask` and `_pseudonymize` treat as monetary. */
  const MonetaryTypes: set<string> := {"REVENUE", "COSTS", "MARKET_SIZE", "PRICING", "MONETARY_VALUE"}

  /** `_mask`: the rule for the entity type, tried in the source's order. */
  function Mask(text: string, kind: string): (r: string)
    ensures kind == "SSN" ==> r == "***-**-****"
    ensures kind == "PHONE" || kind in MonetaryTypes ==> |r| == |text|
    ensures kind == "PHONE" ==> forall i :: 0 <= i < |text| ==> (r[i] == '*' <==> IsDigit(text[i]) || text[i] == '*')
    ensures kind == "EMAIL" && '@' in text ==> r == MaskEmail(text, FirstAt(text).value)
    ensures kind !in {"PHONE", "SSN"} && kind !in MonetaryTypes && (kind == "EMAIL" ==> '@' !in text) ==>
      Words(r) == StarWords(Words(text))
  {
    if kind == "EMAIL" && FirstAt(text).Some? then MaskEmail(text, FirstAt(text).value)
    else if kind == "PHONE" then MaskDigits(text)
    else if kind == "SSN" then "***-**-****"
    else if kind in MonetaryTypes then
      MaskAmountsShape(text);
      MaskAmounts(text)
    else MaskWords(text)
  }

  // ---------------------------------------------------------------------------
  // departments

  /** `Anonymizer.DEPT_MAPPING`, in dictionary order. */
  const DeptMapping: seq<(string, string)> := [
    ("engineering", "Product Development"),
    ("development", "Product Development"),
    ("dev", "Product Development"),
    ("r&d", "Innovation"),
    ("sales", "Business Development"),
    ("marketing", "Growth"),
    ("hr", "People Operations"),
    ("human resources", "People Operations"),
    ("finance", "Accounting"),
    ("accounting", "Financial Planning"),
    ("operations", "Customer Success"),
    ("legal", "Compliance"),
    ("compliance", "Governance"),
    ("it", "Infrastructure"),
    ("support", "Client Services")
  ]

  /**
   * The loop over a rename table: the index of the first key that occurs in
   * `lower`, if any.
   */
  function FirstKeyIn(table: seq<(string, string)>, lower: string): (r: Option<nat>)
    ensures r.Some? ==> r.value < |table| && Contains(lower, table[r.value].0)
    ensures r.Some? ==> forall l :: 0 <= l < r.value ==> !Contains(lower, table[l].0)
    ensures r.None? ==> forall i :: 0 <= i < |table| ==> !Contains(lower, table[i].0)
  {
    if table == [] then None
    else if Contains(lower, table[0].0) then Some(0)
    else
      match FirstKeyIn(table[1..], lower)
      case None => None
      case Some(j) => Some(j + 1)
  }

  /**
   * The DEPARTMENT branch of `_pseudonymize`: the value of the first key of
   * the table, in table order, that occurs in the lower-cased text, or
   * `Operations` when none does.
   */
  function DeptRename(text: string): string
  {
    match FirstKeyIn(DeptMapping, Lower(text))
    case Some(i) => DeptMapping[i].1
    case None => "Operations"
  }

  /** The renaming is the first matching key's value, and `Operations` exactly when no key matches. */
  lemma DeptRenameMeaning(text: string)
    ensures (forall i :: 0 <= i < |DeptMapping| ==> !Contains(Lower(text), DeptMapping[i].0)) <==> DeptRename(text) == "Operations"
    ensures DeptRename(text) != "Operations" ==>
      exists i :: 0 <= i < |DeptMapping| && Contains(Lower(text), DeptMapping[i].0)
        && (forall l :: 0 <= l < i ==> !Contains(Lower(text), DeptMapping[l].0))
        && DeptRename(text) == DeptMapping[i].1
  {
    DeptValuesNotDefault();
    FirstKeyInWithDefault(DeptMapping, Lower(text), "Operations");
  }

  /** No department is renamed to the fallback name. */
  lemma DeptValuesNotDefault()
    ensures forall i :: 0 <= i < |DeptMapping| ==> DeptMapping[i].1 != "Operations"
  {
    var values := seq(|DeptMapping|, i requires 0 <= i < |DeptMapping| => DeptMapping[i].1);
    assert values == ["Product Development", "Product Development", "Product Development", "Innovation",
                      "Business Development", "Growth", "People Operations", "People Operations",
                      "Accounting", "Financial Planning", "Customer Success", "Compliance",
                      "Governance", "Infrastructure", "Client Services"];
    assert "Innovation"[0] != "Operations"[0];
    assert "Accounting"[0] != "Operations"[0];
    assert "Compliance"[0] != "Operations"[0];
    assert "Governance"[0] != "Operations"[0];
  }

  /** The table lookup with a fallback value that no entry maps to. */
  lemma FirstKeyInWithDefault(table: seq<(string, string)>, lower: string, fallback: string)
    requires forall i :: 0 <= i < |table| ==> table[i].1 != fallback
    ensures var r := match FirstKeyIn(table, lower) case Some(i) => table[i].1 case None => fallback;
      && ((forall i :: 0 <= i < |table| ==> !Contains(lower, table[i].0)) <==> r == fallback)
      && (r != fallback ==>
            exists i :: 0 <= i < |table| && Contains(lower, table[i].0)
              && (forall l :: 0 <= l < i ==> !Contains(lower, table[l].0))
              && r == table[i].1)
  {
  }
}
