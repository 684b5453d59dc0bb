/**
 * The left-to-right scan of `re.finditer` and `re.findall` for a pattern
 * whose matches are never empty: try the pattern at each position; after a
 * match, go on from its end, otherwise from the next position. The pattern
 * is a parameter: `m(p)` is the match the pattern makes at `p`, if any, and
 * `start` and `end` give the span of a match.
 */
module Scanning {
  import opened Wrappers

  /** `m` only reports non-empty matches that start where they are tried and end within the text. */
  ghost predicate Matcher<M>(m: nat -> Option<M>, start: M -> nat, end: M -> nat, n: nat) {
    forall p: nat :: m(p).Some? ==> start(m(p).value) == p < end(m(p).value) <= n
  }

  /** The matches found from `from` on in a text of length `n`: in order and without overlaps. */
  function FindAll<M>(m: nat -> Option<M>, start: M -> nat, end: M -> nat, n: nat, from: nat): (r: seq<M>)
    requires Matcher(m, start, end, n)
    ensures forall k :: 0 <= k < |r| ==> from <= start(r[k]) < end(r[k]) <= n
    ensures forall k :: 0 < k < |r| ==> end(r[k - 1]) <= start(r[k])
    decreases n - from
  {
    if from >= n then []
    else match m(from)
      case Some(x) =>
        var rest := FindAll(m, start, end, n, end(x));
        assert forall k :: 0 < k < |rest| + 1 ==> ([x] + rest)[k] == rest[k - 1];
        [x] + rest
      case None => FindAll(m, start, end, n, from + 1)
  }

  /** Every match found is what the pattern matches at its start. */
  lemma {:induction false} FindAllSound<M>(m: nat -> Option<M>, start: M -> nat, end: M -> nat, n: nat, from: nat)
    requires Matcher(m, start, end, n)
    ensures forall k :: 0 <= k < |FindAll(m, start, end, n, from)| ==>
      m(start(FindAll(m, start, end, n, from)[k])) == Some(FindAll(m, start, end, n, from)[k])
    decreases n - from
  {
    if from < n {
      match m(from)
      case Some(x) =>
        var rest := FindAll(m, start, end, n, end(x));
        FindAllSound(m, start, end, n, end(x));
        var r := [x] + rest;
        assert FindAll(m, start, end, n, from) == r;
        forall k | 0 <= k < |r| ensures m(start(r[k])) == Some(r[k]) {
          if k == 0 {
            assert r[k] == x;
          } else {
            assert r[k] == rest[k - 1];
            assert m(start(rest[k - 1])) == Some(rest[k - 1]);
          }
        }
      case None =>
        FindAllSound(m, start, end, n, from + 1);
        assert FindAll(m, start, end, n, from) == FindAll(m, start, end, n, from + 1);
    }
  }

  /** Where the pattern matches nowhere from `from` on, nothing is found. */
  lemma {:induction false} FindAllNone<M>(m: nat -> Option<M>, start: M -> nat, end: M -> nat, n: nat, from: nat)
    requires Matcher(m, start, end, n)
    requires forall p: nat :: from <= p ==> m(p).None?
    ensures FindAll(m, start, end, n, from) == []
    decreases n - from
  {
    if from < n {
      FindAllNone(m, start, end, n, from + 1);
    }
  }

  /** Position `p` lies inside one of the matches in `r`. */
  predicate Covers<M>(r: seq<M>, start: M -> nat, end: M -> nat, p: nat) {
    exists k :: 0 <= k < |r| && start(r[k]) <= p < end(r[k])
  }

  /**
   * No match is skipped: wherever the pattern matches from `from` on, that
   * position lies inside a match found, which starts there or overlaps it.
   */
  lemma {:induction false} FindAllComplete<M>(m: nat -> Option<M>, start: M -> nat, end: M -> nat, n: nat, from: nat, p: nat)
    requires Matcher(m, start, end, n)
    requires from <= p && m(p).Some?
    ensures Covers(FindAll(m, start, end, n, from), start, end, p)
    decreases n - from
  {
    assert p < n;
    var r := FindAll(m, start, end, n, from);
    match m(from)
    case None =>
      assert from != p;
      FindAllComplete(m, start, end, n, from + 1, p);
      assert r == FindAll(m, start, end, n, from + 1);
    case Some(x) =>
      var rest := FindAll(m, start, end, n, end(x));
      assert r == [x] + rest;
      if end(x) <= p {
        FindAllComplete(m, start, end, n, end(x), p);
        var k :| 0 <= k < |rest| && start(rest[k]) <= p < end(rest[k]);
        assert r[k + 1] == rest[k];
      } else {
        assert start(r[0]) <= p < end(r[0]);
      }
  }
}
