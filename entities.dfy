/**
 * The entity records the two detectors produce, and the position-based
 * de-duplication that both `detect_all` and `anonymize_file` run on them.
 */
module Entities {
  import opened Sorting

  /**
   * One detected span of the text: the dict with keys `type`, `category`,
   * `text`, `start`, `end` and `severity`. The detectors (scrubadub, spaCy and
   * the regular expressions) are not modelled; their outputs are inputs here.
   */
  datatype Entity = Entity(kind: string, category: string, text: string, start: nat, end: nat, severity: string)

  /** The de-duplication key `(entity['start'], entity['end'])`. */
  function Key(e: Entity): (nat, nat) {
    (e.start, e.end)
  }

  /** The order of `sorted(..., key=lambda x: x['start'])`. */
  predicate ByStart(a: Entity, b: Entity) {
    a.start <= b.start
  }

  lemma ByStartIsPreorder()
    ensures Total(ByStart) && Transitive(ByStart)
  {
  }

  /** No two entities share a `(start, end)` key. */
  predicate DistinctKeys(s: seq<Entity>) {
    forall k, l :: 0 <= k < l < |s| ==> Key(s[k]) != Key(s[l])
  }

  /** Some entity of `s` has key `x`. */
  predicate HasKey(s: seq<Entity>, x: (nat, nat)) {
    exists k :: 0 <= k < |s| && Key(s[k]) == x
  }

  lemma HasKeySnoc(s: seq<Entity>, e: Entity, x: (nat, nat))
    ensures HasKey(s + [e], x) <==> HasKey(s, x) || x == Key(e)
  {
    if HasKey(s + [e], x) {
      var k :| 0 <= k < |s + [e]| && Key((s + [e])[k]) == x;
      if k < |s| { assert Key(s[k]) == x; }
    }
    if HasKey(s, x) {
      var k :| 0 <= k < |s| && Key(s[k]) == x;
      assert Key((s + [e])[k]) == x;
    }
    assert Key((s + [e])[|s|]) == Key(e);
  }

  /**
   * The first entity of every `(start, end)` key of `s`, in order: what the
   * `seen`-set loop of `detect_all` and `anonymize_file` keeps.
   */
  function FirstPerKey(s: seq<Entity>): (r: seq<Entity>)
    ensures |r| <= |s|
  {
    if s == [] then []
    else
      var r := FirstPerKey(s[..|s| - 1]);
      if HasKey(r, Key(s[|s| - 1])) then r else r + [s[|s| - 1]]
  }

  /** `e` occurs in `s` at an index before which no entity has the key of `e`. */
  predicate FirstOfKeyIn(s: seq<Entity>, e: Entity) {
    exists j :: 0 <= j < |s| && s[j] == e && !HasKey(s[..j], Key(e))
  }

  /** The kept entities have exactly the keys of the input. */
  lemma {:induction false} FirstPerKeyKeys(s: seq<Entity>, x: (nat, nat))
    ensures HasKey(FirstPerKey(s), x) <==> HasKey(s, x)
  {
    if s != [] {
      var init, last := s[..|s| - 1], s[|s| - 1];
      assert s == init + [last];
      FirstPerKeyKeys(init, x);
      FirstPerKeyKeys(init, Key(last));
      HasKeySnoc(init, last, x);
      HasKeySnoc(FirstPerKey(init), last, x);
    }
  }

  /** No key is kept twice. */
  lemma {:induction false} FirstPerKeyDistinct(s: seq<Entity>)
    ensures DistinctKeys(FirstPerKey(s))
  {
    if s != [] {
      var init, last := s[..|s| - 1], s[|s| - 1];
      FirstPerKeyDistinct(init);
      var r := FirstPerKey(init);
      if !HasKey(r, Key(last)) {
        assert forall k :: 0 <= k < |r| ==> Key(r[k]) != Key(last);
      }
    }
  }

  /** Every kept entity is the first of its key in the input. */
  lemma {:induction false} FirstPerKeyFirst(s: seq<Entity>)
    ensures forall k :: 0 <= k < |FirstPerKey(s)| ==> FirstOfKeyIn(s, FirstPerKey(s)[k])
  {
    if s != [] {
      var init, last := s[..|s| - 1], s[|s| - 1];
      FirstPerKeyFirst(init);
      var r := FirstPerKey(init);
      forall k | 0 <= k < |r| ensures FirstOfKeyIn(s, r[k]) {
        var j :| 0 <= j < |init| && init[j] == r[k] && !HasKey(init[..j], Key(r[k]));
        assert s[j] == r[k] && s[..j] == init[..j];
      }
      if !HasKey(r, Key(last)) {
        FirstPerKeyKeys(init, Key(last));
        assert s[..|s| - 1] == init;
        assert FirstOfKeyIn(s, last);
      }
    }
  }

  /** Every kept entity comes from the input, and a sorted input stays sorted. */
  lemma {:induction false} FirstPerKeySorted(s: seq<Entity>)
    ensures forall k :: 0 <= k < |FirstPerKey(s)| ==> FirstPerKey(s)[k] in s
    ensures Sorted(s, ByStart) ==> Sorted(FirstPerKey(s), ByStart)
  {
    if s != [] {
      var init, last := s[..|s| - 1], s[|s| - 1];
      FirstPerKeySorted(init);
      var r := FirstPerKey(init);
      assert forall k :: 0 <= k < |r| ==> r[k] in s by {
        assert forall e :: e in init ==> e in s;
      }
      if Sorted(s, ByStart) {
        assert Sorted(init, ByStart);
        forall k | 0 <= k < |r| ensures r[k].start <= last.start {
          var j :| 0 <= j < |init| && init[j] == r[k];
          assert s[j] == r[k];
        }
      }
    }
  }

  /** The `seen`-set loop over `s`. */
  method KeepFirstPerKey(s: seq<Entity>) returns (unique: seq<Entity>)
    ensures unique == FirstPerKey(s)
  {
    unique := [];
    var seen: set<(nat, nat)> := {};
    for i := 0 to |s|
      invariant unique == FirstPerKey(s[..i])
      invariant forall x :: x in seen <==> HasKey(unique, x)
    {
      assert s[..i + 1][..i] == s[..i];
      var key := Key(s[i]);
      forall x ensures HasKey(unique + [s[i]], x) <==> HasKey(unique, x) || x == key {
        HasKeySnoc(unique, s[i], x);
      }
      if key !in seen {
        unique := unique + [s[i]];
        seen := seen + {key};
      }
    }
    assert s[..|s|] == s;
  }

  /** What `detect_all` and `anonymize_file` keep of the detected entities `all`. */
  function Unique(all: seq<Entity>): seq<Entity> {
    FirstPerKey(SortBy(all, ByStart))
  }

  /** `sorted(all, key=start)` followed by the `seen`-set loop. */
  method UniqueByPosition(all: seq<Entity>) returns (unique: seq<Entity>)
    ensures unique == Unique(all)
  {
    var sorted := SortBy(all, ByStart);
    unique := KeepFirstPerKey(sorted);
  }

  /**
   * The kept entities are ordered by start, have one entity per
   * `(start, end)` key of `all`, and each is the first of its key in the
   * sorted list. Entities that overlap without sharing both ends are all kept.
   */
  lemma UniqueFacts(all: seq<Entity>)
    ensures var unique := Unique(all);
      && Sorted(unique, ByStart)
      && DistinctKeys(unique)
      && (forall k :: 0 <= k < |unique| ==> unique[k] in all)
      && (forall x :: HasKey(unique, x) <==> HasKey(all, x))
      && (forall k :: 0 <= k < |unique| ==> FirstOfKeyIn(SortBy(all, ByStart), unique[k]))
      && (unique == [] <==> all == [])
  {
    var sorted := SortBy(all, ByStart);
    var unique := Unique(all);
    ByStartIsPreorder();
    SortBySorted(all, ByStart);
    FirstPerKeyDistinct(sorted);
    FirstPerKeyFirst(sorted);
    FirstPerKeySorted(sorted);
    forall x ensures HasKey(unique, x) <==> HasKey(all, x) {
      FirstPerKeyKeys(sorted, x);
      SamePermutationKeys(sorted, all, x);
    }
    forall k | 0 <= k < |unique| ensures unique[k] in all {
      assert unique[k] in multiset(sorted);
    }
    if all != [] {
      assert HasKey(all, Key(all[0]));
    }
  }

  /** Two lists with the same multiset have the same keys. */
  lemma SamePermutationKeys(a: seq<Entity>, b: seq<Entity>, x: (nat, nat))
    requires multiset(a) == multiset(b)
    ensures HasKey(a, x) <==> HasKey(b, x)
  {
    if HasKey(a, x) {
      var k :| 0 <= k < |a| && Key(a[k]) == x;
      assert a[k] in multiset(b);
      var j :| 0 <= j < |b| && b[j] == a[k];
    }
    if HasKey(b, x) {
      var k :| 0 <= k < |b| && Key(b[k]) == x;
      assert b[k] in multiset(a);
      var j :| 0 <= j < |a| && a[j] == b[k];
    }
  }
}
