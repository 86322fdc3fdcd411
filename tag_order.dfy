/**
 * The last two steps of tag generation: `sorted` with the key
 * `(not tag.startswith("HBO-i/niveau-"), tag)`, then `list(dict.fromkeys(...))`,
 * which removes repeated tags and keeps each at its first position.
 */
module TagOrder {
  import opened Text

  /** The prefix that marks a level tag. */
  const LevelPrefix: string := "HBO-i/niveau-"

  predicate IsLevelTag(t: string) {
    StartsWith(t, LevelPrefix)
  }

  /**
   * Python's `<` on the sort keys of two tags: `False < True`, so level tags
   * come first; within a group, tags compare as strings.
   */
  predicate KeyLess(a: string, b: string) {
    if IsLevelTag(a) != IsLevelTag(b) then IsLevelTag(a) else LexLess(a, b)
  }

  predicate KeyLe(a: string, b: string) {
    a == b || KeyLess(a, b)
  }

  lemma KeyLessIrreflexive(a: string)
    ensures !KeyLess(a, a)
  {
    LexLessIrreflexive(a);
  }

  lemma KeyLessTransitive(a: string, b: string, c: string)
    requires KeyLess(a, b) && KeyLess(b, c)
    ensures KeyLess(a, c)
  {
    if IsLevelTag(a) == IsLevelTag(b) == IsLevelTag(c) {
      LexLessTransitive(a, b, c);
    }
  }

  lemma KeyLessTotal(a: string, b: string)
    requires a != b
    ensures KeyLess(a, b) || KeyLess(b, a)
  {
    LexLessTotal(a, b);
  }

  lemma KeyLeTransitive(a: string, b: string, c: string)
    requires KeyLe(a, b) && KeyLe(b, c)
    ensures KeyLe(a, c)
  {
    if a != b && b != c {
      KeyLessTransitive(a, b, c);
    }
  }

  /** Ascending by sort key (repeats allowed). */
  ghost predicate Sorted(s: seq<string>) {
    forall i, j :: 0 <= i < j < |s| ==> KeyLe(s[i], s[j])
  }

  /** Strictly ascending by sort key: ascending and without repeats. */
  ghost predicate StrictlyOrdered(s: seq<string>) {
    forall i, j :: 0 <= i < j < |s| ==> KeyLess(s[i], s[j])
  }

  ghost predicate Distinct(s: seq<string>) {
    forall i, j :: 0 <= i < j < |s| ==> s[i] != s[j]
  }

  /** Places `x` in front of the first element it does not exceed. */
  function Insert(x: string, s: seq<string>): seq<string>
    decreases |s|
  {
    if s == [] then [x]
    else if KeyLe(x, s[0]) then [x] + s
    else [s[0]] + Insert(x, s[1..])
  }

  /** Insertion sort by the key; it stands for Python's `sorted`. */
  function SortTags(s: seq<string>): seq<string>
    decreases |s|
  {
    if s == [] then [] else Insert(s[0], SortTags(s[1..]))
  }

  lemma {:induction false} InsertPermutes(x: string, s: seq<string>)
    ensures multiset(Insert(x, s)) == multiset(s) + multiset{x}
    decreases |s|
  {
    if s != [] && !KeyLe(x, s[0]) {
      InsertPermutes(x, s[1..]);
      assert s == [s[0]] + s[1..];
    }
  }

  /** Every element of `Insert(x, s)` is `x` or an element of `s`. */
  lemma InsertElements(x: string, s: seq<string>, k: nat)
    requires k < |Insert(x, s)|
    ensures Insert(x, s)[k] == x || exists m :: 0 <= m < |s| && s[m] == Insert(x, s)[k]
  {
    var r := Insert(x, s);
    InsertPermutes(x, s);
    assert r[k] in multiset(r);
    if r[k] != x {
      assert r[k] in multiset(s);
      assert r[k] in s;
    }
  }

  lemma {:induction false} InsertSorted(x: string, s: seq<string>)
    requires Sorted(s)
    ensures Sorted(Insert(x, s))
    decreases |s|
  {
    if s != [] && !KeyLe(x, s[0]) {
      var rest := Insert(x, s[1..]);
      assert Sorted(s[1..]) by {
        forall i, j | 0 <= i < j < |s[1..]| ensures KeyLe(s[1..][i], s[1..][j]) {
          assert s[1..][i] == s[i + 1] && s[1..][j] == s[j + 1];
        }
      }
      InsertSorted(x, s[1..]);
      KeyLessTotal(x, s[0]);
      forall k | 0 <= k < |rest|
        ensures KeyLe(s[0], rest[k])
      {
        InsertElements(x, s[1..], k);
        if rest[k] != x {
          var m :| 0 <= m < |s[1..]| && s[1..][m] == rest[k];
          assert s[m + 1] == rest[k];
        }
      }
      var r := [s[0]] + rest;
      assert Insert(x, s) == r;
      forall i, j | 0 <= i < j < |r|
        ensures KeyLe(r[i], r[j])
      {
        if i > 0 {
          assert r[i] == rest[i - 1] && r[j] == rest[j - 1];
        } else {
          assert r[j] == rest[j - 1];
        }
      }
    } else if s != [] {
      var r := [x] + s;
      forall i, j | 0 <= i < j < |r|
        ensures KeyLe(r[i], r[j])
      {
        if i > 0 {
          assert r[i] == s[i - 1] && r[j] == s[j - 1];
        } else if j > 1 {
          assert r[j] == s[j - 1];
          KeyLeTransitive(x, s[0], s[j - 1]);
        }
      }
    }
  }

  /** The sort yields an ascending permutation of its input. */
  lemma {:induction false} SortTagsSortsPermutes(s: seq<string>)
    ensures Sorted(SortTags(s))
    ensures multiset(SortTags(s)) == multiset(s)
    decreases |s|
  {
    if s != [] {
      SortTagsSortsPermutes(s[1..]);
      InsertSorted(s[0], SortTags(s[1..]));
      InsertPermutes(s[0], SortTags(s[1..]));
      assert s == [s[0]] + s[1..];
    }
  }

  /** Python's `list(dict.fromkeys(s))`: the first occurrence of each tag, in order. */
  function Dedup(s: seq<string>): seq<string>
    decreases |s|
  {
    if s == [] then []
    else
      var r := Dedup(s[..|s| - 1]);
      if s[|s| - 1] in r then r else r + [s[|s| - 1]]
  }

  /** Deduplication keeps exactly the elements of its input, each once. */
  lemma {:induction false} DedupElements(s: seq<string>)
    ensures forall x :: x in Dedup(s) <==> x in s
    ensures Distinct(Dedup(s))
    decreases |s|
  {
    if s != [] {
      var init := s[..|s| - 1];
      DedupElements(init);
      assert s == init + [s[|s| - 1]];
    }
  }

  /** Deduplication keeps the order of an ascending input. */
  lemma {:induction false} DedupKeepsOrder(s: seq<string>)
    requires Sorted(s)
    ensures Sorted(Dedup(s))
    decreases |s|
  {
    if s != [] {
      var init := s[..|s| - 1];
      var last := s[|s| - 1];
      assert Sorted(init) by {
        forall i, j | 0 <= i < j < |init| ensures KeyLe(init[i], init[j]) {
          assert init[i] == s[i] && init[j] == s[j];
        }
      }
      DedupKeepsOrder(init);
      DedupElements(init);
      var r := Dedup(init);
      if last !in r {
        forall k | 0 <= k < |r| ensures KeyLe(r[k], last) {
          assert r[k] in init;
          var m :| 0 <= m < |init| && init[m] == r[k];
          assert s[m] == r[k];
        }
        assert Sorted(r + [last]) by {
          var t := r + [last];
          forall i, j | 0 <= i < j < |t| ensures KeyLe(t[i], t[j]) {
            if j < |r| {
              assert t[i] == r[i] && t[j] == r[j];
            } else {
              assert t[i] == r[i] && t[j] == last;
            }
          }
        }
      }
    }
  }

  /** An ascending sequence without repeats is strictly ascending. */
  lemma SortedDistinctIsStrict(s: seq<string>)
    requires Sorted(s) && Distinct(s)
    ensures StrictlyOrdered(s)
  {
    forall i, j | 0 <= i < j < |s| ensures KeyLess(s[i], s[j]) {
      assert KeyLe(s[i], s[j]) && s[i] != s[j];
    }
  }

  /**
   * The tag list handed back by tag generation (lines 88-90): no repeats, the
   * same tags as the input, every level tag before every other tag, and each
   * of the two groups in strictly ascending string order.
   */
  function FinalTags(combined: seq<string>): (r: seq<string>)
    ensures Distinct(r)
    ensures forall x :: x in r <==> x in combined
    ensures forall i, j :: 0 <= i < j < |r| && IsLevelTag(r[j]) ==> IsLevelTag(r[i])
    ensures forall i, j :: 0 <= i < j < |r| && IsLevelTag(r[i]) == IsLevelTag(r[j]) ==> LexLess(r[i], r[j])
  {
    var sorted := SortTags(combined);
    SortTagsSortsPermutes(combined);
    assert forall x :: x in sorted <==> x in combined by {
      forall x ensures x in sorted <==> x in combined {
        assert x in sorted <==> x in multiset(sorted);
        assert x in combined <==> x in multiset(combined);
      }
    }
    DedupElements(sorted);
    DedupKeepsOrder(sorted);
    SortedDistinctIsStrict(Dedup(sorted));
    Dedup(sorted)
  }

  /** A non-empty list holds its first element. */
  lemma HeadIsElement(s: seq<string>)
    ensures s != [] ==> s[0] in s
  {
  }

  /**
   * A strictly ascending listing is determined by its elements: the result
   * of `FinalTags` is the one strictly ascending list of the input's tags.
   */
  lemma {:induction false} StrictlyOrderedUnique(a: seq<string>, b: seq<string>)
    requires StrictlyOrdered(a) && StrictlyOrdered(b)
    requires forall x :: x in a <==> x in b
    ensures a == b
    decreases |a|
  {
    if a == [] {
      HeadIsElement(b);
    } else {
      assert a[0] in b;
      assert b != [];
      assert b[0] in b;
      if a[0] != b[0] {
        var k :| 0 <= k < |b| && b[k] == a[0];
        var m :| 0 <= m < |a| && a[m] == b[0];
        assert KeyLess(b[0], a[0]) && KeyLess(a[0], b[0]);
        KeyLessTransitive(a[0], b[0], a[0]);
        KeyLessIrreflexive(a[0]);
      }
      forall x ensures x in a[1..] <==> x in b[1..] {
        if x in a[1..] {
          var m :| 0 <= m < |a[1..]| && a[1..][m] == x;
          assert KeyLess(a[0], a[m + 1]);
          KeyLessIrreflexive(x);
          assert x != a[0];
          assert x in b;
          assert b == [b[0]] + b[1..];
        }
        if x in b[1..] {
          var m :| 0 <= m < |b[1..]| && b[1..][m] == x;
          assert KeyLess(b[0], b[m + 1]);
          KeyLessIrreflexive(x);
          assert x != b[0];
          assert x in a;
          assert a == [a[0]] + a[1..];
        }
      }
      StrictlyOrderedUnique(a[1..], b[1..]);
      assert a == [a[0]] + a[1..] && b == [b[0]] + b[1..];
    }
  }

  /** Any strictly ascending list of the combined tags is the final tag list. */
  lemma FinalTagsIsTheOrderedListing(combined: seq<string>, listing: seq<string>)
    requires StrictlyOrdered(listing)
    requires forall x :: x in listing <==> x in combined
    ensures FinalTags(combined) == listing
  {
    var r := FinalTags(combined);
    assert StrictlyOrdered(r) by {
      forall i, j | 0 <= i < j < |r| ensures KeyLess(r[i], r[j]) {
        if IsLevelTag(r[i]) == IsLevelTag(r[j]) {
          assert LexLess(r[i], r[j]);
        } else {
          assert IsLevelTag(r[i]);
        }
      }
    }
    StrictlyOrderedUnique(r, listing);
  }
}
