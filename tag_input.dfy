/**
 * The suggestion rule shared by the two tag inputs (the TagsManager of
 * src/Lightbox.tsx and src/MultiTagFilter.tsx): the known tags that contain
 * the typed text case-insensitively and are not taken yet, in the order the
 * known tags come in, cut off after `limit`. Lower-casing is a parameter: the
 * model does not interpret Unicode case mapping.
 */
module TagInput {
  import opened Common

  /** `tag.toLowerCase().includes(value.toLowerCase()) && !taken.includes(tag)`. */
  predicate Suggestible(tag: string, taken: seq<string>, value: string, lower: string -> string) {
    Includes(lower(tag), lower(value)) && tag !in taken
  }

  function SuggestibleTest(taken: seq<string>, value: string, lower: string -> string): string -> bool {
    tag => Suggestible(tag, taken, value, lower)
  }

  /** `allTags.filter(...).slice(0, limit)`. */
  function Suggest(allTags: seq<string>, taken: seq<string>, value: string, lower: string -> string, limit: nat): (r: seq<string>)
    ensures |r| <= limit
    ensures forall t :: t in r ==> t in allTags && Suggestible(t, taken, value, lower)
    ensures |r| < limit ==> forall t :: t in allTags && Suggestible(t, taken, value, lower) ==> t in r
    ensures NoDup(allTags) ==> NoDup(r)
    ensures NoDup(allTags) ==> forall k, l :: 0 <= k < l < |r| ==> IndexOf(allTags, r[k]) < IndexOf(allTags, r[l])
    ensures NoDup(allTags) ==>
              forall i, j :: 0 <= i < j < |allTags| && allTags[j] in r && Suggestible(allTags[i], taken, value, lower) ==> allTags[i] in r
  {
    var m := Filter(allTags, SuggestibleTest(taken, value, lower));
    FilterMembers(allTags, SuggestibleTest(taken, value, lower));
    var r := m[..Min(limit, |m|)];
    assert forall t :: t in r ==> t in m;
    FilterNoDup(allTags, SuggestibleTest(taken, value, lower));
    if NoDup(allTags) then
      FilterPrefixOrder(allTags, SuggestibleTest(taken, value, lower), Min(limit, |m|));
      r
    else r
  }

  /**
   * A prefix of `filter` over a duplicate-free list keeps the list's order, and
   * holds every passing element that comes before one it holds.
   */
  lemma FilterPrefixOrder<T>(s: seq<T>, p: T -> bool, n: nat)
    requires NoDup(s) && n <= |Filter(s, p)|
    ensures var r := Filter(s, p)[..n];
            && (forall k, l :: 0 <= k < l < |r| ==> IndexOf(s, r[k]) < IndexOf(s, r[l]))
            && (forall i, j :: 0 <= i < j < |s| && s[j] in r && p(s[i]) ==> s[i] in r)
  {
    var idx := FilterIndices(s, p);
    PrefixKeepsOrder(s, Filter(s, p), idx, n);
    PrefixTakesFirst(s, p, idx, n);
  }

  lemma PrefixKeepsOrder<T>(s: seq<T>, f: seq<T>, idx: seq<int>, n: nat)
    requires NoDup(s) && Positions(s, f, idx) && n <= |f|
    ensures forall k, l :: 0 <= k < l < n ==> IndexOf(s, f[..n][k]) < IndexOf(s, f[..n][l])
  {
    forall k | 0 <= k < |idx| ensures IndexOf(s, f[k]) == idx[k] {
      IndexOfUnique(s, idx[k]);
    }
  }

  lemma PrefixTakesFirst<T>(s: seq<T>, p: T -> bool, idx: seq<int>, n: nat)
    requires NoDup(s) && Positions(s, Filter(s, p), idx) && n <= |Filter(s, p)|
    requires forall i :: 0 <= i < |s| && p(s[i]) ==> i in idx
    ensures forall i, j :: 0 <= i < j < |s| && s[j] in Filter(s, p)[..n] && p(s[i]) ==> s[i] in Filter(s, p)[..n]
  {
    var r := Filter(s, p)[..n];
    forall i, j | 0 <= i < j < |s| && s[j] in r && p(s[i]) ensures s[i] in r {
      var k :| 0 <= k < n && r[k] == s[j];
      PositionUnique(s, idx[k], j);
      var k' :| 0 <= k' < |idx| && idx[k'] == i;
      assert r[k'] == s[i];
    }
  }

  /** In a duplicate-free list, `indexOf` finds an element where it is. */
  lemma IndexOfUnique<T>(s: seq<T>, i: int)
    requires NoDup(s) && 0 <= i < |s|
    ensures IndexOf(s, s[i]) == i
  {
    var q := IndexOf(s, s[i]);
    PositionUnique(s, q, i);
  }

  lemma PositionUnique<T>(s: seq<T>, i: int, j: int)
    requires NoDup(s) && 0 <= i < |s| && 0 <= j < |s| && s[i] == s[j]
    ensures i == j
  {
  }

  /** Filtering a duplicate-free sequence gives a duplicate-free one. */
  lemma {:induction false} FilterNoDup<T>(s: seq<T>, p: T -> bool)
    ensures NoDup(s) ==> NoDup(Filter(s, p))
  {
    if |s| > 0 && NoDup(s) {
      FilterMembers(s[1..], p);
      assert NoDup(s[1..]) by {
        forall i, j | 0 <= i < j < |s[1..]| ensures s[1..][i] != s[1..][j] {
          assert s[1..][i] == s[i + 1] && s[1..][j] == s[j + 1];
        }
      }
      FilterNoDup(s[1..], p);
      assert s[0] !in s[1..] by {
        forall j | 0 <= j < |s[1..]| ensures s[1..][j] != s[0] {
          assert s[1..][j] == s[j + 1];
        }
      }
    }
  }

  /** Removing a tag: `tags.filter(t => t !== tag)`. */
  function WithoutTag(tags: seq<string>, tag: string): (r: seq<string>)
    ensures tag !in r
    ensures forall t :: t != tag ==> multiset(r)[t] == multiset(tags)[t]
  {
    var r := Filter(tags, OtherThan(tag));
    FilterMembers(tags, OtherThan(tag));
    forall t ensures multiset(r)[t] == if t != tag then multiset(tags)[t] else 0 {
      FilterCount(tags, OtherThan(tag), t);
    }
    r
  }

  function OtherThan(tag: string): string -> bool {
    t => t != tag
  }

  /** Appending a tag that was not there and removing it again gives back the list. */
  lemma AppendThenRemove(tags: seq<string>, tag: string)
    requires tag !in tags
    ensures WithoutTag(tags + [tag], tag) == tags
  {
    FilterConcat(tags, [tag], OtherThan(tag));
    FilterAll(tags, OtherThan(tag));
  }

  /** Removing a tag that is not there changes nothing. */
  lemma RemoveAbsent(tags: seq<string>, tag: string)
    requires tag !in tags
    ensures WithoutTag(tags, tag) == tags
  {
    FilterAll(tags, OtherThan(tag));
  }

  /** Appending a tag that is not there keeps a duplicate-free list duplicate-free. */
  lemma AppendKeepsNoDup(tags: seq<string>, tag: string)
    requires NoDup(tags) && tag !in tags
    ensures NoDup(tags + [tag])
  {
  }
}
