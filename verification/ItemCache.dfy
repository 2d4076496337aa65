/** The display cache of vault entries (`src/itemcache.rs`): a vector that is sorted only when a
    lookup needs it, searched by bisection, and filtered by name prefix into an index range.
    It stands in for a finite map from (lowercased name, guid) to item. */
module ItemCache {
  import opened Wrappers
  import opened Text

  /** `str::to_lowercase`; nothing below depends on what it does. */
  type Lower = string -> string

  datatype ListKey = ListKey(name: string, guid: string)

  datatype ListItem = ListItem(
    name: string, sortableName: string, extra: string, guid: string, atime: nat, count: nat)
  {
    function Key(): ListKey { ListKey(sortableName, guid) }
  }

  function KeyFromParts(lower: Lower, name: string, guid: string): ListKey {
    ListKey(lower(name), guid)
  }

  function NewItem(lower: Lower, name: string, extra: string, guid: string, atime: nat, count: nat): ListItem {
    ListItem(name, lower(name), extra, guid, atime, count)
  }

  /** `Ord` of `ListItem` and of `ListKey`, and the mixed comparisons between them. */
  function CompareKeys(a: ListKey, b: ListKey): Ordering {
    Compare(a.name, b.name).Then(Compare(a.guid, b.guid))
  }

  lemma CompareKeysEqual(a: ListKey, b: ListKey)
    ensures CompareKeys(a, b).Equal? <==> a == b
  {
    CompareEqual(a.name, b.name);
    CompareEqual(a.guid, b.guid);
  }

  lemma CompareKeysMirror(a: ListKey, b: ListKey)
    ensures CompareKeys(a, b).Less? <==> CompareKeys(b, a).Greater?
  {
    CompareMirror(a.name, b.name);
    CompareMirror(b.name, a.name);
    CompareMirror(a.guid, b.guid);
  }

  lemma CompareKeysTransitive(a: ListKey, b: ListKey, c: ListKey)
    requires CompareKeys(a, b).Less? && !CompareKeys(b, c).Greater?
    ensures CompareKeys(a, c).Less?
  {
    CompareEqual(a.name, b.name);
    CompareEqual(b.name, c.name);
    if Compare(a.name, b.name).Less? {
      CompareTransitive(a.name, b.name, c.name);
    } else {
      if Compare(b.name, c.name).Equal? {
        CompareTransitive(a.guid, b.guid, c.guid);
      }
    }
  }

  ghost predicate Distinct(s: seq<ListItem>) {
    forall i, j :: 0 <= i < j < |s| ==> s[i].Key() != s[j].Key()
  }

  ghost predicate Ordered(s: seq<ListItem>) {
    forall i, j :: 0 <= i < j < |s| ==> CompareKeys(s[i].Key(), s[j].Key()).Less?
  }

  /** The finite map a list of items stands for. */
  ghost function AsMap(s: seq<ListItem>): map<ListKey, ListItem> {
    if s == [] then map[]
    else AsMap(s[..|s| - 1])[s[|s| - 1].Key() := s[|s| - 1]]
  }

  /** `a` comes first in the dictionary: a proper prefix of `b`, or smaller at the first difference. */
  ghost predicate Before(a: string, b: string) {
    exists i: nat :: FirstDifference(a, b, i) && (i == |a| || (i < |b| && a[i] < b[i]))
  }

  lemma {:induction false} Differ(a: string, b: string) returns (i: nat)
    requires a != b
    ensures FirstDifference(a, b, i)
  {
    if a == [] || b == [] || a[0] != b[0] {
      i := 0;
    } else {
      assert a == [a[0]] + a[1..] && b == [b[0]] + b[1..];
      i := Differ(a[1..], b[1..]);
      i := i + 1;
      assert a[..i] == [a[0]] + a[1..][..i - 1] && b[..i] == [b[0]] + b[1..][..i - 1];
    }
  }

  lemma LessIsBefore(a: string, b: string)
    ensures Compare(a, b).Less? <==> Before(a, b)
  {
    CompareEqual(a, b);
    if a != b {
      var i := Differ(a, b);
      CompareIsDictionary(a, b, i);
    }
    forall i: nat | FirstDifference(a, b, i) && (i == |a| || (i < |b| && a[i] < b[i])) ensures Compare(a, b).Less? {
      CompareIsDictionary(a, b, i);
    }
  }

  /** A list in order shows its items as a dictionary would: by lowercased name, and by guid where two
      names are the same. */
  lemma OrderedIsAlphabeticalIff(s: seq<ListItem>)
    ensures Ordered(s) <==> forall i, j :: 0 <= i < j < |s| ==>
      || Before(s[i].sortableName, s[j].sortableName)
      || (s[i].sortableName == s[j].sortableName && Before(s[i].guid, s[j].guid))
  {
    forall i, j | 0 <= i < j < |s|
      ensures CompareKeys(s[i].Key(), s[j].Key()).Less? <==>
        || Before(s[i].sortableName, s[j].sortableName)
        || (s[i].sortableName == s[j].sortableName && Before(s[i].guid, s[j].guid))
    {
      LessIsBefore(s[i].sortableName, s[j].sortableName);
      LessIsBefore(s[i].guid, s[j].guid);
      CompareEqual(s[i].sortableName, s[j].sortableName);
    }
  }

  lemma OrderedIsDistinct(s: seq<ListItem>)
    requires Ordered(s)
    ensures Distinct(s)
  {
    forall i, j | 0 <= i < j < |s| ensures s[i].Key() != s[j].Key() {
      CompareKeysEqual(s[i].Key(), s[j].Key());
    }
  }

  lemma {:induction false} AsMapAt(s: seq<ListItem>, i: nat)
    requires Distinct(s) && i < |s|
    ensures s[i].Key() in AsMap(s) && AsMap(s)[s[i].Key()] == s[i]
  {
    if i < |s| - 1 {
      AsMapAt(s[..|s| - 1], i);
    }
  }

  lemma {:induction false} AsMapIndex(s: seq<ListItem>, k: ListKey) returns (i: nat)
    requires Distinct(s) && k in AsMap(s)
    ensures i < |s| && s[i].Key() == k && AsMap(s)[k] == s[i]
  {
    if s[|s| - 1].Key() == k {
      i := |s| - 1;
    } else {
      i := AsMapIndex(s[..|s| - 1], k);
    }
  }

  lemma AbsentIff(s: seq<ListItem>, k: ListKey)
    requires Distinct(s)
    ensures k !in AsMap(s) <==> forall i :: 0 <= i < |s| ==> s[i].Key() != k
  {
    if k in AsMap(s) {
      var i := AsMapIndex(s, k);
    }
    forall i | 0 <= i < |s| && s[i].Key() == k ensures k in AsMap(s) {
      AsMapAt(s, i);
    }
  }

  lemma AsMapIs(s: seq<ListItem>, m: map<ListKey, ListItem>)
    requires Distinct(s)
    requires forall i :: 0 <= i < |s| ==> s[i].Key() in m && m[s[i].Key()] == s[i]
    requires forall k :: k in m ==> m[k] in s && m[k].Key() == k
    ensures AsMap(s) == m
  {
    forall k | k in AsMap(s) ensures k in m && AsMap(s)[k] == m[k] {
      var i := AsMapIndex(s, k);
    }
    forall k | k in m ensures k in AsMap(s) {
      var i :| 0 <= i < |s| && s[i] == m[k];
      AsMapAt(s, i);
    }
  }

  lemma AsMapMember(s: seq<ListItem>, k: ListKey)
    requires Distinct(s) && k in AsMap(s)
    ensures AsMap(s)[k] in s && AsMap(s)[k].Key() == k
  {
    var i := AsMapIndex(s, k);
  }

  lemma SameElementsSameMap(s: seq<ListItem>, t: seq<ListItem>)
    requires Distinct(s) && Distinct(t)
    requires forall x :: x in s <==> x in t
    ensures AsMap(s) == AsMap(t)
  {
    forall k | k in AsMap(t) ensures AsMap(t)[k] in s && AsMap(t)[k].Key() == k {
      AsMapMember(t, k);
    }
    forall i | 0 <= i < |s| ensures s[i].Key() in AsMap(t) && AsMap(t)[s[i].Key()] == s[i] {
      assert s[i] in t;
      var j :| 0 <= j < |t| && t[j] == s[i];
      AsMapAt(t, j);
    }
    AsMapIs(s, AsMap(t));
  }

  // ----- sorting

  function Insert(x: ListItem, s: seq<ListItem>): (r: seq<ListItem>)
    ensures multiset(r) == multiset(s) + multiset{x}
  {
    if s == [] || CompareKeys(x.Key(), s[0].Key()).Less? then [x] + s
    else
      assert s == [s[0]] + s[1..];
      [s[0]] + Insert(x, s[1..])
  }

  /** `Vec::sort`: a stable sort; for distinct keys every sort gives this result. */
  function Sort(s: seq<ListItem>): (r: seq<ListItem>)
    ensures multiset(r) == multiset(s)
  {
    if s == [] then []
    else
      assert s == [s[0]] + s[1..];
      Insert(s[0], Sort(s[1..]))
  }

  lemma MembersOf(s: seq<ListItem>, t: seq<ListItem>, x: ListItem)
    requires multiset(s) == multiset(t) + multiset{x}
    ensures forall y :: y in s <==> y == x || y in t
  {
    forall y ensures y in s <==> y == x || y in t {
      assert y in s <==> y in multiset(s);
      assert y in t <==> y in multiset(t);
    }
  }

  lemma {:induction false} InsertOrdered(x: ListItem, s: seq<ListItem>)
    requires Ordered(s) && forall y :: y in s ==> y.Key() != x.Key()
    ensures Ordered(Insert(x, s))
  {
    if s != [] {
      CompareKeysEqual(x.Key(), s[0].Key());
      CompareKeysMirror(x.Key(), s[0].Key());
      CompareKeysMirror(s[0].Key(), x.Key());
      if CompareKeys(x.Key(), s[0].Key()).Less? {
        forall j | 0 < j < |s| ensures CompareKeys(x.Key(), s[j].Key()).Less? {
          CompareKeysTransitive(x.Key(), s[0].Key(), s[j].Key());
        }
      } else {
        assert forall y :: y in s[1..] ==> y in s;
        InsertOrdered(x, s[1..]);
        var r := Insert(x, s[1..]);
        MembersOf(r, s[1..], x);
        forall j | 0 <= j < |r| ensures CompareKeys(s[0].Key(), r[j].Key()).Less? {
          assert r[j] in r;
        }
      }
    }
  }

  lemma {:induction false} SortOrdered(s: seq<ListItem>)
    requires Distinct(s)
    ensures Ordered(Sort(s))
  {
    if s != [] {
      SortOrdered(s[1..]);
      forall y | y in Sort(s[1..]) ensures y.Key() != s[0].Key() {
        assert y in multiset(Sort(s[1..]));
        assert y in s[1..];
      }
      InsertOrdered(s[0], Sort(s[1..]));
    }
  }

  /** Sorting loses nothing: same map, now in order. */
  lemma SortKeepsMap(s: seq<ListItem>)
    requires Distinct(s)
    ensures Ordered(Sort(s)) && Distinct(Sort(s)) && AsMap(Sort(s)) == AsMap(s)
    ensures |Sort(s)| == |s|
  {
    SortOrdered(s);
    OrderedIsDistinct(Sort(s));
    forall x ensures x in s <==> x in Sort(s) {
      assert x in s <==> x in multiset(s);
      assert x in Sort(s) <==> x in multiset(Sort(s));
    }
    SameElementsSameMap(s, Sort(s));
    assert |multiset(s)| == |s| && |multiset(Sort(s))| == |Sort(s)|;
  }

  // ----- what the vector operations do to the map

  /** No key at or after `index` is below `key`, and no key before it is at or above. */
  ghost predicate InsertionPoint(s: seq<ListItem>, key: ListKey, index: nat) {
    && index <= |s|
    && (forall j :: 0 <= j < index ==> CompareKeys(s[j].Key(), key).Less?)
    && (forall j :: index <= j < |s| ==> CompareKeys(s[j].Key(), key).Greater?)
  }

  lemma AbsentAtInsertionPoint(s: seq<ListItem>, key: ListKey, index: nat)
    requires Distinct(s) && InsertionPoint(s, key, index)
    ensures key !in AsMap(s)
  {
    forall j | 0 <= j < |s| ensures s[j].Key() != key {
      CompareKeysEqual(s[j].Key(), key);
    }
    AbsentIff(s, key);
  }

  lemma InsertAt(s: seq<ListItem>, x: ListItem, index: nat)
    requires Ordered(s) && Distinct(s) && InsertionPoint(s, x.Key(), index)
    ensures var t := s[..index] + [x] + s[index..];
            Ordered(t) && Distinct(t) && AsMap(t) == AsMap(s)[x.Key() := x]
  {
    var t := s[..index] + [x] + s[index..];
    forall i, j | 0 <= i < j < |t| ensures CompareKeys(t[i].Key(), t[j].Key()).Less? {
      if i == index {
        CompareKeysMirror(x.Key(), t[j].Key());
      }
    }
    OrderedIsDistinct(t);
    AbsentAtInsertionPoint(s, x.Key(), index);
    SameElementsPlus(s, x, t);
  }

  lemma SameElementsPlus(s: seq<ListItem>, x: ListItem, t: seq<ListItem>)
    requires Distinct(s) && Distinct(t) && x.Key() !in AsMap(s)
    requires forall y :: y in t <==> y == x || y in s
    ensures AsMap(t) == AsMap(s)[x.Key() := x]
  {
    PushAsMap(s, x);
    SameElementsSameMap(t, s + [x]);
  }

  lemma PushAsMap(s: seq<ListItem>, x: ListItem)
    requires Distinct(s) && x.Key() !in AsMap(s)
    ensures Distinct(s + [x]) && AsMap(s + [x]) == AsMap(s)[x.Key() := x]
  {
    AbsentIff(s, x.Key());
    assert (s + [x])[..|s|] == s;
  }

  lemma PushKeepsDistinctIff(s: seq<ListItem>, x: ListItem)
    requires Distinct(s)
    ensures Distinct(s + [x]) <==> x.Key() !in AsMap(s)
    ensures AsMap(s + [x]) == AsMap(s)[x.Key() := x]
  {
    AbsentIff(s, x.Key());
    var t := s + [x];
    assert t[..|s|] == s;
    if x.Key() in AsMap(s) {
      var i := AsMapIndex(s, x.Key());
      assert t[i].Key() == t[|s|].Key();
    }
  }

  lemma ReplaceAt(s: seq<ListItem>, x: ListItem, index: nat)
    requires Distinct(s) && index < |s| && s[index].Key() == x.Key()
    ensures Distinct(s[index := x]) && AsMap(s[index := x]) == AsMap(s)[x.Key() := x]
    ensures Ordered(s) ==> Ordered(s[index := x])
  {
    var t, m := s[index := x], AsMap(s)[x.Key() := x];
    assert forall i :: 0 <= i < |s| ==> t[i].Key() == s[i].Key();
    forall i | 0 <= i < |t| ensures t[i].Key() in m && m[t[i].Key()] == t[i] {
      AsMapAt(s, i);
    }
    forall k | k in m ensures m[k] in t && m[k].Key() == k {
      if k == x.Key() {
        assert t[index] == x;
      } else {
        var i := AsMapIndex(s, k);
        assert t[i] == s[i];
      }
    }
    AsMapIs(t, m);
  }

  lemma RemoveKeepsOrder(s: seq<ListItem>, index: nat)
    requires Distinct(s) && index < |s|
    ensures var t := s[..index] + s[index + 1..]; Distinct(t) && (Ordered(s) ==> Ordered(t))
  {
  }

  lemma RemoveAt(s: seq<ListItem>, index: nat)
    requires Distinct(s) && index < |s|
    ensures var t := s[..index] + s[index + 1..];
            Distinct(t) && AsMap(t) == AsMap(s) - {s[index].Key()} && (Ordered(s) ==> Ordered(t))
  {
    RemoveKeepsOrder(s, index);
    var t, m := s[..index] + s[index + 1..], AsMap(s) - {s[index].Key()};
    forall i | 0 <= i < |t| ensures t[i].Key() in m && m[t[i].Key()] == t[i] {
      AsMapAt(s, if i < index then i else i + 1);
    }
    forall k | k in m ensures m[k] in t && m[k].Key() == k {
      var i := AsMapIndex(s, k);
      assert t[if i < index then i else i - 1] == s[i];
    }
    AsMapIs(t, m);
  }

  // ----- prefix filtering

  ghost predicate Matches(s: seq<ListItem>, criteria: string, i: nat)
    requires i < |s|
  {
    criteria <= s[i].sortableName
  }

  /** The positions a search by name may stop at: `binary_search_by` promises some equal entry if
      there is one, any of them, and the insertion point otherwise. */
  ghost predicate Landing(s: seq<ListItem>, criteria: string, landed: nat) {
    || (landed < |s| && s[landed].sortableName == criteria)
    || (&& landed <= |s|
        && (forall j :: 0 <= j < landed ==> Compare(s[j].sortableName, criteria).Less?)
        && (forall j :: landed <= j < |s| ==> Compare(s[j].sortableName, criteria).Greater?))
  }

  /** `[start, end)` is exactly the set of matching positions, and not empty. */
  ghost predicate WholeBlock(s: seq<ListItem>, criteria: string, start: nat, end: nat) {
    start < end <= |s| && forall i: nat :: i < |s| ==> (start <= i < end <==> Matches(s, criteria, i))
  }

  /** The range `filter` leaves when its search stops at `landed`: the block of all matches, but
      walked back to no further than position 1 once the search went past position 0. */
  ghost predicate FilterRange(s: seq<ListItem>, criteria: string, landed: nat, range: Option<(nat, nat)>) {
    if exists i: nat :: i < |s| && Matches(s, criteria, i) then
      exists first: nat, end: nat ::
        && WholeBlock(s, criteria, first, end)
        && range == Some((if first == 0 && landed >= 1 then 1 else first, end))
    else range == None
  }

  lemma NameOrder(s: seq<ListItem>, i: nat, j: nat)
    requires Ordered(s) && i <= j < |s|
    ensures !Compare(s[i].sortableName, s[j].sortableName).Greater?
  {
    if i == j {
      CompareEqual(s[i].sortableName, s[j].sortableName);
    } else {
      assert CompareKeys(s[i].Key(), s[j].Key()).Less?;
    }
  }

  /** A match at `j` and a position between the criterion and `j`: a match too. */
  lemma MatchBetween(s: seq<ListItem>, criteria: string, i: nat, j: nat)
    requires Ordered(s) && i <= j < |s| && Matches(s, criteria, j)
    requires !Compare(criteria, s[i].sortableName).Greater?
    ensures Matches(s, criteria, i)
  {
    NameOrder(s, i, j);
    PrefixConvex(criteria, s[i].sortableName, s[j].sortableName);
  }

  /** Nothing before the criterion's place matches; a match is at or after it. */
  lemma MatchNotBefore(s: seq<ListItem>, criteria: string, i: nat)
    requires i < |s| && Matches(s, criteria, i)
    ensures !Compare(s[i].sortableName, criteria).Less?
  {
    PrefixNotAfter(criteria, s[i].sortableName);
    CompareMirror(s[i].sortableName, criteria);
  }

  /** Matches before the position of an equal entry are equal entries themselves. */
  lemma MatchBeforeEqual(s: seq<ListItem>, criteria: string, i: nat, landed: nat)
    requires Ordered(s) && i <= landed < |s| && s[landed].sortableName == criteria
    ensures Matches(s, criteria, i) <==> s[i].sortableName == criteria
  {
    NameOrder(s, i, landed);
    if Matches(s, criteria, i) {
      MatchNotBefore(s, criteria, i);
      CompareEqual(s[i].sortableName, criteria);
    }
  }

  lemma MatchesContiguous(s: seq<ListItem>, criteria: string, i: nat, k: nat, j: nat)
    requires Ordered(s) && i <= k <= j < |s| && Matches(s, criteria, i) && Matches(s, criteria, j)
    ensures Matches(s, criteria, k)
  {
    PrefixNotAfter(criteria, s[i].sortableName);
    NameOrder(s, i, k);
    CompareEqual(criteria, s[i].sortableName);
    CompareEqual(s[i].sortableName, s[k].sortableName);
    if Compare(criteria, s[i].sortableName).Less? {
      CompareTransitive(criteria, s[i].sortableName, s[k].sortableName);
    }
    MatchBetween(s, criteria, k, j);
  }

  /** The filter shows all matches, whatever equal entry the search stops at, exactly when the
      criterion is not the lowercased name of both of the first two entries. */
  lemma FilterIsCompleteIff(s: seq<ListItem>, criteria: string)
    requires Ordered(s)
    requires exists i: nat :: i < |s| && Matches(s, criteria, i)
    ensures (forall landed: nat, range | Landing(s, criteria, landed) && FilterRange(s, criteria, landed, range) ::
               range.Some? && WholeBlock(s, criteria, range.value.0, range.value.1))
            <==> !(|s| >= 2 && s[0].sortableName == s[1].sortableName == criteria)
  {
    if |s| >= 2 && s[0].sortableName == s[1].sortableName == criteria {
      var end := BlockEnd(s, criteria, 0, |s|);
      var range := Some((1, end));
      assert Matches(s, criteria, 0) && Matches(s, criteria, 1);
      forall i: nat | i < |s| ensures 0 <= i < end <==> Matches(s, criteria, i) {
        if i >= end && Matches(s, criteria, i) {
          MatchesContiguous(s, criteria, 0, end, i);
        }
        if i < end { MatchesContiguous(s, criteria, 0, i, end - 1); }
      }
      assert WholeBlock(s, criteria, 0, end);
      assert Landing(s, criteria, 1) && FilterRange(s, criteria, 1, range);
      assert !WholeBlock(s, criteria, 1, end);
    } else {
      forall landed: nat, range | Landing(s, criteria, landed) && FilterRange(s, criteria, landed, range)
        ensures range.Some? && WholeBlock(s, criteria, range.value.0, range.value.1)
      {
        var first: nat, end: nat :| WholeBlock(s, criteria, first, end)
          && range == Some((if first == 0 && landed >= 1 then 1 else first, end));
        if first == 0 && landed >= 1 {
          assert Matches(s, criteria, 0);
          MatchNotBefore(s, criteria, 0);
          MatchBeforeEqual(s, criteria, 0, landed);
          MatchBetweenEqual(s, criteria, 0, 1, landed);
        }
      }
    }
  }

  lemma MatchBetweenEqual(s: seq<ListItem>, criteria: string, i: nat, k: nat, j: nat)
    requires Ordered(s) && i <= k <= j < |s|
    requires s[i].sortableName == criteria && s[j].sortableName == criteria
    ensures s[k].sortableName == criteria
  {
    MatchesContiguous(s, criteria, i, k, j);
    MatchBeforeEqual(s, criteria, k, j);
  }

  ghost function BlockEnd(s: seq<ListItem>, criteria: string, from: nat, bound: nat): (end: nat)
    requires from < bound <= |s| && Matches(s, criteria, from)
    ensures from < end <= bound && Matches(s, criteria, end - 1)
    ensures end < bound ==> !Matches(s, criteria, end)
    decreases bound - from
  {
    if from + 1 == bound || !Matches(s, criteria, from + 1) then from + 1
    else BlockEnd(s, criteria, from + 1, bound)
  }
}
