/** The mutable list view itself (`FilteredListView` in `src/itemcache.rs`), proved to behave as
    the finite map `Contents()` under every sequence of its operations. */
module ListView {
  import opened Wrappers
  import opened Text
  import opened ItemCache

  /** `binary_search_by` on the whole key. */
  method SearchKey(list: seq<ListItem>, key: ListKey) returns (found: bool, index: nat)
    requires Ordered(list)
    ensures found ==> index < |list| && list[index].Key() == key
    ensures !found ==> InsertionPoint(list, key, index)
  {
    var low, high := 0, |list|;
    while low < high
      invariant low <= high <= |list|
      invariant forall j :: 0 <= j < low ==> CompareKeys(list[j].Key(), key).Less?
      invariant forall j :: high <= j < |list| ==> CompareKeys(list[j].Key(), key).Greater?
    {
      var mid := low + (high - low) / 2;
      match CompareKeys(list[mid].Key(), key)
      case Equal =>
        CompareKeysEqual(list[mid].Key(), key);
        return true, mid;
      case Less =>
        forall j | 0 <= j < mid ensures CompareKeys(list[j].Key(), key).Less? {
          CompareKeysTransitive(list[j].Key(), list[mid].Key(), key);
        }
        low := mid + 1;
      case Greater =>
        CompareKeysMirror(key, list[mid].Key());
        forall j | mid < j < |list| ensures CompareKeys(list[j].Key(), key).Greater? {
          CompareKeysMirror(list[mid].Key(), list[j].Key());
          CompareKeysTransitive(key, list[mid].Key(), list[j].Key());
          CompareKeysMirror(key, list[j].Key());
        }
        high := mid;
    }
    return false, low;
  }

  /** `binary_search_by` on the name alone. Its contract leaves open which of several equal entries
      is found; callers may rely on nothing more. */
  method SearchName(list: seq<ListItem>, criteria: string) returns (index: nat)
    requires Ordered(list)
    ensures Landing(list, criteria, index)
  {
    var low, high := 0, |list|;
    while low < high
      invariant low <= high <= |list|
      invariant forall j :: 0 <= j < low ==> Compare(list[j].sortableName, criteria).Less?
      invariant forall j :: high <= j < |list| ==> Compare(list[j].sortableName, criteria).Greater?
    {
      var mid := low + (high - low) / 2;
      CompareEqual(list[mid].sortableName, criteria);
      match Compare(list[mid].sortableName, criteria)
      case Equal => return mid;
      case Less =>
        forall j | 0 <= j < mid ensures Compare(list[j].sortableName, criteria).Less? {
          NameBelow(list, j, mid, criteria);
        }
        low := mid + 1;
      case Greater =>
        forall j | mid < j < |list| ensures Compare(list[j].sortableName, criteria).Greater? {
          NameAbove(list, mid, j, criteria);
        }
        high := mid;
    }
    return low;
  }

  lemma NameBelow(s: seq<ListItem>, j: nat, mid: nat, criteria: string)
    requires Ordered(s) && j <= mid < |s| && Compare(s[mid].sortableName, criteria).Less?
    ensures Compare(s[j].sortableName, criteria).Less?
  {
    NameOrder(s, j, mid);
    CompareEqual(s[j].sortableName, s[mid].sortableName);
    if Compare(s[j].sortableName, s[mid].sortableName).Less? {
      CompareTransitive(s[j].sortableName, s[mid].sortableName, criteria);
    }
  }

  lemma NameAbove(s: seq<ListItem>, mid: nat, j: nat, criteria: string)
    requires Ordered(s) && mid <= j < |s| && Compare(s[mid].sortableName, criteria).Greater?
    ensures Compare(s[j].sortableName, criteria).Greater?
  {
    NameOrder(s, mid, j);
    CompareMirror(criteria, s[mid].sortableName);
    CompareMirror(criteria, s[j].sortableName);
    CompareTransitive(criteria, s[mid].sortableName, s[j].sortableName);
  }

  ghost predicate NamesLowered(lower: Lower, s: seq<ListItem>) {
    forall i :: 0 <= i < |s| ==> s[i].sortableName == lower(s[i].name)
  }

  lemma SortKeepsNames(lower: Lower, s: seq<ListItem>)
    requires NamesLowered(lower, s)
    ensures NamesLowered(lower, Sort(s))
  {
    forall i | 0 <= i < |Sort(s)| ensures Sort(s)[i].sortableName == lower(Sort(s)[i].name) {
      assert Sort(s)[i] in multiset(Sort(s));
      assert Sort(s)[i] in s;
    }
  }

  lemma InsertKeepsNames(lower: Lower, s: seq<ListItem>, x: ListItem, index: nat)
    requires NamesLowered(lower, s) && index <= |s| && x.sortableName == lower(x.name)
    ensures NamesLowered(lower, s[..index] + [x] + s[index..])
  {
  }

  class FilteredListView {
    const lower: Lower
    var list: seq<ListItem>
    var sorted: bool
    var filterRange: Option<(nat, nat)>

    /** Sort keys are the lowercased names, keys are unique, the flag tells the truth, and the
        filter range lies inside the list. */
    ghost predicate Valid()
      reads this
    {
      && NamesLowered(lower, list)
      && Distinct(list)
      && (sorted ==> Ordered(list))
      && (filterRange.Some? ==> filterRange.value.0 <= filterRange.value.1 <= |list|)
    }

    ghost function Contents(): map<ListKey, ListItem>
      reads this
    {
      AsMap(list)
    }

    constructor (lower: Lower)
      ensures Valid() && Contents() == map[] && this.lower == lower
    {
      this.lower := lower;
      list, sorted, filterRange := [], false, None;
    }

    method EnsureSorted()
      requires Valid()
      modifies this
      ensures Valid() && sorted && Ordered(list) && |list| == |old(list)|
      ensures Contents() == old(Contents()) && filterRange == old(filterRange)
    {
      if !sorted {
        SortKeepsMap(list);
        SortKeepsNames(lower, list);
        list, sorted := Sort(list), true;
      }
    }

    /** Appends without looking: the list stays proper exactly if the key was not in it. */
    method Push(item: ListItem)
      requires Valid() && item.sortableName == lower(item.name)
      modifies this
      ensures Valid() <==> item.Key() !in old(Contents())
      ensures Contents() == old(Contents())[item.Key() := item]
      ensures list == old(list) + [item] && !sorted && filterRange == old(filterRange)
    {
      PushKeepsDistinctIff(list, item);
      list := list + [item];
      sorted := false;
    }

    method Clear()
      modifies this
      ensures Valid() && Contents() == map[] && filterRange == None
    {
      list, sorted, filterRange := [], false, None;
    }

    method InsertUnique(item: ListItem) returns (previous: Option<ListItem>)
      requires Valid() && item.sortableName == lower(item.name)
      modifies this
      ensures Valid() && Contents() == old(Contents())[item.Key() := item] && filterRange == None
      ensures previous == if item.Key() in old(Contents()) then Some(old(Contents())[item.Key()]) else None
    {
      EnsureSorted();
      filterRange := None;
      var found, index := SearchKey(list, item.Key());
      if found {
        AsMapAt(list, index);
        ReplaceAt(list, item, index);
        previous := Some(list[index]);
        list := list[index := item];
      } else {
        AbsentAtInsertionPoint(list, item.Key(), index);
        InsertAt(list, item, index);
        InsertKeepsNames(lower, list, item, index);
        previous := None;
        list := list[..index] + [item] + list[index..];
      }
    }

    method Remove(key: ListKey) returns (removed: Option<ListItem>)
      requires Valid()
      modifies this
      ensures Valid() && Contents() == old(Contents()) - {key} && filterRange == None
      ensures removed == if key in old(Contents()) then Some(old(Contents())[key]) else None
    {
      EnsureSorted();
      filterRange := None;
      var found, index := SearchKey(list, key);
      if found {
        AsMapAt(list, index);
        RemoveAt(list, index);
        removed := Some(list[index]);
        list := list[..index] + list[index + 1..];
      } else {
        AbsentAtInsertionPoint(list, key, index);
        removed := None;
      }
    }

    /** `get`: the position stands for the mutable reference the original hands out. */
    method Get(key: ListKey) returns (index: Option<nat>)
      requires Valid()
      modifies this
      ensures Valid() && Contents() == old(Contents()) && filterRange == old(filterRange)
      ensures |list| == |old(list)|
      ensures index.Some? <==> key in Contents()
      ensures index.Some? ==>
                && index.value < |list| && list[index.value] == Contents()[key]
                && list[index.value].Key() == key
    {
      EnsureSorted();
      var found, i := SearchKey(list, key);
      if found {
        AsMapAt(list, i);
        index := Some(i);
      } else {
        AbsentAtInsertionPoint(list, key, i);
        index := None;
      }
    }

    /** A write through the reference `get` handed out, by a caller that leaves the key alone. */
    method Put(index: nat, item: ListItem)
      requires Valid() && index < |list| && item.Key() == list[index].Key()
      requires item.sortableName == lower(item.name)
      modifies this`list
      ensures Valid() && Contents() == old(Contents())[item.Key() := item]
    {
      ReplaceAt(list, item, index);
      list := list[index := item];
    }

    method FilterReset()
      requires Valid()
      modifies this`filterRange
      ensures Valid() && filterRange == Some((0, |list|))
    {
      filterRange := Some((0, |list|));
    }

    /** An empty list keeps its old range; an empty criterion selects everything. */
    method Filter(criteria: string) returns (ghost landed: nat)
      requires Valid()
      modifies this
      ensures Valid() && Contents() == old(Contents()) && Ordered(list) && |list| == |old(list)|
      ensures criteria == "" ==> filterRange == Some((0, |list|))
      ensures criteria != "" && list == [] ==> filterRange == old(filterRange)
      ensures criteria != "" && list != [] ==>
        Landing(list, criteria, landed) && FilterRange(list, criteria, landed, filterRange)
    {
      EnsureSorted();
      landed := 0;
      if |criteria| == 0 {
        FilterReset();
        return;
      }
      if |list| == 0 {
        return;
      }
      var index: nat := SearchName(list, criteria);
      landed := index;
      var probe := if index < |list| then index else |list| - 1;
      if !(criteria <= lower(list[probe].name)) {
        NoMatchWhenProbeFails(list, criteria, index, probe);
        filterRange := None;
      } else {
        assert Matches(list, criteria, probe);
        if probe != index { MatchNotBefore(list, criteria, probe); }
        var end;
        index, end := BlockAround(criteria, index);
        filterRange := Some((index, end));
      }
    }

    /** The two walks of `filter`: back from a match, but never to index 0, and on to the first miss. */
    method BlockAround(criteria: string, landed: nat) returns (index: nat, end: nat)
      requires Valid() && Ordered(list) && Landing(list, criteria, landed)
      requires landed < |list| && Matches(list, criteria, landed)
      ensures FilterRange(list, criteria, landed, Some((index, end)))
    {
      index := landed;
      while index >= 2
        invariant index <= landed && (landed >= 1 ==> index >= 1)
        invariant forall j: nat :: index <= j <= landed ==> Matches(list, criteria, j)
      {
        if criteria <= lower(list[index - 1].name) {
          assert Matches(list, criteria, index - 1);
          index := index - 1;
        } else {
          break;
        }
      }
      end := index + 1;
      while end < |list|
        invariant index < end <= |list|
        invariant forall j: nat :: index <= j < end ==> Matches(list, criteria, j)
      {
        if criteria <= lower(list[end].name) {
          end := end + 1;
        } else {
          break;
        }
      }
      RangeOfWalk(list, criteria, landed, index, end);
    }
  }

  lemma NoMatchWhenProbeFails(s: seq<ListItem>, criteria: string, landed: nat, probe: nat)
    requires Ordered(s) && s != [] && Landing(s, criteria, landed)
    requires probe == if landed < |s| then landed else |s| - 1
    requires !Matches(s, criteria, probe)
    ensures forall i: nat :: i < |s| ==> !Matches(s, criteria, i)
  {
    forall i: nat | i < |s| ensures !Matches(s, criteria, i) {
      if Matches(s, criteria, i) {
        MatchNotBefore(s, criteria, i);
        if landed < |s| {
          CompareMirror(criteria, s[landed].sortableName);
          CompareEqual(criteria, s[landed].sortableName);
          MatchBetween(s, criteria, landed, i);
        }
      }
    }
  }

  /** A match before the stopping point means the search stopped at an equal entry. */
  lemma RangeOfWalk(s: seq<ListItem>, criteria: string, landed: nat, index: nat, end: nat)
    requires Ordered(s) && Landing(s, criteria, landed)
    requires index <= landed < |s| && index < end <= |s|
    requires landed >= 1 ==> index >= 1
    requires forall j: nat :: index <= j < end ==> Matches(s, criteria, j)
    requires forall j: nat :: index <= j <= landed ==> Matches(s, criteria, j)
    requires index >= 2 ==> !Matches(s, criteria, index - 1)
    requires end < |s| ==> !Matches(s, criteria, end)
    ensures FilterRange(s, criteria, landed, Some((index, end)))
  {
    assert Matches(s, criteria, index);
    var first := if index == 1 && Matches(s, criteria, 0) then 0 else index;
    forall i: nat | i < |s| ensures first <= i < end <==> Matches(s, criteria, i) {
      if i < first && Matches(s, criteria, i) {
        MatchesContiguous(s, criteria, i, index - 1, index);
      }
      if i >= end && Matches(s, criteria, i) {
        MatchesContiguous(s, criteria, index, end, i);
      }
    }
    assert WholeBlock(s, criteria, first, end);
  }

  // ----- whole runs

  datatype Op =
    | InsertUnique(item: ListItem)
    | Remove(key: ListKey)
    | Get(key: ListKey)
    | Push(item: ListItem)
    | Clear
    | Filter(criteria: string)
    | FilterReset

  /** The same operation on a finite map. */
  ghost function MapStep(m: map<ListKey, ListItem>, op: Op): (map<ListKey, ListItem>, Option<ListItem>) {
    match op
    case InsertUnique(item) =>
      (m[item.Key() := item], if item.Key() in m then Some(m[item.Key()]) else None)
    case Remove(key) => (m - {key}, if key in m then Some(m[key]) else None)
    case Get(key) => (m, if key in m then Some(m[key]) else None)
    case Push(item) => (m[item.Key() := item], None)
    case Clear => (map[], None)
    case Filter(_) => (m, None)
    case FilterReset => (m, None)
  }

  ghost function MapRun(m: map<ListKey, ListItem>, ops: seq<Op>): (r: (map<ListKey, ListItem>, seq<Option<ListItem>>))
    ensures |r.1| == |ops|
  {
    if ops == [] then (m, [])
    else
      var (m1, results) := MapRun(m, ops[..|ops| - 1]);
      var (m2, result) := MapStep(m1, ops[|ops| - 1]);
      (m2, results + [result])
  }

  /** Items are built by `ListItem::new`, and a push is of a key not yet in the list. */
  ghost predicate Proper(lower: Lower, m: map<ListKey, ListItem>, ops: seq<Op>) {
    forall i :: 0 <= i < |ops| ==>
      && (ops[i].InsertUnique? || ops[i].Push? ==> ops[i].item.sortableName == lower(ops[i].item.name))
      && (ops[i].Push? ==> ops[i].item.Key() !in MapRun(m, ops[..i]).0)
  }

  method RunOp(view: FilteredListView, op: Op) returns (result: Option<ListItem>)
    requires view.Valid()
    requires op.InsertUnique? || op.Push? ==> op.item.sortableName == view.lower(op.item.name)
    requires op.Push? ==> op.item.Key() !in view.Contents()
    modifies view
    ensures view.Valid() && (view.Contents(), result) == MapStep(old(view.Contents()), op)
  {
    result := None;
    match op {
      case InsertUnique(item) => result := view.InsertUnique(item);
      case Remove(key) => result := view.Remove(key);
      case Get(key) =>
        var index := view.Get(key);
        if index.Some? { result := Some(view.list[index.value]); }
      case Push(item) => view.Push(item);
      case Clear => view.Clear();
      case Filter(criteria) => var _ := view.Filter(criteria);
      case FilterReset => view.FilterReset();
    }
  }

  /** Every sequence of operations gives the results, and leaves the contents, of the finite map. */
  method RunOps(view: FilteredListView, ops: seq<Op>) returns (results: seq<Option<ListItem>>)
    requires view.Valid() && Proper(view.lower, view.Contents(), ops)
    modifies view
    ensures view.Valid()
    ensures (view.Contents(), results) == MapRun(old(view.Contents()), ops)
  {
    results := [];
    for i := 0 to |ops|
      invariant view.Valid()
      invariant (view.Contents(), results) == MapRun(old(view.Contents()), ops[..i])
    {
      assert ops[..i + 1][..i] == ops[..i];
      var result := RunOp(view, ops[i]);
      results := results + [result];
    }
    assert ops[..|ops|] == ops;
  }
}
