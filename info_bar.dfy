/**
 * The expandable information bar: working hours sorted Monday first, each day
 * shown as "Closed", a 12-hour time range or "Call for hours", the Monday row
 * always visible and the other days behind a "See more / See less" toggle.
 */
module InfoBarExpandable {
  import opened Wrappers
  import opened Text
  import opened BusinessSchema

  const DayOrder: seq<string> :=
    ["monday", "tuesday", "wednesday", "thursday", "friday", "saturday", "sunday"]

  /** `dayOrder.indexOf(d.day)`: 0 for monday … 6 for sunday, -1 for any other name. */
  function DayIndex(d: DaySchedule): (k: int)
    ensures -1 <= k <= 6
    ensures k == -1 <==> d.day !in DayOrder
    ensures k >= 0 ==> DayOrder[k] == d.day
  {
    IndexOfIsFirst(DayOrder, d.day);
    IndexOf(DayOrder, d.day)
  }

  predicate IsMonday(d: DaySchedule) {
    d.day == "monday"
  }

  predicate NotMonday(d: DaySchedule) {
    d.day != "monday"
  }

  /** Monday, and only Monday, has index 0. */
  lemma MondayIsIndexZero()
    ensures forall d :: IsMonday(d) <==> DayIndex(d) == 0
    ensures forall d :: NotMonday(d) <==> DayIndex(d) != 0
  {
    forall d ensures IsMonday(d) <==> DayIndex(d) == 0 {
      if d.day == "monday" {
        assert DayOrder[0] == d.day;
      }
    }
  }

  // ---------------------------------------------------------------------------
  // Ordering by a key in -1..6
  //
  // `sort((a, b) => key(a) - key(b))` with a key of seven weekday values and
  // -1 for the rest. The reasoning is done for any element type and key, so
  // that no proof has to look inside a schedule entry.
  // ---------------------------------------------------------------------------

  ghost predicate KeyInRange<T(!new)>(key: T -> int) {
    forall d :: -1 <= key(d) <= 6
  }

  predicate SortedBy<T>(s: seq<T>, key: T -> int) {
    forall i, j :: 0 <= i < j < |s| ==> key(s[i]) <= key(s[j])
  }

  /** The entries of `s` whose key is `k`, in their order in `s`. */
  function Group<T>(s: seq<T>, key: T -> int, k: int): (r: seq<T>)
    ensures |r| <= |s|
  {
    if |s| == 0 then []
    else (if key(s[0]) == k then [s[0]] else []) + Group(s[1..], key, k)
  }

  /** The entries with key `lo`, then those with `lo + 1`, … up to 6. */
  function GroupsFrom<T>(s: seq<T>, key: T -> int, lo: int): seq<T>
    decreases 7 - lo
  {
    if lo > 6 then [] else Group(s, key, lo) + GroupsFrom(s, key, lo + 1)
  }

  lemma {:induction false} GroupMembers<T>(s: seq<T>, key: T -> int, k: int)
    ensures forall d :: d in Group(s, key, k) ==> d in s && key(d) == k
  {
    if s != [] {
      GroupMembers(s[1..], key, k);
    }
  }

  lemma {:induction false} GroupConcat<T>(a: seq<T>, b: seq<T>, key: T -> int, k: int)
    ensures Group(a + b, key, k) == Group(a, key, k) + Group(b, key, k)
  {
    if a == [] {
      assert a + b == b;
    } else {
      var head := if key(a[0]) == k then [a[0]] else [];
      calc {
        Group(a + b, key, k);
        { assert (a + b)[0] == a[0]; assert (a + b)[1..] == a[1..] + b; }
        head + Group(a[1..] + b, key, k);
        { GroupConcat(a[1..], b, key, k); }
        head + (Group(a[1..], key, k) + Group(b, key, k));
        Group(a, key, k) + Group(b, key, k);
      }
    }
  }

  /** Swapping two neighbours with different keys leaves every group as it was. */
  lemma SwapInGroup<T>(pre: seq<T>, x: T, y: T, post: seq<T>, key: T -> int, k: int)
    requires key(x) != key(y)
    ensures Group(pre + [y, x] + post, key, k) == Group(pre + [x, y] + post, key, k)
  {
    GroupConcat(pre + [x, y], post, key, k);
    GroupConcat(pre, [x, y], key, k);
    GroupConcat(pre + [y, x], post, key, k);
    GroupConcat(pre, [y, x], key, k);
    assert Group([x, y], key, k) == Group([y, x], key, k) by {
      assert [x, y][1..] == [y] && [y, x][1..] == [x];
    }
  }

  lemma SwapKeepsGroups<T>(s: seq<T>, key: T -> int, j: int)
    requires 0 < j < |s| && key(s[j - 1]) != key(s[j])
    ensures forall k :: Group(s[j - 1 := s[j]][j := s[j - 1]], key, k) == Group(s, key, k)
  {
    var x, y, pre, post := s[j - 1], s[j], s[..j - 1], s[j + 1..];
    assert s == pre + [x, y] + post;
    assert s[j - 1 := s[j]][j := s[j - 1]] == pre + [y, x] + post;
    forall k ensures Group(pre + [y, x] + post, key, k) == Group(pre + [x, y] + post, key, k) {
      SwapInGroup(pre, x, y, post, key, k);
    }
  }

  /** A leading entry with a key below `lo` is in none of the groups from `lo` on. */
  lemma {:induction false} SkipLowerKey<T>(x: T, t: seq<T>, key: T -> int, lo: int)
    requires key(x) < lo
    ensures GroupsFrom([x] + t, key, lo) == GroupsFrom(t, key, lo)
    decreases 7 - lo
  {
    if lo <= 6 {
      var s := [x] + t;
      assert s[0] == x && s[1..] == t;
      assert Group(s, key, lo) == Group(t, key, lo);
      SkipLowerKey(x, t, key, lo + 1);
      assert GroupsFrom(s, key, lo) == Group(s, key, lo) + GroupsFrom(s, key, lo + 1);
    }
  }

  lemma {:induction false} EmptyGroup<T>(s: seq<T>, key: T -> int, k: int)
    requires forall d :: d in s ==> key(d) != k
    ensures Group(s, key, k) == []
  {
    if s != [] {
      assert s[0] in s;
      assert forall d :: d in s[1..] ==> d in s;
      EmptyGroup(s[1..], key, k);
    }
  }

  lemma {:induction false} NoGroupsOfNothing<T>(key: T -> int, lo: int)
    ensures GroupsFrom([], key, lo) == []
    decreases 7 - lo
  {
    if lo <= 6 {
      NoGroupsOfNothing(key, lo + 1);
    }
  }

  lemma SortedTail<T>(s: seq<T>, key: T -> int)
    requires s != [] && SortedBy(s, key)
    ensures SortedBy(s[1..], key)
  {
    var t := s[1..];
    forall i, j | 0 <= i < j < |t| ensures key(t[i]) <= key(t[j]) {
      assert t[i] == s[i + 1] && t[j] == s[j + 1];
    }
  }

  /** In key order, a first key above `lo` puts every key above `lo`. */
  lemma SortedAbove<T>(s: seq<T>, key: T -> int, lo: int)
    requires s != [] && SortedBy(s, key) && key(s[0]) > lo
    ensures forall d :: d in s ==> lo + 1 <= key(d)
  {
    forall d | d in s ensures lo + 1 <= key(d) {
      var i :| 0 <= i < |s| && s[i] == d;
      if i > 0 {
        assert key(s[0]) <= key(s[i]);
      }
    }
  }

  /** A leading entry with key `lo` heads the groups from `lo` on. */
  lemma HeadLeadsGroups<T>(x: T, t: seq<T>, key: T -> int, lo: int)
    requires key(x) == lo && lo <= 6
    ensures GroupsFrom([x] + t, key, lo) == [x] + GroupsFrom(t, key, lo)
  {
    assert ([x] + t)[1..] == t;
    SkipLowerKey(x, t, key, lo + 1);
    assert Group([x] + t, key, lo) == [x] + Group(t, key, lo);
  }

  /** A sequence already in key order is its own sequence of groups. */
  lemma {:induction false} SortedIsGroups<T(!new)>(s: seq<T>, key: T -> int, lo: int)
    requires KeyInRange(key) && SortedBy(s, key)
    requires forall d :: d in s ==> lo <= key(d)
    ensures GroupsFrom(s, key, lo) == s
    decreases |s| + 7 - lo
  {
    if s == [] {
      NoGroupsOfNothing(key, lo);
    } else if key(s[0]) > lo {
      SortedAbove(s, key, lo);
      EmptyGroup(s, key, lo);
      SortedIsGroups(s, key, lo + 1);
    } else {
      var x, t := s[0], s[1..];
      assert s == [x] + t;
      assert forall d :: d in t ==> d in s;
      SortedTail(s, key);
      SortedIsGroups(t, key, lo);
      HeadLeadsGroups(x, t, key, lo);
    }
  }

  /** The sequence of groups depends on nothing but the groups. */
  lemma {:induction false} SameGroupsSameOrder<T>(s: seq<T>, t: seq<T>, key: T -> int, lo: int)
    requires forall k :: Group(s, key, k) == Group(t, key, k)
    ensures GroupsFrom(s, key, lo) == GroupsFrom(t, key, lo)
    decreases 7 - lo
  {
    if lo <= 6 {
      SameGroupsSameOrder(s, t, key, lo + 1);
    }
  }

  lemma {:induction false} GroupsFromSorted<T>(s: seq<T>, key: T -> int, lo: int)
    ensures SortedBy(GroupsFrom(s, key, lo), key)
    ensures forall d :: d in GroupsFrom(s, key, lo) ==> lo <= key(d)
    decreases 7 - lo
  {
    if lo <= 6 {
      GroupsFromSorted(s, key, lo + 1);
      GroupMembers(s, key, lo);
      var a, b := Group(s, key, lo), GroupsFrom(s, key, lo + 1);
      var r := a + b;
      forall i, j | 0 <= i < j < |r| ensures key(r[i]) <= key(r[j]) {
        if j < |a| {
          assert r[i] in a && r[j] in a;
        } else if i < |a| {
          assert r[i] in a && r[j] == b[j - |a|] && r[j] in b;
        } else {
          assert r[i] == b[i - |a|] && r[j] == b[j - |a|];
        }
      }
    }
  }

  lemma {:induction false} GroupTwice<T>(s: seq<T>, key: T -> int, lo: int, k: int)
    ensures Group(Group(s, key, lo), key, k) == if lo == k then Group(s, key, k) else []
  {
    if s != [] {
      var head := if key(s[0]) == lo then [s[0]] else [];
      GroupConcat(head, Group(s[1..], key, lo), key, k);
      GroupTwice(s[1..], key, lo, k);
    }
  }

  lemma {:induction false} GroupOfGroupsFrom<T>(s: seq<T>, key: T -> int, lo: int, k: int)
    requires -1 <= k <= 6
    ensures Group(GroupsFrom(s, key, lo), key, k) == if lo <= k then Group(s, key, k) else []
    decreases 7 - lo
  {
    if lo <= 6 {
      GroupConcat(Group(s, key, lo), GroupsFrom(s, key, lo + 1), key, k);
      GroupTwice(s, key, lo, k);
      GroupOfGroupsFrom(s, key, lo + 1, k);
    }
  }

  /** The entries of `s` whose key is at least `lo`. */
  function KeyAtLeast<T>(s: seq<T>, key: T -> int, lo: int): seq<T> {
    if |s| == 0 then []
    else (if key(s[0]) >= lo then [s[0]] else []) + KeyAtLeast(s[1..], key, lo)
  }

  lemma {:induction false} KeyAtLeastSplit<T>(s: seq<T>, key: T -> int, lo: int)
    ensures multiset(KeyAtLeast(s, key, lo))
            == multiset(Group(s, key, lo)) + multiset(KeyAtLeast(s, key, lo + 1))
  {
    if s != [] {
      KeyAtLeastSplit(s[1..], key, lo);
    }
  }

  lemma {:induction false} KeyAtLeastBounds<T(!new)>(s: seq<T>, key: T -> int)
    requires KeyInRange(key)
    ensures KeyAtLeast(s, key, -1) == s && KeyAtLeast(s, key, 7) == []
  {
    if s != [] {
      assert s == [s[0]] + s[1..];
      KeyAtLeastBounds(s[1..], key);
    }
  }

  lemma {:induction false} GroupsFromMultiset<T>(s: seq<T>, key: T -> int, lo: int)
    requires lo <= 7
    ensures multiset(GroupsFrom(s, key, lo)) + multiset(KeyAtLeast(s, key, 7)) == multiset(KeyAtLeast(s, key, lo))
    decreases 7 - lo
  {
    if lo <= 6 {
      var g, rest := Group(s, key, lo), GroupsFrom(s, key, lo + 1);
      var top := multiset(KeyAtLeast(s, key, 7));
      calc {
        multiset(GroupsFrom(s, key, lo)) + top;
        { assert GroupsFrom(s, key, lo) == g + rest; }
        multiset(g + rest) + top;
        multiset(g) + (multiset(rest) + top);
        { GroupsFromMultiset(s, key, lo + 1); }
        multiset(g) + multiset(KeyAtLeast(s, key, lo + 1));
        { KeyAtLeastSplit(s, key, lo); }
        multiset(KeyAtLeast(s, key, lo));
      }
    }
  }

  /**
   * An in-place stable sort of `a` by `key`: insertion, each step swapping two
   * neighbours that are out of order.
   */
  method SortByKey<T>(a: array<T>, key: T -> int)
    modifies a
    ensures SortedBy(a[..], key)
    ensures forall k :: Group(a[..], key, k) == Group(old(a[..]), key, k)
  {
    var i := 0;
    while i < a.Length
      invariant 0 <= i <= a.Length
      invariant forall p, q :: 0 <= p < q < i ==> key(a[p]) <= key(a[q])
      invariant forall k :: Group(a[..], key, k) == Group(old(a[..]), key, k)
    {
      InsertAt(a, key, i);
      i := i + 1;
    }
  }

  /**
   * Midway through inserting `s[i]`: it now sits at `j`, the entries up to `i`
   * other than it are in order, and every entry after it up to `i` has a
   * larger key.
   */
  predicate Inserting<T>(s: seq<T>, key: T -> int, i: int, j: int) {
    && 0 <= j <= i < |s|
    && (forall p, q :: 0 <= p < q <= i && p != j && q != j ==> key(s[p]) <= key(s[q]))
    && (forall q :: j < q <= i ==> key(s[j]) < key(s[q]))
  }

  lemma InsertingStep<T>(s: seq<T>, key: T -> int, i: int, j: int)
    requires Inserting(s, key, i, j) && j > 0 && key(s[j - 1]) > key(s[j])
    ensures Inserting(s[j - 1 := s[j]][j := s[j - 1]], key, i, j - 1)
  {
  }

  lemma InsertingDone<T>(s: seq<T>, key: T -> int, i: int, j: int)
    requires Inserting(s, key, i, j) && (j == 0 || key(s[j - 1]) <= key(s[j]))
    ensures forall p, q :: 0 <= p < q <= i ==> key(s[p]) <= key(s[q])
  {
  }

  /** Moves `a[i]` down past every larger key before it, extending the sorted prefix by one. */
  method InsertAt<T>(a: array<T>, key: T -> int, i: int)
    requires 0 <= i < a.Length
    requires forall p, q :: 0 <= p < q < i ==> key(a[p]) <= key(a[q])
    modifies a
    ensures forall p, q :: 0 <= p < q <= i ==> key(a[p]) <= key(a[q])
    ensures forall k :: Group(a[..], key, k) == Group(old(a[..]), key, k)
  {
    var j := i;
    while j > 0 && key(a[j - 1]) > key(a[j])
      invariant Inserting(a[..], key, i, j)
      invariant forall k :: Group(a[..], key, k) == Group(old(a[..]), key, k)
    {
      ghost var before := a[..];
      a[j - 1], a[j] := a[j], a[j - 1];
      assert a[..] == before[j - 1 := before[j]][j := before[j - 1]];
      InsertingStep(before, key, i, j);
      SwapKeepsGroups(before, key, j);
      j := j - 1;
    }
    InsertingDone(a[..], key, i, j);
  }

  /** In a sequence sorted by key, an entry with a smaller key comes first. */
  lemma SmallerKeyFirst<T>(s: seq<T>, key: T -> int, i: int, j: int)
    requires SortedBy(s, key) && 0 <= i < |s| && 0 <= j < |s| && key(s[i]) < key(s[j])
    ensures i < j
  {
  }

  // ---------------------------------------------------------------------------
  // Sorting the schedule
  // ---------------------------------------------------------------------------

  /** Ordered by position in `DayOrder`; an unknown day (index -1) sorts first. */
  predicate SortedByDay(s: seq<DaySchedule>) {
    SortedBy(s, DayIndex)
  }

  /**
   * Reference definition of the sorted schedule: unknown days, then Monday
   * through Sunday, each group in input order. This is the one result every
   * stable sort with the comparator `indexOf(a.day) - indexOf(b.day)` returns.
   */
  function ByDayOrder(s: seq<DaySchedule>): seq<DaySchedule> {
    GroupsFrom(s, DayIndex, -1)
  }

  /** The entries of `s` whose day has index `k`, in input order. */
  function WithIndex(s: seq<DaySchedule>, k: int): seq<DaySchedule> {
    Group(s, DayIndex, k)
  }

  /** The reference sort puts the entries in day order. */
  lemma ByDayOrderSorted(s: seq<DaySchedule>)
    ensures SortedByDay(ByDayOrder(s))
  {
    GroupsFromSorted(s, DayIndex, -1);
  }

  /**
   * The sort is stable: the entries of each day keep their input order, and
   * an entry whose day is not a weekday name stays among the unknown days.
   */
  lemma ByDayOrderStable(s: seq<DaySchedule>, k: int)
    ensures WithIndex(ByDayOrder(s), k) == WithIndex(s, k)
  {
    if -1 <= k <= 6 {
      GroupOfGroupsFrom(s, DayIndex, -1, k);
    } else {
      EmptyGroup(ByDayOrder(s), DayIndex, k);
      EmptyGroup(s, DayIndex, k);
    }
  }

  /** The reference sort is a permutation of its input. */
  lemma ByDayOrderPermutation(s: seq<DaySchedule>)
    ensures multiset(ByDayOrder(s)) == multiset(s)
  {
    GroupsFromMultiset(s, DayIndex, -1);
    KeyAtLeastBounds(s, DayIndex);
  }

  /** A schedule already in day order is left as it is. */
  lemma SortedIsByDayOrder(s: seq<DaySchedule>)
    requires SortedByDay(s)
    ensures ByDayOrder(s) == s
  {
    SortedIsGroups(s, DayIndex, -1);
  }

  /** Every entry with an unknown day comes before every entry with a weekday name. */
  lemma UnknownDaysFirst(s: seq<DaySchedule>, i: int, j: int)
    requires 0 <= i < |ByDayOrder(s)| && 0 <= j < |ByDayOrder(s)|
    requires DayIndex(ByDayOrder(s)[i]) == -1 && DayIndex(ByDayOrder(s)[j]) >= 0
    ensures i < j
  {
    ByDayOrderSorted(s);
    SmallerKeyFirst(ByDayOrder(s), DayIndex, i, j);
  }

  /**
   * `workingDays ? [...workingDays].sort(byDayIndex) : []`: the entries are
   * copied into a fresh array and sorted there; `workingDays` is only read.
   */
  method SortDays(workingDays: array?<DaySchedule>) returns (sorted: seq<DaySchedule>)
    ensures workingDays == null ==> sorted == []
    ensures workingDays != null ==> SortedByDay(sorted)
    ensures workingDays != null ==> multiset(sorted) == multiset(workingDays[..])
    ensures workingDays != null ==> forall k :: WithIndex(sorted, k) == WithIndex(workingDays[..], k)
    ensures workingDays != null ==> sorted == ByDayOrder(workingDays[..])
  {
    if workingDays == null {
      return [];
    }
    var a := new DaySchedule[workingDays.Length];
    var i := 0;
    while i < a.Length
      invariant 0 <= i <= a.Length
      invariant a[..i] == workingDays[..i]
    {
      a[i] := workingDays[i];
      i := i + 1;
    }
    assert a[..] == workingDays[..];
    SortByKey(a, DayIndex);
    sorted := a[..];
    SortedIsByDayOrder(sorted);
    SameGroupsSameOrder(sorted, workingDays[..], DayIndex, -1);
    ByDayOrderPermutation(workingDays[..]);
  }

  // ---------------------------------------------------------------------------
  // The Monday row and the expandable rows
  // ---------------------------------------------------------------------------

  /** `s.find(p)`: the first entry satisfying `p`. */
  function Find<T>(s: seq<T>, p: T -> bool): (r: Option<T>)
    ensures r.None? <==> forall i :: 0 <= i < |s| ==> !p(s[i])
    ensures r.Some? ==> exists i :: 0 <= i < |s| && s[i] == r.value && p(r.value)
                                    && forall j :: 0 <= j < i ==> !p(s[j])
  {
    if |s| == 0 then None
    else if p(s[0]) then Some(s[0])
    else
      var r := Find(s[1..], p);
      if r.Some? then
        assert exists i :: 0 <= i < |s| && s[i] == r.value && p(r.value)
                           && forall j :: 0 <= j < i ==> !p(s[j]) by {
          var i' :| 0 <= i' < |s[1..]| && s[1..][i'] == r.value && p(r.value)
                    && forall j :: 0 <= j < i' ==> !p(s[1..][j]);
          assert s[i' + 1] == r.value;
          forall j | 0 <= j < i' + 1 ensures !p(s[j]) {
            if j > 0 { assert s[j] == s[1..][j - 1]; }
          }
        }
        r
      else
        assert forall i :: 0 <= i < |s| ==> !p(s[i]) by {
          forall i | 0 <= i < |s| ensures !p(s[i]) {
            if i > 0 { assert s[i] == s[1..][i - 1]; }
          }
        }
        r
  }

  /** `s.filter(keep)` */
  function Filter<T>(s: seq<T>, keep: T -> bool): (r: seq<T>)
    ensures |r| <= |s|
  {
    if |s| == 0 then []
    else (if keep(s[0]) then [s[0]] else []) + Filter(s[1..], keep)
  }

  function First<T>(s: seq<T>): Option<T> {
    if |s| == 0 then None else Some(s[0])
  }

  lemma {:induction false} FilterMembers<T>(s: seq<T>, keep: T -> bool)
    ensures forall d :: d in Filter(s, keep) <==> d in s && keep(d)
  {
    if s != [] {
      FilterMembers(s[1..], keep);
      assert s == [s[0]] + s[1..];
    }
  }

  lemma {:induction false} FindIsFirstOfGroup<T>(s: seq<T>, p: T -> bool, key: T -> int, k: int)
    requires forall d :: p(d) <==> key(d) == k
    ensures Find(s, p) == First(Group(s, key, k))
  {
    if s != [] {
      FindIsFirstOfGroup(s[1..], p, key, k);
    }
  }

  lemma {:induction false} FilterConcat<T>(a: seq<T>, b: seq<T>, keep: T -> bool)
    ensures Filter(a + b, keep) == Filter(a, keep) + Filter(b, keep)
  {
    if a == [] {
      assert a + b == b;
    } else {
      assert (a + b)[0] == a[0] && (a + b)[1..] == a[1..] + b;
      FilterConcat(a[1..], b, keep);
    }
  }

  lemma {:induction false} FilterOfGroup<T>(s: seq<T>, keep: T -> bool, key: T -> int, k: int, m: int)
    requires forall d :: keep(d) <==> key(d) != m
    ensures Filter(Group(s, key, k), keep) == if k == m then [] else Group(s, key, k)
  {
    if s != [] {
      var head := if key(s[0]) == k then [s[0]] else [];
      FilterConcat(head, Group(s[1..], key, k), keep);
      FilterOfGroup(s[1..], keep, key, k, m);
    }
  }

  lemma {:induction false} FilterGroupsFrom<T>(s: seq<T>, keep: T -> bool, key: T -> int, lo: int, m: int)
    requires forall d :: keep(d) <==> key(d) != m
    requires lo > m
    ensures Filter(GroupsFrom(s, key, lo), keep) == GroupsFrom(s, key, lo)
    decreases 7 - lo
  {
    if lo <= 6 {
      FilterConcat(Group(s, key, lo), GroupsFrom(s, key, lo + 1), keep);
      FilterOfGroup(s, keep, key, lo, m);
      FilterGroupsFrom(s, keep, key, lo + 1, m);
    }
  }

  /** Removing the groups with key 0 from the groups from -1 on leaves group -1, then those from 1. */
  lemma FilterOutGroupZero<T>(s: seq<T>, keep: T -> bool, key: T -> int)
    requires forall d :: keep(d) <==> key(d) != 0
    ensures Filter(GroupsFrom(s, key, -1), keep) == Group(s, key, -1) + GroupsFrom(s, key, 1)
  {
    var u, m, rest := Group(s, key, -1), Group(s, key, 0), GroupsFrom(s, key, 1);
    assert GroupsFrom(s, key, -1) == u + (m + rest);
    FilterOfGroup(s, keep, key, -1, 0);
    FilterOfGroup(s, keep, key, 0, 0);
    FilterGroupsFrom(s, keep, key, 1, 0);
    calc {
      Filter(u + (m + rest), keep);
      { FilterConcat(u, m + rest, keep); }
      Filter(u, keep) + Filter(m + rest, keep);
      { FilterConcat(m, rest, keep); }
      u + ([] + rest);
      { assert [] + rest == rest; }
      u + rest;
    }
  }

  /** `sortedDays.find(d => d.day === 'monday')` */
  function MondayOf(s: seq<DaySchedule>): (r: Option<DaySchedule>)
    ensures r.None? <==> forall i :: 0 <= i < |s| ==> s[i].day != "monday"
    ensures r.Some? ==> r.value.day == "monday" && r.value in s
  {
    Find(s, IsMonday)
  }

  /** `sortedDays.filter(d => d.day !== 'monday')` */
  function OtherDays(s: seq<DaySchedule>): (r: seq<DaySchedule>)
    ensures |r| <= |s|
  {
    Filter(s, NotMonday)
  }

  /** The expandable rows are exactly the entries that are not for Monday. */
  lemma OtherDaysMembers(s: seq<DaySchedule>)
    ensures forall d :: d in OtherDays(s) <==> d in s && d.day != "monday"
  {
    FilterMembers(s, NotMonday);
  }

  /** The Monday row of the sorted schedule is the first Monday entry of the input. */
  lemma MondayRowIsFirstMonday(s: seq<DaySchedule>)
    ensures MondayOf(ByDayOrder(s)) == MondayOf(s)
  {
    MondayIsIndexZero();
    FindIsFirstOfGroup(s, IsMonday, DayIndex, 0);
    FindIsFirstOfGroup(ByDayOrder(s), IsMonday, DayIndex, 0);
    ByDayOrderStable(s, 0);
  }

  /**
   * The expandable rows are the sorted schedule without its Monday entries:
   * the unknown days, then Tuesday through Sunday, each in input order.
   */
  lemma ExpandableRows(s: seq<DaySchedule>)
    ensures OtherDays(ByDayOrder(s)) == WithIndex(s, -1) + GroupsFrom(s, DayIndex, 1)
  {
    MondayIsIndexZero();
    FilterOutGroupZero(s, NotMonday, DayIndex);
  }

  // ---------------------------------------------------------------------------
  // Formatting times and days
  // ---------------------------------------------------------------------------

  /** "H:M" with a non-empty run of digits on each side of a single colon. */
  predicate WellFormedTime(t: string) {
    var c := IndexOf(t, ':');
    0 < c < |t| - 1 && AllDigits(t[..c]) && AllDigits(t[c + 1..])
  }

  /** The hour `t.split(':').map(Number)` reads. */
  function HourOf(t: string): nat
    requires WellFormedTime(t)
  {
    ParseNat(t[..IndexOf(t, ':')])
  }

  /** The minute `t.split(':').map(Number)` reads. */
  function MinuteOf(t: string): nat
    requires WellFormedTime(t)
  {
    ParseNat(t[IndexOf(t, ':') + 1..])
  }

  /** `hour % 12 || 12` */
  function Hour12(h: nat): nat {
    if h % 12 == 0 then 12 else h % 12
  }

  /** `hour >= 12 ? 'PM' : 'AM'` */
  function Meridiem(h: nat): string {
    if h >= 12 then "PM" else "AM"
  }

  /** `${hour12}:${minute.toString().padStart(2, '0')} ${ampm}` */
  function Render(h: nat, m: nat): string {
    NatToString(Hour12(h)) + ":" + PadStart2(NatToString(m)) + " " + Meridiem(h)
  }

  /** `formatTime(time)`: "" for an unset or empty time, the 12-hour clock otherwise. */
  function FormatTime(time: Option<string>): (r: string)
    requires Truthy(time) ==> WellFormedTime(time.value)
    ensures !Truthy(time) ==> r == ""
    ensures Truthy(time) ==> |r| >= 7
    ensures Truthy(time) ==> EndsWith(r, if HourOf(time.value) >= 12 then " PM" else " AM")
  {
    if !Truthy(time) then "" else Render(HourOf(time.value), MinuteOf(time.value))
  }

  /** The parts a reader sees in a displayed time "h:MM AM". */
  datatype Clock = Clock(hour12: nat, minutes: string, meridiem: string)

  /** Reads a displayed time back into its parts; None when it is not of that shape. */
  function ReadClock(r: string): Option<Clock> {
    ClockAt(r, IndexOf(r, ':'))
  }

  /** The parts of `r` around a colon at `c`. */
  function ClockAt(r: string, c: int): Option<Clock> {
    if c <= 0 || |r| < c + 4 then None
    else ClockOfParts(r[..c], r[c + 1..|r| - 3], r[|r| - 3], r[|r| - 2..])
  }

  function ClockOfParts(hs: string, ms: string, sep: char, suffix: string): Option<Clock> {
    if AllDigits(hs) && AllDigits(ms) && sep == ' ' then Some(Clock(ParseNat(hs), ms, suffix)) else None
  }

  /** The 24-hour time a displayed clock stands for. */
  function ClockValue(c: Clock): (nat, nat)
    requires AllDigits(c.minutes)
  {
    (c.hour12 % 12 + (if c.meridiem == "PM" then 12 else 0), ParseNat(c.minutes))
  }

  lemma DigitsHaveNoColon(s: string)
    requires AllDigits(s)
    ensures ':' !in s
  {
    forall i | 0 <= i < |s| ensures s[i] != ':' {
      assert IsDigit(s[i]);
    }
  }

  /** The zero-padded minute reads back as the minute; below 100 it has exactly two digits. */
  lemma PaddedMinute(m: nat)
    ensures AllDigits(PadStart2(NatToString(m))) && ParseNat(PadStart2(NatToString(m))) == m
    ensures |PadStart2(NatToString(m))| >= 2
    ensures m < 100 ==> |PadStart2(NatToString(m))| == 2
  {
    var ms := NatToString(m);
    ParseNatToString(m);
    if |ms| == 1 {
      assert PadStart2(ms) == "0" + ms;
      ParseNatLeadingZero(ms);
    } else {
      assert PadStart2(ms) == ms;
    }
    if 10 <= m < 100 {
      assert ms == NatToString(m / 10) + [DigitChar(m % 10)];
    }
  }

  /** Where the parts of "h:MM xx" sit. */
  predicate ClockLayout(r: string, hs: string, ps: string, mer: string) {
    && IndexOf(r, ':') == |hs| && 0 < |hs| && |r| >= |hs| + 4
    && r[..|hs|] == hs && r[|hs| + 1..|r| - 3] == ps && r[|r| - 3] == ' ' && r[|r| - 2..] == mer
  }

  lemma LayoutOf(hs: string, ps: string, mer: string)
    requires |hs| >= 1 && ':' !in hs && |mer| == 2
    ensures ClockLayout(hs + ":" + ps + " " + mer, hs, ps, mer)
  {
    var tail := ps + " " + mer;
    var r := hs + [':'] + tail;
    assert hs + ":" + ps + " " + mer == r;
    IndexOfAfterPrefix(hs, tail, ':');
    var c := |hs|;
    assert r[..c] == hs;
    assert r[c + 1..] == tail;
    assert r[c + 1..|r| - 3] == tail[..|ps|] == ps;
    assert r[|r| - 3] == tail[|ps|] == ' ';
    assert r[|r| - 2..] == tail[|ps| + 1..] == mer;
  }

  /** Reading back "h:MM xx" gives its hour, its minute digits and its suffix. */
  lemma ReadClockAt(r: string, hs: string, ps: string, mer: string)
    requires ClockLayout(r, hs, ps, mer) && AllDigits(hs) && AllDigits(ps)
    ensures ReadClock(r) == Some(Clock(ParseNat(hs), ps, mer))
  {
  }

  lemma ReadClockOf(hs: string, ps: string, mer: string)
    requires |hs| >= 1 && AllDigits(hs) && AllDigits(ps) && |mer| == 2
    ensures ReadClock(hs + ":" + ps + " " + mer) == Some(Clock(ParseNat(hs), ps, mer))
  {
    DigitsHaveNoColon(hs);
    LayoutOf(hs, ps, mer);
    ReadClockAt(hs + ":" + ps + " " + mer, hs, ps, mer);
  }

  /**
   * What `formatTime` shows for hour `h` and minute `m`: an hour 1..12 equal
   * to `h` modulo 12, "AM" exactly when `h < 12`, the minute zero-padded to at
   * least two digits (exactly two below 100); for `h < 24` the display reads
   * back as the same 24-hour time.
   */
  lemma RenderReadsBack(h: nat, m: nat)
    ensures ReadClock(Render(h, m)).Some?
    ensures var c := ReadClock(Render(h, m)).value;
      && 1 <= c.hour12 <= 12 && c.hour12 % 12 == h % 12
      && (c.meridiem == "AM" <==> h < 12) && (c.meridiem == "PM" <==> h >= 12)
      && AllDigits(c.minutes) && ParseNat(c.minutes) == m
      && |c.minutes| >= 2 && (m < 100 ==> |c.minutes| == 2)
      && (h < 24 ==> ClockValue(c) == (h, m))
  {
    RenderClock(h, m);
    var c := ReadClock(Render(h, m)).value;
    assert c.hour12 == Hour12(h) && c.minutes == PadStart2(NatToString(m)) && c.meridiem == Meridiem(h);
    PaddedMinute(m);
    HourAndMeridiem(h);
  }

  lemma HourAndMeridiem(h: nat)
    ensures 1 <= Hour12(h) <= 12 && Hour12(h) % 12 == h % 12
    ensures (Meridiem(h) == "AM" <==> h < 12) && (Meridiem(h) == "PM" <==> h >= 12)
    ensures h < 24 ==> Hour12(h) % 12 + (if Meridiem(h) == "PM" then 12 else 0) == h
  {
    assert "AM" != "PM" by {
      assert "AM"[0] != "PM"[0];
    }
  }

  /** `formatTime`'s output splits back into the 12-hour hour, the padded minute and the suffix. */
  lemma RenderClock(h: nat, m: nat)
    ensures ReadClock(Render(h, m)) == Some(Clock(Hour12(h), PadStart2(NatToString(m)), Meridiem(h)))
  {
    PaddedMinute(m);
    ParseNatToString(Hour12(h));
    ReadClockOf(NatToString(Hour12(h)), PadStart2(NatToString(m)), Meridiem(h));
  }

  /** The displayed time determines the stored time: distinct times of a day display differently. */
  lemma RenderInjective(h: nat, m: nat, h': nat, m': nat)
    requires h < 24 && h' < 24
    requires Render(h, m) == Render(h', m')
    ensures h == h' && m == m'
  {
    RenderReadsBack(h, m);
    RenderReadsBack(h', m');
  }

  /** `formatTime` of a stored "HH:MM" reads back as that time; distinct times display differently. */
  lemma FormatTimeReadsBack(t: string, u: string)
    requires WellFormedTime(t) && HourOf(t) < 24
    requires WellFormedTime(u) && HourOf(u) < 24
    ensures var c := ReadClock(FormatTime(Some(t)));
      c.Some? && AllDigits(c.value.minutes) && ClockValue(c.value) == (HourOf(t), MinuteOf(t))
    ensures FormatTime(Some(t)) == FormatTime(Some(u)) ==> HourOf(t) == HourOf(u) && MinuteOf(t) == MinuteOf(u)
  {
    RenderReadsBack(HourOf(t), MinuteOf(t));
    if FormatTime(Some(t)) == FormatTime(Some(u)) {
      RenderInjective(HourOf(t), MinuteOf(t), HourOf(u), MinuteOf(u));
    }
  }

  /** Both times of a day that is neither closed nor incomplete can be formatted. */
  predicate TimesWellFormed(d: DaySchedule) {
    !d.closed && Truthy(d.open) && Truthy(d.close) ==> WellFormedTime(d.open.value) && WellFormedTime(d.close.value)
  }

  /** `formatDay(day)` */
  function FormatDay(d: DaySchedule): (r: string)
    requires TimesWellFormed(d)
    ensures r == "Closed" <==> d.closed
    ensures r == "Call for hours" <==> !d.closed && !(Truthy(d.open) && Truthy(d.close))
    ensures !d.closed && Truthy(d.open) && Truthy(d.close) ==>
              StartsWith(r, FormatTime(d.open)) && EndsWith(r, FormatTime(d.close))
    ensures !d.closed && Truthy(d.open) && Truthy(d.close) ==>
              Joined(r, FormatTime(d.open), EnDash, FormatTime(d.close))
  {
    if d.closed then "Closed"
    else if Truthy(d.open) && Truthy(d.close) then
      JoinedConcat(FormatTime(d.open), EnDash, FormatTime(d.close));
      FormatTime(d.open) + EnDash + FormatTime(d.close)
    else "Call for hours"
  }

  /** A closed day reads "Closed" on the site and in the studio, whatever times are stored. */
  lemma ClosedDayIgnoresTimes(d: DaySchedule, open: Option<string>, close: Option<string>)
    requires d.closed
    ensures FormatDay(d) == FormatDay(d.(open := open, close := close)) == "Closed"
    ensures PrepareDay(d.dayLabel, d.closed, d.open, d.close).subtitle == FormatDay(d)
  {
  }

  /** A stored "HH:MM" of five characters reads as its two two-digit numbers. */
  lemma StoredTime(t: string)
    requires |t| == 5 && t[2] == ':'
    requires IsDigit(t[0]) && IsDigit(t[1]) && IsDigit(t[3]) && IsDigit(t[4])
    ensures WellFormedTime(t)
    ensures HourOf(t) == 10 * DigitValue(t[0]) + DigitValue(t[1])
    ensures MinuteOf(t) == 10 * DigitValue(t[3]) + DigitValue(t[4])
  {
    assert t == t[..2] + [':'] + t[3..];
    assert ':' !in t[..2] by {
      assert t[..2] == [t[0], t[1]];
    }
    IndexOfAfterPrefix(t[..2], t[3..], ':');
    ParseTwoDigits(t[..2]);
    ParseTwoDigits(t[3..]);
  }

  /** `formatTime` of a stored time is the display of its hour and minute. */
  lemma FormatTimeIsRender(t: string)
    requires WellFormedTime(t)
    ensures FormatTime(Some(t)) == Render(HourOf(t), MinuteOf(t))
  {
    assert Truthy(Some(t));
  }

  lemma RenderTwelve(h: nat, m: nat)
    requires h == 0 || h == 12
    ensures Render(h, m) == "12" + ":" + PadStart2(NatToString(m)) + " " + (if h == 0 then "AM" else "PM")
  {
    assert Hour12(h) == 12;
    assert NatToString(12) == "12" by {
      assert NatToString(1) == "1";
    }
  }

  /** Midnight and noon both show as hour 12, the one "AM" and the other "PM". */
  lemma MidnightAndNoon(t: string)
    requires WellFormedTime(t) && (HourOf(t) == 0 || HourOf(t) == 12)
    ensures FormatTime(Some(t)) ==
      "12" + ":" + PadStart2(NatToString(MinuteOf(t))) + " " + (if HourOf(t) == 0 then "AM" else "PM")
  {
    FormatTimeIsRender(t);
    RenderTwelve(HourOf(t), MinuteOf(t));
  }

  /** The last character of a well-formed time is a digit. */
  lemma TimeEndsInDigit(t: string)
    requires WellFormedTime(t)
    ensures IsDigit(t[|t| - 1])
  {
    var c := IndexOf(t, ':');
    assert t[|t| - 1] == t[c + 1..][|t| - c - 2];
  }

  /** Two strings that end alike have the same last character. */
  lemma LastOfSuffix(s: string, suffix: string)
    requires |suffix| > 0 && EndsWith(s, suffix)
    ensures s[|s| - 1] == suffix[|suffix| - 1]
  {
    assert s[|s| - 1] == s[|s| - |suffix|..][|suffix| - 1];
  }

  /** A formatted time ends in the "M" of "AM" or "PM". */
  lemma FormatTimeEndsInM(t: string)
    requires WellFormedTime(t)
    ensures var ft := FormatTime(Some(t)); |ft| > 0 && ft[|ft| - 1] == 'M'
  {
    var ft := FormatTime(Some(t));
    var suffix := if HourOf(t) >= 12 then " PM" else " AM";
    LastOfSuffix(ft, suffix);
  }

  /**
   * The studio and the site never show an open day alike: the studio's
   * preview ends in the last digit of the stored closing time, the site's row
   * in the "M" of "AM" or "PM".
   */
  lemma SiteAndStudioDiffer(d: DaySchedule)
    requires !d.closed && Truthy(d.open) && Truthy(d.close) && TimesWellFormed(d)
    ensures PrepareDay(d.dayLabel, d.closed, d.open, d.close).subtitle != FormatDay(d)
  {
    var studio := PrepareDay(d.dayLabel, d.closed, d.open, d.close).subtitle;
    var site := FormatDay(d);
    var t := d.close.value;
    TimeEndsInDigit(t);
    LastOfSuffix(studio, t);
    FormatTimeEndsInM(t);
    LastOfSuffix(site, FormatTime(d.close));
  }

  // ---------------------------------------------------------------------------
  // The component
  // ---------------------------------------------------------------------------

  /** The hours panel of the bar: the sorted schedule and the `expanded` flag. */
  class InfoBar {
    const sortedDays: seq<DaySchedule>
    const fallbackHours: string
    var expanded: bool

    constructor (workingDays: array?<DaySchedule>, fallbackHours: string)
      ensures workingDays == null ==> sortedDays == []
      ensures workingDays != null ==> sortedDays == ByDayOrder(workingDays[..])
      ensures this.fallbackHours == fallbackHours && !expanded
    {
      var s := SortDays(workingDays);
      sortedDays := s;
      this.fallbackHours := fallbackHours;
      expanded := false;
    }

    /** The fallback text replaces the rows exactly when no day is scheduled. */
    predicate ShowsFallback() {
      |sortedDays| == 0
    }

    /** The "See more / See less" button exists only with more than one entry. */
    predicate HasToggle() {
      |sortedDays| > 1
    }

    /** The always-visible Monday row. */
    function MondayRow(): Option<DaySchedule> {
      MondayOf(sortedDays)
    }

    /** The rows behind the toggle. */
    function OtherRows(): seq<DaySchedule> {
      OtherDays(sortedDays)
    }

    /** The rows a visitor sees: the Monday row, and the others only while expanded. */
    function VisibleRows(): (r: seq<DaySchedule>)
      reads this
      ensures ShowsFallback() ==> r == []
      ensures !expanded ==> |r| <= 1 && (MondayRow().Some? <==> r != [])
      ensures MondayRow().Some? ==> r != [] && r[0] == MondayRow().value
      ensures expanded ==> |r| >= |OtherRows()| && r[|r| - |OtherRows()|..] == OtherRows()
      ensures expanded ==> |r| == (if MondayRow().Some? then 1 else 0) + |OtherRows()|
    {
      (if MondayRow().Some? then [MondayRow().value] else []) + (if expanded then OtherRows() else [])
    }

    /** A click on the toggle flips `expanded`. */
    method ClickToggle()
      requires HasToggle()
      modifies this
      ensures expanded == !old(expanded)
    {
      expanded := !expanded;
    }
  }

  /** Two clicks on the toggle leave the panel as it was. */
  method ToggleTwice(bar: InfoBar)
    requires bar.HasToggle()
    modifies bar
    ensures bar.expanded == old(bar.expanded)
  {
    bar.ClickToggle();
    bar.ClickToggle();
  }
}
