/**
 * The column-packing layout of the week grid (`positionedAppointmentsByDay` in
 * `src/components/scheduler/weekly-view.tsx`).
 *
 * For each of the seven days of the week the appointments starting that day are sorted by
 * start, cut into overlap groups (a new group starts when an appointment starts at or after
 * the end of the appointment just before it), and each group is packed first-fit into
 * columns; every appointment of a group is then positioned with the group's column count.
 */
module WeeklyLayout {
  import opened Common
  import opened Calendar
  import opened Appointments

  // ---------------------------------------------------------------------------------------
  // `[...xs].sort((a, b) => a.start.getTime() - b.start.getTime())`: a stable sort by start

  predicate SortedByStart(s: seq<Appointment>)
  {
    forall i, j :: 0 <= i < j < |s| ==> s[i].start <= s[j].start
  }

  /** Puts `a` before the first element that does not start earlier than it. */
  function Insert(a: Appointment, s: seq<Appointment>): (r: seq<Appointment>)
    ensures multiset(r) == multiset(s) + multiset{a}
  {
    if s == [] || a.start <= s[0].start then [a] + s
    else
      assert s == [s[0]] + s[1..];
      [s[0]] + Insert(a, s[1..])
  }

  lemma {:induction false} InsertSorted(a: Appointment, s: seq<Appointment>)
    requires SortedByStart(s)
    ensures SortedByStart(Insert(a, s))
  {
    if s != [] && s[0].start < a.start {
      var rest := Insert(a, s[1..]);
      InsertSorted(a, s[1..]);
      forall x | x in rest ensures s[0].start <= x.start {
        assert x in multiset(rest);
        if x != a {
          assert x in multiset(s[1..]);
        }
      }
    }
  }

  /** JavaScript's `Array.prototype.sort` is stable: insertion sort from the back. */
  function SortByStart(s: seq<Appointment>): (r: seq<Appointment>)
    ensures multiset(r) == multiset(s)
  {
    if s == [] then []
    else
      assert s == [s[0]] + s[1..];
      Insert(s[0], SortByStart(s[1..]))
  }

  lemma {:induction false} SortSorted(s: seq<Appointment>)
    ensures SortedByStart(SortByStart(s))
  {
    if s != [] {
      SortSorted(s[1..]);
      InsertSorted(s[0], SortByStart(s[1..]));
    }
  }

  /** Appointments with one given start time. */
  function StartingAt(k: Time): Appointment -> bool { (a: Appointment) => a.start == k }

  lemma {:induction false} InsertStable(a: Appointment, s: seq<Appointment>, k: Time)
    ensures Filter(Insert(a, s), StartingAt(k)) ==
      (if a.start == k then [a] else []) + Filter(s, StartingAt(k))
  {
    if s != [] && s[0].start < a.start {
      InsertStable(a, s[1..], k);
      InsertStableStep(a, s, k);
    } else {
      assert Insert(a, s) == [a] + s;
      FilterCons(a, s, StartingAt(k));
    }
  }

  /** The step of `InsertStable` past a head that starts before `a`. */
  lemma InsertStableStep(a: Appointment, s: seq<Appointment>, k: Time)
    requires s != [] && s[0].start < a.start
    requires Filter(Insert(a, s[1..]), StartingAt(k)) ==
      (if a.start == k then [a] else []) + Filter(s[1..], StartingAt(k))
    ensures Filter(Insert(a, s), StartingAt(k)) ==
      (if a.start == k then [a] else []) + Filter(s, StartingAt(k))
  {
    var h, t := s[0], s[1..];
    assert Insert(a, s) == [h] + Insert(a, t);
    assert s == [h] + t;
    FilterPastHead(h, Insert(a, t), t, if a.start == k then [a] else [], StartingAt(k));
  }

  /** Stability: appointments with equal starts keep their input order. */
  lemma {:induction false} SortStable(s: seq<Appointment>, k: Time)
    ensures Filter(SortByStart(s), StartingAt(k)) == Filter(s, StartingAt(k))
  {
    if s != [] {
      SortStable(s[1..], k);
      InsertStable(s[0], SortByStart(s[1..]), k);
    }
  }

  // ---------------------------------------------------------------------------------------
  // Overlap groups

  /** `a` starts before `b` ends: the test that keeps `a` in `b`'s group. */
  predicate Overlaps(a: Appointment, b: Appointment) { a.start < b.end }

  /**
   * The overlap groups of a list, built the way the source walks it: each appointment joins
   * the current group when it starts before its immediate predecessor ends, and opens a new
   * group otherwise.
   */
  function GroupsOf(s: seq<Appointment>): (groups: seq<seq<Appointment>>)
    ensures |groups| <= |s|
    ensures s != [] ==> |groups| > 0
  {
    if |s| <= 1 then (if s == [] then [] else [s])
    else Extend(GroupsOf(s[..|s| - 1]), s[|s| - 1], s[|s| - 2])
  }

  /** One step of the walk: `x` follows `prev`. */
  function Extend(groups: seq<seq<Appointment>>, x: Appointment, prev: Appointment): (r: seq<seq<Appointment>>)
    requires groups != []
    ensures |r| == if Overlaps(x, prev) then |groups| else |groups| + 1
  {
    if Overlaps(x, prev) then groups[..|groups| - 1] + [Last(groups) + [x]]
    else groups + [[x]]
  }

  lemma GroupsOfSnoc(s: seq<Appointment>, x: Appointment)
    requires s != []
    ensures GroupsOf(s + [x]) == Extend(GroupsOf(s), x, Last(s))
  {
    var t := s + [x];
    assert |t| > 1;
    assert t[..|t| - 1] == s;
    assert t[|t| - 1] == x && t[|t| - 2] == Last(s);
  }

  /** No group is empty; inside a group every appointment overlaps its predecessor. */
  predicate ChainedGroups(groups: seq<seq<Appointment>>)
  {
    forall g :: 0 <= g < |groups| ==> Chained(groups[g])
  }

  predicate Chained(group: seq<Appointment>)
  {
    group != [] && forall k :: 0 < k < |group| ==> Overlaps(group[k], group[k - 1])
  }

  /** Each group after the first starts no earlier than the group before it ends. */
  predicate SeparatedGroups(groups: seq<seq<Appointment>>)
    requires ChainedGroups(groups)
  {
    forall g :: 0 < g < |groups| ==> !Overlaps(groups[g][0], Last(groups[g - 1]))
  }

  /** The groups, concatenated, give back the list. */
  lemma {:induction false} GroupsFlatten(s: seq<Appointment>)
    ensures Flatten(GroupsOf(s)) == s
  {
    if |s| > 1 {
      var pre, x := s[..|s| - 1], s[|s| - 1];
      assert s == pre + [x];
      GroupsOfSnoc(pre, x);
      GroupsFlatten(pre);
      var init := GroupsOf(pre);
      assert Flatten(init) == pre;
      var n := |init|;
      if Overlaps(x, Last(pre)) {
        var front, lastGroup := init[..n - 1], init[n - 1];
        assert init == front + [lastGroup];
        assert GroupsOf(s) == front + [lastGroup + [x]];
        FlattenSnoc(front, lastGroup);
        FlattenSnoc(front, lastGroup + [x]);
        assert Flatten(GroupsOf(s)) == (Flatten(front) + lastGroup) + [x];
      } else {
        assert GroupsOf(s) == init + [[x]];
        FlattenSnoc(init, [x]);
      }
    }
  }

  /** The last group ends with the list's last appointment. */
  lemma {:induction false} GroupsLast(s: seq<Appointment>)
    requires s != []
    ensures Last(GroupsOf(s)) != [] && Last(Last(GroupsOf(s))) == Last(s)
  {
    if |s| > 1 {
      var pre, x := s[..|s| - 1], s[|s| - 1];
      assert s == pre + [x];
      GroupsOfSnoc(pre, x);
      GroupsLast(pre);
    }
  }

  /** Inside a group each appointment overlaps its predecessor; between groups none does. */
  lemma {:induction false} GroupsChained(s: seq<Appointment>)
    ensures ChainedGroups(GroupsOf(s)) && SeparatedGroups(GroupsOf(s))
  {
    if |s| > 1 {
      var pre, x := s[..|s| - 1], s[|s| - 1];
      assert s == pre + [x];
      GroupsOfSnoc(pre, x);
      GroupsChained(pre);
      GroupsLast(pre);
      ExtendChained(GroupsOf(pre), x, Last(pre));
    }
  }

  /** One step of the walk keeps the groups chained and separated. */
  lemma ExtendChained(groups: seq<seq<Appointment>>, x: Appointment, prev: Appointment)
    requires groups != [] && ChainedGroups(groups) && SeparatedGroups(groups)
    requires Last(Last(groups)) == prev
    ensures ChainedGroups(Extend(groups, x, prev)) && SeparatedGroups(Extend(groups, x, prev))
  {
    var n := |groups|;
    var r := Extend(groups, x, prev);
    if Overlaps(x, prev) {
      assert forall g :: 0 <= g < n - 1 ==> r[g] == groups[g];
      assert r[n - 1] == groups[n - 1] + [x];
      assert Chained(r[n - 1]);
      assert r[n - 1][0] == groups[n - 1][0];
    } else {
      assert forall g :: 0 <= g < n ==> r[g] == groups[g];
    }
  }

  /**
   * The grouping loop: `currentGroup` collects overlapping appointments and is pushed to
   * `overlappingGroups` when a non-overlapping one arrives or the list ends; a one-element
   * list is pushed after the loop.
   */
  method GroupOverlaps(sorted: seq<Appointment>) returns (groups: seq<seq<Appointment>>)
    ensures groups == GroupsOf(sorted)
  {
    groups := [];
    var current: seq<Appointment> := [];
    var index := 0;
    while index < |sorted|
      invariant 0 <= index <= |sorted|
      invariant index == 0 ==> groups == []
      invariant 0 < index ==> current != []
      invariant 0 < index && (index < |sorted| || |sorted| == 1) ==>
        groups + [current] == GroupsOf(sorted[..index])
      invariant index == |sorted| && |sorted| > 1 ==> groups == GroupsOf(sorted)
    {
      var appointment := sorted[index];
      if index == 0 {
        current := [appointment];
        assert sorted[..1] == [appointment];
      } else {
        ghost var before := groups + [current];
        assert sorted[..index + 1] == sorted[..index] + [appointment];
        assert Last(sorted[..index]) == sorted[index - 1];
        GroupsOfSnoc(sorted[..index], appointment);
        if Overlaps(appointment, sorted[index - 1]) {
          current := current + [appointment];
          assert before[..|before| - 1] == groups;
        } else {
          if |current| > 0 {
            groups := groups + [current];
          }
          current := [appointment];
        }
        if index == |sorted| - 1 && |current| > 0 {
          groups := groups + [current];
          assert sorted[..index + 1] == sorted;
        }
      }
      index := index + 1;
    }
    if |sorted| == 1 {
      assert sorted[..1] == sorted == [sorted[0]];
      assert groups + [current] == [sorted];
      groups := groups + [[sorted[0]]];
    }
  }

  // ---------------------------------------------------------------------------------------
  // First-fit columns inside a group

  predicate NonEmptyColumns(columns: seq<seq<Appointment>>)
  {
    forall j :: 0 <= j < |columns| ==> columns[j] != []
  }

  /** `a` may go below the last appointment of `column`: it starts when that one has ended. */
  predicate FitsAfter(a: Appointment, column: seq<Appointment>)
    requires column != []
  {
    a.start >= Last(column).end
  }

  /**
   * The column the inner `while` loop stops at: the lowest index whose column `a` fits
   * after, or the column count when none does.
   */
  function FirstFit(columns: seq<seq<Appointment>>, a: Appointment): (k: nat)
    requires NonEmptyColumns(columns)
    ensures k <= |columns|
    ensures forall j :: 0 <= j < k ==> !FitsAfter(a, columns[j])
    ensures k < |columns| ==> FitsAfter(a, columns[k])
  {
    if columns == [] then 0
    else if FitsAfter(a, columns[0]) then 0
    else 1 + FirstFit(columns[1..], a)
  }

  /** Places `a` in its first-fit column, opening a new column when none fits. */
  function Place(columns: seq<seq<Appointment>>, a: Appointment): (r: seq<seq<Appointment>>)
    requires NonEmptyColumns(columns)
    ensures NonEmptyColumns(r)
  {
    var k := FirstFit(columns, a);
    if k < |columns| then columns[k := columns[k] + [a]] else columns + [[a]]
  }

  /** The columns of a group: its appointments placed one after another. */
  function Pack(group: seq<Appointment>): (columns: seq<seq<Appointment>>)
    ensures NonEmptyColumns(columns)
  {
    if group == [] then [] else Place(Pack(group[..|group| - 1]), Last(group))
  }

  /** Each appointment of a column starts no earlier than the one above it ends. */
  predicate Stacked(column: seq<Appointment>)
  {
    forall k :: 0 < k < |column| ==> column[k].start >= column[k - 1].end
  }

  /**
   * Placing keeps every other column as it was and appends `a` to the first-fit column, so
   * a column is opened only when `a` fits after no existing column.
   */
  lemma PlaceEffect(columns: seq<seq<Appointment>>, a: Appointment)
    requires NonEmptyColumns(columns)
    ensures var k, r := FirstFit(columns, a), Place(columns, a);
      |r| == (if k < |columns| then |columns| else |columns| + 1) &&
      r[k] == (if k < |columns| then columns[k] else []) + [a] &&
      forall j :: 0 <= j < |columns| && j != k ==> r[j] == columns[j]
  {
  }

  /** Within each column, every appointment starts no earlier than the one just above it ends. */
  lemma {:induction false} PackStacked(group: seq<Appointment>)
    ensures forall j :: 0 <= j < |Pack(group)| ==> Stacked(Pack(group)[j])
  {
    if group != [] {
      var pre, a := group[..|group| - 1], Last(group);
      PackStacked(pre);
      var cols := Pack(pre);
      var k := FirstFit(cols, a);
      PlaceEffect(cols, a);
      if k < |cols| {
        var c := cols[k] + [a];
        assert Stacked(c) by {
          forall i | 0 < i < |c| ensures c[i].start >= c[i - 1].end {
            if i == |c| - 1 { assert c[i - 1] == Last(cols[k]); }
          }
        }
      }
    }
  }

  /**
   * No two appointments sharing a column overlap: in the columns of a group sorted by start,
   * every appointment starts no earlier than each one above it ends.
   */
  lemma PackNoOverlap(group: seq<Appointment>)
    requires SortedByStart(group)
    ensures forall j, i, k :: 0 <= j < |Pack(group)| && 0 <= i < k < |Pack(group)[j]| ==>
      Pack(group)[j][i].end <= Pack(group)[j][k].start
  {
    var cols: seq<seq<Appointment>> := Pack(group);
    PackStacked(group);
    PackSorted(group);
    forall j | 0 <= j < |cols|
      ensures forall i, k :: 0 <= i < k < |cols[j]| ==> cols[j][i].end <= cols[j][k].start
    {
      StackedSortedPairs(cols[j]);
    }
  }

  lemma StackedSortedPairs(column: seq<Appointment>)
    requires Stacked(column) && SortedByStart(column)
    ensures forall i, k :: 0 <= i < k < |column| ==> column[i].end <= column[k].start
  {
    forall i, k | 0 <= i < k < |column|
      ensures column[i].end <= column[k].start
    {
      assert column[i].end <= column[i + 1].start;
    }
  }

  /** The columns of a group sorted by start are sorted by start too. */
  lemma {:induction false} PackSorted(group: seq<Appointment>)
    requires SortedByStart(group)
    ensures forall j :: 0 <= j < |Pack(group)| ==> SortedByStart(Pack(group)[j])
  {
    if group != [] {
      var pre, a := group[..|group| - 1], Last(group);
      assert SortedByStart(pre) by {
        assert forall i :: 0 <= i < |pre| ==> pre[i] == group[i];
      }
      PackSorted(pre);
      var cols := Pack(pre);
      var k := FirstFit(cols, a);
      PlaceEffect(cols, a);
      if k < |cols| {
        ColumnBeforeLast(group, k);
        var c := cols[k] + [a];
        assert SortedByStart(c) by {
          forall i, j | 0 <= i < j < |c|
            ensures c[i].start <= c[j].start
          {
            if j < |c| - 1 {
              assert c[i] == cols[k][i] && c[j] == cols[k][j];
            } else {
              assert c[i] in cols[k];
            }
          }
        }
      }
    }
  }

  /** Every appointment already in a column starts no later than the group's last one. */
  lemma ColumnBeforeLast(group: seq<Appointment>, k: nat)
    requires group != [] && SortedByStart(group)
    requires k < |Pack(group[..|group| - 1])|
    ensures forall x: Appointment :: x in Pack(group[..|group| - 1])[k] ==> x.start <= Last(group).start
  {
    var pre := group[..|group| - 1];
    var cols: seq<seq<Appointment>> := Pack(pre);
    FlattenHas(cols, k);
    PackPartition(pre);
    forall x | x in cols[k]
      ensures x.start <= Last(group).start
    {
      assert x in multiset(cols[k]);
      assert x in multiset(pre);
      var i :| 0 <= i < |pre| && pre[i] == x;
      assert group[i] == x;
    }
  }

  /** A non-empty group needs at least one and at most one column per appointment. */
  lemma {:induction false} PackCount(group: seq<Appointment>)
    ensures group != [] ==> 1 <= |Pack(group)| <= |group|
  {
    if group != [] {
      PackCount(group[..|group| - 1]);
    }
  }

  /** The appointments active at instant `t`: started at or before it and not yet ended. */
  function ActiveAt(t: Time): Appointment -> bool { (a: Appointment) => a.start <= t < a.end }

  /** The last appointment of each column. */
  function Lasts(columns: seq<seq<Appointment>>): (r: seq<Appointment>)
    requires NonEmptyColumns(columns)
    ensures |r| == |columns|
  {
    if columns == [] then [] else Lasts(columns[..|columns| - 1]) + [Last(Last(columns))]
  }

  lemma {:induction false} LastsInFlatten(columns: seq<seq<Appointment>>)
    requires NonEmptyColumns(columns)
    ensures multiset(Lasts(columns)) <= multiset(Flatten(columns))
  {
    if columns != [] {
      var init, c := columns[..|columns| - 1], Last(columns);
      LastsInFlatten(init);
      FlattenSnoc(init, c);
      assert columns == init + [c];
      assert c == c[..|c| - 1] + [Last(c)];
    }
  }

  /** A sub-multiset whose elements all satisfy `p` is no larger than the filtered list. */
  lemma SubCountFilter(xs: seq<Appointment>, ys: seq<Appointment>, p: Appointment -> bool)
    requires multiset(xs) <= multiset(ys)
    requires forall x :: x in xs ==> p(x)
    ensures |xs| <= |Filter(ys, p)|
  {
    var f := Filter(ys, p);
    forall x
      ensures multiset(xs)[x] <= multiset(f)[x]
    {
      FilterCount(ys, p, x);
    }
    assert multiset(xs) <= multiset(f);
    assert multiset(f) == multiset(xs) + (multiset(f) - multiset(xs));
    assert |multiset(f)| == |multiset(xs)| + |multiset(f) - multiset(xs)|;
  }

  /**
   * The columns are as few as the group needs: when the appointments of a group, sorted by
   * start, each end after they start, some instant has at least as many of them running at
   * once as there are columns. A column is only opened for an appointment that fits after no
   * column, so at its start the last appointment of every column is still running.
   */
  lemma PackColumnsActive(group: seq<Appointment>)
    requires group != [] && SortedByStart(group)
    requires forall a :: a in group ==> a.start < a.end
    ensures exists t :: |Filter(group, ActiveAt(t))| >= |Pack(group)|
  {
    var t := BusiestInstant(group);
  }

  /** An instant with at least as many appointments running as the group has columns. */
  lemma {:induction false} BusiestInstant(group: seq<Appointment>) returns (t: Time)
    requires group != [] && SortedByStart(group)
    requires forall a :: a in group ==> a.start < a.end
    ensures |Filter(group, ActiveAt(t))| >= |Pack(group)|
  {
    var pre, a := group[..|group| - 1], Last(group);
    var m := |Pack(pre)|;
    var opens := PackStep(group);
    if !opens {
      SortedPrefix(group);
      t := BusiestInstant(pre);
    } else {
      t := a.start;
      if pre != [] {
        NewColumnActive(group, a);
      }
      assert ActiveAt(t)(a) by {
        assert a in group;
      }
    }
    FilterSnocCount(group, ActiveAt(t));
  }

  lemma SortedPrefix(group: seq<Appointment>)
    requires |group| > 1 && SortedByStart(group)
    requires forall a :: a in group ==> a.start < a.end
    ensures var pre := group[..|group| - 1];
      pre != [] && SortedByStart(pre) && forall x :: x in pre ==> x.start < x.end
  {
    var pre := group[..|group| - 1];
    assert forall i :: 0 <= i < |pre| ==> pre[i] == group[i];
  }

  /** Placing the last appointment opens a column exactly when it fits after none. */
  lemma PackStep(group: seq<Appointment>) returns (opens: bool)
    requires group != []
    ensures var cols := Pack(group[..|group| - 1]);
      opens == (FirstFit(cols, Last(group)) == |cols|) &&
      |Pack(group)| == |cols| + (if opens then 1 else 0) &&
      (|group| == 1 ==> opens)
  {
    var cols := Pack(group[..|group| - 1]);
    opens := FirstFit(cols, Last(group)) == |cols|;
  }

  lemma FilterSnocCount(group: seq<Appointment>, p: Appointment -> bool)
    requires group != []
    ensures |Filter(group, p)| == |Filter(group[..|group| - 1], p)| + (if p(Last(group)) then 1 else 0)
  {
    var pre, a := group[..|group| - 1], Last(group);
    assert group == pre + [a];
    FilterAppend(pre, [a], p);
    assert [a][1..] == [];
  }

  /**
   * When the last appointment of a sorted group fits after no column of the rest, every
   * column's last appointment is running when it starts.
   */
  lemma NewColumnActive(group: seq<Appointment>, a: Appointment)
    requires |group| > 1 && SortedByStart(group) && a == Last(group)
    requires FirstFit(Pack(group[..|group| - 1]), a) == |Pack(group[..|group| - 1])|
    ensures |Filter(group[..|group| - 1], ActiveAt(a.start))| >= |Pack(group[..|group| - 1])|
  {
    var pre := group[..|group| - 1];
    var cols := Pack(pre);
    var lasts := Lasts(cols);
    LastsInFlatten(cols);
    PackPartition(pre);
    forall x | x in lasts
      ensures ActiveAt(a.start)(x)
    {
      LastsActive(cols, a, x);
      assert x in multiset(pre);
      var i :| 0 <= i < |pre| && pre[i] == x;
      assert group[i] == x;
    }
    SubCountFilter(lasts, pre, ActiveAt(a.start));
  }

  /** When `a` fits after no column, every column's last appointment ends after `a` starts. */
  lemma {:induction false} LastsActive(columns: seq<seq<Appointment>>, a: Appointment, x: Appointment)
    requires NonEmptyColumns(columns) && FirstFit(columns, a) == |columns|
    requires x in Lasts(columns)
    ensures x.end > a.start
  {
    var init := columns[..|columns| - 1];
    assert forall j :: 0 <= j < |init| ==> init[j] == columns[j];
    assert !FitsAfter(a, Last(columns));
    if x != Last(Last(columns)) {
      FirstFitPrefix(columns, a);
      LastsActive(init, a, x);
    }
  }

  /** A column that `a` fits after in a prefix is one it fits after in the whole list. */
  lemma FirstFitPrefix(columns: seq<seq<Appointment>>, a: Appointment)
    requires columns != [] && NonEmptyColumns(columns) && FirstFit(columns, a) == |columns|
    ensures FirstFit(columns[..|columns| - 1], a) == |columns| - 1
  {
  }

  /**
   * Without the duration condition the count can exceed what runs at once: an appointment
   * of length zero is never running, yet it opens a column beside one it starts within.
   */
  lemma ZeroLengthExtraColumn(b: Appointment, a: Appointment)
    requires b.start < b.end && a.start == a.end && b.start <= a.start < b.end
    ensures SortedByStart([b, a])
    ensures |Pack([b, a])| == 2
    ensures forall t :: |Filter([b, a], ActiveAt(t))| <= 1
  {
    assert [b, a][..1] == [b];
    assert Pack([b]) == [[b]] by {
      assert [b][..0] == [];
    }
    forall t
      ensures |Filter([b, a], ActiveAt(t))| <= 1
    {
      assert [b, a][1..] == [a];
      assert [a][1..] == [];
    }
  }

  /** The columns hold exactly the group's appointments. */
  lemma {:induction false} PackPartition(group: seq<Appointment>)
    ensures multiset(Flatten(Pack(group))) == multiset(group)
  {
    if group != [] {
      var pre, a := group[..|group| - 1], Last(group);
      PackPartition(pre);
      assert group == pre + [a];
      PlaceMultiset(Pack(pre), a);
    }
  }

  lemma PlaceMultiset(columns: seq<seq<Appointment>>, a: Appointment)
    requires NonEmptyColumns(columns)
    ensures multiset(Flatten(Place(columns, a))) == multiset(Flatten(columns)) + multiset{a}
  {
    var k := FirstFit(columns, a);
    if k < |columns| {
      FlattenUpdate(columns, k, columns[k] + [a]);
      FlattenHas(columns, k);
      assert multiset(columns[k] + [a]) == multiset(columns[k]) + multiset{a};
    } else {
      FlattenSnoc(columns, [a]);
    }
  }

  /** Replacing one list of a list of lists changes the flattened multiset accordingly. */
  lemma {:induction false} FlattenUpdate(xss: seq<seq<Appointment>>, k: nat, ys: seq<Appointment>)
    requires k < |xss|
    ensures multiset(Flatten(xss[k := ys])) == multiset(Flatten(xss)) - multiset(xss[k]) + multiset(ys)
  {
    var n := |xss|;
    var init := xss[..n - 1];
    assert xss == init + [xss[n - 1]];
    if k == n - 1 {
      assert xss[k := ys] == init + [ys];
      FlattenSnoc(init, ys);
      FlattenSnoc(init, xss[n - 1]);
    } else {
      FlattenUpdate(init, k, ys);
      assert xss[k := ys] == init[k := ys] + [xss[n - 1]];
      FlattenSnoc(init[k := ys], xss[n - 1]);
      FlattenSnoc(init, xss[n - 1]);
      FlattenHas(init, k);
    }
  }

  /** Each list's elements are part of the flattened multiset. */
  lemma {:induction false} FlattenHas(xss: seq<seq<Appointment>>, k: nat)
    requires k < |xss|
    ensures multiset(xss[k]) <= multiset(Flatten(xss))
  {
    var n := |xss|;
    var init := xss[..n - 1];
    assert xss == init + [xss[n - 1]];
    FlattenSnoc(init, xss[n - 1]);
    if k < n - 1 {
      FlattenHas(init, k);
    }
  }

  /**
   * The column loop: for each appointment the `while (!placed && ...)` loop scans the
   * columns in order and pushes it onto the first one it fits after; if none fits it
   * becomes the first appointment of a new column.
   */
  method AssignColumns(group: seq<Appointment>) returns (columns: seq<seq<Appointment>>)
    ensures columns == Pack(group)
  {
    columns := [];
    var i := 0;
    while i < |group|
      invariant 0 <= i <= |group|
      invariant columns == Pack(group[..i])
    {
      var appointment := group[i];
      ghost var before := columns;
      var columnIndex := 0;
      var placed := false;
      while !placed && columnIndex < |columns|
        invariant 0 <= columnIndex <= |before| == |columns|
        invariant !placed ==> columns == before
        invariant !placed ==> forall j :: 0 <= j < columnIndex ==> !FitsAfter(appointment, before[j])
        invariant placed ==> columnIndex < |before| && FitsAfter(appointment, before[columnIndex])
        invariant placed ==> columns == before[columnIndex := before[columnIndex] + [appointment]]
        invariant placed ==> forall j :: 0 <= j < columnIndex ==> !FitsAfter(appointment, before[j])
        decreases |before| - columnIndex + (if placed then 0 else 1)
      {
        var column := columns[columnIndex];
        if appointment.start >= column[|column| - 1].end {
          columns := columns[columnIndex := column + [appointment]];
          placed := true;
        } else {
          columnIndex := columnIndex + 1;
        }
      }
      if !placed {
        columns := columns + [[appointment]];
      }
      assert group[..i + 1] == group[..i] + [appointment];
      assert columns == Place(before, appointment);
      i := i + 1;
    }
    assert group[..i] == group;
  }

  // ---------------------------------------------------------------------------------------
  // Positioned appointments

  /** `PositionedAppointment`: pixel offsets are exact rationals here. */
  datatype Positioned = Positioned(
    appointment: Appointment,
    column: int,
    columnSpan: int,
    columnCount: int,
    startPosition: real,
    duration: real)

  /** `(startHour - 8) * 80 + (startMinute / 60) * 80 - 48`. */
  function StartPosition(a: Appointment): real
  {
    ((Hours(a.start) - 8) * 80) as real + (Minutes(a.start) as real / 60.0) * 80.0 - 48.0
  }

  /** `(((endHour - startHour) * 60 + (endMinute - startMinute)) / 60) * 80`. */
  function Duration(a: Appointment): real
  {
    (((Hours(a.end) - Hours(a.start)) * 60 + (Minutes(a.end) - Minutes(a.start))) as real / 60.0) * 80.0
  }

  function PositionOf(a: Appointment, column: int, count: int): Positioned
  {
    Positioned(a, column, 1, count, StartPosition(a), Duration(a))
  }

  /** One column's appointments, top to bottom, positioned in column `ci` of `count`. */
  function PositionColumn(column: seq<Appointment>, ci: int, count: int): (r: seq<Positioned>)
    ensures |r| == |column|
    ensures forall i :: 0 <= i < |r| ==> r[i] == PositionOf(column[i], ci, count)
  {
    if column == [] then [] else PositionColumn(column[..|column| - 1], ci, count) + [PositionOf(Last(column), ci, count)]
  }

  /** The columns left to right, each top to bottom, all with column count `count`. */
  function PositionColumns(columns: seq<seq<Appointment>>, count: int): seq<Positioned>
  {
    if columns == [] then []
    else PositionColumns(columns[..|columns| - 1], count) + PositionColumn(Last(columns), |columns| - 1, count)
  }

  /** The positioned appointments of a day: group after group. */
  function LayoutGroups(groups: seq<seq<Appointment>>): seq<Positioned>
  {
    if groups == [] then []
    else
      var columns := Pack(Last(groups));
      LayoutGroups(groups[..|groups| - 1]) + PositionColumns(columns, |columns|)
  }

  /** `isSameDay(app.start, days[dayIndex])` with `days[i] = addDays(weekStart, i)`. */
  function OnDay(weekStart: Time, dayIndex: int): Appointment -> bool
  {
    (a: Appointment) => SameDay(a.start, AddDays(weekStart, dayIndex))
  }

  /** `result[dayIndex]` as the source computes it. */
  function DayLayout(appointments: seq<Appointment>, weekStart: Time, dayIndex: int): seq<Positioned>
  {
    LayoutGroups(GroupsOf(SortByStart(Filter(appointments, OnDay(weekStart, dayIndex)))))
  }

  function AppointmentsOf(ps: seq<Positioned>): (r: seq<Appointment>)
    ensures |r| == |ps|
  {
    if ps == [] then [] else AppointmentsOf(ps[..|ps| - 1]) + [Last(ps).appointment]
  }

  lemma {:induction false} AppointmentsOfAppend(ps: seq<Positioned>, qs: seq<Positioned>)
    ensures AppointmentsOf(ps + qs) == AppointmentsOf(ps) + AppointmentsOf(qs)
  {
    if qs != [] {
      assert (ps + qs)[..|ps + qs| - 1] == ps + qs[..|qs| - 1];
      AppointmentsOfAppend(ps, qs[..|qs| - 1]);
    } else {
      assert ps + qs == ps;
    }
  }

  lemma {:induction false} PositionColumnAppointments(column: seq<Appointment>, ci: int, count: int)
    ensures AppointmentsOf(PositionColumn(column, ci, count)) == column
  {
    if column != [] {
      PositionColumnAppointments(column[..|column| - 1], ci, count);
      assert column == column[..|column| - 1] + [Last(column)];
    }
  }

  lemma {:induction false} PositionColumnsAppointments(columns: seq<seq<Appointment>>, count: int)
    ensures AppointmentsOf(PositionColumns(columns, count)) == Flatten(columns)
  {
    if columns != [] {
      var init := columns[..|columns| - 1];
      PositionColumnsAppointments(init, count);
      AppointmentsOfAppend(PositionColumns(init, count), PositionColumn(Last(columns), |columns| - 1, count));
      PositionColumnAppointments(Last(columns), |columns| - 1, count);
    }
  }

  lemma {:induction false} LayoutGroupsAppointments(groups: seq<seq<Appointment>>)
    ensures multiset(AppointmentsOf(LayoutGroups(groups))) == multiset(Flatten(groups))
  {
    if groups != [] {
      var init := groups[..|groups| - 1];
      var columns := Pack(Last(groups));
      LayoutGroupsAppointments(init);
      AppointmentsOfAppend(LayoutGroups(init), PositionColumns(columns, |columns|));
      PositionColumnsAppointments(columns, |columns|);
      PackPartition(Last(groups));
    }
  }

  /**
   * Day `i` of the result holds every appointment that starts on the `i`-th day of the
   * week, exactly as often as the input does, and nothing else; a day without
   * appointments gets an empty list.
   */
  lemma DayLayoutMembers(appointments: seq<Appointment>, weekStart: Time, dayIndex: int)
    ensures multiset(AppointmentsOf(DayLayout(appointments, weekStart, dayIndex))) ==
      multiset(Filter(appointments, OnDay(weekStart, dayIndex)))
  {
    var sorted := SortByStart(Filter(appointments, OnDay(weekStart, dayIndex)));
    LayoutGroupsAppointments(GroupsOf(sorted));
    GroupsFlatten(sorted);
  }

  /** In a group's output every entry is one column wide and lies inside the group's columns. */
  lemma {:induction false} PositionColumnsShape(columns: seq<seq<Appointment>>, count: int, p: Positioned)
    requires p in PositionColumns(columns, count)
    ensures p.columnCount == count && p.columnSpan == 1 && 0 <= p.column < |columns|
  {
    var init := columns[..|columns| - 1];
    if p !in PositionColumns(init, count) {
      var col := PositionColumn(Last(columns), |columns| - 1, count);
      assert p in col;
    } else {
      PositionColumnsShape(init, count, p);
    }
  }

  /** The entries one group contributes: its packed columns, each with the group's own column count. */
  function GroupLayout(group: seq<Appointment>): seq<Positioned>
  {
    var columns := Pack(group);
    PositionColumns(columns, |columns|)
  }

  lemma LayoutGroupsSnoc(s: seq<seq<Appointment>>, groups: seq<seq<Appointment>>, group: seq<Appointment>)
    requires s == groups + [group]
    ensures LayoutGroups(s) == LayoutGroups(groups) + GroupLayout(group)
  {
    assert s[..|groups|] == groups;
  }

  /** The entries of each group, group by group. */
  function GroupLayouts(groups: seq<seq<Appointment>>): (r: seq<seq<Positioned>>)
    ensures |r| == |groups|
  {
    seq(|groups|, i requires 0 <= i < |groups| => GroupLayout(groups[i]))
  }

  /** A day's entries are its groups' entries laid end to end. */
  lemma {:induction false} LayoutGroupsFlatten(groups: seq<seq<Appointment>>)
    ensures LayoutGroups(groups) == Flatten(GroupLayouts(groups))
  {
    if groups != [] {
      var init, last := groups[..|groups| - 1], Last(groups);
      LayoutGroupsFlatten(init);
      LayoutGroupsSnoc(groups, init, last);
      assert GroupLayouts(groups) == GroupLayouts(init) + [GroupLayout(last)];
      FlattenSnoc(GroupLayouts(init), GroupLayout(last));
    }
  }

  lemma LayoutGroupsAppend(xs: seq<seq<Appointment>>, ys: seq<seq<Appointment>>)
    ensures LayoutGroups(xs + ys) == LayoutGroups(xs) + LayoutGroups(ys)
  {
    LayoutGroupsFlatten(xs + ys);
    LayoutGroupsFlatten(xs);
    LayoutGroupsFlatten(ys);
    GroupLayoutsAppend(xs, ys);
    FlattenAppend(GroupLayouts(xs), GroupLayouts(ys));
  }

  lemma GroupLayoutsAppend(xs: seq<seq<Appointment>>, ys: seq<seq<Appointment>>)
    ensures GroupLayouts(xs + ys) == GroupLayouts(xs) + GroupLayouts(ys)
  {
    var l, r := GroupLayouts(xs + ys), GroupLayouts(xs) + GroupLayouts(ys);
    forall i | 0 <= i < |l|
      ensures l[i] == r[i]
    {
      if i < |xs| {
        assert (xs + ys)[i] == xs[i];
      } else {
        assert (xs + ys)[i] == ys[i - |xs|];
      }
    }
  }

  lemma {:induction false} AppointmentsOfMember(ps: seq<Positioned>, p: Positioned)
    requires p in ps
    ensures p.appointment in AppointmentsOf(ps)
  {
    if p != Last(ps) {
      assert ps == ps[..|ps| - 1] + [Last(ps)];
      AppointmentsOfMember(ps[..|ps| - 1], p);
    }
  }

  /**
   * The day's entries are the groups' entries in group order, and the entries group `g`
   * contributes are its own appointments, each one column wide, in a column below the
   * count, which is the number of columns that group was packed into: at least one and at
   * most one per appointment of the group.
   */
  lemma LayoutGroupsShape(groups: seq<seq<Appointment>>, g: nat)
    requires g < |groups|
    ensures LayoutGroups(groups) == LayoutGroups(groups[..g]) + GroupLayout(groups[g]) + LayoutGroups(groups[g + 1..])
    ensures multiset(AppointmentsOf(GroupLayout(groups[g]))) == multiset(groups[g])
    ensures forall p :: p in GroupLayout(groups[g]) ==>
      p.columnSpan == 1 && 0 <= p.column < p.columnCount &&
      p.columnCount == |Pack(groups[g])| && 1 <= p.columnCount <= |groups[g]|
  {
    var group := groups[g];
    assert groups == groups[..g] + [group] + groups[g + 1..];
    LayoutGroupsAppend(groups[..g] + [group], groups[g + 1..]);
    LayoutGroupsAppend(groups[..g], [group]);
    assert [group][..0] == [];
    var columns := Pack(group);
    PositionColumnsAppointments(columns, |columns|);
    PackPartition(group);
    PackCount(group);
    forall p | p in GroupLayout(group)
      ensures p.columnSpan == 1 && 0 <= p.column < p.columnCount &&
        p.columnCount == |columns| && 1 <= p.columnCount <= |group|
    {
      PositionColumnsShape(columns, |columns|, p);
    }
  }

  /**
   * Each entry of the day comes from a group that holds its appointment, and its column
   * count is that group's number of columns.
   */
  lemma {:induction false} LayoutEntryGroup(groups: seq<seq<Appointment>>, p: Positioned)
    requires p in LayoutGroups(groups)
    ensures exists g ::
      0 <= g < |groups| && p in GroupLayout(groups[g]) && p.appointment in groups[g] &&
      p.columnCount == |Pack(groups[g])|
  {
    var init := groups[..|groups| - 1];
    if p in LayoutGroups(init) {
      LayoutEntryGroup(init, p);
      var g :| 0 <= g < |init| && p in GroupLayout(init[g]) && p.appointment in init[g] &&
        p.columnCount == |Pack(init[g])|;
      assert init[g] == groups[g];
    } else {
      var g := |groups| - 1;
      assert p in GroupLayout(groups[g]);
      LayoutGroupsShape(groups, g);
      AppointmentsOfMember(GroupLayout(groups[g]), p);
      assert p.appointment in multiset(groups[g]);
    }
  }

  // ---------------------------------------------------------------------------------------
  // The imperative walk

  lemma PositionColumnStep(column: seq<Appointment>, k: nat, ci: int, count: int)
    requires k < |column|
    ensures PositionColumn(column[..k + 1], ci, count) ==
      PositionColumn(column[..k], ci, count) + [PositionOf(column[k], ci, count)]
  {
    assert column[..k + 1][..k] == column[..k];
  }

  lemma PositionColumnsStep(columns: seq<seq<Appointment>>, ci: nat, count: int)
    requires ci < |columns|
    ensures PositionColumns(columns[..ci + 1], count) ==
      PositionColumns(columns[..ci], count) + PositionColumn(columns[ci], ci, count)
  {
    assert columns[..ci + 1][..ci] == columns[..ci];
  }

  /** `column.forEach(appointment => result[dayIndex].push({...}))` for column `ci` of `count`. */
  method EmitColumn(column: seq<Appointment>, ci: int, count: int, out: seq<Positioned>)
    returns (res: seq<Positioned>)
    ensures res == out + PositionColumn(column, ci, count)
  {
    res := out;
    var k := 0;
    while k < |column|
      invariant 0 <= k <= |column|
      invariant res == out + PositionColumn(column[..k], ci, count)
    {
      res := res + [PositionOf(column[k], ci, count)];
      PositionColumnStep(column, k, ci, count);
      k := k + 1;
    }
    assert column[..k] == column;
  }

  /** `columns.forEach((column, columnIndex) => ...)`: every column, left to right. */
  method EmitColumns(columns: seq<seq<Appointment>>, out: seq<Positioned>) returns (res: seq<Positioned>)
    ensures res == out + PositionColumns(columns, |columns|)
  {
    res := out;
    var ci := 0;
    while ci < |columns|
      invariant 0 <= ci <= |columns|
      invariant res == out + PositionColumns(columns[..ci], |columns|)
    {
      res := EmitColumn(columns[ci], ci, |columns|, res);
      PositionColumnsStep(columns, ci, |columns|);
      ci := ci + 1;
    }
    assert columns[..ci] == columns;
  }

  /** The body of the per-day loop: sort, group, assign columns, emit. */
  method LayoutDay(appointments: seq<Appointment>, weekStart: Time, dayIndex: int)
    returns (day: seq<Positioned>)
    ensures day == DayLayout(appointments, weekStart, dayIndex)
  {
    day := [];
    var dayAppointments := Filter(appointments, OnDay(weekStart, dayIndex));
    if |dayAppointments| == 0 {
      return;
    }
    var sorted := SortByStart(dayAppointments);
    var groups := GroupOverlaps(sorted);
    var g := 0;
    while g < |groups|
      invariant 0 <= g <= |groups|
      invariant day == LayoutGroups(groups[..g])
    {
      var columns := AssignColumns(groups[g]);
      day := EmitColumns(columns, day);
      assert groups[..g + 1][..g] == groups[..g];
      g := g + 1;
    }
    assert groups[..g] == groups;
  }

  /**
   * `positionedAppointmentsByDay`: seven lists, one per day of the Monday-first week of
   * `date` (`weekStart = startOfWeek(date, { weekStartsOn: 1 })`), each filled group
   * by group with the group's first-fit columns.
   */
  method PositionedAppointmentsByDay(appointments: seq<Appointment>, date: Time)
    returns (result: seq<seq<Positioned>>)
    ensures |result| == 7
    ensures forall i :: 0 <= i < 7 ==> result[i] == DayLayout(appointments, StartOfWeek(date), i)
  {
    var weekStart := StartOfWeek(date);
    ghost var layout := (i: nat) => DayLayout(appointments, weekStart, i);
    result := [];
    for dayIndex := 0 to 7
      invariant result == Tabulate(layout, dayIndex)
    {
      var day := LayoutDay(appointments, weekStart, dayIndex);
      result := result + [day];
    }
    TabulateAt(layout, 7);
  }

}
