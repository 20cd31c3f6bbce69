/**
 * Side-by-side layout of one day's events (`getDayEventStyles`): events
 * are sorted by start, split into groups of overlapping events, and
 * placed greedily into columns; each event's width is its group's share
 * of the day column. Positions are in minutes (the hour-height scaling
 * to pixels is left out).
 */
module DayLayout {
  import opened Types
  import opened Sorting

  /** A `PositionedEvent` without its mutable `col`/`maxCols`, which live in arrays indexed like the list. */
  datatype Slot = Slot(id: string, start: int, end: int, top: int, height: int)

  datatype EventStyle = EventStyle(top: int, height: int, width: real, left: real)

  /** The strict overlap test of the grouping pass. */
  predicate Overlap(a: Slot, b: Slot) {
    a.start < b.end && a.end > b.start
  }

  function StartOf(s: Slot): int {
    s.start
  }

  predicate SortedByStart(s: seq<Slot>) {
    SortedBy(s, StartOf)
  }

  /** An event's slot: `top` is its offset from the start of the day, never negative; `height` its duration. */
  function SlotOf(ev: CalendarEvent, dayStart: int): (r: Slot)
    ensures r.top >= 0 && (ev.start >= dayStart ==> r.top == ev.start - dayStart) && (ev.start < dayStart ==> r.top == 0)
    ensures r.id == ev.id && r.start == ev.start && r.end == ev.end && r.height == ev.end - ev.start
  {
    Slot(ev.id, ev.start, ev.end, if ev.start - dayStart > 0 then ev.start - dayStart else 0, ev.end - ev.start)
  }

  function Slots(events: seq<CalendarEvent>, dayStart: int): (r: seq<Slot>)
    ensures |r| == |events|
    ensures forall i :: 0 <= i < |r| ==> r[i] == SlotOf(events[i], dayStart)
  {
    if events == [] then [] else Slots(events[..|events| - 1], dayStart) + [SlotOf(events[|events| - 1], dayStart)]
  }

  /* ------------------------------ overlap groups ------------------------------ */

  predicate Indices(evs: seq<Slot>, group: seq<nat>) {
    forall j :: 0 <= j < |group| ==> group[j] < |evs|
  }

  /** `group.some(g => overlap(ev, g))`. */
  predicate OverlapsAny(evs: seq<Slot>, group: seq<nat>, k: nat)
    requires k < |evs| && Indices(evs, group)
  {
    exists j :: 0 <= j < |group| && Overlap(evs[k], evs[group[j]])
  }

  /** The first group at or after `from` holding an event that `evs[k]` overlaps; `|groups|` when there is none. */
  function FirstOverlapping(evs: seq<Slot>, groups: seq<seq<nat>>, k: nat, from: nat): (r: nat)
    requires k < |evs| && from <= |groups|
    requires forall g :: 0 <= g < |groups| ==> Indices(evs, groups[g])
    ensures from <= r <= |groups|
    ensures r < |groups| ==> OverlapsAny(evs, groups[r], k)
    ensures forall g :: from <= g < r ==> !OverlapsAny(evs, groups[g], k)
    decreases |groups| - from
  {
    if from == |groups| then from
    else if OverlapsAny(evs, groups[from], k) then from
    else FirstOverlapping(evs, groups, k, from + 1)
  }

  /** One step of the grouping pass: join the first overlapping group, or start a new one. */
  function Join(evs: seq<Slot>, groups: seq<seq<nat>>, k: nat): seq<seq<nat>>
    requires k < |evs|
    requires forall g :: 0 <= g < |groups| ==> Indices(evs, groups[g])
  {
    Added(groups, FirstOverlapping(evs, groups, k, 0), k)
  }

  /** The overlap groups of the first `n` events. */
  function GroupsOf(evs: seq<Slot>, n: nat): (r: seq<seq<nat>>)
    requires n <= |evs|
    ensures forall g :: 0 <= g < |r| ==> Indices(evs, r[g])
  {
    if n == 0 then [] else Join(evs, GroupsOf(evs, n - 1), n - 1)
  }

  predicate InSomeGroup(groups: seq<seq<nat>>, k: nat) {
    exists g :: 0 <= g < |groups| && k in groups[g]
  }

  /** Groups are non-empty and strictly increasing, and every event lies in exactly one of them. */
  predicate Partition(groups: seq<seq<nat>>, n: nat) {
    && (forall g :: 0 <= g < |groups| ==> |groups[g]| > 0)
    && (forall g, i, j :: 0 <= g < |groups| && 0 <= i < j < |groups[g]| ==> groups[g][i] < groups[g][j])
    && (forall g, i :: 0 <= g < |groups| && 0 <= i < |groups[g]| ==> groups[g][i] < n)
    && (forall k :: 0 <= k < n ==> InSomeGroup(groups, k))
    && (forall k, g1, g2 :: 0 <= g1 < |groups| && 0 <= g2 < |groups| && k in groups[g1] && k in groups[g2] ==> g1 == g2)
  }

  lemma {:induction false} GroupsPartition(evs: seq<Slot>, n: nat, groups: seq<seq<nat>>)
    requires n <= |evs| && groups == GroupsOf(evs, n)
    ensures Partition(groups, n)
  {
    if n > 0 {
      var prev := GroupsOf(evs, n - 1);
      GroupsPartition(evs, n - 1, prev);
      AddedPartition(prev, FirstOverlapping(evs, prev, n - 1, 0), n - 1, groups);
    }
  }

  /** `groups` with `k` appended to group `g`, or as a group of its own when `g == |groups|`. */
  function Added(groups: seq<seq<nat>>, g: nat, k: nat): seq<seq<nat>>
    requires g <= |groups|
  {
    if g == |groups| then groups + [[k]] else groups[g := groups[g] + [k]]
  }

  /** Adding the next event to a partition of the events before it gives a partition. */
  lemma AddedPartition(prev: seq<seq<nat>>, g: nat, k: nat, r: seq<seq<nat>>)
    requires g <= |prev| && Partition(prev, k) && r == Added(prev, g, k)
    ensures Partition(r, k + 1)
  {
    assert forall h :: 0 <= h < |prev| && h != g ==> r[h] == prev[h];
    assert g < |prev| ==> r[g] == prev[g] + [k];
    assert g == |prev| ==> r[g] == [k];
    AddedCovers(prev, g, k);
    AddedUnique(prev, g, k);
  }

  lemma AddedCovers(prev: seq<seq<nat>>, g: nat, k: nat)
    requires g <= |prev| && Partition(prev, k)
    ensures forall x :: 0 <= x < k + 1 ==> InSomeGroup(Added(prev, g, k), x)
  {
    var r := Added(prev, g, k);
    forall x | 0 <= x < k + 1 ensures InSomeGroup(r, x) {
      if x == k {
        assert k in r[g];
      } else {
        assert InSomeGroup(prev, x);
        var h :| 0 <= h < |prev| && x in prev[h];
        assert x in r[h];
      }
    }
  }

  lemma AddedUnique(prev: seq<seq<nat>>, g: nat, k: nat)
    requires g <= |prev| && Partition(prev, k)
    ensures var r := Added(prev, g, k);
      forall x, g1, g2 :: 0 <= g1 < |r| && 0 <= g2 < |r| && x in r[g1] && x in r[g2] ==> g1 == g2
  {
    var r := Added(prev, g, k);
    assert forall h :: 0 <= h < |prev| ==> k !in prev[h];
    forall x, g1, g2 | 0 <= g1 < |r| && 0 <= g2 < |r| && x in r[g1] && x in r[g2] ensures g1 == g2 {
      if x != k {
        assert g1 < |prev| && x in prev[g1];
        assert g2 < |prev| && x in prev[g2];
      }
    }
  }

  /* ------------------------------ greedy columns ------------------------------ */

  /** `col[col.length - 1]`. */
  function Last(column: seq<nat>): nat
    requires |column| > 0
  {
    column[|column| - 1]
  }

  /** The end of the last event in a column. */
  function LastEnd(evs: seq<Slot>, column: seq<nat>): int
    requires |column| > 0 && Indices(evs, column)
  {
    evs[Last(column)].end
  }

  predicate Distinct(members: seq<nat>) {
    forall i, j :: 0 <= i < j < |members| ==> members[i] != members[j]
  }

  /** Members listed in ascending start order. */
  predicate StartOrdered(evs: seq<Slot>, members: seq<nat>)
    requires Indices(evs, members)
  {
    forall i, j :: 0 <= i < j < |members| ==> evs[members[i]].start <= evs[members[j]].start
  }

  /** Some member sits in column `c`. */
  predicate Used(members: seq<nat>, cols: seq<int>, c: int) {
    exists i :: 0 <= i < |members| && members[i] < |cols| && cols[members[i]] == c
  }

  /**
   * What a column pass promises: every member has a column below
   * `count`, every such column is used, and of two members sharing a
   * column the later starts no earlier than the earlier ends.
   */
  predicate ColumnsOk(evs: seq<Slot>, members: seq<nat>, cols: seq<int>, count: nat)
    requires Indices(evs, members) && |cols| == |evs|
  {
    && (forall i :: 0 <= i < |members| ==> 0 <= cols[members[i]] < count)
    && (forall c :: 0 <= c < count ==> Used(members, cols, c))
    && (forall i, j :: 0 <= i < j < |members| && cols[members[i]] == cols[members[j]] ==>
          evs[members[i]].end <= evs[members[j]].start)
  }

  /** The column search: the first column whose last event ends at or before `start`, or `|columns|`. */
  method FirstFit(evs: seq<Slot>, columns: seq<seq<nat>>, start: int) returns (c: nat)
    requires forall c :: 0 <= c < |columns| ==> |columns[c]| > 0 && Indices(evs, columns[c])
    ensures c <= |columns|
    ensures c < |columns| ==> start >= LastEnd(evs, columns[c])
    ensures forall c' :: 0 <= c' < c ==> start < LastEnd(evs, columns[c'])
  {
    c := 0;
    while c < |columns|
      invariant c <= |columns|
      invariant forall c' :: 0 <= c' < c ==> start < LastEnd(evs, columns[c'])
    {
      var column := columns[c];
      if start >= evs[column[|column| - 1]].end {
        return;
      }
      c := c + 1;
    }
  }

  /** Columns are non-empty lists of events, and `lastIdx[c]` is the position in `members` of column `c`'s last event. */
  ghost predicate LastsOk(evs: seq<Slot>, members: seq<nat>, i: nat, columns: seq<seq<nat>>, lastIdx: seq<nat>, cols: seq<int>)
    requires Indices(evs, members) && |cols| == |evs| && i <= |members|
  {
    && |lastIdx| == |columns|
    && (forall c :: 0 <= c < |columns| ==> |columns[c]| > 0 && Indices(evs, columns[c]))
    && (forall c :: 0 <= c < |columns| ==>
          lastIdx[c] < i && members[lastIdx[c]] == Last(columns[c]) && cols[members[lastIdx[c]]] == c)
    && (forall i' :: 0 <= i' < i ==> 0 <= cols[members[i']] < |columns|)
  }

  /** Every placed event other than its column's last ends by the time that last event starts. */
  ghost predicate BehindLast(evs: seq<Slot>, members: seq<nat>, i: nat, columns: seq<seq<nat>>, lastIdx: seq<nat>, cols: seq<int>)
    requires Indices(evs, members) && |cols| == |evs| && i <= |members|
    requires LastsOk(evs, members, i, columns, lastIdx, cols)
  {
    forall i' :: 0 <= i' < i ==>
      i' == lastIdx[cols[members[i']]] || evs[members[i']].end <= evs[Last(columns[cols[members[i']]])].start
  }

  /** Of two placed events sharing a column, the later starts no earlier than the earlier ends. */
  ghost predicate Apart(evs: seq<Slot>, members: seq<nat>, i: nat, cols: seq<int>)
    requires Indices(evs, members) && |cols| == |evs| && i <= |members|
  {
    forall i1, i2 :: 0 <= i1 < i2 < i && cols[members[i1]] == cols[members[i2]] ==>
      evs[members[i1]].end <= evs[members[i2]].start
  }

  /** The column pass's loop invariant after `i` members, over a snapshot `cols` of the column array. */
  ghost predicate PlaceInv(evs: seq<Slot>, members: seq<nat>, i: nat, columns: seq<seq<nat>>, lastIdx: seq<nat>, cols: seq<int>)
    requires Indices(evs, members) && |cols| == |evs| && i <= |members|
  {
    && LastsOk(evs, members, i, columns, lastIdx, cols)
    && BehindLast(evs, members, i, columns, lastIdx, cols)
    && Apart(evs, members, i, cols)
  }

  lemma PlaceInExistingLasts(evs: seq<Slot>, members: seq<nat>, i: nat, columns: seq<seq<nat>>, lastIdx: seq<nat>, cols: seq<int>, c: nat)
    requires Indices(evs, members) && |cols| == |evs| && i < |members|
    requires Distinct(members)
    requires LastsOk(evs, members, i, columns, lastIdx, cols)
    requires c < |columns|
    ensures LastsOk(evs, members, i + 1, columns[c := columns[c] + [members[i]]], lastIdx[c := i], cols[members[i] := c])
  {
    assert forall i' :: 0 <= i' < i ==> members[i'] != members[i];
  }

  lemma PlaceInExistingApart(evs: seq<Slot>, members: seq<nat>, i: nat, columns: seq<seq<nat>>, lastIdx: seq<nat>, cols: seq<int>, c: nat)
    requires Indices(evs, members) && |cols| == |evs| && i < |members|
    requires Distinct(members) && StartOrdered(evs, members)
    requires PlaceInv(evs, members, i, columns, lastIdx, cols)
    requires c < |columns| && evs[members[i]].start >= LastEnd(evs, columns[c])
    ensures Apart(evs, members, i + 1, cols[members[i] := c])
    ensures forall i' :: 0 <= i' < i && cols[members[i']] == c ==> evs[members[i']].end <= evs[members[i]].start
  {
    var k := members[i];
    var cols' := cols[k := c];
    assert forall i' :: 0 <= i' < i ==> members[i'] != k;
    assert forall i' :: 0 <= i' < i ==> cols'[members[i']] == cols[members[i']];
    assert evs[members[lastIdx[c]]].start <= evs[k].start;
    forall i' | 0 <= i' < i && cols[members[i']] == c
      ensures evs[members[i']].end <= evs[k].start
    {
    }
  }

  /** Appending member `i` to column `c`, the first it fits, keeps the invariant. */
  lemma PlaceInExisting(evs: seq<Slot>, members: seq<nat>, i: nat, columns: seq<seq<nat>>, lastIdx: seq<nat>, cols: seq<int>, c: nat)
    requires Indices(evs, members) && |cols| == |evs| && i < |members|
    requires Distinct(members) && StartOrdered(evs, members)
    requires PlaceInv(evs, members, i, columns, lastIdx, cols)
    requires c < |columns| && evs[members[i]].start >= LastEnd(evs, columns[c])
    ensures PlaceInv(evs, members, i + 1, columns[c := columns[c] + [members[i]]], lastIdx[c := i], cols[members[i] := c])
  {
    var k := members[i];
    var columns', lastIdx', cols' := columns[c := columns[c] + [k]], lastIdx[c := i], cols[k := c];
    PlaceInExistingLasts(evs, members, i, columns, lastIdx, cols, c);
    PlaceInExistingApart(evs, members, i, columns, lastIdx, cols, c);
    assert forall i' :: 0 <= i' < i ==> members[i'] != k;
    forall i' | 0 <= i' < i + 1
      ensures i' == lastIdx'[cols'[members[i']]] || evs[members[i']].end <= evs[Last(columns'[cols'[members[i']]])].start
    {
      if i' < i && cols[members[i']] != c {
        assert cols'[members[i']] == cols[members[i']];
      }
    }
  }

  lemma PlaceInNewLasts(evs: seq<Slot>, members: seq<nat>, i: nat, columns: seq<seq<nat>>, lastIdx: seq<nat>, cols: seq<int>)
    requires Indices(evs, members) && |cols| == |evs| && i < |members|
    requires Distinct(members)
    requires LastsOk(evs, members, i, columns, lastIdx, cols)
    ensures LastsOk(evs, members, i + 1, columns + [[members[i]]], lastIdx + [i], cols[members[i] := |columns|])
  {
    assert forall i' :: 0 <= i' < i ==> members[i'] != members[i];
  }

  lemma PlaceInNewApart(evs: seq<Slot>, members: seq<nat>, i: nat, columns: seq<seq<nat>>, lastIdx: seq<nat>, cols: seq<int>)
    requires Indices(evs, members) && |cols| == |evs| && i < |members|
    requires Distinct(members)
    requires LastsOk(evs, members, i, columns, lastIdx, cols) && Apart(evs, members, i, cols)
    ensures Apart(evs, members, i + 1, cols[members[i] := |columns|])
  {
    var k := members[i];
    var cols' := cols[k := |columns|];
    assert forall i' :: 0 <= i' < i ==> members[i'] != k;
    assert forall i' :: 0 <= i' < i ==> cols'[members[i']] == cols[members[i']];
  }

  /** Opening a new column for member `i` keeps the invariant. */
  lemma PlaceInNew(evs: seq<Slot>, members: seq<nat>, i: nat, columns: seq<seq<nat>>, lastIdx: seq<nat>, cols: seq<int>)
    requires Indices(evs, members) && |cols| == |evs| && i < |members|
    requires Distinct(members)
    requires PlaceInv(evs, members, i, columns, lastIdx, cols)
    ensures PlaceInv(evs, members, i + 1, columns + [[members[i]]], lastIdx + [i], cols[members[i] := |columns|])
  {
    var k := members[i];
    var columns', lastIdx', cols' := columns + [[k]], lastIdx + [i], cols[k := |columns|];
    PlaceInNewLasts(evs, members, i, columns, lastIdx, cols);
    PlaceInNewApart(evs, members, i, columns, lastIdx, cols);
    assert forall i' :: 0 <= i' < i ==> members[i'] != k;
    forall i' | 0 <= i' < i + 1
      ensures i' == lastIdx'[cols'[members[i']]] || evs[members[i']].end <= evs[Last(columns'[cols'[members[i']]])].start
    {
      if i' < i {
        assert cols'[members[i']] == cols[members[i']];
        assert cols[members[i']] < |columns|;
      }
    }
  }

  /**
   * One greedy column pass over `members` (the whole day on the first
   * pass, one overlap group on the second): each event goes into the
   * first column it fits, or a new one; `col` receives its column index.
   */
  method PlaceColumns(evs: seq<Slot>, members: seq<nat>, col: array<int>) returns (columnCount: nat)
    requires Indices(evs, members) && col.Length == |evs|
    requires Distinct(members) && StartOrdered(evs, members)
    modifies col
    ensures Untouched(members, col[..], old(col[..]))
    ensures ColumnsOk(evs, members, col[..], columnCount)
  {
    var columns: seq<seq<nat>> := [];
    ghost var lastIdx: seq<nat> := [];
    var i := 0;
    while i < |members|
      invariant 0 <= i <= |members|
      invariant PlaceInv(evs, members, i, columns, lastIdx, col[..])
      invariant Untouched(members[..i], col[..], old(col[..]))
    {
      var k := members[i];
      ghost var before, columns0, lastIdx0 := col[..], columns, lastIdx;
      var c := FirstFit(evs, columns, evs[k].start);
      if c < |columns| {
        columns := columns[c := columns[c] + [k]];
        lastIdx := lastIdx[c := i];
      } else {
        columns := columns + [[k]];
        lastIdx := lastIdx + [i];
      }
      col[k] := c;
      PlaceStep(evs, members, i, columns0, lastIdx0, before, c, columns, lastIdx, col[..]);
      UntouchedStep(members, i, before, old(col[..]), c);
      i := i + 1;
    }
    assert members[..i] == members;
    columnCount := |columns|;
    PlaceInvColumnsOk(evs, members, columns, lastIdx, col[..]);
  }

  /** Member `i` placed in column `c`, the first it fits or a new one, keeps the invariant. */
  lemma PlaceStep(evs: seq<Slot>, members: seq<nat>, i: nat, columns: seq<seq<nat>>, lastIdx: seq<nat>, cols: seq<int>,
                  c: nat, columns': seq<seq<nat>>, lastIdx': seq<nat>, cols': seq<int>)
    requires Indices(evs, members) && |cols| == |evs| && i < |members|
    requires Distinct(members) && StartOrdered(evs, members)
    requires PlaceInv(evs, members, i, columns, lastIdx, cols)
    requires c <= |columns| && (c < |columns| ==> evs[members[i]].start >= LastEnd(evs, columns[c]))
    requires c < |columns| ==> columns' == columns[c := columns[c] + [members[i]]] && lastIdx' == lastIdx[c := i]
    requires c == |columns| ==> columns' == columns + [[members[i]]] && lastIdx' == lastIdx + [i]
    requires cols' == cols[members[i] := c]
    ensures PlaceInv(evs, members, i + 1, columns', lastIdx', cols')
  {
    if c < |columns| {
      PlaceInExisting(evs, members, i, columns, lastIdx, cols, c);
    } else {
      PlaceInNew(evs, members, i, columns, lastIdx, cols);
    }
  }

  /** Every position outside `members` still holds its original column. */
  predicate Untouched(members: seq<nat>, cols: seq<int>, orig: seq<int>) {
    |cols| == |orig| && forall k :: 0 <= k < |cols| && k !in members ==> cols[k] == orig[k]
  }

  lemma UntouchedStep(members: seq<nat>, i: nat, cols: seq<int>, orig: seq<int>, c: int)
    requires i < |members| && members[i] < |cols|
    requires Untouched(members[..i], cols, orig)
    ensures Untouched(members[..i + 1], cols[members[i] := c], orig)
  {
    assert members[..i + 1] == members[..i] + [members[i]];
  }

  /** After the last member the invariant gives the pass's promise. */
  lemma PlaceInvColumnsOk(evs: seq<Slot>, members: seq<nat>, columns: seq<seq<nat>>, lastIdx: seq<nat>, cols: seq<int>)
    requires Indices(evs, members) && |cols| == |evs|
    requires PlaceInv(evs, members, |members|, columns, lastIdx, cols)
    ensures ColumnsOk(evs, members, cols, |columns|)
  {
    forall c | 0 <= c < |columns| ensures Used(members, cols, c) {
      assert cols[members[lastIdx[c]]] == c;
    }
  }

  /* ------------------------------ the passes ------------------------------ */

  /** The group search of the grouping pass: the first group holding an event that `evs[k]` overlaps. */
  method FindGroup(evs: seq<Slot>, groups: seq<seq<nat>>, k: nat) returns (g: nat)
    requires k < |evs|
    requires forall g :: 0 <= g < |groups| ==> Indices(evs, groups[g])
    ensures g == FirstOverlapping(evs, groups, k, 0)
  {
    g := 0;
    while g < |groups|
      invariant g <= |groups|
      invariant FirstOverlapping(evs, groups, k, g) == FirstOverlapping(evs, groups, k, 0)
    {
      var group := groups[g];
      if exists j :: 0 <= j < |group| && Overlap(evs[k], evs[group[j]]) {
        return;
      }
      g := g + 1;
    }
  }

  /** The grouping pass: each event, in list order, joins the first group it overlaps or starts its own. */
  method OverlapGroups(evs: seq<Slot>) returns (groups: seq<seq<nat>>)
    ensures groups == GroupsOf(evs, |evs|)
  {
    groups := [];
    var i := 0;
    while i < |evs|
      invariant 0 <= i <= |evs|
      invariant groups == GroupsOf(evs, i)
    {
      var g := FindGroup(evs, groups, i);
      if g < |groups| {
        groups := groups[g := groups[g] + [i]];
      } else {
        groups := groups + [[i]];
      }
      i := i + 1;
    }
  }

  /** A group laid out: its columns are sound (`ColumnsOk`) and every member's `maxCols` is the group's column count. */
  ghost predicate GroupPlaced(evs: seq<Slot>, group: seq<nat>, cols: seq<int>, maxCols: seq<int>)
    requires |cols| == |evs| && |maxCols| == |evs|
  {
    && |group| > 0 && Indices(evs, group)
    && maxCols[group[0]] >= 0
    && ColumnsOk(evs, group, cols, maxCols[group[0]])
    && (forall j :: 0 <= j < |group| ==> maxCols[group[j]] == maxCols[group[0]])
  }

  /** `GroupPlaced` looks only at the group's own entries. */
  lemma GroupPlacedFrame(evs: seq<Slot>, group: seq<nat>, cols: seq<int>, maxCols: seq<int>, cols': seq<int>, maxCols': seq<int>)
    requires |cols| == |evs| && |maxCols| == |evs| && |cols'| == |evs| && |maxCols'| == |evs|
    requires GroupPlaced(evs, group, cols, maxCols)
    requires forall j :: 0 <= j < |group| ==> cols'[group[j]] == cols[group[j]] && maxCols'[group[j]] == maxCols[group[j]]
    ensures GroupPlaced(evs, group, cols', maxCols')
  {
    forall c | 0 <= c < maxCols'[group[0]] ensures Used(group, cols', c) {
      assert Used(group, cols, c);
      var i :| 0 <= i < |group| && group[i] < |cols| && cols[group[i]] == c;
      assert cols'[group[i]] == c;
    }
  }

  /** `for (const ev of group) ev.maxCols = maxCols`. */
  method SetMaxCols(group: seq<nat>, maxCols: array<int>, count: int)
    requires forall j :: 0 <= j < |group| ==> group[j] < maxCols.Length
    modifies maxCols
    ensures forall j :: 0 <= j < |group| ==> maxCols[group[j]] == count
    ensures forall k :: 0 <= k < maxCols.Length && k !in group ==> maxCols[k] == old(maxCols[k])
  {
    var j := 0;
    while j < |group|
      invariant 0 <= j <= |group|
      invariant forall j' :: 0 <= j' < j ==> maxCols[group[j']] == count
      invariant forall k :: 0 <= k < maxCols.Length && k !in group[..j] ==> maxCols[k] == old(maxCols[k])
    {
      maxCols[group[j]] := count;
      assert group[..j + 1] == group[..j] + [group[j]];
      j := j + 1;
    }
    assert group[..j] == group;
  }

  /** In a sorted list, a strictly increasing list of positions is distinct and in start order. */
  lemma IncreasingMembers(evs: seq<Slot>, group: seq<nat>)
    requires SortedByStart(evs) && Indices(evs, group)
    requires forall i, j :: 0 <= i < j < |group| ==> group[i] < group[j]
    ensures Distinct(group) && StartOrdered(evs, group)
  {
  }

  /** The second column pass, group by group, and the `maxCols` of each group's events. */
  method GroupColumns(evs: seq<Slot>, groups: seq<seq<nat>>, col: array<int>, maxCols: array<int>)
    requires SortedByStart(evs) && Partition(groups, |evs|)
    requires col.Length == |evs| && maxCols.Length == |evs| && col != maxCols
    modifies col, maxCols
    ensures forall g :: 0 <= g < |groups| ==> GroupPlaced(evs, groups[g], col[..], maxCols[..])
  {
    var g := 0;
    while g < |groups|
      invariant 0 <= g <= |groups|
      invariant forall g' :: 0 <= g' < g ==> GroupPlaced(evs, groups[g'], col[..], maxCols[..])
    {
      var group := groups[g];
      assert Indices(evs, group);
      IncreasingMembers(evs, group);
      ghost var cols0, maxCols0 := col[..], maxCols[..];
      var count := PlaceColumns(evs, group, col);
      SetMaxCols(group, maxCols, count);
      forall g' | 0 <= g' < g ensures GroupPlaced(evs, groups[g'], col[..], maxCols[..]) {
        forall j | 0 <= j < |groups[g']|
          ensures col[..][groups[g'][j]] == cols0[groups[g'][j]] && maxCols[..][groups[g'][j]] == maxCols0[groups[g'][j]]
        {
          var x := groups[g'][j];
          assert x in groups[g'];
          assert x !in group;
        }
        GroupPlacedFrame(evs, groups[g'], cols0, maxCols0, col[..], maxCols[..]);
      }
      assert GroupPlaced(evs, group, col[..], maxCols[..]);
      g := g + 1;
    }
  }

  /**
   * The three passes over the sorted slots. The first column pass is
   * overwritten by the second, since every event lies in exactly one
   * group; it is kept because the source runs it.
   */
  method Layout(evs: seq<Slot>) returns (groups: seq<seq<nat>>, col: seq<int>, maxCols: seq<int>)
    requires SortedByStart(evs)
    ensures groups == GroupsOf(evs, |evs|) && Partition(groups, |evs|)
    ensures |col| == |evs| && |maxCols| == |evs|
    ensures forall g :: 0 <= g < |groups| ==> GroupPlaced(evs, groups[g], col, maxCols)
    ensures forall k :: 0 <= k < |evs| ==> 0 <= col[k] < maxCols[k]
  {
    var colArr := new int[|evs|](_ => -1);
    var maxColsArr := new int[|evs|](_ => 1);
    var all := seq(|evs|, k => k);
    IncreasingMembers(evs, all);
    var firstPassColumns := PlaceColumns(evs, all, colArr);
    groups := OverlapGroups(evs);
    GroupsPartition(evs, |evs|, GroupsOf(evs, |evs|));
    GroupColumns(evs, groups, colArr, maxColsArr);
    col, maxCols := colArr[..], maxColsArr[..];
    forall k | 0 <= k < |evs| ensures 0 <= col[k] < maxCols[k] {
      assert InSomeGroup(groups, k);
      var g :| 0 <= g < |groups| && k in groups[g];
      var j :| 0 <= j < |groups[g]| && groups[g][j] == k;
      assert GroupPlaced(evs, groups[g], col, maxCols);
    }
  }

  /* ------------------------------ styles ------------------------------ */

  /** `width = 100 / maxCols`, `left = col * width`, in percent of the day column. */
  function StyleOf(slot: Slot, col: int, maxCols: int): EventStyle
    requires maxCols > 0
  {
    var width := 100.0 / (maxCols as real);
    EventStyle(slot.top, slot.height, width, (col as real) * width)
  }

  /** A style lies inside the day column: positive width, `0 <= left` and `left + width <= 100`. */
  lemma StyleInside(slot: Slot, col: int, maxCols: int)
    requires 0 <= col < maxCols
    ensures var st := StyleOf(slot, col, maxCols);
      st.width > 0.0 && st.left >= 0.0 && st.left + st.width <= 100.0 && st.top >= slot.top
  {
    var w := 100.0 / (maxCols as real);
    assert w * (maxCols as real) == 100.0;
    assert (col as real) + 1.0 <= maxCols as real;
    assert ((col as real) + 1.0) * w <= (maxCols as real) * w;
  }

  /** The styles record, written in list order, so a repeated id keeps its last event's style. */
  function StylesOf(evs: seq<Slot>, col: seq<int>, maxCols: seq<int>, n: nat): map<string, EventStyle>
    requires n <= |evs| && |col| == |evs| && |maxCols| == |evs|
    requires forall k :: 0 <= k < |evs| ==> maxCols[k] > 0
  {
    if n == 0 then map[]
    else StylesOf(evs, col, maxCols, n - 1)[evs[n - 1].id := StyleOf(evs[n - 1], col[n - 1], maxCols[n - 1])]
  }

  /** One entry per id of the first `n` slots. */
  lemma {:induction false} StylesOfEntries(evs: seq<Slot>, col: seq<int>, maxCols: seq<int>, n: nat)
    requires n <= |evs| && |col| == |evs| && |maxCols| == |evs|
    requires forall k :: 0 <= k < |evs| ==> maxCols[k] > 0
    ensures StylesOf(evs, col, maxCols, n).Keys == set k | 0 <= k < n :: evs[k].id
  {
    if n > 0 {
      StylesOfEntries(evs, col, maxCols, n - 1);
    }
  }

  /** The entry for `id` holds the style of the last slot with that id. */
  lemma {:induction false} StylesOfEntry(evs: seq<Slot>, col: seq<int>, maxCols: seq<int>, n: nat, id: string) returns (k: nat)
    requires n <= |evs| && |col| == |evs| && |maxCols| == |evs|
    requires forall k :: 0 <= k < |evs| ==> maxCols[k] > 0
    requires id in StylesOf(evs, col, maxCols, n)
    ensures k < n && evs[k].id == id
    ensures StylesOf(evs, col, maxCols, n)[id] == StyleOf(evs[k], col[k], maxCols[k])
  {
    if evs[n - 1].id != id {
      k := StylesOfEntry(evs, col, maxCols, n - 1, id);
    } else {
      k := n - 1;
    }
  }

  /** The final loop, writing `styles[ev.id]` for each positioned event. */
  method BuildStyles(evs: seq<Slot>, col: seq<int>, maxCols: seq<int>) returns (styles: map<string, EventStyle>)
    requires |col| == |evs| && |maxCols| == |evs|
    requires forall k :: 0 <= k < |evs| ==> maxCols[k] > 0
    ensures styles == StylesOf(evs, col, maxCols, |evs|)
  {
    styles := map[];
    var k := 0;
    while k < |evs|
      invariant 0 <= k <= |evs|
      invariant styles == StylesOf(evs, col, maxCols, k)
    {
      var ev := evs[k];
      var width := 100.0 / (maxCols[k] as real);
      var style := EventStyle(ev.top, ev.height, width, (col[k] as real) * width);
      assert style == StyleOf(evs[k], col[k], maxCols[k]);
      styles := styles[ev.id := style];
      k := k + 1;
    }
  }

  /** A style for `id`: taken from an event with that id, at a non-negative top, inside the day column. */
  predicate StyleFits(events: seq<CalendarEvent>, dayStart: int, id: string, st: EventStyle) {
    && FromEvent(events, dayStart, id, st)
    && st.top >= 0
    && InsideColumn(st)
  }

  /** Positive width, `0 <= left` and `left + width <= 100` (percent of the day column). */
  predicate InsideColumn(st: EventStyle) {
    st.width > 0.0 && st.left >= 0.0 && st.left + st.width <= 100.0
  }

  /** Some event with this id has the style's offset into the day and its duration as height. */
  predicate FromEvent(events: seq<CalendarEvent>, dayStart: int, id: string, st: EventStyle) {
    exists e :: e in events && e.id == id && st.top == SlotOf(e, dayStart).top && st.height == e.end - e.start
  }

  /** What a style record says about the events: one fitting style per event id. */
  predicate StylesFit(events: seq<CalendarEvent>, dayStart: int, styles: map<string, EventStyle>) {
    && styles.Keys == (set e | e in events :: e.id)
    && forall id :: id in styles ==> StyleFits(events, dayStart, id, styles[id])
  }

  lemma StyleOfFits(events: seq<CalendarEvent>, dayStart: int, slot: Slot, col: int, maxCols: int, id: string, st: EventStyle)
    requires slot in Slots(events, dayStart)
    requires 0 <= col < maxCols
    requires id == slot.id && st == StyleOf(slot, col, maxCols)
    ensures StyleFits(events, dayStart, id, st)
  {
    StyleInside(slot, col, maxCols);
    var i :| 0 <= i < |Slots(events, dayStart)| && Slots(events, dayStart)[i] == slot;
    assert events[i] in events && slot == SlotOf(events[i], dayStart);
  }

  /** Every entry of the styles record of slots that come from the events fits. */
  lemma StylesOfFit(events: seq<CalendarEvent>, dayStart: int, positioned: seq<Slot>, col: seq<int>, maxCols: seq<int>, id: string, st: EventStyle)
    requires forall k :: 0 <= k < |positioned| ==> positioned[k] in Slots(events, dayStart)
    requires |col| == |positioned| && |maxCols| == |positioned|
    requires forall k :: 0 <= k < |positioned| ==> 0 <= col[k] < maxCols[k]
    requires id in StylesOf(positioned, col, maxCols, |positioned|)
    requires st == StylesOf(positioned, col, maxCols, |positioned|)[id]
    ensures StyleFits(events, dayStart, id, st)
  {
    var k := StylesOfEntry(positioned, col, maxCols, |positioned|, id);
    StyleOfFits(events, dayStart, positioned[k], col[k], maxCols[k], id, st);
  }

  /**
   * `getDayEventStyles` for the day starting at minute `dayStart`: one
   * style per event id, each coming from an event with that id, at its
   * non-negative offset into the day, its duration high, and inside the
   * day column.
   */
  method GetDayEventStyles(events: seq<CalendarEvent>, dayStart: int) returns (styles: map<string, EventStyle>)
    ensures StylesFit(events, dayStart, styles)
  {
    var positioned := SortBy(Slots(events, dayStart), StartOf);
    var groups, col, maxCols := Layout(positioned);
    styles := BuildStyles(positioned, col, maxCols);
    SlotsFromEvents(events, dayStart, positioned);
    StylesOfEntries(positioned, col, maxCols, |positioned|);
    SlotsIds(events, dayStart, positioned);
    forall id | id in styles ensures StyleFits(events, dayStart, id, styles[id]) {
      StylesOfFit(events, dayStart, positioned, col, maxCols, id, styles[id]);
    }
  }

  /** Each sorted slot is the slot of some event. */
  lemma SlotsFromEvents(events: seq<CalendarEvent>, dayStart: int, positioned: seq<Slot>)
    requires positioned == SortBy(Slots(events, dayStart), StartOf)
    ensures forall k :: 0 <= k < |positioned| ==> positioned[k] in Slots(events, dayStart)
  {
    forall k | 0 <= k < |positioned| ensures positioned[k] in Slots(events, dayStart) {
      SortedSameElements(Slots(events, dayStart), StartOf, positioned[k]);
    }
  }

  /** The sorted slots carry exactly the events' ids. */
  lemma SlotsIds(events: seq<CalendarEvent>, dayStart: int, positioned: seq<Slot>)
    requires positioned == SortBy(Slots(events, dayStart), StartOf)
    ensures (set k | 0 <= k < |positioned| :: positioned[k].id) == set e | e in events :: e.id
  {
    var slots := Slots(events, dayStart);
    SlotsFromEvents(events, dayStart, positioned);
    forall x | x in slots ensures x in positioned {
      SortedSameElements(slots, StartOf, x);
    }
    SameSlotsSameIds(events, slots, positioned);
  }

  /** Slots that are one-to-one with the events' slots as sets carry the events' ids. */
  lemma SameSlotsSameIds(events: seq<CalendarEvent>, slots: seq<Slot>, positioned: seq<Slot>)
    requires |slots| == |events| && forall i :: 0 <= i < |slots| ==> slots[i].id == events[i].id
    requires forall k :: 0 <= k < |positioned| ==> positioned[k] in slots
    requires forall x :: x in slots ==> x in positioned
    ensures (set k | 0 <= k < |positioned| :: positioned[k].id) == set e | e in events :: e.id
  {
    var ids := set k | 0 <= k < |positioned| :: positioned[k].id;
    var evIds := set e | e in events :: e.id;
    forall id | id in ids ensures id in evIds {
      var k :| 0 <= k < |positioned| && positioned[k].id == id;
      var i :| 0 <= i < |slots| && slots[i] == positioned[k];
      assert events[i] in events;
    }
    forall id | id in evIds ensures id in ids {
      var e :| e in events && e.id == id;
      var i :| 0 <= i < |events| && events[i] == e;
      assert slots[i] in slots;
      var k :| 0 <= k < |positioned| && positioned[k] == slots[i];
    }
  }
}
