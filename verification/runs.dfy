/** The run collection's values: intervals, runs, the lookup `getActiveRun` performs,
    the default rows, the remove-run neighbour rule and the seconds total. */
module Runs {
  import opened Wrappers
  import opened TimeText

  /** A run id: `crypto.randomUUID()` text, or whatever a stored snapshot carried. */
  type Id = string

  /** One interval row: its label, its time text as typed ("mm:ss") and its speed in km/h. */
  datatype Interval = Interval(name: string, time: string, speed: real)

  /** A named set of intervals. */
  datatype Run = Run(id: Id, name: string, intervals: seq<Interval>)

  /** What `storage.save` is handed: `{ runs, activeRunId }`. */
  datatype Snapshot = Snapshot(runs: seq<Run>, activeRunId: Option<Id>)

  /** `defaultIntervals()`: two empty rows. */
  function DefaultIntervals(): seq<Interval> {
    [Interval("Interval 1", "00:00", 0.0), Interval("Interval 2", "00:00", 0.0)]
  }

  /** `createRun(name, intervals)`, with the fresh id passed in. */
  function CreateRun(id: Id, name: string, intervals: Option<seq<Interval>>): Run {
    Run(id, name, if intervals.Some? then intervals.value else [])
  }

  /** What `setActiveRun` renders for a run: its intervals, or the defaults when it has none. */
  function Shown(intervals: seq<Interval>): (rows: seq<Interval>)
    ensures |rows| > 0
    ensures |intervals| > 0 ==> rows == intervals
  {
    if |intervals| > 0 then intervals else DefaultIntervals()
  }

  predicate HasId(runs: seq<Run>, id: Id) {
    exists i :: 0 <= i < |runs| && runs[i].id == id
  }

  /** `runs.findIndex(run => run.id === id)`: the first position holding `id`. */
  function IndexOf(runs: seq<Run>, id: Id): (r: Option<nat>)
    ensures r.Some? ==> r.value < |runs| && runs[r.value].id == id
    ensures r.Some? ==> forall j :: 0 <= j < r.value ==> runs[j].id != id
    ensures r.None? <==> !HasId(runs, id)
  {
    if runs == [] then None
    else if runs[0].id == id then Some(0)
    else
      var rest := IndexOf(runs[1..], id);
      assert forall j :: 1 <= j < |runs| ==> runs[j] == runs[1..][j - 1];
      if rest.None? then None else Some(rest.value + 1)
  }

  predicate NonEmptyIds(runs: seq<Run>) {
    forall i :: 0 <= i < |runs| ==> runs[i].id != ""
  }

  predicate DistinctIds(runs: seq<Run>) {
    forall i, j :: 0 <= i < j < |runs| ==> runs[i].id != runs[j].id
  }

  /** The ids of the runs, in order. */
  function Ids(runs: seq<Run>): (ids: seq<Id>)
    ensures |ids| == |runs| && forall i :: 0 <= i < |runs| ==> ids[i] == runs[i].id
  {
    seq(|runs|, i requires 0 <= i < |runs| => runs[i].id)
  }

  /** A run carries `id` exactly when `id` is among the ids. */
  lemma HasIdIds(runs: seq<Run>, id: Id)
    ensures HasId(runs, id) <==> id in Ids(runs)
  {
    if id in Ids(runs) {
      var i :| 0 <= i < |runs| && Ids(runs)[i] == id;
    }
  }

  /** The collection invariant: at least one run, every id a non-empty (truthy) string, and
      `activeRunId` naming a run. */
  predicate Consistent(runs: seq<Run>, activeRunId: Option<Id>) {
    |runs| >= 1 && NonEmptyIds(runs) && activeRunId.Some? && HasId(runs, activeRunId.value)
  }

  /** The position of the active run of a consistent collection. */
  function ActiveIndex(runs: seq<Run>, activeRunId: Option<Id>): (i: nat)
    requires Consistent(runs, activeRunId)
    ensures i < |runs| && runs[i].id == activeRunId.value
  {
    IndexOf(runs, activeRunId.value).value
  }

  /** `persistActiveRun` on values: the first run with the active id takes `rows`. */
  function WithActiveIntervals(runs: seq<Run>, activeRunId: Option<Id>, rows: seq<Interval>): seq<Run> {
    if activeRunId.None? then runs
    else match IndexOf(runs, activeRunId.value)
      case None => runs
      case Some(i) => runs[i := runs[i].(intervals := rows)]
  }

  /** Under the invariant, persisting writes the rows into the active run and nowhere else. */
  lemma WithActiveIntervalsAt(runs: seq<Run>, activeRunId: Option<Id>, rows: seq<Interval>)
    requires Consistent(runs, activeRunId)
    ensures var i := ActiveIndex(runs, activeRunId);
      WithActiveIntervals(runs, activeRunId, rows) == runs[i := runs[i].(intervals := rows)]
  {
  }

  /** Replacing the active run by one with the same id keeps the collection consistent and the
      active run where it was. */
  lemma ReplaceActive(runs: seq<Run>, activeRunId: Option<Id>, run: Run)
    requires Consistent(runs, activeRunId) && run.id == activeRunId.value
    ensures var i := ActiveIndex(runs, activeRunId);
      Consistent(runs[i := run], activeRunId) && ActiveIndex(runs[i := run], activeRunId) == i
  {
    var i := ActiveIndex(runs, activeRunId);
    var after := runs[i := run];
    assert after[i].id == activeRunId.value;
    assert forall j :: 0 <= j < i ==> after[j] == runs[j];
  }

  /** `setActiveRun(id)` on the collection: the run found renders, and then stores, `Shown` of
      its intervals; nothing changes when no run has the id. */
  function Activated(runs: seq<Run>, id: Id): seq<Run> {
    match IndexOf(runs, id)
    case None => runs
    case Some(i) => runs[i := runs[i].(intervals := Shown(runs[i].intervals))]
  }

  /** Activating keeps every id in place, and the run found then has intervals. */
  lemma ActivatedKeepsIds(runs: seq<Run>, id: Id)
    ensures |Activated(runs, id)| == |runs|
    ensures forall i :: 0 <= i < |runs| ==> Activated(runs, id)[i].id == runs[i].id
    ensures forall i :: 0 <= i < |runs| && IndexOf(runs, id) != Some(i) ==> Activated(runs, id)[i] == runs[i]
    ensures IndexOf(Activated(runs, id), id) == IndexOf(runs, id)
    ensures HasId(runs, id) ==> |Activated(runs, id)[IndexOf(runs, id).value].intervals| > 0
  {
    match IndexOf(runs, id)
    case None =>
    case Some(k) =>
      var after := Activated(runs, id);
      assert after[k].id == id;
      assert forall j :: 0 <= j < k ==> after[j].id != id;
  }

  /** A run appended under an id no run has is found at the end. */
  lemma AppendFreshIndex(runs: seq<Run>, run: Run)
    requires !HasId(runs, run.id)
    ensures IndexOf(runs + [run], run.id) == Some(|runs|)
  {
    var after := runs + [run];
    assert after[|runs|] == run;
    assert forall j :: 0 <= j < |runs| ==> after[j] == runs[j];
  }

  lemma AppendNonEmptyIds(runs: seq<Run>, run: Run)
    requires NonEmptyIds(runs) && run.id != ""
    ensures NonEmptyIds(runs + [run])
  {
    var after := runs + [run];
    assert forall j :: 0 <= j < |runs| ==> after[j] == runs[j];
  }

  /** Activating a freshly appended run that has intervals changes nothing. */
  lemma AppendFreshActivated(runs: seq<Run>, run: Run)
    requires !HasId(runs, run.id) && |run.intervals| > 0
    ensures Activated(runs + [run], run.id) == runs + [run]
  {
    AppendFreshIndex(runs, run);
  }

  /** Appending a run under a fresh non-empty id keeps the collection consistent with the new
      run active at the last position. */
  lemma AppendFreshConsistent(runs: seq<Run>, run: Run)
    requires NonEmptyIds(runs) && run.id != "" && !HasId(runs, run.id)
    ensures Consistent(runs + [run], Some(run.id)) && ActiveIndex(runs + [run], Some(run.id)) == |runs|
  {
    AppendFreshIndex(runs, run);
    AppendNonEmptyIds(runs, run);
  }

  function RemoveAt(runs: seq<Run>, i: nat): (rest: seq<Run>)
    requires i < |runs|
    ensures |rest| == |runs| - 1
    ensures forall j :: 0 <= j < i ==> rest[j] == runs[j]
    ensures forall j :: i <= j < |rest| ==> rest[j] == runs[j + 1]
  {
    runs[..i] + runs[i + 1..]
  }

  /** `runs[currentIndex] || runs[currentIndex - 1] || runs[0]` as a position in a list of
      `n` runs: the same index, else the previous one, else the first. */
  function NeighbourIndex(n: nat, i: nat): (j: nat)
    ensures n > 0 ==> j < n
    ensures i < n ==> j == i
    ensures 1 <= i == n ==> j == i - 1
  {
    if i < n then i else if 1 <= i && i - 1 < n then i - 1 else 0
  }

  /** The remove-run rule applied to the run at `i`: it goes, the others keep their order,
      and the neighbour in its place (else the one before) becomes the choice. */
  lemma RemoveAtNeighbour(runs: seq<Run>, i: nat)
    requires 2 <= |runs| && i < |runs|
    ensures var rest := RemoveAt(runs, i);
      var j := NeighbourIndex(|rest|, i);
      && j < |rest|
      && (i + 1 < |runs| ==> rest[j] == runs[i + 1])
      && (i + 1 == |runs| ==> rest[j] == runs[i - 1])
      && multiset(rest) + multiset{runs[i]} == multiset(runs)
  {
    var rest := RemoveAt(runs, i);
    assert runs == runs[..i] + [runs[i]] + runs[i + 1..];
    calc {
      multiset(runs);
      multiset(runs[..i]) + multiset{runs[i]} + multiset(runs[i + 1..]);
      multiset(rest) + multiset{runs[i]};
    }
  }

  /** Removing one run of a consistent collection of two or more, and activating the
      neighbour the rule picks, leaves a consistent collection. */
  lemma RemoveAtConsistent(runs: seq<Run>, i: nat)
    requires 2 <= |runs| && i < |runs| && NonEmptyIds(runs)
    ensures var rest := RemoveAt(runs, i);
      Consistent(rest, Some(rest[NeighbourIndex(|rest|, i)].id))
  {
    var rest := RemoveAt(runs, i);
    var j := NeighbourIndex(|rest|, i);
    assert HasId(rest, rest[j].id);
  }

  /** `runs.filter(run => run.id !== id)`. */
  function FilterOut(runs: seq<Run>, id: Id): (rest: seq<Run>)
    ensures |rest| <= |runs|
    ensures !HasId(rest, id)
  {
    if runs == [] then []
    else
      var tail := FilterOut(runs[1..], id);
      if runs[0].id == id then tail else [runs[0]] + tail
  }

  /** The filter works run by run: it distributes over concatenation, so the runs it keeps
      stay in their order. */
  lemma {:induction false} FilterOutAppend(a: seq<Run>, b: seq<Run>, id: Id)
    ensures FilterOut(a + b, id) == FilterOut(a, id) + FilterOut(b, id)
  {
    if a != [] {
      assert (a + b)[1..] == a[1..] + b;
      FilterOutAppend(a[1..], b, id);
    } else {
      assert a + b == b;
    }
  }

  /** The filter keeps every run with another id as often as it occurs, and no run with `id`. */
  lemma {:induction false} FilterOutCounts(runs: seq<Run>, id: Id)
    ensures forall x :: multiset(FilterOut(runs, id))[x] == if x.id == id then 0 else multiset(runs)[x]
  {
    if runs != [] {
      FilterOutCounts(runs[1..], id);
      assert runs == [runs[0]] + runs[1..];
    }
  }

  /** On a single run the filter keeps it exactly when its id is another one. */
  lemma FilterOutSingle(r: Run, id: Id)
    ensures FilterOut([r], id) == if r.id == id then [] else [r]
  {
    assert [r][1..] == [];
  }

  /** The remove-run handler as written: drop EVERY run carrying the active id, then pick
      `runs[currentIndex] || runs[currentIndex - 1] || runs[0]`, or null when none is left. */
  function RemoveByFilter(runs: seq<Run>, activeId: Id): (seq<Run>, Option<Id>)
    requires HasId(runs, activeId)
  {
    var current := IndexOf(runs, activeId).value;
    var rest := FilterOut(runs, activeId);
    var j := NeighbourIndex(|rest|, current);
    (rest, if j < |rest| then Some(rest[j].id) else None)
  }

  /** Two runs sharing one id (only a stored snapshot can hold them; see Load.MergeKeepsDistinct): the
      filter removes both, the collection becomes empty and no run is active. */
  lemma RemoveByFilterEmpties(r: Run)
    requires r.id != ""
    ensures Consistent([r, r], Some(r.id))
    ensures RemoveByFilter([r, r], r.id) == ([], None)
  {
    assert [r, r][1..] == [r];
    assert [r][1..] == [];
    assert FilterOut([r], r.id) == [];
    assert FilterOut([r, r], r.id) == [];
    assert IndexOf([r, r], r.id) == Some(0);
  }

  /** With distinct ids the filter removes exactly the active run, so the handler as written
      agrees with removal at the active position. */
  lemma {:induction false} FilterOutDistinct(runs: seq<Run>, i: nat)
    requires DistinctIds(runs) && i < |runs|
    ensures FilterOut(runs, runs[i].id) == RemoveAt(runs, i)
  {
    if i == 0 {
      FilterOutAbsent(runs[1..], runs[0].id);
      assert RemoveAt(runs, 0) == runs[1..];
    } else {
      assert DistinctIds(runs[1..]) by {
        forall a, b | 0 <= a < b < |runs[1..]| ensures runs[1..][a].id != runs[1..][b].id {
          assert runs[1..][a] == runs[a + 1] && runs[1..][b] == runs[b + 1];
        }
      }
      FilterOutDistinct(runs[1..], i - 1);
      assert runs[1..][i - 1] == runs[i];
      assert runs[0].id != runs[i].id;
      assert RemoveAt(runs, i) == [runs[0]] + RemoveAt(runs[1..], i - 1);
    }
  }

  lemma {:induction false} FilterOutAbsent(runs: seq<Run>, id: Id)
    requires !HasId(runs, id)
    ensures FilterOut(runs, id) == runs
  {
    if runs != [] {
      assert runs[0].id != id;
      assert forall k :: 0 <= k < |runs[1..]| ==> runs[1..][k] == runs[k + 1];
      FilterOutAbsent(runs[1..], id);
      assert [runs[0]] + runs[1..] == runs;
    }
  }

  /** The corrected remove: with distinct ids it is what the handler as written computes. */
  lemma RemoveByFilterAgrees(runs: seq<Run>, activeId: Id)
    requires DistinctIds(runs) && HasId(runs, activeId)
    ensures var i := IndexOf(runs, activeId).value;
      RemoveByFilter(runs, activeId).0 == RemoveAt(runs, i)
    ensures var i := IndexOf(runs, activeId).value;
      |runs| >= 2 ==> RemoveByFilter(runs, activeId).1 == Some(RemoveAt(runs, i)[NeighbourIndex(|runs| - 1, i)].id)
  {
    FilterOutDistinct(runs, IndexOf(runs, activeId).value);
  }

  /** The seconds one row contributes: `parseTimeInput(time).totalSeconds`. */
  function RowSeconds(row: Interval): nat {
    ParseTimeInput(row.time).totalSeconds
  }

  /** The rows' `seconds` added up in order. */
  function Total(rows: seq<Interval>, seconds: Interval -> nat): nat {
    if rows == [] then 0
    else Total(rows[..|rows| - 1], seconds) + seconds(rows[|rows| - 1])
  }

  /** The run total `updateTotals` shows. */
  function SumSeconds(rows: seq<Interval>): nat {
    Total(rows, RowSeconds)
  }

  lemma TotalStep(rows: seq<Interval>, i: nat, seconds: Interval -> nat)
    requires i < |rows|
    ensures Total(rows[..i + 1], seconds) == Total(rows[..i], seconds) + seconds(rows[i])
  {
    assert rows[..i + 1][..i] == rows[..i];
  }

  lemma {:induction false} TotalAppend(a: seq<Interval>, b: seq<Interval>, seconds: Interval -> nat)
    ensures Total(a + b, seconds) == Total(a, seconds) + Total(b, seconds)
  {
    if b == [] {
      assert a + b == a;
    } else {
      assert (a + b)[..|a + b| - 1] == a + b[..|b| - 1];
      TotalAppend(a, b[..|b| - 1], seconds);
    }
  }

  /** Taking row `k` out of a list takes its seconds out of the total. */
  lemma TotalRemove(b: seq<Interval>, k: nat, seconds: Interval -> nat)
    requires k < |b|
    ensures Total(b, seconds) == Total(b[..k] + b[k + 1..], seconds) + seconds(b[k])
  {
    var front, back := b[..k], b[k + 1..];
    assert b == b[..k + 1] + back;
    assert b[..k + 1] == front + [b[k]];
    TotalAppend(b[..k + 1], back, seconds);
    TotalStep(b, k, seconds);
    TotalAppend(front, back, seconds);
  }

  lemma MultisetRemove(b: seq<Interval>, k: nat)
    requires k < |b|
    ensures multiset(b[..k] + b[k + 1..]) == multiset(b) - multiset{b[k]}
  {
    assert b == b[..k] + [b[k]] + b[k + 1..];
  }

  lemma {:induction false} TotalPermutation(a: seq<Interval>, b: seq<Interval>, seconds: Interval -> nat)
    requires multiset(a) == multiset(b)
    ensures Total(a, seconds) == Total(b, seconds)
  {
    if a == [] {
      assert |b| == |multiset(b)| == 0;
    } else {
      var n := |a| - 1;
      assert a[n] in multiset(b);
      var k :| 0 <= k < |b| && b[k] == a[n];
      MultisetRemove(a, n);
      MultisetRemove(b, k);
      assert a[..n] + a[n + 1..] == a[..n];
      TotalPermutation(a[..n], b[..k] + b[k + 1..], seconds);
      TotalRemove(b, k, seconds);
      TotalRemove(a, n, seconds);
    }
  }

  /** The run total does not depend on the order of the rows: reordering them by drag and
      drop, or by any other permutation, leaves it unchanged. */
  lemma SumSecondsPermutation(a: seq<Interval>, b: seq<Interval>)
    requires multiset(a) == multiset(b)
    ensures SumSeconds(a) == SumSeconds(b)
  {
    TotalPermutation(a, b, RowSeconds);
  }

  /** The run total splits over any cut of the rows. */
  lemma SumSecondsAppend(a: seq<Interval>, b: seq<Interval>)
    ensures SumSeconds(a + b) == SumSeconds(a) + SumSeconds(b)
  {
    TotalAppend(a, b, RowSeconds);
  }

  /** The loop of `updateTotals` that adds up each row's seconds; `updateTotals` passes
      `RowSeconds` as `seconds`. */
  method TotalSeconds(rows: seq<Interval>, seconds: Interval -> nat) returns (total: nat)
    ensures total == Total(rows, seconds)
  {
    total := 0;
    var i := 0;
    while i < |rows|
      invariant 0 <= i <= |rows|
      invariant total == Total(rows[..i], seconds)
    {
      TotalStep(rows, i, seconds);
      total := total + seconds(rows[i]);
      i := i + 1;
    }
    assert rows[..|rows|] == rows;
  }
}
