/** The calculator's run state and its handlers: start-up, add, remove, select, rename, reset
    and editing the rows of the active run. */
module Calculator {
  import opened Wrappers
  import opened Text
  import opened Runs
  import opened Load

  /** The first run `loadIntervals` activates: `activeRunId || runs[0].id`. */
  function StartId(loaded: Merge): (id: Id)
    requires |loaded.runs| > 0
    ensures !Falsy(loaded.activeRunId) ==> id == loaded.activeRunId.value
    ensures Falsy(loaded.activeRunId) ==> id == loaded.runs[0].id
  {
    if !Falsy(loaded.activeRunId) then loaded.activeRunId.value else loaded.runs[0].id
  }

  /** Activating a run that is present keeps the collection consistent, and the active run
      then holds what was shown for it. */
  lemma ActivatedConsistent(runs: seq<Run>, id: Id)
    requires NonEmptyIds(runs) && HasId(runs, id)
    ensures var after := Activated(runs, id);
      && Consistent(after, Some(id))
      && after[ActiveIndex(after, Some(id))].intervals == Shown(runs[IndexOf(runs, id).value].intervals)
  {
    ActivatedKeepsIds(runs, id);
  }

  /** After a load that brought runs, activating the start run gives a valid state. */
  lemma LoadedValid(stored: Option<Json>, token: Option<Json>, uuid: nat -> Id, confirm: nat -> bool)
    requires forall k :: uuid(k) != ""
    requires |Loaded(stored, token, uuid, confirm).runs| > 0
    ensures var l := Loaded(stored, token, uuid, confirm);
      var after := Activated(l.runs, StartId(l));
      && Consistent(after, Some(StartId(l)))
      && after[ActiveIndex(after, Some(StartId(l)))].intervals == Shown(l.runs[IndexOf(l.runs, StartId(l)).value].intervals)
  {
    var l := Loaded(stored, token, uuid, confirm);
    LoadedConsistent(stored, token, uuid, confirm);
    ActivatedConsistent(l.runs, StartId(l));
  }

  /** `runs`, `activeRunId`, the rows on screen (`draft`, what `collectIntervals` reads) and
      the last snapshot handed to `storage.save`. */
  class RunBook {
    var runs: seq<Run>
    var activeRunId: Option<Id>
    var draft: seq<Interval>
    var saved: Option<Snapshot>

    /** At least one run, ids non-empty, the active id names a run, and the rows on screen are
        that run's intervals. */
    ghost predicate Valid()
      reads this
    {
      Consistent(runs, activeRunId) && runs[ActiveIndex(runs, activeRunId)].intervals == draft
    }

    /** Start-up: `loadIntervals`, and when nothing loads, one fresh run "Run 1" with the
        default rows. Nothing is drawn from `uuid` when nothing loads, so the fresh run takes
        `uuid(0)`. */
    constructor Start(stored: Option<Json>, token: Option<Json>, uuid: nat -> Id, confirm: nat -> bool)
      requires forall k :: uuid(k) != ""
      ensures Valid()
      ensures var l := Loaded(stored, token, uuid, confirm);
        |l.runs| > 0 ==> runs == Activated(l.runs, StartId(l)) && activeRunId == Some(StartId(l))
      ensures var l := Loaded(stored, token, uuid, confirm);
        |l.runs| == 0 ==> runs == [Run(uuid(0), "Run 1", DefaultIntervals())] && activeRunId == Some(uuid(0))
      ensures saved == Some(Snapshot(runs, activeRunId))
    {
      runs := [];
      activeRunId := None;
      draft := [];
      saved := None;
      new;
      var loaded := LoadIntervals(stored, token, uuid, confirm);
      if !loaded {
        var run := CreateRun(uuid(0), "Run 1", Some(DefaultIntervals()));
        runs := [run];
        activeRunId := Some(run.id);
        SetActiveRun(run.id);
        ActivatedConsistent([run], run.id);
        Save();
      }
    }

    /** `storage.save({ runs, activeRunId })`. */
    method Save()
      modifies this
      ensures saved == Some(Snapshot(runs, activeRunId))
      ensures runs == old(runs) && activeRunId == old(activeRunId) && draft == old(draft)
    {
      saved := Some(Snapshot(runs, activeRunId));
    }

    /** `persistActiveRun`: the rows on screen become the active run's intervals. */
    method PersistActiveRun()
      modifies this
      ensures runs == WithActiveIntervals(old(runs), activeRunId, draft)
      ensures activeRunId == old(activeRunId) && draft == old(draft) && saved == old(saved)
    {
      if activeRunId.Some? {
        var found := IndexOf(runs, activeRunId.value);
        if found.Some? {
          runs := runs[found.value := runs[found.value].(intervals := draft)];
        }
      }
    }

    /** The part of `updateTotals` outside rendering: add up the rows' seconds, then persist
        the active run and save. */
    method UpdateTotals() returns (total: nat)
      modifies this
      ensures total == SumSeconds(draft)
      ensures runs == WithActiveIntervals(old(runs), activeRunId, draft)
      ensures activeRunId == old(activeRunId) && draft == old(draft)
      ensures saved == Some(Snapshot(runs, activeRunId))
    {
      total := TotalSeconds(draft, RowSeconds);
      PersistActiveRun();
      Save();
    }

    /** `renderRunIntervals`: the rows on screen are replaced, and the closing `updateTotals`
        persists and saves them. */
    method RenderRunIntervals(rows: seq<Interval>)
      modifies this
      ensures draft == rows
      ensures runs == WithActiveIntervals(old(runs), activeRunId, rows)
      ensures activeRunId == old(activeRunId)
      ensures saved == Some(Snapshot(runs, activeRunId))
    {
      draft := rows;
      var _ := UpdateTotals();
    }

    /** `setActiveRun(id)`: the run with `id` is shown, with the default rows when it has
        none, and those rows are written back into it. */
    method SetActiveRun(id: Id)
      modifies this
      ensures activeRunId == Some(id)
      ensures runs == Activated(old(runs), id)
      ensures HasId(old(runs), id) ==>
        draft == Shown(old(runs)[IndexOf(old(runs), id).value].intervals) && saved == Some(Snapshot(runs, activeRunId))
      ensures !HasId(old(runs), id) ==> draft == old(draft) && saved == old(saved)
    {
      activeRunId := Some(id);
      var found := IndexOf(runs, id);
      if found.None? {
        return;
      }
      RenderRunIntervals(Shown(runs[found.value].intervals));
    }

    /** `loadIntervals` on the initial empty state: restore, merge the shared runs, and when
        anything loaded activate `activeRunId || runs[0].id` and save. */
    method LoadIntervals(stored: Option<Json>, token: Option<Json>, uuid: nat -> Id, confirm: nat -> bool)
      returns (loaded: bool)
      requires runs == [] && activeRunId.None?
      modifies this
      ensures var l := Loaded(stored, token, uuid, confirm);
        && loaded == (|l.runs| > 0)
        && (loaded ==> runs == Activated(l.runs, StartId(l)) && activeRunId == Some(StartId(l)))
        && (loaded ==> saved == Some(Snapshot(runs, activeRunId)))
      ensures !loaded ==> runs == [] && activeRunId.None? && draft == old(draft) && saved == old(saved)
      ensures loaded && (forall k :: uuid(k) != "") ==> Valid()
    {
      var l := LoadRuns(stored, token, uuid, confirm);
      if |l.runs| == 0 {
        return false;
      }
      runs := l.runs;
      activeRunId := l.activeRunId;
      var start := if !Falsy(activeRunId) then activeRunId.value else runs[0].id;
      assert start == StartId(l);
      SetActiveRun(start);
      Save();
      loaded := true;
      if forall k :: uuid(k) != "" {
        LoadedValid(stored, token, uuid, confirm);
      }
    }

    /** The input, drop and row-removal handlers: the rows on screen change to `rows`, and the
        closing `updateTotals` stores them in the active run and reports their total. */
    method EditRows(rows: seq<Interval>) returns (total: nat)
      requires Valid()
      modifies this
      ensures Valid()
      ensures var i := ActiveIndex(old(runs), old(activeRunId));
        runs == old(runs)[i := old(runs)[i].(intervals := rows)]
      ensures activeRunId == old(activeRunId) && draft == rows
      ensures total == SumSeconds(rows)
      ensures saved == Some(Snapshot(runs, activeRunId))
    {
      ghost var i := ActiveIndex(runs, activeRunId);
      WithActiveIntervalsAt(runs, activeRunId, rows);
      ReplaceActive(runs, activeRunId, runs[i].(intervals := rows));
      draft := rows;
      total := UpdateTotals();
    }

    /** `resetIntervals`: the active run goes back to the two default rows. */
    method ResetIntervals()
      requires Valid()
      modifies this
      ensures Valid()
      ensures var i := ActiveIndex(old(runs), old(activeRunId));
        runs == old(runs)[i := old(runs)[i].(intervals := DefaultIntervals())]
      ensures activeRunId == old(activeRunId) && draft == DefaultIntervals()
      ensures saved == Some(Snapshot(runs, activeRunId))
    {
      var i := ActiveIndex(runs, activeRunId);
      ReplaceActive(runs, activeRunId, runs[i].(intervals := DefaultIntervals()));
      runs := runs[i := runs[i].(intervals := DefaultIntervals())];
      WithActiveIntervalsAt(runs, activeRunId, DefaultIntervals());
      assert runs[i := runs[i].(intervals := DefaultIntervals())] == runs;
      RenderRunIntervals(runs[i].intervals);
      Save();
    }

    /** The add-run handler: flush the rows on screen, append "Run n+1" with the default rows
        under the fresh id, and make it active. */
    method AddRun(freshId: Id)
      requires Valid() && freshId != "" && !HasId(runs, freshId)
      modifies this
      ensures Valid()
      ensures runs == old(runs) + [Run(freshId, "Run " + NatToDecimal(|old(runs)| + 1), DefaultIntervals())]
      ensures activeRunId == Some(freshId) && draft == DefaultIntervals()
      ensures saved == Some(Snapshot(runs, activeRunId))
    {
      PersistActiveRun();
      assert runs == old(runs);
      var run := CreateRun(freshId, "Run " + NatToDecimal(|runs| + 1), Some(DefaultIntervals()));
      AppendFreshActivated(runs, run);
      AppendFreshConsistent(runs, run);
      runs := runs + [run];
      activeRunId := Some(run.id);
      SetActiveRun(run.id);
      Save();
    }

    /** The remove-run handler, removing the active run by its position: nothing happens with
        one run left; otherwise the run in its place, else the one before it, becomes active. */
    method RemoveRun()
      requires Valid()
      modifies this
      ensures Valid()
      ensures |old(runs)| <= 1 ==>
        runs == old(runs) && activeRunId == old(activeRunId) && draft == old(draft) && saved == old(saved)
      ensures |old(runs)| > 1 ==>
        var i := ActiveIndex(old(runs), old(activeRunId));
        var rest := RemoveAt(old(runs), i);
        var next := rest[NeighbourIndex(|rest|, i)].id;
        && runs == Activated(rest, next)
        && activeRunId == Some(next)
        && saved == Some(Snapshot(runs, activeRunId))
    {
      if |runs| <= 1 {
        return;
      }
      var current := ActiveIndex(runs, activeRunId);
      var rest := RemoveAt(runs, current);
      RemoveAtConsistent(runs, current);
      var next := rest[NeighbourIndex(|rest|, current)].id;
      runs := rest;
      activeRunId := Some(next);
      SetActiveRun(next);
      ActivatedConsistent(rest, next);
      Save();
    }

    /** The select-change handler: flush the rows on screen, then activate the chosen run. */
    method SelectRun(id: Id)
      requires Valid() && HasId(runs, id)
      modifies this
      ensures Valid()
      ensures runs == Activated(old(runs), id) && activeRunId == Some(id)
      ensures saved == Some(Snapshot(runs, activeRunId))
    {
      PersistActiveRun();
      assert runs == old(runs);
      activeRunId := Some(id);
      SetActiveRun(id);
      ActivatedConsistent(old(runs), id);
      Save();
    }

    /** `finishRename`: the trimmed text becomes the active run's name unless it is empty. */
    method FinishRename(text: string)
      requires Valid()
      modifies this
      ensures Valid()
      ensures var i := ActiveIndex(old(runs), old(activeRunId));
        runs == if Trim(text) == [] then old(runs) else old(runs)[i := old(runs)[i].(name := Trim(text))]
      ensures activeRunId == old(activeRunId) && draft == old(draft)
      ensures saved == Some(Snapshot(runs, activeRunId))
    {
      var i := ActiveIndex(runs, activeRunId);
      var nextName := Trim(text);
      ReplaceActive(runs, activeRunId, runs[i].(name := nextName));
      if nextName != [] {
        runs := runs[i := runs[i].(name := nextName)];
      }
      Save();
    }
  }
}
