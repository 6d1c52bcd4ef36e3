/** Start-up reconciliation: the shape check of `decodeIntervals`, restoring a stored snapshot
    and merging the runs of a share link into it (`loadIntervals`). `crypto.randomUUID` is the
    oracle `uuid`, read at consecutive positions; `window.confirm` is the oracle `confirm`,
    asked about the shared run at position `j`. */
module Load {
  import opened Wrappers
  import opened Text
  import opened Runs

  /** A run as it sits in parsed JSON: a missing or falsy `id` or `name` is "", and
      `intervals` is `None` when it is not an array. */
  datatype RawRun = RawRun(id: Id, name: string, intervals: Option<seq<Interval>>)

  /** The shapes parsed JSON can take that matter here: a bare array of intervals (the legacy
      format), an object whose `runs` is an array (`None` when it is not) and whose
      `activeRunId` is "" when absent or falsy, or anything else. */
  datatype Json = JArray(items: seq<Interval>) | JObject(runs: Option<seq<RawRun>>, activeRunId: Id) | JOther

  /** What `decodeIntervals` hands back: `{ runs, activeRunId }`. */
  datatype Decoded = Decoded(runs: seq<RawRun>, activeRunId: Id)

  /** `runs` and `activeRunId` as one value. */
  datatype Merge = Merge(runs: seq<Run>, activeRunId: Option<Id>)

  /** A restored collection and the next unread position of the id oracle. */
  datatype Restored = Restored(runs: seq<Run>, activeRunId: Option<Id>, next: nat)

  /** `!activeRunId`: null or the empty string. */
  predicate Falsy(activeRunId: Option<Id>) {
    activeRunId.None? || activeRunId.value == ""
  }

  /** The shape check of `decodeIntervals` after `JSON.parse`; `parsed` is `None` when there
      is no token or it does not decode. */
  function DecodeIntervals(parsed: Option<Json>, freshId: Id): (d: Option<Decoded>)
    ensures d.Some? <==> parsed.Some? && (parsed.value.JArray? || (parsed.value.JObject? && parsed.value.runs.Some?))
    ensures parsed.Some? && parsed.value.JArray? ==>
      d == Some(Decoded([RawRun(freshId, "Run 1", Some(parsed.value.items))], ""))
    ensures parsed.Some? && parsed.value.JObject? && parsed.value.runs.Some? ==>
      d == Some(Decoded(parsed.value.runs.value, parsed.value.activeRunId))
  {
    match parsed
    case None => None
    case Some(JArray(items)) => Some(Decoded([RawRun(freshId, "Run 1", Some(items))], ""))
    case Some(JObject(runs, active)) => if runs.Some? then Some(Decoded(runs.value, active)) else None
    case Some(JOther) => None
  }

  /** How many ids the oracle is asked for while decoding: one for a bare array. */
  function DecodeDraws(parsed: Option<Json>): nat {
    if parsed.Some? && parsed.value.JArray? then 1 else 0
  }

  /** The number of raw runs without an id, each of which draws a fresh one. */
  function Missing(raw: seq<RawRun>): (n: nat)
    ensures n <= |raw|
  {
    if raw == [] then 0
    else Missing(raw[..|raw| - 1]) + (if raw[|raw| - 1].id == "" then 1 else 0)
  }

  /** The normalisation of one raw run at position `index`: a missing id takes `freshId`, a
      missing name becomes `prefix` followed by the 1-based position, and intervals that are not
      an array become none. */
  function NormalizeRun(raw: RawRun, index: nat, prefix: string, freshId: Id): (run: Run)
    ensures run.id == if raw.id != "" then raw.id else freshId
    ensures run.name != "" && (raw.name != "" ==> run.name == raw.name)
    ensures raw.name == "" ==>
      && |run.name| > |prefix| && run.name[..|prefix|] == prefix
      && AllDigits(run.name[|prefix|..]) && DigitsValue(run.name[|prefix|..]) == index + 1
    ensures raw.intervals.Some? ==> run.intervals == raw.intervals.value
    ensures raw.intervals.None? ==> run.intervals == []
  {
    var ordinal := NatToDecimal(index + 1);
    assert (prefix + ordinal)[|prefix|..] == ordinal;
    Run(if raw.id != "" then raw.id else freshId,
        if raw.name != "" then raw.name else prefix + ordinal,
        if raw.intervals.Some? then raw.intervals.value else [])
  }

  /** Every raw run normalised at its own position; the `k`-th run without an id takes
      `uuid(next + k)`. */
  function NormalizeRuns(raw: seq<RawRun>, prefix: string, uuid: nat -> Id, next: nat): (runs: seq<Run>)
    ensures |runs| == |raw|
    ensures forall i :: 0 <= i < |raw| ==> runs[i] == NormalizeRun(raw[i], i, prefix, uuid(next + Missing(raw[..i])))
  {
    seq(|raw|, i requires 0 <= i < |raw| => NormalizeRun(raw[i], i, prefix, uuid(next + Missing(raw[..i]))))
  }

  /** Normalised runs have non-empty ids whenever the oracle never yields "". */
  lemma NormalizeRunsIds(raw: seq<RawRun>, prefix: string, uuid: nat -> Id, next: nat)
    requires forall k :: uuid(k) != ""
    ensures NonEmptyIds(NormalizeRuns(raw, prefix, uuid, next))
  {
    var runs := NormalizeRuns(raw, prefix, uuid, next);
    forall i | 0 <= i < |runs| ensures runs[i].id != "" {
      var drawn := uuid(next + Missing(raw[..i]));
      assert runs[i].id == raw[i].id || runs[i].id == drawn;
    }
  }

  /** Reading the stored snapshot: a bare array becomes one run "Run 1"; an
      object with a non-empty `runs` array is normalised, keeping its `activeRunId` only when
      that names a run; anything else restores nothing. */
  function Restore(stored: Option<Json>, uuid: nat -> Id, next: nat): Restored {
    match stored
    case Some(JArray(items)) =>
      var run := CreateRun(uuid(next), "Run 1", Some(items));
      Restored([run], Some(run.id), next + 1)
    case Some(JObject(Some(raw), active)) =>
      if |raw| == 0 then Restored([], None, next)
      else
        var runs := NormalizeRuns(raw, "Run ", uuid, next);
        Restored(runs, if active != "" && HasId(runs, active) then Some(active) else Some(runs[0].id),
                 next + Missing(raw))
    case _ => Restored([], None, next)
  }

  /** A legacy bare-array snapshot becomes a single active run named "Run 1" holding the same
      intervals. */
  lemma RestoreLegacy(items: seq<Interval>, uuid: nat -> Id, next: nat)
    ensures var r := Restore(Some(JArray(items)), uuid, next);
      && |r.runs| == 1 && r.runs[0].name == "Run 1" && r.runs[0].intervals == items
      && r.activeRunId == Some(r.runs[0].id)
  {
  }

  /** The stored active id survives exactly when it is non-empty and names a run; otherwise
      the first run becomes active. Either way the result is consistent. */
  lemma RestoreActive(raw: seq<RawRun>, active: Id, uuid: nat -> Id, next: nat)
    requires |raw| > 0 && forall k :: uuid(k) != ""
    ensures var r := Restore(Some(JObject(Some(raw), active)), uuid, next);
      && r.runs == NormalizeRuns(raw, "Run ", uuid, next)
      && ((active != "" && HasId(r.runs, active)) ==> r.activeRunId == Some(active))
      && (!(active != "" && HasId(r.runs, active)) ==> r.activeRunId == Some(r.runs[0].id))
      && Consistent(r.runs, r.activeRunId)
  {
    var runs := NormalizeRuns(raw, "Run ", uuid, next);
    NormalizeRunsIds(raw, "Run ", uuid, next);
    assert HasId(runs, runs[0].id);
  }

  /** Whatever is restored is empty or consistent. */
  lemma RestoreConsistent(stored: Option<Json>, uuid: nat -> Id, next: nat)
    requires forall k :: uuid(k) != ""
    ensures var r := Restore(stored, uuid, next);
      r.runs == [] || Consistent(r.runs, r.activeRunId)
  {
    match stored
    case Some(JArray(items)) =>
      var r := Restore(stored, uuid, next);
      assert r.runs[0].id == uuid(next);
    case Some(JObject(Some(raw), active)) =>
      if |raw| > 0 {
        RestoreActive(raw, active, uuid, next);
      }
    case _ =>
  }

  /** One step of the `forEach` over the shared runs: a colliding run replaces the existing
      one and becomes active when `yes`, and is dropped otherwise; a new run is appended and
      becomes active when nothing is. */
  function MergeStep(acc: Merge, shared: Run, yes: bool): Merge {
    match IndexOf(acc.runs, shared.id)
    case Some(k) => if yes then Merge(acc.runs[k := shared], Some(shared.id)) else acc
    case None => Merge(acc.runs + [shared], if Falsy(acc.activeRunId) then Some(shared.id) else acc.activeRunId)
  }

  /** The whole `forEach`: shared runs are taken in token order, `confirm(j)` answering for
      the `j`-th. */
  function MergeAll(start: Merge, shared: seq<Run>, confirm: nat -> bool): Merge
    decreases |shared|
  {
    if shared == [] then start
    else MergeStep(MergeAll(start, shared[..|shared| - 1], confirm), shared[|shared| - 1], confirm(|shared| - 1))
  }

  /** A step keeps every existing run's id at its position, never shortens the list, and
      leaves the shared run's id present. */
  lemma MergeStepIds(acc: Merge, shared: Run, yes: bool)
    ensures var r := MergeStep(acc, shared, yes);
      && |acc.runs| <= |r.runs| <= |acc.runs| + 1
      && (forall i :: 0 <= i < |acc.runs| ==> r.runs[i].id == acc.runs[i].id)
      && (forall i :: 0 <= i < |r.runs| ==> r.runs[i] == shared || (i < |acc.runs| && r.runs[i] == acc.runs[i]))
      && HasId(r.runs, shared.id)
  {
    var r := MergeStep(acc, shared, yes);
    match IndexOf(acc.runs, shared.id)
    case Some(k) =>
      assert r.runs[k].id == shared.id;
    case None =>
      assert r.runs[|acc.runs|] == shared;
  }

  /** The merge keeps every run of the start at its index with its id; any other run it
      holds, and any run it put in place of one, is a shared run. */
  lemma {:induction false} MergeKeepsIds(start: Merge, shared: seq<Run>, confirm: nat -> bool)
    ensures var r := MergeAll(start, shared, confirm);
      && |start.runs| <= |r.runs| <= |start.runs| + |shared|
      && (forall i :: 0 <= i < |start.runs| ==> r.runs[i].id == start.runs[i].id)
      && (forall i :: 0 <= i < |r.runs| ==> r.runs[i] in shared || (i < |start.runs| && r.runs[i] == start.runs[i]))
  {
    if shared != [] {
      var n := |shared| - 1;
      var before := MergeAll(start, shared[..n], confirm);
      MergeKeepsIds(start, shared[..n], confirm);
      MergeStepIds(before, shared[n], confirm(n));
      var r := MergeAll(start, shared, confirm);
      forall i | 0 <= i < |r.runs|
        ensures r.runs[i] in shared || (i < |start.runs| && r.runs[i] == start.runs[i])
      {
        if r.runs[i] != shared[n] {
          assert r.runs[i] == before.runs[i];
          if before.runs[i] in shared[..n] {
            var j :| 0 <= j < n && shared[..n][j] == before.runs[i];
            assert shared[j] == r.runs[i];
          }
        }
      }
    }
  }

  /** Every shared run's id is present after the merge, whatever the confirm answers. */
  lemma {:induction false} MergeContainsShared(start: Merge, shared: seq<Run>, confirm: nat -> bool)
    ensures forall j :: 0 <= j < |shared| ==> HasId(MergeAll(start, shared, confirm).runs, shared[j].id)
  {
    if shared != [] {
      var n := |shared| - 1;
      var before := MergeAll(start, shared[..n], confirm);
      MergeContainsShared(start, shared[..n], confirm);
      MergeStepIds(before, shared[n], confirm(n));
      var r := MergeAll(start, shared, confirm);
      forall j | 0 <= j < n ensures HasId(r.runs, shared[j].id) {
        assert shared[..n][j] == shared[j];
        var k :| 0 <= k < |before.runs| && before.runs[k].id == shared[j].id;
        assert r.runs[k].id == shared[j].id;
      }
    }
  }

  lemma AppendedAbsent(runs: seq<Run>, shared: seq<Run>, n: nat)
    requires n < |shared| && DistinctIds(shared)
    requires forall j :: 0 <= j < |shared| ==> !HasId(runs, shared[j].id)
    ensures !HasId(runs + shared[..n], shared[n].id)
  {
    var all := runs + shared[..n];
    forall i | 0 <= i < |all| ensures all[i].id != shared[n].id {
      if i >= |runs| {
        assert all[i] == shared[i - |runs|];
      }
    }
  }

  /** Shared runs whose ids are new and distinct are appended after the existing runs, in
      token order, and the first of them becomes active when nothing was. */
  lemma {:induction false} MergeAppends(start: Merge, shared: seq<Run>, confirm: nat -> bool)
    requires DistinctIds(shared) && NonEmptyIds(shared)
    requires forall j :: 0 <= j < |shared| ==> !HasId(start.runs, shared[j].id)
    ensures MergeAll(start, shared, confirm).runs == start.runs + shared
    ensures MergeAll(start, shared, confirm).activeRunId ==
      if Falsy(start.activeRunId) && shared != [] then Some(shared[0].id) else start.activeRunId
  {
    if shared != [] {
      var n := |shared| - 1;
      var s := shared[n];
      assert DistinctIds(shared[..n]) && NonEmptyIds(shared[..n]);
      MergeAppends(start, shared[..n], confirm);
      var before := MergeAll(start, shared[..n], confirm);
      AppendedAbsent(start.runs, shared, n);
      assert shared[..n] + [s] == shared;
      if n > 0 {
        assert shared[..n][0] == shared[0];
      }
    }
  }

  /** The ids the merge appends, in token order: those of the shared runs whose id is neither
      on a run of `known` nor on an earlier shared run. */
  function AppendedIds(known: seq<Run>, shared: seq<Run>): (ids: seq<Id>)
    ensures |ids| <= |shared|
  {
    if shared == [] then []
    else
      var n := |shared| - 1;
      var before := AppendedIds(known, shared[..n]);
      if HasId(known, shared[n].id) || shared[n].id in before then before else before + [shared[n].id]
  }

  /** A step keeps the ids in place when the shared run collides, replaced or not, and
      otherwise appends its id. */
  lemma MergeStepIdsSeq(acc: Merge, s: Run, yes: bool)
    ensures Ids(MergeStep(acc, s, yes).runs) ==
      if HasId(acc.runs, s.id) then Ids(acc.runs) else Ids(acc.runs) + [s.id]
  {
    var r := MergeStep(acc, s, yes);
    match IndexOf(acc.runs, s.id)
    case Some(k) =>
      assert Ids(r.runs) == Ids(acc.runs);
    case None =>
      assert Ids(r.runs) == Ids(acc.runs) + [s.id];
  }

  /** Whatever the confirm answers and however the shared runs collide, the merge keeps the
      ids of the start in place and appends, in token order, the ids of the shared runs that
      neither the start nor an earlier shared run carried. */
  lemma {:induction false} MergeAppendedIds(start: Merge, shared: seq<Run>, confirm: nat -> bool)
    ensures Ids(MergeAll(start, shared, confirm).runs) == Ids(start.runs) + AppendedIds(start.runs, shared)
  {
    if shared == [] {
      assert Ids(start.runs) + [] == Ids(start.runs);
    } else {
      var n := |shared| - 1;
      var s := shared[n];
      var before := MergeAll(start, shared[..n], confirm);
      var appended := AppendedIds(start.runs, shared[..n]);
      MergeAppendedIds(start, shared[..n], confirm);
      assert MergeAll(start, shared, confirm) == MergeStep(before, s, confirm(n));
      MergeStepIdsSeq(before, s, confirm(n));
      HasIdIds(before.runs, s.id);
      HasIdIds(start.runs, s.id);
      if HasId(before.runs, s.id) {
        assert HasId(start.runs, s.id) || s.id in appended;
        assert AppendedIds(start.runs, shared) == appended;
      } else {
        assert !HasId(start.runs, s.id) && s.id !in appended;
        assert AppendedIds(start.runs, shared) == appended + [s.id];
      }
    }
  }

  /** One merge step never gives two runs the same id. */
  lemma MergeStepDistinct(acc: Merge, s: Run, yes: bool)
    requires DistinctIds(acc.runs)
    ensures DistinctIds(MergeStep(acc, s, yes).runs)
  {
    var r := MergeStep(acc, s, yes);
    MergeStepIdsSeq(acc, s, yes);
    HasIdIds(acc.runs, s.id);
    forall i, j | 0 <= i < j < |r.runs| ensures r.runs[i].id != r.runs[j].id {
      assert Ids(r.runs)[i] == r.runs[i].id && Ids(r.runs)[j] == r.runs[j].id;
      if j >= |acc.runs| {
        assert Ids(acc.runs)[i] == acc.runs[i].id;
      } else {
        assert Ids(acc.runs)[i] == acc.runs[i].id && Ids(acc.runs)[j] == acc.runs[j].id;
      }
    }
  }

  /** A share link cannot create a duplicate id: a shared run whose id is taken replaces that
      run or is dropped, so distinct ids stay distinct through the merge. */
  lemma {:induction false} MergeKeepsDistinct(start: Merge, shared: seq<Run>, confirm: nat -> bool)
    requires DistinctIds(start.runs)
    ensures DistinctIds(MergeAll(start, shared, confirm).runs)
  {
    if shared != [] {
      var n := |shared| - 1;
      MergeKeepsDistinct(start, shared[..n], confirm);
      MergeStepDistinct(MergeAll(start, shared[..n], confirm), shared[n], confirm(n));
    }
  }

  /** A single shared run whose id is already taken replaces that run in place when the
      answer is yes and becomes active; when the answer is no nothing changes. */
  lemma MergeCollision(start: Merge, s: Run, confirm: nat -> bool)
    requires HasId(start.runs, s.id)
    ensures var k := IndexOf(start.runs, s.id).value;
      MergeAll(start, [s], confirm) ==
        if confirm(0) then Merge(start.runs[k := s], Some(s.id)) else start
  {
    assert [s][..0] == [];
  }

  /** The `forEach` of `loadIntervals`, building `nextRuns` by replacement and `push`. */
  method MergeShared(runs: seq<Run>, activeRunId: Option<Id>, shared: seq<Run>, confirm: nat -> bool)
    returns (merged: Merge)
    ensures merged == MergeAll(Merge(runs, activeRunId), shared, confirm)
  {
    var nextRuns := runs;
    var active := activeRunId;
    var i := 0;
    while i < |shared|
      invariant 0 <= i <= |shared|
      invariant Merge(nextRuns, active) == MergeAll(Merge(runs, activeRunId), shared[..i], confirm)
    {
      assert shared[..i + 1][..i] == shared[..i];
      var existing := IndexOf(nextRuns, shared[i].id);
      if existing.Some? {
        if confirm(i) {
          nextRuns := nextRuns[existing.value := shared[i]];
          active := Some(shared[i].id);
        }
      } else {
        nextRuns := nextRuns + [shared[i]];
        if Falsy(active) {
          active := Some(shared[i].id);
        }
      }
      i := i + 1;
    }
    assert shared[..|shared|] == shared;
    merged := Merge(nextRuns, active);
  }

  /** The shared runs of a token, normalised with the "Shared run" prefix; empty when the token
      is absent, does not decode or holds no runs. */
  function SharedRuns(token: Option<Json>, uuid: nat -> Id, next: nat): seq<Run> {
    var decoded := DecodeIntervals(token, uuid(0));
    if decoded.Some? then NormalizeRuns(decoded.value.runs, "Shared run ", uuid, next) else []
  }

  /** Shared runs always carry non-empty ids. */
  lemma SharedRunsIds(token: Option<Json>, uuid: nat -> Id, next: nat)
    requires forall k :: uuid(k) != ""
    ensures NonEmptyIds(SharedRuns(token, uuid, next))
  {
    var decoded := DecodeIntervals(token, uuid(0));
    if decoded.Some? {
      NormalizeRunsIds(decoded.value.runs, "Shared run ", uuid, next);
    }
  }

  /** Merging shared runs into an empty or consistent collection and activating the first shared
      run gives a consistent collection. */
  lemma MergedConsistent(start: Merge, shared: seq<Run>, confirm: nat -> bool)
    requires start.runs == [] || Consistent(start.runs, start.activeRunId)
    requires shared != [] && NonEmptyIds(shared)
    ensures Consistent(MergeAll(start, shared, confirm).runs, Some(shared[0].id))
  {
    var merged := MergeAll(start, shared, confirm);
    MergeContainsShared(start, shared, confirm);
    MergeKeepsIds(start, shared, confirm);
    forall i | 0 <= i < |merged.runs| ensures merged.runs[i].id != "" {
      if merged.runs[i] in shared {
        var j :| 0 <= j < |shared| && shared[j] == merged.runs[i];
      }
    }
  }

  /** `runs` and `activeRunId` as `loadIntervals` leaves them before activating a run. */
  function Loaded(stored: Option<Json>, token: Option<Json>, uuid: nat -> Id, confirm: nat -> bool): Merge {
    var restored := Restore(stored, uuid, DecodeDraws(token));
    var shared := SharedRuns(token, uuid, restored.next);
    if |shared| > 0 then
      Merge(MergeAll(Merge(restored.runs, restored.activeRunId), shared, confirm).runs, Some(shared[0].id))
    else Merge(restored.runs, restored.activeRunId)
  }

  /** The restoring and merging part of `loadIntervals`, step by step as the handler does it. */
  method LoadRuns(stored: Option<Json>, token: Option<Json>, uuid: nat -> Id, confirm: nat -> bool)
    returns (loaded: Merge)
    ensures loaded == Loaded(stored, token, uuid, confirm)
  {
    var restored := Restore(stored, uuid, DecodeDraws(token));
    var shared := SharedRuns(token, uuid, restored.next);
    loaded := Merge(restored.runs, restored.activeRunId);
    if |shared| > 0 {
      var merged := MergeShared(restored.runs, restored.activeRunId, shared, confirm);
      loaded := Merge(merged.runs, Some(shared[0].id));
    }
  }

  /** After loading, the collection is empty (nothing to load) or consistent: at least one
      run, all ids non-empty, and the active id names a run. */
  lemma LoadedConsistent(stored: Option<Json>, token: Option<Json>, uuid: nat -> Id, confirm: nat -> bool)
    requires forall k :: uuid(k) != ""
    ensures var l := Loaded(stored, token, uuid, confirm);
      l.runs == [] || Consistent(l.runs, l.activeRunId)
  {
    var restored := Restore(stored, uuid, DecodeDraws(token));
    RestoreConsistent(stored, uuid, DecodeDraws(token));
    var shared := SharedRuns(token, uuid, restored.next);
    SharedRunsIds(token, uuid, restored.next);
    if |shared| > 0 {
      MergedConsistent(Merge(restored.runs, restored.activeRunId), shared, confirm);
    }
  }

  /** With shared runs, the first shared run is active afterwards and is present. */
  lemma LoadedActivatesShared(stored: Option<Json>, token: Option<Json>, uuid: nat -> Id, confirm: nat -> bool)
    requires |SharedRuns(token, uuid, Restore(stored, uuid, DecodeDraws(token)).next)| > 0
    ensures var shared := SharedRuns(token, uuid, Restore(stored, uuid, DecodeDraws(token)).next);
      var l := Loaded(stored, token, uuid, confirm);
      l.activeRunId == Some(shared[0].id) && HasId(l.runs, shared[0].id)
  {
    var restored := Restore(stored, uuid, DecodeDraws(token));
    MergeContainsShared(Merge(restored.runs, restored.activeRunId), SharedRuns(token, uuid, restored.next), confirm);
  }

  /** Without a share link the stored snapshot is what loads. */
  lemma LoadedWithoutToken(stored: Option<Json>, uuid: nat -> Id, confirm: nat -> bool)
    ensures var r := Restore(stored, uuid, 0);
      Loaded(stored, None, uuid, confirm) == Merge(r.runs, r.activeRunId)
  {
  }
}
