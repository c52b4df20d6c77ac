/** The mapping stage of the gemBS scheduler (gemBS/production.py, classes
    `Mapping` and `Merging`): one row per output BAM, a claim/commit protocol
    for the per-dataset BAMs, and the fan-in merge of a sample's BAMs. Every
    block the source runs under the exclusive database lock is one function
    here; the external mapper and merger are reduced to a success flag. */
module MappingStage {
  import opened Store
  import opened Seqs

  /** The `type` column: a per-lane BAM to be merged, the only BAM of a
      single-dataset sample, or the merged BAM of a sample. */
  datatype BamKind = MultiBam | SingleBam | MrgBam

  /** A row of the `mapping` table: (filepath, fileid, sample, type, status). */
  datatype MapRow = MapRow(path: Path, fileId: string, sample: string, kind: BamKind, status: Status)

  /** The mapping table in the order queries return it, with the compensation table. */
  datatype MapState = MapState(rows: seq<MapRow>, comp: Registry)

  /** `b` is `a` with at most the statuses changed: the mapping stage never
      adds, removes, reorders or renames a row. */
  predicate StatusOnly(a: seq<MapRow>, b: seq<MapRow>)
  {
    |a| == |b| && forall i :: 0 <= i < |a| ==> b[i] == a[i].(status := b[i].status)
  }

  /** `UPDATE mapping SET status = s WHERE filepath = p`. */
  function SetStatus(rows: seq<MapRow>, p: Path, s: Status): (r: seq<MapRow>)
    ensures StatusOnly(rows, r)
    ensures |r| == |rows|
    ensures forall i :: 0 <= i < |rows| && rows[i].path == p ==> r[i] == rows[i].(status := s)
    ensures forall i :: 0 <= i < |rows| && rows[i].path != p ==> r[i] == rows[i]
  {
    seq(|rows|, i requires 0 <= i < |rows| => if rows[i].path == p then rows[i].(status := s) else rows[i])
  }

  // ---------------------------------------------------------------------------
  // Claim and commit of one dataset (Mapping.do_mapping)
  // ---------------------------------------------------------------------------

  /** A row the claim query selects: the dataset's row, pending unless the
      database is ignored. */
  predicate Claimable(r: MapRow, fli: string, ignoreDb: bool)
  {
    r.fileId == fli && (ignoreDb || r.status == Pending)
  }

  /** `fetchone()` of the claim query: the first claimable row. */
  function FirstClaimable(rows: seq<MapRow>, fli: string, ignoreDb: bool): (r: Option<nat>)
    ensures r.Some? ==> r.value < |rows| && Claimable(rows[r.value], fli, ignoreDb)
    ensures r.Some? ==> forall j :: 0 <= j < r.value ==> !Claimable(rows[j], fli, ignoreDb)
    ensures r.None? ==> forall j :: 0 <= j < |rows| ==> !Claimable(rows[j], fli, ignoreDb)
  {
    if |rows| == 0 then None
    else if Claimable(rows[0], fli, ignoreDb) then Some(0)
    else
      match FirstClaimable(rows[1..], fli, ignoreDb)
      case None => None
      case Some(i) => Some(i + 1)
  }

  /** The record registered right after a dataset is claimed. */
  function MappingRecord(row: MapRow): CompRecord
  {
    CompRecord(ResetStatus(MappingTable, row.path, Code(Pending)),
               [Artifact(row.path), Sibling(row.path, row.fileId + ".json"), Sibling(row.path, row.sample + ".bai")])
  }

  datatype ClaimResult = ClaimResult(state: MapState, claimed: Option<MapRow>)

  /** The claim of `do_mapping`: re-read the dataset's row under the lock
      and, if it is still pending (any status when the database is ignored),
      mark it claimed and commit; then, with the lock released, register its
      compensation record. The two are one step here. When another process
      got there first nothing changes and the lock is simply released. */
  function ClaimDataset(st: MapState, fli: string, ignoreDb: bool): (r: ClaimResult)
    ensures StatusOnly(st.rows, r.state.rows)
    ensures r.claimed.None? <==> forall j :: 0 <= j < |st.rows| ==> !Claimable(st.rows[j], fli, ignoreDb)
    ensures r.claimed.None? ==> r.state == st
    ensures r.claimed.Some? ==>
              var row := r.claimed.value;
              && row in st.rows && Claimable(row, fli, ignoreDb)
              && |r.state.rows| == |st.rows|
              && (forall i :: 0 <= i < |st.rows| && st.rows[i].path == row.path ==> r.state.rows[i].status == Claimed)
              && (forall i :: 0 <= i < |st.rows| && st.rows[i].path != row.path ==> r.state.rows[i] == st.rows[i])
              && r.state.comp.Keys == st.comp.Keys + {row.path}
              && r.state.comp[row.path].undo == ResetStatus(MappingTable, row.path, 0)
              && r.state.comp[row.path].guards
                 == [Artifact(row.path), Sibling(row.path, row.fileId + ".json"), Sibling(row.path, row.sample + ".bai")]
              && (forall k :: k in st.comp && k != row.path ==> r.state.comp[k] == st.comp[k])
  {
    match FirstClaimable(st.rows, fli, ignoreDb)
    case None => ClaimResult(st, None)
    case Some(i) =>
      var row := st.rows[i];
      ClaimResult(MapState(SetStatus(st.rows, row.path, Claimed), Register(st.comp, row.path, MappingRecord(row))), Some(row))
  }

  /** The second locked block of `do_mapping`, after the mapper returned:
      the BAM is done and its compensation record is deleted. */
  function CommitDataset(st: MapState, out: Path): (r: MapState)
    ensures StatusOnly(st.rows, r.rows)
    ensures |r.rows| == |st.rows|
    ensures forall i :: 0 <= i < |st.rows| && st.rows[i].path == out ==> r.rows[i].status == Done
    ensures forall i :: 0 <= i < |st.rows| && st.rows[i].path != out ==> r.rows[i] == st.rows[i]
    ensures r.comp.Keys == st.comp.Keys - {out}
    ensures forall k :: k in r.comp ==> r.comp[k] == st.comp[k]
  {
    MapState(SetStatus(st.rows, out, Done), Forget(st.comp, out))
  }

  /** `do_mapping` as a whole. `succeeded` says whether everything between the
      two locked blocks (configuration lookup, index checks, the mapper) ran
      without raising; when it did not, the claim is left in place with its
      compensation record, for the operator's synchronisation pass. */
  function DoMapping(st: MapState, fli: string, ignoreDb: bool, succeeded: bool): (r: MapState)
    ensures StatusOnly(st.rows, r.rows)
    ensures (forall j :: 0 <= j < |st.rows| ==> !Claimable(st.rows[j], fli, ignoreDb)) ==> r == st
  {
    var c := ClaimDataset(st, fli, ignoreDb);
    match c.claimed
    case None => st
    case Some(row) => if succeeded then CommitDataset(c.state, row.path) else c.state
  }

  /** No two rows share a dataset id. */
  predicate UniqueFileIds(rows: seq<MapRow>)
  {
    forall i, j :: 0 <= i < j < |rows| ==> rows[i].fileId != rows[j].fileId
  }

  /** Once a dataset is claimed (and until it is committed) no second claim
      of it succeeds: the loser of the race sees no pending row and backs off. */
  lemma AtMostOneClaim(st: MapState, fli: string)
    requires UniqueFileIds(st.rows)
    requires ClaimDataset(st, fli, false).claimed.Some?
    ensures ClaimDataset(ClaimDataset(st, fli, false).state, fli, false).claimed.None?
  {
    var c := ClaimDataset(st, fli, false);
    var row := c.claimed.value;
    var k :| 0 <= k < |st.rows| && st.rows[k] == row;
    forall j | 0 <= j < |c.state.rows|
      ensures !Claimable(c.state.rows[j], fli, false)
    {
      if st.rows[j].path == row.path {
        assert c.state.rows[j].status == Claimed;
      } else {
        assert st.rows[j].fileId == fli ==> j == k;
      }
    }
  }

  /** A successful mapping leaves the dataset's BAM done and the compensation
      table as it was before the claim; a failed one leaves it claimed with
      its record, and a later claim does not pick it up again. */
  lemma DoMappingOutcome(st: MapState, fli: string, succeeded: bool)
    requires ClaimDataset(st, fli, false).claimed.Some?
    ensures var row := ClaimDataset(st, fli, false).claimed.value;
            var r := DoMapping(st, fli, false, succeeded);
            && |r.rows| == |st.rows|
            && (forall i :: 0 <= i < |st.rows| && st.rows[i].path == row.path ==>
                  r.rows[i].status == (if succeeded then Done else Claimed))
            && (forall i :: 0 <= i < |st.rows| && st.rows[i].path != row.path ==> r.rows[i] == st.rows[i])
            && (succeeded && row.path !in st.comp ==> r.comp == st.comp)
            && (!succeeded ==> row.path in r.comp)
  {
    var c := ClaimDataset(st, fli, false);
    var row := c.claimed.value;
    if succeeded && row.path !in st.comp {
      ForgetUndoesRegister(st.comp, row.path, MappingRecord(row));
    }
  }

  // ---------------------------------------------------------------------------
  // Fan-in merge (Mapping.do_merge)
  // ---------------------------------------------------------------------------

  /** A per-lane BAM of sample `s` that stops the merge scan: anything but done. */
  predicate Blocks(r: MapRow, s: string)
  {
    r.sample == s && r.kind == MultiBam && r.status != Done
  }

  predicate IsMergeRow(r: MapRow, s: string)
  {
    r.sample == s && r.kind == MrgBam
  }

  datatype Scan = Blocked | Scanned(merged: Option<MapRow>)

  /** The loop over `SELECT * FROM mapping WHERE sample = ?`: break at the
      first per-lane BAM that is not done, otherwise remember the last merged
      BAM row seen. Rows of other samples are not returned by the query and
      are skipped. */
  function ScanSample(rows: seq<MapRow>, s: string, i: nat, last: Option<MapRow>): Scan
    requires i <= |rows|
    decreases |rows| - i
  {
    if i == |rows| then Scanned(last)
    else if Blocks(rows[i], s) then Blocked
    else ScanSample(rows, s, i + 1, if IsMergeRow(rows[i], s) then Some(rows[i]) else last)
  }

  /** The last merged-BAM row of `s` at or after index `i`. */
  function LastMergeRow(rows: seq<MapRow>, s: string, i: nat): (r: Option<MapRow>)
    requires i <= |rows|
    ensures r.Some? ==> exists j :: i <= j < |rows| && rows[j] == r.value && IsMergeRow(rows[j], s)
                                    && forall k :: j < k < |rows| ==> !IsMergeRow(rows[k], s)
    ensures r.None? ==> forall j :: i <= j < |rows| ==> !IsMergeRow(rows[j], s)
    decreases |rows| - i
  {
    if i == |rows| then None
    else
      match LastMergeRow(rows, s, i + 1)
      case Some(m) => Some(m)
      case None => if IsMergeRow(rows[i], s) then Some(rows[i]) else None
  }

  lemma {:induction false} ScanSampleMeaning(rows: seq<MapRow>, s: string, i: nat, last: Option<MapRow>)
    requires i <= |rows|
    ensures ScanSample(rows, s, i, last)
            == if exists j :: i <= j < |rows| && Blocks(rows[j], s) then Blocked
               else Scanned(if LastMergeRow(rows, s, i).Some? then LastMergeRow(rows, s, i) else last)
    decreases |rows| - i
  {
    if i < |rows| && !Blocks(rows[i], s) {
      ScanSampleMeaning(rows, s, i + 1, if IsMergeRow(rows[i], s) then Some(rows[i]) else last);
      if exists j :: i <= j < |rows| && Blocks(rows[j], s) {
        var j :| i <= j < |rows| && Blocks(rows[j], s);
        assert j != i;
      }
    }
  }

  /** The merged BAM the scan claims, if any: the scan ran to the end and the
      last merged-BAM row it saw is pending. */
  function MergeTarget(rows: seq<MapRow>, s: string): Option<Path>
  {
    match ScanSample(rows, s, 0, None)
    case Scanned(Some(m)) => if m.status == Pending then Some(m.path) else None
    case _ => None
  }

  /** Fan-in: the merged BAM of `s` is claimed exactly when every per-lane BAM
      of `s` is done (status 1) and its merged-BAM row is pending. */
  lemma MergeTargetIff(rows: seq<MapRow>, s: string, p: Path)
    ensures MergeTarget(rows, s) == Some(p) <==>
            && (forall j :: 0 <= j < |rows| && rows[j].sample == s && rows[j].kind == MultiBam ==> rows[j].status == Done)
            && LastMergeRow(rows, s, 0).Some?
            && LastMergeRow(rows, s, 0).value.status == Pending
            && LastMergeRow(rows, s, 0).value.path == p
  {
    ScanSampleMeaning(rows, s, 0, None);
  }

  /** As written, a per-lane BAM already removed after an earlier merge
      (status 2) blocks the merge just as a pending one does. */
  lemma RetiredLaneBlocksMerge(rows: seq<MapRow>, s: string, j: nat)
    requires j < |rows| && rows[j].sample == s && rows[j].kind == MultiBam && rows[j].status == Retired
    ensures MergeTarget(rows, s).None?
  {
    ScanSampleMeaning(rows, s, 0, None);
    assert Blocks(rows[j], s);
  }

  /** The record registered right after a merged BAM is claimed. */
  function MergeRecord(out: Path, s: string): CompRecord
  {
    CompRecord(ResetStatus(MappingTable, out, Code(Pending)),
               [Artifact(out), Sibling(out, s + ".csi"), Artifact(out + ".md5")])
  }

  datatype MergeClaim = MergeClaim(state: MapState, target: Option<Path>)

  /** The first locked block of `do_merge` (inputs present). */
  function ClaimMerge(st: MapState, s: string): (r: MergeClaim)
    ensures StatusOnly(st.rows, r.state.rows)
    ensures r.target == MergeTarget(st.rows, s)
    ensures r.target.None? ==> r.state == st
    ensures r.target.Some? ==>
              && |r.state.rows| == |st.rows|
              && (forall i :: 0 <= i < |st.rows| && st.rows[i].path == r.target.value ==> r.state.rows[i].status == Claimed)
              && (forall i :: 0 <= i < |st.rows| && st.rows[i].path != r.target.value ==> r.state.rows[i] == st.rows[i])
              && r.state.comp == st.comp[r.target.value := MergeRecord(r.target.value, s)]
  {
    match MergeTarget(st.rows, s)
    case None => MergeClaim(st, None)
    case Some(out) => MergeClaim(MapState(SetStatus(st.rows, out, Claimed), Register(st.comp, out, MergeRecord(out, s))), Some(out))
  }

  /** `UPDATE mapping SET status = 2 WHERE filepath = f` for each input `f`. */
  function RetireAll(rows: seq<MapRow>, inputs: seq<Path>): (r: seq<MapRow>)
    ensures StatusOnly(rows, r)
    ensures |r| == |rows|
    ensures forall i :: 0 <= i < |rows| && rows[i].path in inputs ==> r[i] == rows[i].(status := Retired)
    ensures forall i :: 0 <= i < |rows| && rows[i].path !in inputs ==> r[i] == rows[i]
    decreases |inputs|
  {
    if |inputs| == 0 then rows
    else RetireAll(SetStatus(rows, inputs[0], Retired), inputs[1..])
  }

  /** The second locked block of `do_merge`, after the merger returned. */
  function CompleteMerge(st: MapState, inputs: seq<Path>, out: Path, remove: bool): (r: MapState)
    ensures StatusOnly(st.rows, r.rows)
    ensures |r.rows| == |st.rows|
    ensures forall i :: 0 <= i < |st.rows| && st.rows[i].path == out ==> r.rows[i].status == Done
    ensures remove ==> forall i :: 0 <= i < |st.rows| && st.rows[i].path != out && st.rows[i].path in inputs ==>
                          r.rows[i] == st.rows[i].(status := Retired)
    ensures forall i :: 0 <= i < |st.rows| && st.rows[i].path != out && (!remove || st.rows[i].path !in inputs) ==>
              r.rows[i] == st.rows[i]
    ensures r.comp == Forget(st.comp, out)
  {
    var rows := if remove then RetireAll(st.rows, inputs) else st.rows;
    MapState(SetStatus(rows, out, Done), Forget(st.comp, out))
  }

  /** `do_merge(sample, inputs, fname)`. With no inputs only the index of
      `fname` is built and the store is not touched. Otherwise the merge is
      claimed under the lock, the merger runs, and the completion is written
      under the lock. */
  function DoMerge(st: MapState, s: string, inputs: seq<Path>, remove: bool, succeeded: bool): (r: MapState)
    ensures StatusOnly(st.rows, r.rows)
    ensures MergeTarget(st.rows, s).None? ==> r == st
  {
    if |inputs| == 0 then st
    else
      var c := ClaimMerge(st, s);
      match c.target
      case None => st
      case Some(out) => if succeeded then CompleteMerge(c.state, inputs, out, remove) else c.state
  }

  /** A merge without inputs only indexes the BAM it names and leaves the
      store as it was; this is why the call `do_mapping` makes for a
      single-dataset BAM does not appear in `DoMapping`. */
  lemma MergeWithoutInputs(st: MapState, s: string, remove: bool, succeeded: bool)
    ensures DoMerge(st, s, [], remove, succeeded) == st
  {
  }

  /** A completed merge: its inputs are retired when `remove` is set and
      untouched otherwise; the merged BAM is done and its compensation record
      is gone. */
  lemma MergeCompletion(st: MapState, s: string, inputs: seq<Path>, remove: bool)
    requires |inputs| > 0 && MergeTarget(st.rows, s).Some?
    ensures var out := MergeTarget(st.rows, s).value;
            var r := DoMerge(st, s, inputs, remove, true);
            && |r.rows| == |st.rows|
            && (forall i :: 0 <= i < |st.rows| && st.rows[i].path == out ==> r.rows[i].status == Done)
            && (forall i :: 0 <= i < |st.rows| && st.rows[i].path != out && st.rows[i].path in inputs ==>
                  r.rows[i].status == if remove then Retired else st.rows[i].status)
            && (forall i :: 0 <= i < |st.rows| && st.rows[i].path != out && st.rows[i].path !in inputs ==> r.rows[i] == st.rows[i])
            && out !in r.comp
            && (out !in st.comp ==> r.comp == st.comp)
  {
    var out := MergeTarget(st.rows, s).value;
    if out !in st.comp {
      ForgetUndoesRegister(st.comp, out, MergeRecord(out, s));
    }
  }

  // ---------------------------------------------------------------------------
  // The mapping driver (Mapping.run)
  // ---------------------------------------------------------------------------

  /** The status the driver acts on: every status reads as pending when the
      database is ignored. */
  function Effective(r: MapRow, ignoreDb: bool): Status
  {
    if ignoreDb then Pending else r.status
  }

  /** The `-D` dataset filter. */
  predicate Admits(dsFilter: Option<string>, fli: string)
  {
    dsFilter.None? || dsFilter.value == fli
  }

  /** The rows of the driver's query: all of them, or those of the `-b` sample. */
  predicate Selected(r: MapRow, sampleFilter: Option<string>)
  {
    sampleFilter.None? || sampleFilter.value == r.sample
  }

  /** The per-dataset rows (`work_list[smp][1]`) of sample `s`, in query order. */
  function LeavesOf(rows: seq<MapRow>, s: string): (r: seq<MapRow>)
    ensures forall x :: x in r <==> x in rows && x.sample == s && x.kind != MrgBam
  {
    if |rows| == 0 then []
    else
      var rest := LeavesOf(rows[1..], s);
      assert forall x :: x in rows <==> x == rows[0] || x in rows[1..];
      if rows[0].sample == s && rows[0].kind != MrgBam then [rows[0]] + rest else rest
  }

  /** `work_list[smp][0]`: the last merged-BAM row of `s` whose effective status is pending. */
  function PendingMergeOf(rows: seq<MapRow>, s: string, ignoreDb: bool): (r: Option<Path>)
    ensures r.Some? ==> exists i :: 0 <= i < |rows| && IsMergeRow(rows[i], s) && Effective(rows[i], ignoreDb) == Pending
                                    && rows[i].path == r.value
                                    && forall j :: i < j < |rows| ==> !(IsMergeRow(rows[j], s) && Effective(rows[j], ignoreDb) == Pending)
    ensures r.None? ==> forall x :: x in rows && IsMergeRow(x, s) ==> Effective(x, ignoreDb) != Pending
    decreases |rows|
  {
    if |rows| == 0 then None
    else
      var last := rows[|rows| - 1];
      var before := rows[..|rows| - 1];
      assert forall x :: x in rows <==> x == last || x in before;
      if IsMergeRow(last, s) && Effective(last, ignoreDb) == Pending then Some(last.path)
      else PendingMergeOf(before, s, ignoreDb)
  }

  /** The datasets the leaf loop maps, in order: pending ones the filter admits. */
  function DatasetsToMap(leaves: seq<MapRow>, dsFilter: Option<string>, ignoreDb: bool): (r: seq<string>)
    ensures forall f :: f in r <==> exists x :: x in leaves && x.fileId == f && Effective(x, ignoreDb) == Pending && Admits(dsFilter, f)
  {
    if |leaves| == 0 then []
    else
      var rest := DatasetsToMap(leaves[1..], dsFilter, ignoreDb);
      assert forall x :: x in leaves <==> x == leaves[0] || x in leaves[1..];
      var x := leaves[0];
      if Effective(x, ignoreDb) == Pending && Admits(dsFilter, x.fileId) then [x.fileId] + rest else rest
  }

  /** `skipped`: a pending dataset was left out by the filter. */
  predicate AnySkipped(leaves: seq<MapRow>, dsFilter: Option<string>, ignoreDb: bool)
  {
    exists x :: x in leaves && Effective(x, ignoreDb) == Pending && !Admits(dsFilter, x.fileId)
  }

  /** `bamlist`: the outputs of every leaf that is not a single-dataset BAM, whatever its status. */
  function BamList(leaves: seq<MapRow>): (r: seq<Path>)
    ensures forall p :: p in r <==> exists x :: x in leaves && x.kind != SingleBam && x.path == p
  {
    if |leaves| == 0 then []
    else
      var rest := BamList(leaves[1..]);
      assert forall x :: x in leaves <==> x == leaves[0] || x in leaves[1..];
      if leaves[0].kind != SingleBam then [leaves[0].path] + rest else rest
  }

  datatype MapAction = MapDataset(fileId: string) | MergeSample(sample: string, inputs: seq<Path>, target: Path)

  /** One mapping action per dataset, in order. */
  function MapActions(ds: seq<string>): (r: seq<MapAction>)
    ensures forall a :: a in r <==> a.MapDataset? && a.fileId in ds
    ensures |r| == |ds| && forall i :: 0 <= i < |ds| ==> r[i] == MapDataset(ds[i])
  {
    var r := seq(|ds|, i requires 0 <= i < |ds| => MapDataset(ds[i]));
    assert forall a :: a in r <==> a.MapDataset? && a.fileId in ds by {
      forall a: MapAction | a.MapDataset? && a.fileId in ds ensures a in r {
        var i :| 0 <= i < |ds| && ds[i] == a.fileId;
        assert r[i] == a;
      }
    }
    r
  }

  /** What the driver does for one sample: map its datasets in order, then
      merge when no dataset was skipped, a merge is pending and `--no-merge`
      is off. */
  function SamplePlan(rows: seq<MapRow>, s: string, dsFilter: Option<string>, ignoreDb: bool, noMerge: bool): seq<MapAction>
  {
    var leaves := LeavesOf(rows, s);
    var maps := MapActions(DatasetsToMap(leaves, dsFilter, ignoreDb));
    var target := PendingMergeOf(rows, s, ignoreDb);
    if !AnySkipped(leaves, dsFilter, ignoreDb) && target.Some? && !noMerge
    then maps + [MergeSample(s, BamList(leaves), target.value)]
    else maps
  }

  function PlanSamples(rows: seq<MapRow>, samples: seq<string>, dsFilter: Option<string>, ignoreDb: bool, noMerge: bool): seq<MapAction>
  {
    if |samples| == 0 then []
    else SamplePlan(rows, samples[0], dsFilter, ignoreDb, noMerge) + PlanSamples(rows, samples[1..], dsFilter, ignoreDb, noMerge)
  }

  /** The samples of the driver's query in first-occurrence order (the key order of `work_list`). */
  function SamplesOf(rows: seq<MapRow>, sampleFilter: Option<string>): (r: seq<string>)
    ensures forall s :: s in r <==> exists x :: x in rows && x.sample == s && Selected(x, sampleFilter)
  {
    var names := seq(|rows|, i requires 0 <= i < |rows| => rows[i].sample);
    var chosen := if sampleFilter.None? then names else if sampleFilter.value in names then [sampleFilter.value] else [];
    assert forall s :: s in names <==> exists x :: x in rows && x.sample == s by {
      forall s | s in names ensures exists x :: x in rows && x.sample == s {
        var i :| 0 <= i < |names| && names[i] == s;
        assert rows[i] in rows;
      }
      forall s | exists x :: x in rows && x.sample == s ensures s in names {
        var x :| x in rows && x.sample == s;
        var i :| 0 <= i < |rows| && rows[i] == x;
        assert names[i] == s;
      }
    }
    Distinct(chosen)
  }

  /** The action list of `Mapping.run`, in the order the driver performs it. */
  function MappingRun(rows: seq<MapRow>, sampleFilter: Option<string>, dsFilter: Option<string>, ignoreDb: bool, noMerge: bool): seq<MapAction>
  {
    PlanSamples(rows, SamplesOf(rows, sampleFilter), dsFilter, ignoreDb, noMerge)
  }

  lemma {:induction false} InPlanSamples(rows: seq<MapRow>, samples: seq<string>, dsFilter: Option<string>, ignoreDb: bool, noMerge: bool, a: MapAction)
    ensures a in PlanSamples(rows, samples, dsFilter, ignoreDb, noMerge)
            <==> exists s :: s in samples && a in SamplePlan(rows, s, dsFilter, ignoreDb, noMerge)
    decreases |samples|
  {
    if |samples| > 0 {
      InPlanSamples(rows, samples[1..], dsFilter, ignoreDb, noMerge, a);
      assert forall s :: s in samples <==> s == samples[0] || s in samples[1..];
    }
  }

  /** The driver maps a dataset exactly when some per-dataset row of a
      selected sample carries it, is (effectively) pending and passes the
      dataset filter. */
  lemma MapsExactlyPending(rows: seq<MapRow>, sampleFilter: Option<string>, dsFilter: Option<string>, ignoreDb: bool, noMerge: bool, f: string)
    ensures MapDataset(f) in MappingRun(rows, sampleFilter, dsFilter, ignoreDb, noMerge)
            <==> exists x :: x in rows && Selected(x, sampleFilter) && x.kind != MrgBam && x.fileId == f
                             && Effective(x, ignoreDb) == Pending && Admits(dsFilter, f)
  {
    var samples := SamplesOf(rows, sampleFilter);
    InPlanSamples(rows, samples, dsFilter, ignoreDb, noMerge, MapDataset(f));
    if MapDataset(f) in MappingRun(rows, sampleFilter, dsFilter, ignoreDb, noMerge) {
      var s :| s in samples && MapDataset(f) in SamplePlan(rows, s, dsFilter, ignoreDb, noMerge);
      SamplePlanMaps(rows, s, dsFilter, ignoreDb, noMerge, f);
      var x :| x in LeavesOf(rows, s) && x.fileId == f && Effective(x, ignoreDb) == Pending && Admits(dsFilter, f);
      var y :| y in rows && y.sample == s && Selected(y, sampleFilter);
      assert Selected(x, sampleFilter);
    }
    if exists x :: x in rows && Selected(x, sampleFilter) && x.kind != MrgBam && x.fileId == f
                   && Effective(x, ignoreDb) == Pending && Admits(dsFilter, f) {
      var x :| x in rows && Selected(x, sampleFilter) && x.kind != MrgBam && x.fileId == f
               && Effective(x, ignoreDb) == Pending && Admits(dsFilter, f);
      assert x.sample in samples;
      assert x in LeavesOf(rows, x.sample);
      SamplePlanMaps(rows, x.sample, dsFilter, ignoreDb, noMerge, f);
    }
  }

  lemma SamplePlanMaps(rows: seq<MapRow>, s: string, dsFilter: Option<string>, ignoreDb: bool, noMerge: bool, f: string)
    ensures MapDataset(f) in SamplePlan(rows, s, dsFilter, ignoreDb, noMerge)
            <==> exists x :: x in LeavesOf(rows, s) && x.fileId == f && Effective(x, ignoreDb) == Pending && Admits(dsFilter, f)
  {
    var leaves := LeavesOf(rows, s);
    var maps := MapActions(DatasetsToMap(leaves, dsFilter, ignoreDb));
    assert MapDataset(f) in maps <==> f in DatasetsToMap(leaves, dsFilter, ignoreDb);
  }

  /** With the database ignored and no dataset filter, every per-dataset row
      of the selected samples is mapped. */
  lemma IgnoreDbMapsEveryDataset(rows: seq<MapRow>, sampleFilter: Option<string>, noMerge: bool, x: MapRow)
    requires x in rows && Selected(x, sampleFilter) && x.kind != MrgBam
    ensures MapDataset(x.fileId) in MappingRun(rows, sampleFilter, None, true, noMerge)
  {
    MapsExactlyPending(rows, sampleFilter, None, true, noMerge, x.fileId);
  }

  /** When the driver merges a sample, no dataset of it was skipped, the
      merge target is the sample's pending merged BAM, `--no-merge` is off,
      and the inputs are the sample's per-dataset outputs other than
      single-dataset BAMs; conversely, those conditions produce the merge. */
  lemma MergePlannedIff(rows: seq<MapRow>, sampleFilter: Option<string>, dsFilter: Option<string>, ignoreDb: bool, noMerge: bool,
                        s: string, inputs: seq<Path>, t: Path)
    ensures MergeSample(s, inputs, t) in MappingRun(rows, sampleFilter, dsFilter, ignoreDb, noMerge)
            <==> && (exists x :: x in rows && x.sample == s && Selected(x, sampleFilter))
                 && !noMerge
                 && !AnySkipped(LeavesOf(rows, s), dsFilter, ignoreDb)
                 && PendingMergeOf(rows, s, ignoreDb) == Some(t)
                 && inputs == BamList(LeavesOf(rows, s))
  {
    var samples := SamplesOf(rows, sampleFilter);
    var a := MergeSample(s, inputs, t);
    InPlanSamples(rows, samples, dsFilter, ignoreDb, noMerge, a);
    forall s' | s' in samples
      ensures a in SamplePlan(rows, s', dsFilter, ignoreDb, noMerge)
              <==> s' == s && !noMerge && !AnySkipped(LeavesOf(rows, s), dsFilter, ignoreDb)
                   && PendingMergeOf(rows, s, ignoreDb) == Some(t) && inputs == BamList(LeavesOf(rows, s))
    {
      MergeInSamplePlan(rows, s', dsFilter, ignoreDb, noMerge, s, inputs, t);
    }
    assert s in samples <==> exists x :: x in rows && x.sample == s && Selected(x, sampleFilter);
  }

  /** A sample's plan holds a merge only of that sample, and exactly when its merge is due. */
  lemma MergeInSamplePlan(rows: seq<MapRow>, s': string, dsFilter: Option<string>, ignoreDb: bool, noMerge: bool,
                          s: string, inputs: seq<Path>, t: Path)
    ensures MergeSample(s, inputs, t) in SamplePlan(rows, s', dsFilter, ignoreDb, noMerge)
            <==> s' == s && !noMerge && !AnySkipped(LeavesOf(rows, s), dsFilter, ignoreDb)
                 && PendingMergeOf(rows, s, ignoreDb) == Some(t) && inputs == BamList(LeavesOf(rows, s))
  {
    var leaves := LeavesOf(rows, s');
    var maps := MapActions(DatasetsToMap(leaves, dsFilter, ignoreDb));
    assert MergeSample(s, inputs, t) !in maps;
  }

  /** A single-dataset BAM is never an input of a merge. */
  lemma SingleBamNeverMerged(rows: seq<MapRow>, s: string, x: MapRow)
    requires x in rows && x.kind == SingleBam
    requires forall y :: y in rows && y.path == x.path ==> y.kind == SingleBam
    ensures x.path !in BamList(LeavesOf(rows, s))
  {
  }

  // ---------------------------------------------------------------------------
  // The merge-only driver (Merging.run)
  // ---------------------------------------------------------------------------

  datatype MergeDecision = NotAllGenerated | NothingToDo | MergeBams(inputs: seq<Path>, target: Path)

  /** `work_list[smp][1]` of `Merging.run`: the done per-lane BAMs of `s`. */
  function DoneLanes(rows: seq<MapRow>, s: string): (r: seq<Path>)
    ensures forall p :: p in r <==> exists x :: x in rows && x.sample == s && x.kind == MultiBam && x.status == Done && x.path == p
  {
    if |rows| == 0 then []
    else
      var rest := DoneLanes(rows[1..], s);
      assert forall x :: x in rows <==> x == rows[0] || x in rows[1..];
      var x := rows[0];
      if x.sample == s && x.kind == MultiBam && x.status == Done then [x.path] + rest else rest
  }

  /** `work_list[smp][2]`: every per-lane BAM done and no single-dataset BAM pending. */
  predicate AllGenerated(rows: seq<MapRow>, s: string)
  {
    forall x :: x in rows && x.sample == s ==>
      (x.kind == MultiBam ==> x.status == Done) && (x.kind == SingleBam ==> x.status != Pending)
  }

  /** `work_list[smp][3]`: some merged or single-dataset BAM of `s` is past pending. */
  predicate SomethingDone(rows: seq<MapRow>, s: string)
  {
    exists x :: x in rows && x.sample == s && x.kind != MultiBam && x.status != Pending
  }

  /** The classification `Merging.run` makes of each sample before calling `do_merge`. */
  function ClassifySample(rows: seq<MapRow>, s: string): (r: MergeDecision)
    ensures r.NotAllGenerated? <==> !AllGenerated(rows, s) && !SomethingDone(rows, s)
    ensures r.NothingToDo? <==> (AllGenerated(rows, s) || SomethingDone(rows, s)) && PendingMergeOf(rows, s, false).None?
    ensures r.MergeBams? ==>
              && PendingMergeOf(rows, s, false) == Some(r.target)
              && (forall p :: p in r.inputs <==> exists x :: x in rows && x.sample == s && x.kind == MultiBam && x.status == Done && x.path == p)
  {
    if !(AllGenerated(rows, s) || SomethingDone(rows, s)) then NotAllGenerated
    else match PendingMergeOf(rows, s, false)
      case None => NothingToDo
      case Some(t) => MergeBams(DoneLanes(rows, s), t)
  }

  /** `Merging.run` for one sample: classify it, and merge when asked to. */
  function MergingRunSample(st: MapState, s: string, remove: bool, succeeded: bool): (r: MapState)
    ensures StatusOnly(st.rows, r.rows)
  {
    match ClassifySample(st.rows, s)
    case MergeBams(inputs, _) => DoMerge(st, s, inputs, remove, succeeded)
    case _ => st
  }

  /** A sample whose classification is not a merge keeps the store as it was. */
  lemma MergingRunNoOp(st: MapState, s: string, remove: bool, succeeded: bool)
    requires !ClassifySample(st.rows, s).MergeBams?
    ensures MergingRunSample(st, s, remove, succeeded) == st
  {
  }

  // ---------------------------------------------------------------------------
  // Data-type normalisation (Mapping.run, `-T` and `-p`)
  // ---------------------------------------------------------------------------

  const AllTypes: seq<string> := ["PAIRED", "INTERLEAVED", "SINGLE", "BAM", "SAM", "STREAM", "PAIRED_STREAM",
                                  "SINGLE_STREAM", "COMMAND", "SINGLE_COMMAND", "PAIRED_COMMAND"]
  const PairedTypes: seq<string> := ["PAIRED", "INTERLEAVED", "PAIRED_STREAM", "PAIRED_COMMAND"]

  /** `str.upper()` on ASCII letters. */
  function Upper(s: string): (r: string)
    ensures |r| == |s|
    ensures forall i :: 0 <= i < |r| ==> !('a' <= r[i] <= 'z')
    ensures forall i :: 0 <= i < |s| && !('a' <= s[i] <= 'z') ==> r[i] == s[i]
    ensures forall i :: 0 <= i < |s| && 'a' <= s[i] <= 'z' ==> 'A' <= r[i] <= 'Z' && r[i] as int - 'A' as int == s[i] as int - 'a' as int
  {
    seq(|s|, i requires 0 <= i < |s| => if 'a' <= s[i] <= 'z' then (s[i] as int - 32) as char else s[i])
  }

  datatype DataType = DataType(ftype: Option<string>, pairedEnd: bool)
  datatype TypeError = NotPaired(ftype: string) | InvalidType(ftype: string)
  datatype TypeResult = TypeOk(value: DataType) | TypeErr(error: TypeError)

  /** The normalisation of the `-T` type and the `-p` flag. */
  function NormaliseType(ftype: Option<string>, pairedEnd: bool): (r: TypeResult)
    ensures (ftype.None? || ftype.value == "") ==> r == TypeOk(DataType(ftype, pairedEnd))
    ensures ftype.Some? && ftype.value != "" ==>
              var t := Upper(ftype.value);
              && (t !in AllTypes ==> r == TypeErr(InvalidType(t)))
              && (t == "STREAM" ==> r == TypeOk(DataType(Some(if pairedEnd then "PAIRED_STREAM" else "SINGLE_STREAM"), pairedEnd)))
              && (t in PairedTypes ==> r == TypeOk(DataType(Some(t), true)))
              && (t in AllTypes && t != "STREAM" && t !in PairedTypes ==>
                    r == if pairedEnd then TypeErr(NotPaired(t)) else TypeOk(DataType(Some(t), false)))
    ensures r.TypeOk? && r.value.ftype.Some? && r.value.ftype.value != "" ==>
              r.value.ftype.value in AllTypes && r.value.ftype.value != "STREAM"
    ensures r.TypeOk? && r.value.ftype.Some? && r.value.ftype.value in PairedTypes ==> r.value.pairedEnd
  {
    if ftype.None? || ftype.value == "" then TypeOk(DataType(ftype, pairedEnd))
    else
      var t := Upper(ftype.value);
      if t in AllTypes then
        if t == "STREAM" then TypeOk(DataType(Some(if pairedEnd then "PAIRED_STREAM" else "SINGLE_STREAM"), pairedEnd))
        else if t in PairedTypes then TypeOk(DataType(Some(t), true))
        else if pairedEnd then TypeErr(NotPaired(t))
        else TypeOk(DataType(Some(t), pairedEnd))
      else TypeErr(InvalidType(t))
  }

  /** Upper-casing a string with no lower-case letter leaves it as it is. */
  lemma UpperKeepsUpper(s: string)
    requires forall i :: 0 <= i < |s| ==> !('a' <= s[i] <= 'z')
    ensures Upper(s) == s
  {
  }

  /** Normalisation is idempotent: every accepted type is already canonical,
      so normalising the result again accepts it unchanged. */
  lemma NormaliseTypeIdempotent(ftype: Option<string>, pairedEnd: bool)
    ensures var r := NormaliseType(ftype, pairedEnd);
            r.TypeOk? ==> NormaliseType(r.value.ftype, r.value.pairedEnd) == r
  {
    var r := NormaliseType(ftype, pairedEnd);
    if r.TypeOk? && r.value.ftype.Some? && r.value.ftype.value != "" {
      var t := r.value.ftype.value;
      if t == "PAIRED_STREAM" || t == "SINGLE_STREAM" {
        UpperKeepsUpper(t);
      } else {
        UpperKeepsUpper(Upper(ftype.value));
      }
    }
  }
}
