/** The selection half of the calling stage (gemBS/production.py,
    `MethylationCall.run`): which merged BAMs are available, which contig
    pools the run covers, and which per-pool BCFs of which samples are still
    to be called. The caller itself is external. */
module CallingStage {
  import opened Store
  import opened Seqs
  import opened MappingStage

  type Pool = string
  type Contig = string

  /** The `type` column of the `calling` table. */
  datatype BcfKind = PoolBcf | MrgBcf

  /** A row of the `calling` table: (filepath, poolid, sample, poolsize, type, status). */
  datatype CallRow = CallRow(path: Path, pool: Pool, sample: string, psize: int, kind: BcfKind, status: Status)

  datatype CallError = NoBamsForCalling | UnknownContig(contig: Contig) | NoMergedBcf

  datatype Result<T> = Ok(value: T) | Err(error: CallError)

  // ---------------------------------------------------------------------------
  // Input BAMs
  // ---------------------------------------------------------------------------

  /** A BAM the caller may read: a merged or single-dataset BAM of a selected
      sample that is done, or any such BAM when the database or the
      dependencies are ignored. */
  predicate Usable(x: MapRow, sampleFilter: Option<string>, ignoreDb: bool, ignoreDep: bool)
  {
    x.kind != MultiBam && Selected(x, sampleFilter) && (x.status == Done || ignoreDb || ignoreDep)
  }

  /** The last usable BAM row of sample `s` the query returns. */
  function LastBam(rows: seq<MapRow>, s: string, sampleFilter: Option<string>, ignoreDb: bool, ignoreDep: bool): (r: Option<MapRow>)
    ensures r.Some? ==> exists i :: 0 <= i < |rows| && rows[i] == r.value && rows[i].sample == s && Usable(rows[i], sampleFilter, ignoreDb, ignoreDep)
                                    && forall j :: i < j < |rows| ==> !(rows[j].sample == s && Usable(rows[j], sampleFilter, ignoreDb, ignoreDep))
    ensures r.None? ==> forall x :: x in rows ==> !(x.sample == s && Usable(x, sampleFilter, ignoreDb, ignoreDep))
    decreases |rows|
  {
    if |rows| == 0 then None
    else
      var last := rows[|rows| - 1];
      assert forall x :: x in rows <==> x == last || x in rows[..|rows| - 1];
      if last.sample == s && Usable(last, sampleFilter, ignoreDb, ignoreDep) then Some(last)
      else LastBam(rows[..|rows| - 1], s, sampleFilter, ignoreDb, ignoreDep)
  }

  /** `sampleBam`: each sample with a usable BAM, mapped to the last such BAM
      the query returns (a later row overwrites an earlier one). */
  function SampleBams(rows: seq<MapRow>, sampleFilter: Option<string>, ignoreDb: bool, ignoreDep: bool): (r: map<string, Path>)
    ensures forall s :: s in r <==> LastBam(rows, s, sampleFilter, ignoreDb, ignoreDep).Some?
    ensures forall s :: s in r ==> r[s] == LastBam(rows, s, sampleFilter, ignoreDb, ignoreDep).value.path
    decreases |rows|
  {
    if |rows| == 0 then map[]
    else
      var last := rows[|rows| - 1];
      var m := SampleBams(rows[..|rows| - 1], sampleFilter, ignoreDb, ignoreDep);
      if Usable(last, sampleFilter, ignoreDb, ignoreDep) then m[last.sample := last.path] else m
  }

  /** A sample has an input BAM exactly when some usable BAM row of it is returned. */
  lemma SampleBamsMembership(rows: seq<MapRow>, sampleFilter: Option<string>, ignoreDb: bool, ignoreDep: bool, s: string)
    ensures s in SampleBams(rows, sampleFilter, ignoreDb, ignoreDep)
            <==> exists x :: x in rows && x.sample == s && Usable(x, sampleFilter, ignoreDb, ignoreDep)
  {
    if LastBam(rows, s, sampleFilter, ignoreDb, ignoreDep).Some? {
      var i :| 0 <= i < |rows| && rows[i] == LastBam(rows, s, sampleFilter, ignoreDb, ignoreDep).value;
      assert rows[i] in rows;
    }
  }

  // ---------------------------------------------------------------------------
  // Contig pools
  // ---------------------------------------------------------------------------

  /** `ctg_pool[ctg]`: the pool listing a contig; when several do, the last one. */
  function PoolOf(pools: seq<(Pool, seq<Contig>)>, c: Contig): (r: Option<Pool>)
    ensures r.Some? ==> exists i :: 0 <= i < |pools| && pools[i].0 == r.value && c in pools[i].1
                                    && forall j :: i < j < |pools| ==> c !in pools[j].1
    ensures r.None? ==> forall i :: 0 <= i < |pools| ==> c !in pools[i].1
    decreases |pools|
  {
    if |pools| == 0 then None
    else if c in pools[|pools| - 1].1 then Some(pools[|pools| - 1].0)
    else PoolOf(pools[..|pools| - 1], c)
  }

  /** Position `i` holds the first requested contig that no pool lists. */
  predicate FirstUnknown(pools: seq<(Pool, seq<Contig>)>, cs: seq<Contig>, i: int)
  {
    && 0 <= i < |cs|
    && PoolOf(pools, cs[i]).None?
    && forall j :: 0 <= j < i ==> PoolOf(pools, cs[j]).Some?
  }

  /** The pool of every requested contig, in request order; the first contig
      no pool lists is a lookup error. */
  function PoolsOf(pools: seq<(Pool, seq<Contig>)>, cs: seq<Contig>): (r: Result<seq<Pool>>)
    ensures r.Ok? <==> forall c :: c in cs ==> PoolOf(pools, c).Some?
    ensures r.Ok? ==> |r.value| == |cs| && forall i :: 0 <= i < |cs| ==> PoolOf(pools, cs[i]) == Some(r.value[i])
    ensures r.Err? ==> r.error.UnknownContig? && r.error.contig in cs && PoolOf(pools, r.error.contig).None?
    ensures r.Err? ==> exists i :: FirstUnknown(pools, cs, i) && r.error == UnknownContig(cs[i])
  {
    if |cs| == 0 then Ok([])
    else
      match PoolOf(pools, cs[0])
      case None => assert cs[0] in cs && FirstUnknown(pools, cs, 0); Err(UnknownContig(cs[0]))
      case Some(p) =>
        assert forall c :: c in cs <==> c == cs[0] || c in cs[1..];
        match PoolsOf(pools, cs[1..])
        case Err(e) =>
          var k :| FirstUnknown(pools, cs[1..], k) && e == UnknownContig(cs[1..][k]);
          assert FirstUnknown(pools, cs, k + 1);
          Err(e)
        case Ok(ps) => Ok([p] + ps)
  }

  /** The pools looked up for a contig list are exactly the pools of its contigs. */
  lemma PoolsOfMembership(pools: seq<(Pool, seq<Contig>)>, cs: seq<Contig>)
    ensures PoolsOf(pools, cs).Ok? ==>
              forall p :: p in PoolsOf(pools, cs).value <==> exists c :: c in cs && PoolOf(pools, c) == Some(p)
  {
    if PoolsOf(pools, cs).Ok? {
      var ps := PoolsOf(pools, cs).value;
      forall p | p in ps ensures exists c :: c in cs && PoolOf(pools, c) == Some(p) {
        var i :| 0 <= i < |ps| && ps[i] == p;
        assert cs[i] in cs;
      }
      forall c | c in cs ensures PoolOf(pools, c).value in ps {
        var i :| 0 <= i < |cs| && cs[i] == c;
      }
    }
  }

  function PoolNames(pools: seq<(Pool, seq<Contig>)>): (r: seq<Pool>)
    ensures |r| == |pools| && forall i :: 0 <= i < |pools| ==> r[i] == pools[i].0
  {
    seq(|pools|, i requires 0 <= i < |pools| => pools[i].0)
  }

  /** The pool list before `--pool` narrows it: every pool when no contig
      list is given, otherwise the pools of the requested contigs without
      repeats in first-occurrence order. */
  function ListedPools(pools: seq<(Pool, seq<Contig>)>, contigList: seq<Contig>): (r: Result<seq<Pool>>)
    ensures r.Err? <==> |contigList| > 0 && exists c :: c in contigList && PoolOf(pools, c).None?
    ensures r.Ok? && |contigList| > 0 ==>
              && NoDup(r.value)
              && (forall p :: p in r.value <==> exists c :: c in contigList && PoolOf(pools, c) == Some(p))
              && PoolsOf(pools, contigList).Ok? && InFirstOrder(r.value, PoolsOf(pools, contigList).value)
    ensures r.Ok? && |contigList| == 0 ==> r.value == PoolNames(pools)
  {
    if |contigList| == 0 then Ok(PoolNames(pools))
    else
      match PoolsOf(pools, contigList)
      case Err(e) => Err(e)
      case Ok(ps) =>
        PoolsOfMembership(pools, contigList);
        var l := AppendNew([], ps);
        assert [] + ps == ps;
        assert forall p :: p in l <==> p in ps;
        Ok(l)
  }

  /** The pool list of a calling run: the listed pools, which `--pool` then
      narrows to that pool, or to nothing when the pool is not in the list. */
  function SelectPools(pools: seq<(Pool, seq<Contig>)>, contigList: seq<Contig>, reqPool: Option<Pool>): (r: Result<seq<Pool>>)
    ensures r.Err? <==> |contigList| > 0 && exists c :: c in contigList && PoolOf(pools, c).None?
    ensures r.Ok? && |contigList| > 0 && (reqPool.None? || reqPool.value == "") ==>
              && NoDup(r.value)
              && (forall p :: p in r.value <==> exists c :: c in contigList && PoolOf(pools, c) == Some(p))
              && PoolsOf(pools, contigList).Ok? && InFirstOrder(r.value, PoolsOf(pools, contigList).value)
    ensures r.Ok? && |contigList| == 0 && (reqPool.None? || reqPool.value == "") ==> r.value == PoolNames(pools)
    ensures r.Ok? && reqPool.Some? && reqPool.value != "" ==> r.value == [reqPool.value] || r.value == []
  {
    match ListedPools(pools, contigList)
    case Err(e) => Err(e)
    case Ok(l) =>
      if reqPool.Some? && reqPool.value != "" then
        Ok(if reqPool.value in l then [reqPool.value] else [])
      else Ok(l)
  }

  /** Narrowing to a requested pool keeps it exactly when it was in the list. */
  lemma RequestedPoolKeptIff(pools: seq<(Pool, seq<Contig>)>, contigList: seq<Contig>, p: Pool)
    requires p != ""
    ensures SelectPools(pools, contigList, None).Ok? ==>
              SelectPools(pools, contigList, Some(p)) == Ok(if p in SelectPools(pools, contigList, None).value then [p] else [])
    ensures SelectPools(pools, contigList, None).Err? ==> SelectPools(pools, contigList, Some(p)) == SelectPools(pools, contigList, None)
  {
  }

  // ---------------------------------------------------------------------------
  // Output BCFs
  // ---------------------------------------------------------------------------

  /** The status the selection acts on: pending for every row when the database is ignored. */
  function EffectiveBcf(x: CallRow, ignoreDb: bool): Status
  {
    if ignoreDb then Pending else x.status
  }

  /** `mrg_bcf[smp]`: the last row of the sample that is not a per-pool BCF. */
  function MergedBcf(rows: seq<CallRow>, s: string): (r: Option<CallRow>)
    ensures r.Some? ==> exists i :: 0 <= i < |rows| && rows[i] == r.value && rows[i].sample == s && rows[i].kind != PoolBcf
                                    && forall j :: i < j < |rows| ==> !(rows[j].sample == s && rows[j].kind != PoolBcf)
    ensures r.None? ==> forall x :: x in rows ==> !(x.sample == s && x.kind != PoolBcf)
    decreases |rows|
  {
    if |rows| == 0 then None
    else
      var last := rows[|rows| - 1];
      assert forall x :: x in rows <==> x == last || x in rows[..|rows| - 1];
      if last.sample == s && last.kind != PoolBcf then Some(last)
      else MergedBcf(rows[..|rows| - 1], s)
  }

  datatype PoolOutput = PoolOutput(path: Path, pool: Pool)

  /** A pool row of sample `s` in the pool list that is still to be called. */
  predicate PendingPoolRow(x: CallRow, s: string, poolList: seq<Pool>, ignoreDb: bool)
  {
    x.sample == s && x.kind == PoolBcf && x.pool in poolList && EffectiveBcf(x, ignoreDb) == Pending
  }

  /** The per-pool BCFs of a sample still to be produced: pool rows of the
      sample whose pool is in the list and whose status is pending, in query order. */
  function PendingPoolBcfs(rows: seq<CallRow>, s: string, poolList: seq<Pool>, ignoreDb: bool): (r: seq<PoolOutput>)
    ensures forall o :: o in r <==> exists x :: x in rows && PendingPoolRow(x, s, poolList, ignoreDb) && o == PoolOutput(x.path, x.pool)
  {
    if |rows| == 0 then []
    else
      var x := rows[0];
      var rest := PendingPoolBcfs(rows[1..], s, poolList, ignoreDb);
      assert forall y :: y in rows <==> y == x || y in rows[1..];
      if PendingPoolRow(x, s, poolList, ignoreDb) then [PoolOutput(x.path, x.pool)] + rest
      else rest
  }


  /** The per-pool BCFs are collected row by row: the selection of a
      concatenation is the concatenation of the selections. */
  lemma {:induction false} PendingPoolBcfsAppend(a: seq<CallRow>, b: seq<CallRow>, s: string, poolList: seq<Pool>, ignoreDb: bool)
    ensures PendingPoolBcfs(a + b, s, poolList, ignoreDb) == PendingPoolBcfs(a, s, poolList, ignoreDb) + PendingPoolBcfs(b, s, poolList, ignoreDb)
    decreases |a|
  {
    if |a| > 0 {
      assert (a + b)[1..] == a[1..] + b;
      PendingPoolBcfsAppend(a[1..], b, s, poolList, ignoreDb);
    } else {
      assert a + b == b;
    }
  }

  lemma PendingPoolBcfsNonEmpty(rows: seq<CallRow>, s: string, poolList: seq<Pool>, ignoreDb: bool)
    ensures |PendingPoolBcfs(rows, s, poolList, ignoreDb)| > 0 <==> exists x :: x in rows && PendingPoolRow(x, s, poolList, ignoreDb)
  {
    var ps := PendingPoolBcfs(rows, s, poolList, ignoreDb);
    if |ps| > 0 { assert ps[0] in ps; }
    if exists x :: x in rows && PendingPoolRow(x, s, poolList, ignoreDb) {
      var x :| x in rows && PendingPoolRow(x, s, poolList, ignoreDb);
      assert PoolOutput(x.path, x.pool) in ps;
    }
  }

  /** Some sample with an input BAM has no merged-BCF row: `mrg_bcf[smp]` raises. */
  predicate MissingMergedBcf(bams: map<string, Path>, rows: seq<CallRow>)
  {
    exists s :: s in bams && MergedBcf(rows, s).None?
  }

  /** The samples whose merged BCF is pending and that have per-pool BCFs
      pending, each with those BCFs. */
  function PendingCalls(bams: map<string, Path>, rows: seq<CallRow>, poolList: seq<Pool>, ignoreDb: bool)
    : (m: map<string, seq<PoolOutput>>)
    requires forall s :: s in bams ==> MergedBcf(rows, s).Some?
    ensures forall s :: s in m <==>
              && s in bams
              && EffectiveBcf(MergedBcf(rows, s).value, ignoreDb) == Pending
              && exists x :: x in rows && PendingPoolRow(x, s, poolList, ignoreDb)
    ensures forall s :: s in m ==> m[s] == PendingPoolBcfs(rows, s, poolList, ignoreDb) && |m[s]| > 0
  {
    var m := map s | s in bams && EffectiveBcf(MergedBcf(rows, s).value, ignoreDb) == Pending
                               && |PendingPoolBcfs(rows, s, poolList, ignoreDb)| > 0
                   :: PendingPoolBcfs(rows, s, poolList, ignoreDb);
    assert forall s :: s in bams ==>
      (|PendingPoolBcfs(rows, s, poolList, ignoreDb)| > 0 <==> exists x :: x in rows && PendingPoolRow(x, s, poolList, ignoreDb))
    by {
      forall s | s in bams
        ensures |PendingPoolBcfs(rows, s, poolList, ignoreDb)| > 0 <==> exists x :: x in rows && PendingPoolRow(x, s, poolList, ignoreDb)
      {
        PendingPoolBcfsNonEmpty(rows, s, poolList, ignoreDb);
      }
    }
    m
  }

  /** `outputBcf`: the samples to call, each with the per-pool BCFs to produce.
      A sample with an input BAM and no merged-BCF row is a lookup error. */
  function SelectCalls(bams: map<string, Path>, rows: seq<CallRow>, poolList: seq<Pool>, ignoreDb: bool)
    : (r: Result<map<string, seq<PoolOutput>>>)
    ensures r.Err? <==> exists s :: s in bams && MergedBcf(rows, s).None?
    ensures r.Ok? ==> forall s :: s in r.value <==>
              && s in bams
              && EffectiveBcf(MergedBcf(rows, s).value, ignoreDb) == Pending
              && exists x :: x in rows && PendingPoolRow(x, s, poolList, ignoreDb)
    ensures r.Ok? ==> forall s, o :: s in r.value && o in r.value[s] ==>
              exists x :: x in rows && PendingPoolRow(x, s, poolList, ignoreDb) && o == PoolOutput(x.path, x.pool)
    ensures r.Ok? ==> forall s, x :: s in r.value && x in rows && PendingPoolRow(x, s, poolList, ignoreDb) ==>
              PoolOutput(x.path, x.pool) in r.value[s]
    ensures r.Ok? ==> forall s :: s in r.value ==> r.value[s] == PendingPoolBcfs(rows, s, poolList, ignoreDb)
    ensures r.Ok? ==> forall s :: s in r.value ==> |r.value[s]| > 0
  {
    if MissingMergedBcf(bams, rows) then Err(NoMergedBcf)
    else Ok(PendingCalls(bams, rows, poolList, ignoreDb))
  }

  /** Whether the external caller is invoked at all: some BCF is to be
      called, or some sample with an input BAM still has a pending merged BCF. */
  function CallerInvoked(bams: map<string, Path>, rows: seq<CallRow>, selection: map<string, seq<PoolOutput>>, ignoreDb: bool): (r: bool)
    requires forall s :: s in bams ==> MergedBcf(rows, s).Some?
  {
    (exists s :: s in selection && |selection[s]| > 0)
    || (exists s :: s in bams && EffectiveBcf(MergedBcf(rows, s).value, ignoreDb) == Pending)
  }

  /** A calling plan: `bams` holds every sample with a usable BAM (the
      `samples` list handed to the caller), `inputs` the BAMs of the scheduled
      samples only (`sampleBam`, the caller's inputs), `outputs` the per-pool
      BCFs to produce for each scheduled sample. */
  datatype CallPlan = CallPlan(bams: map<string, Path>, inputs: map<string, Path>, pools: seq<Pool>,
                               outputs: map<string, seq<PoolOutput>>, invoked: bool)

  /** The caller's inputs are the BAMs of exactly the scheduled samples, and
      every scheduled sample has at least one BCF to produce. */
  predicate InputsOfScheduled(plan: CallPlan)
  {
    && plan.inputs.Keys == plan.outputs.Keys
    && (forall s :: s in plan.inputs ==> s in plan.bams && plan.inputs[s] == plan.bams[s])
    && (forall s :: s in plan.outputs ==> |plan.outputs[s]| > 0)
  }

  /** The selection of `MethylationCall.run` once its reference-index checks
      have passed (they are not modelled), with its errors in source order:
      no usable BAM, then an unknown contig, then a sample without merged BCF. */
  function CallRun(mapRows: seq<MapRow>, callRows: seq<CallRow>, pools: seq<(Pool, seq<Contig>)>, contigList: seq<Contig>,
                   reqPool: Option<Pool>, sampleFilter: Option<string>, ignoreDb: bool, ignoreDep: bool): (r: Result<CallPlan>)
    ensures r.Ok? ==> |r.value.bams| > 0
    ensures r.Ok? ==> forall s :: s in r.value.outputs ==> s in r.value.bams
    ensures r.Ok? ==> InputsOfScheduled(r.value)
    ensures |SampleBams(mapRows, sampleFilter, ignoreDb, ignoreDep)| == 0 ==> r == Err(NoBamsForCalling)
    ensures |SampleBams(mapRows, sampleFilter, ignoreDb, ignoreDep)| > 0 && SelectPools(pools, contigList, reqPool).Err? ==>
              r == Err(SelectPools(pools, contigList, reqPool).error)
    ensures |SampleBams(mapRows, sampleFilter, ignoreDb, ignoreDep)| > 0 && SelectPools(pools, contigList, reqPool).Ok? ==>
              (r.Err? <==> MissingMergedBcf(SampleBams(mapRows, sampleFilter, ignoreDb, ignoreDep), callRows))
    ensures r.Ok? ==> && r.value.bams == SampleBams(mapRows, sampleFilter, ignoreDb, ignoreDep)
                      && SelectPools(pools, contigList, reqPool).Ok?
                      && r.value.pools == SelectPools(pools, contigList, reqPool).value
  {
    var bams := SampleBams(mapRows, sampleFilter, ignoreDb, ignoreDep);
    var selected := SelectPools(pools, contigList, reqPool);
    if |bams| == 0 then Err(NoBamsForCalling)
    else if selected.Err? then Err(selected.error)
    else
      var plan := PlanCalls(bams, callRows, selected.value, ignoreDb);
      plan
  }

  /** The plan for a chosen set of BAMs and pools: the calls selected and
      whether the caller runs. A sample with BCFs to call has a pending merged
      BCF, so the caller runs exactly when some sample's merged BCF is pending. */
  function PlanCalls(bams: map<string, Path>, callRows: seq<CallRow>, poolList: seq<Pool>, ignoreDb: bool): (r: Result<CallPlan>)
    ensures r.Err? <==> exists s :: s in bams && MergedBcf(callRows, s).None?
    ensures r.Ok? ==> r.value.bams == bams && r.value.pools == poolList
    ensures r.Ok? ==> SelectCalls(bams, callRows, poolList, ignoreDb).Ok? && r.value.outputs == SelectCalls(bams, callRows, poolList, ignoreDb).value
    ensures r.Ok? ==> forall s :: s in r.value.outputs ==> s in bams
    ensures r.Ok? ==> InputsOfScheduled(r.value)
    ensures r.Ok? ==> (r.value.invoked <==> exists s :: s in bams && EffectiveBcf(MergedBcf(callRows, s).value, ignoreDb) == Pending)
  {
    match SelectCalls(bams, callRows, poolList, ignoreDb)
    case Err(e) => Err(e)
    case Ok(sel) =>
      var inputs := map s | s in sel :: bams[s];
      assert inputs.Keys == sel.Keys;
      var plan := CallPlan(bams, inputs, poolList, sel, CallerInvoked(bams, callRows, sel, ignoreDb));
      assert InputsOfScheduled(plan);
      Ok(plan)
  }

  /** A sample whose merged BCF is already done is never scheduled, whatever its per-pool BCFs. */
  lemma DoneMergedBcfNotCalled(bams: map<string, Path>, rows: seq<CallRow>, poolList: seq<Pool>, s: string)
    requires SelectCalls(bams, rows, poolList, false).Ok?
    requires s in bams && MergedBcf(rows, s).value.status == Done
    ensures s !in SelectCalls(bams, rows, poolList, false).value
  {
  }
}
