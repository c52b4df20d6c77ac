/** The gating of the index stage (gemBS/production.py, `Index.run`): from
    the `indexing` table and the configuration, which build steps run, in
    which order, and which configuration errors stop the run. The builders
    themselves are external; only their effect on the gating is modelled. */
module IndexStage {
  import opened Store

  /** The `type` column of the `indexing` table. */
  datatype IndexKind = Reference | BsIndex | NonBsIndex | ContigSizes | GemBsReference | ContigMd5 | DbSnpIndex

  /** A row of the `indexing` table: (file, type, status); the file may be NULL. */
  datatype IndexRow = IndexRow(file: Option<Path>, kind: IndexKind, status: int)

  datatype Entry = Entry(file: Option<Path>, status: int)

  /** `db_data[kind]`: the last row of that kind. */
  function Lookup(rows: seq<IndexRow>, k: IndexKind): (r: Option<Entry>)
    ensures r.Some? ==> exists i :: 0 <= i < |rows| && rows[i].kind == k && r.value == Entry(rows[i].file, rows[i].status)
                                    && forall j :: i < j < |rows| ==> rows[j].kind != k
    ensures r.None? ==> forall i :: 0 <= i < |rows| ==> rows[i].kind != k
    decreases |rows|
  {
    if |rows| == 0 then None
    else if rows[|rows| - 1].kind == k then Some(Entry(rows[|rows| - 1].file, rows[|rows| - 1].status))
    else Lookup(rows[..|rows| - 1], k)
  }

  /** `db_data.get(kind, (None, 0))`. */
  function LookupOr(rows: seq<IndexRow>, k: IndexKind): (e: Entry)
    ensures Lookup(rows, k).None? ==> e == Entry(None, 0)
    ensures Lookup(rows, k).Some? ==> e == Lookup(rows, k).value
  {
    match Lookup(rows, k)
    case None => Entry(None, 0)
    case Some(e) => e
  }

  datatype IndexStep =
    | MakeGemBsReference
    | BuildBsIndex
    | RemoveContigSizes
    | BuildNonBsIndex
    | MakeContigMd5
    | BuildDbSnpIndex
    | MakeContigSizes

  /** The position of each step in the fixed order the stage runs them. */
  function Rank(s: IndexStep): nat
  {
    match s
    case MakeGemBsReference => 0
    case BuildBsIndex => 1
    case RemoveContigSizes => 2
    case BuildNonBsIndex => 3
    case MakeContigMd5 => 4
    case BuildDbSnpIndex => 5
    case MakeContigSizes => 6
  }

  predicate InStageOrder(steps: seq<IndexStep>)
  {
    forall i, j :: 0 <= i < j < |steps| ==> Rank(steps[i]) < Rank(steps[j])
  }

  /** Every step, in stage order. */
  const AllSteps: seq<IndexStep> :=
    [MakeGemBsReference, BuildBsIndex, RemoveContigSizes, BuildNonBsIndex, MakeContigMd5, BuildDbSnpIndex, MakeContigSizes]

  lemma AllStepsInStageOrder()
    ensures InStageOrder(AllSteps)
  {
    forall i, j | 0 <= i < j < |AllSteps| ensures Rank(AllSteps[i]) < Rank(AllSteps[j]) {
      assert forall k :: 0 <= k < |AllSteps| ==> Rank(AllSteps[k]) == k;
    }
  }

  /** The steps whose gate is open, in the order given. */
  function Pick(gates: seq<bool>, steps: seq<IndexStep>): (r: seq<IndexStep>)
    requires |gates| == |steps|
    ensures forall s :: s in r ==> s in steps
    ensures forall i :: 0 <= i < |steps| && gates[i] ==> steps[i] in r
    ensures InStageOrder(steps) ==> InStageOrder(r)
  {
    if |steps| == 0 then []
    else
      var rest := Pick(gates[1..], steps[1..]);
      assert forall i :: 1 <= i < |steps| ==> steps[i] == steps[1..][i - 1];
      assert InStageOrder(steps) ==> forall s :: s in rest ==> Rank(steps[0]) < Rank(s);
      if gates[0] then [steps[0]] + rest else rest
  }

  /** A step of a stage-ordered list is picked only through its own gate. */
  lemma {:induction false} PickedOnlyIfOpen(gates: seq<bool>, steps: seq<IndexStep>, k: nat)
    requires |gates| == |steps| && InStageOrder(steps) && k < |steps|
    ensures steps[k] in Pick(gates, steps) <==> gates[k]
  {
    if k == 0 {
      assert forall s :: s in Pick(gates[1..], steps[1..]) ==> Rank(s) > Rank(steps[0]);
    } else {
      assert steps[k] != steps[0];
      PickedOnlyIfOpen(gates[1..], steps[1..], k - 1);
    }
  }

  /** Each step is in the stage-order pick exactly when its own gate is open. */
  lemma PickAllSteps(gates: seq<bool>)
    requires |gates| == |AllSteps|
    ensures InStageOrder(Pick(gates, AllSteps))
    ensures MakeGemBsReference in Pick(gates, AllSteps) <==> gates[0]
    ensures BuildBsIndex in Pick(gates, AllSteps) <==> gates[1]
    ensures RemoveContigSizes in Pick(gates, AllSteps) <==> gates[2]
    ensures BuildNonBsIndex in Pick(gates, AllSteps) <==> gates[3]
    ensures MakeContigMd5 in Pick(gates, AllSteps) <==> gates[4]
    ensures BuildDbSnpIndex in Pick(gates, AllSteps) <==> gates[5]
    ensures MakeContigSizes in Pick(gates, AllSteps) <==> gates[6]
  {
    AllStepsInStageOrder();
    PickedOnlyIfOpen(gates, AllSteps, 0);
    PickedOnlyIfOpen(gates, AllSteps, 1);
    PickedOnlyIfOpen(gates, AllSteps, 2);
    PickedOnlyIfOpen(gates, AllSteps, 3);
    PickedOnlyIfOpen(gates, AllSteps, 4);
    PickedOnlyIfOpen(gates, AllSteps, 5);
    PickedOnlyIfOpen(gates, AllSteps, 6);
  }

  datatype IndexError =
    | MissingEntry(kind: IndexKind)
    | NoReferenceFile
    | NoDbSnpFiles
    | NoDbSnpIndexName

  datatype IndexRun = IndexRun(steps: seq<IndexStep>, error: Option<IndexError>)

  /** What the environment contributes: whether the reference builder
      reported success, whether a contig-sizes file is on disk after the
      index is built, and the configured dbSNP input files. */
  datatype IndexEnv = IndexEnv(populateCache: bool, referenceBuilt: bool, contigSizesOnDisk: bool, dbSnpFiles: seq<Path>)

  /** The entries read with `db_data[...]`, in the order they are read. */
  const Required: seq<IndexKind> := [Reference, BsIndex, ContigSizes, GemBsReference, ContigMd5]

  function FirstMissing(rows: seq<IndexRow>, ks: seq<IndexKind>): (r: Option<IndexKind>)
    ensures r.Some? ==> r.value in ks && Lookup(rows, r.value).None?
    ensures r.None? ==> forall k :: k in ks ==> Lookup(rows, k).Some?
  {
    if |ks| == 0 then None
    else if Lookup(rows, ks[0]).None? then Some(ks[0])
    else FirstMissing(rows, ks[1..])
  }

  /** The entries the stage reads; the optional ones default to no file and status 0. */
  datatype Entries = Entries(fasta: Option<Path>, gref: Entry, idx: Entry, nonbs: Entry, csizes: Entry, md5: Entry, dbsnp: Entry)

  function EntriesOf(rows: seq<IndexRow>): Entries
    requires forall k :: k in Required ==> Lookup(rows, k).Some?
  {
    Entries(Lookup(rows, Reference).value.file, Lookup(rows, GemBsReference).value, Lookup(rows, BsIndex).value,
            LookupOr(rows, NonBsIndex), Lookup(rows, ContigSizes).value, Lookup(rows, ContigMd5).value,
            LookupOr(rows, DbSnpIndex))
  }

  /** The contig-md5 flag after the reference step: a fresh reference with a
      known md5 file name sets it; otherwise it is the stored status, unless
      the cache is to be populated. */
  predicate Md5Ok(e: Entries, env: IndexEnv)
  {
    (e.gref.status != 1 && env.referenceBuilt && e.md5.file.Some?) || (!env.populateCache && e.md5.status != 0)
  }

  /** A reference FASTA is configured (a NULL or empty name is not). */
  predicate Started(e: Entries)
  {
    e.fasta.Some? && e.fasta.value != ""
  }

  /** A dbSNP index is named and not built, but no input files are configured. */
  predicate DbSnpWithoutFiles(e: Entries, env: IndexEnv)
  {
    e.dbsnp.file.Some? && e.dbsnp.status == 0 && |env.dbSnpFiles| == 0
  }

  /** dbSNP input files are configured, but no index name. */
  predicate DbSnpWithoutName(e: Entries, env: IndexEnv)
  {
    e.dbsnp.file.None? && |env.dbSnpFiles| > 0
  }

  /** The gate of each step, in stage order, as the stage evaluates them:
      rebuilding the index forgets the contig sizes when their file is on disk. */
  function Gates(e: Entries, env: IndexEnv): (g: seq<bool>)
    ensures |g| == |AllSteps|
    ensures g[0] == (e.gref.status != 1)
    ensures g[1] == (e.idx.status != 1)
    ensures g[2] == (e.idx.status != 1 && env.contigSizesOnDisk)
    ensures g[3] == (e.nonbs.file.Some? && e.nonbs.status != 1)
    ensures g[4] == !Md5Ok(e, env)
    ensures g[5] == (!DbSnpWithoutFiles(e, env) && !DbSnpWithoutName(e, env) && e.dbsnp.file.Some? && e.dbsnp.status == 0)
    ensures g[6] == (!DbSnpWithoutFiles(e, env) && !DbSnpWithoutName(e, env)
                     && (e.csizes.status != 1 || (e.idx.status != 1 && env.contigSizesOnDisk)))
  {
    var csizesOk := if e.idx.status != 1 && env.contigSizesOnDisk then 0 else e.csizes.status;
    var finished := !DbSnpWithoutFiles(e, env) && !DbSnpWithoutName(e, env);
    [e.gref.status != 1,
     e.idx.status != 1,
     e.idx.status != 1 && env.contigSizesOnDisk,
     e.nonbs.file.Some? && e.nonbs.status != 1,
     !Md5Ok(e, env),
     finished && e.dbsnp.file.Some? && e.dbsnp.status == 0,
     finished && csizesOk != 1]
  }

  /** The body of `Index.run` once the table entries are read: the steps run
      in stage order, each behind its own gate; a missing reference stops
      everything, and a dbSNP configuration error stops the run after the
      contig-md5 step. */
  function Gate(e: Entries, env: IndexEnv): (r: IndexRun)
    ensures InStageOrder(r.steps)
    ensures r.error == Some(NoReferenceFile) <==> !Started(e)
    ensures r.error == Some(NoDbSnpFiles) <==> Started(e) && DbSnpWithoutFiles(e, env)
    ensures r.error == Some(NoDbSnpIndexName) <==> Started(e) && DbSnpWithoutName(e, env)
    ensures r.error.None? <==> Started(e) && !DbSnpWithoutFiles(e, env) && !DbSnpWithoutName(e, env)
    ensures MakeGemBsReference in r.steps <==> Started(e) && e.gref.status != 1
    ensures BuildBsIndex in r.steps <==> Started(e) && e.idx.status != 1
    ensures RemoveContigSizes in r.steps <==> Started(e) && e.idx.status != 1 && env.contigSizesOnDisk
    ensures BuildNonBsIndex in r.steps <==> Started(e) && e.nonbs.file.Some? && e.nonbs.status != 1
    ensures MakeContigMd5 in r.steps <==> Started(e) && !Md5Ok(e, env)
    ensures BuildDbSnpIndex in r.steps <==> Started(e) && e.dbsnp.file.Some? && e.dbsnp.status == 0 && |env.dbSnpFiles| > 0
    ensures MakeContigSizes in r.steps <==> r.error.None? && (e.csizes.status != 1 || (e.idx.status != 1 && env.contigSizesOnDisk))
  {
    if !Started(e) then IndexRun([], Some(NoReferenceFile))
    else
      var gates := Gates(e, env);
      PickAllSteps(gates);
      IndexRun(Pick(gates, AllSteps),
               if DbSnpWithoutFiles(e, env) then Some(NoDbSnpFiles)
               else if DbSnpWithoutName(e, env) then Some(NoDbSnpIndexName)
               else None)
  }

  /** `Index.run`: a required entry missing from the table is a lookup error
      before anything runs. */
  function RunIndex(rows: seq<IndexRow>, env: IndexEnv): (r: IndexRun)
    ensures (exists k :: k in Required && Lookup(rows, k).None?) ==> r.steps == [] && r.error.Some? && r.error.value.MissingEntry?
    ensures r.error.Some? && r.error.value.MissingEntry? ==> r.error.value.kind in Required && Lookup(rows, r.error.value.kind).None?
    ensures (forall k :: k in Required ==> Lookup(rows, k).Some?) ==> r == Gate(EntriesOf(rows), env)
  {
    match FirstMissing(rows, Required)
    case Some(k) => IndexRun([], Some(MissingEntry(k)))
    case None => Gate(EntriesOf(rows), env)
  }

  /** Every entry recorded as complete. */
  predicate Complete(rows: seq<IndexRow>, env: IndexEnv)
  {
    && (forall k :: k in Required ==> Lookup(rows, k).Some?)
    && Lookup(rows, Reference).value.file.Some? && Lookup(rows, Reference).value.file.value != ""
    && Lookup(rows, GemBsReference).value.status == 1
    && Lookup(rows, BsIndex).value.status == 1
    && Lookup(rows, ContigSizes).value.status == 1
    && Lookup(rows, ContigMd5).value.status != 0
    && (LookupOr(rows, NonBsIndex).file.Some? ==> LookupOr(rows, NonBsIndex).status == 1)
    && (LookupOr(rows, DbSnpIndex).file.Some? ==> LookupOr(rows, DbSnpIndex).status != 0)
    && (LookupOr(rows, DbSnpIndex).file.None? ==> |env.dbSnpFiles| == 0)
  }

  lemma FirstTwoDiffer(steps: seq<IndexStep>)
    requires InStageOrder(steps) && |steps| >= 2
    ensures steps[0] != steps[1]
  {
  }

  /** A stage-ordered list holding a single kind of step holds it once. */
  lemma OnlyStep(steps: seq<IndexStep>, s: IndexStep)
    requires InStageOrder(steps) && s in steps
    requires forall x :: x in steps ==> x == s
    ensures steps == [s]
  {
    forall i | 0 <= i < |steps| ensures steps[i] == s {
      assert steps[i] in steps;
    }
    if |steps| >= 2 {
      FirstTwoDiffer(steps);
    }
  }

  /** Rerunning the stage over a complete table builds nothing, unless the
      cache is to be populated, which regenerates exactly the contig md5 file. */
  lemma CompleteIndexIsNoOp(rows: seq<IndexRow>, env: IndexEnv)
    requires Complete(rows, env)
    ensures RunIndex(rows, env).error.None?
    ensures !env.populateCache ==> RunIndex(rows, env).steps == []
    ensures env.populateCache ==> RunIndex(rows, env).steps == [MakeContigMd5]
  {
    var steps := RunIndex(rows, env).steps;
    forall x | x in steps ensures x == MakeContigMd5 && env.populateCache {
      match x
      case MakeContigMd5 =>
      case _ =>
    }
    if |steps| > 0 {
      assert steps[0] in steps;
      OnlyStep(steps, MakeContigMd5);
    }
  }
}
