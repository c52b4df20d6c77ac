/** The extraction stage (gemBS/production.py, `MethylationFiltering`): the
    per-sample status word of the `extract` table, in which every product owns
    a pair of bits (the low one "done", the high one "in progress"), the
    claim of a sample and its commit. */
module ExtractStage {
  import opened Store
  import opened CallingStage

  /** A status word of the `extract` table. */
  type Word = bv32

  const CpgBits: Word := 3
  const NonCpgBits: Word := 12
  const BedMethylBits: Word := 48
  /** The pair once owned by a separate bigWig product, which no request sets any more. */
  const BigWigBits: Word := 192
  const SnpBits: Word := 768
  /** The "done" bit of every pair. */
  const DoneBits: Word := 341
  /** The "in progress" bit of every pair. */
  const BusyBits: Word := 682
  /** Every bit some pair owns. */
  const PairBits: Word := 1023

  /** The products requested on the command line. */
  datatype Selection = Selection(cpg: bool, nonCpg: bool, bedMethyl: bool, snps: bool)

  predicate AnySelected(sel: Selection)
  {
    sel.cpg || sel.nonCpg || sel.bedMethyl || sel.snps
  }

  /** With no product requested, CpG calls are extracted. */
  function Normalise(sel: Selection): (r: Selection)
    ensures AnySelected(r)
    ensures AnySelected(sel) ==> r == sel
    ensures !AnySelected(sel) ==> r == Selection(true, false, false, false)
  {
    if AnySelected(sel) then sel else sel.(cpg := true)
  }

  function Pair(on: bool, bits: Word): Word
  {
    if on then bits else 0
  }

  /** `self.mask`: both bits of the pair of every requested product. */
  function Mask(sel: Selection): (m: Word)
    ensures m & CpgBits == Pair(sel.cpg, CpgBits)
    ensures m & NonCpgBits == Pair(sel.nonCpg, NonCpgBits)
    ensures m & BedMethylBits == Pair(sel.bedMethyl, BedMethylBits)
    ensures m & SnpBits == Pair(sel.snps, SnpBits)
    ensures m & BigWigBits == 0
    ensures m & PairBits == m
  {
    Pair(sel.cpg, CpgBits) | Pair(sel.nonCpg, NonCpgBits) | Pair(sel.bedMethyl, BedMethylBits) | Pair(sel.snps, SnpBits)
  }

  /** `self.mask1`: the "done" bits of the mask. */
  function DoneMask(mask: Word): (m1: Word)
    ensures m1 & mask == m1 && m1 & BusyBits == 0
  {
    mask & DoneBits
  }

  /** A sample is claimed unless, on the requested products, its word reads
      all in progress or all done. Ignoring the database reads the word as zero. */
  predicate Claims(status: Word, mask: Word, ignoreDb: bool)
  {
    var sm := if ignoreDb then 0 else status & mask;
    !(sm == mask || sm == DoneMask(mask))
  }

  /** The products an extraction run is asked for: those requested whose pair
      did not read done or in progress. The bedMethyl test reads the bigWig
      pair, which a request never sets, so a requested bedMethyl is always
      asked for. */
  function Products(sel: Selection, sm: Word): (p: Selection)
    ensures p.cpg <==> sel.cpg && sm & CpgBits == 0
    ensures p.nonCpg <==> sel.nonCpg && sm & NonCpgBits == 0
    ensures p.bedMethyl <==> sel.bedMethyl && sm & BigWigBits == 0
    ensures p.snps <==> sel.snps && sm & SnpBits == 0
  {
    Selection(sel.cpg && sm & CpgBits == 0, sel.nonCpg && sm & NonCpgBits == 0,
              sel.bedMethyl && sm & BigWigBits == 0, sel.snps && sm & SnpBits == 0)
  }

  const CpgSuffixes: seq<string> := ["_cpg.txt.gz", "_cpg.txt.gz.tbi", "_cpg.txt.gz.md5"]
  const NonCpgSuffixes: seq<string> := ["_non_cpg.txt.gz", "_non_cpg.txt.gz.tbi", "_non_cpg.txt.gz.md5"]
  const BedSuffixes: seq<string> :=
    ["_cpg.bed.gz", "_cpg.bed.gz.md5", "_cpg.bb", "_cpg.bb.md5",
     "_chg.bed.gz", "_chg.bed.gz.md5", "_chg.bb", "_chg.bb.md5",
     "_chh.bed.gz", "_chh.bed.gz.md5", "_chh.bb", "_chh.bb.md5"]
  const SnpSuffixes: seq<string> := ["_snps.txt.gz", "_snps.txt.gz_tbi", "_snps.txt.gz.md5"]

  function BigWigSuffixes(bwStrandSpecific: bool): seq<string>
  {
    if bwStrandSpecific then ["_pos.bw", "_pos.bw.md5", "_neg.bw", "_neg.bw.md5"] else [".bw", ".bw.md5"]
  }

  /** The suffixes of the files an extraction writes for the products `p`. */
  function Suffixes(p: Selection, bwStrandSpecific: bool): seq<string>
  {
    ["_contig_list.bed"]
    + (if p.cpg then CpgSuffixes else [])
    + (if p.nonCpg then NonCpgSuffixes else [])
    + (if p.bedMethyl then BedSuffixes + BigWigSuffixes(bwStrandSpecific) else [])
    + (if p.snps then SnpSuffixes else [])
  }

  /** Each product's marker file lies in that product's group and in no other. */
  lemma CpgMarker(bw: seq<string>)
    requires bw == BigWigSuffixes(true) || bw == BigWigSuffixes(false)
    ensures "_cpg.txt.gz" in CpgSuffixes
    ensures "_cpg.txt.gz" !in ["_contig_list.bed"] + NonCpgSuffixes + BedSuffixes + bw + SnpSuffixes
  {
    assert CpgSuffixes[0] == "_cpg.txt.gz";
  }

  lemma SnpMarker(bw: seq<string>)
    requires bw == BigWigSuffixes(true) || bw == BigWigSuffixes(false)
    ensures "_snps.txt.gz" in SnpSuffixes
    ensures "_snps.txt.gz" !in ["_contig_list.bed"] + CpgSuffixes + NonCpgSuffixes + BedSuffixes + bw
  {
    assert SnpSuffixes[0] == "_snps.txt.gz";
  }

  lemma ChhMarker(bw: seq<string>)
    requires bw == BigWigSuffixes(true) || bw == BigWigSuffixes(false)
    ensures "_chh.bb" in BedSuffixes
    ensures "_chh.bb" !in ["_contig_list.bed"] + CpgSuffixes + NonCpgSuffixes + bw + SnpSuffixes
  {
    assert BedSuffixes[10] == "_chh.bb";
  }

  lemma SuffixesMembership(p: Selection, bwStrandSpecific: bool)
    ensures Suffixes(p, bwStrandSpecific)[0] == "_contig_list.bed"
    ensures p.cpg <==> "_cpg.txt.gz" in Suffixes(p, bwStrandSpecific)
    ensures p.snps <==> "_snps.txt.gz" in Suffixes(p, bwStrandSpecific)
    ensures p.bedMethyl <==> "_chh.bb" in Suffixes(p, bwStrandSpecific)
  {
    var bw := BigWigSuffixes(bwStrandSpecific);
    CpgMarker(bw);
    SnpMarker(bw);
    ChhMarker(bw);
  }

  /** `base + x` for every suffix `x`, as files. */
  function Prefixed(base: Path, sfx: seq<string>): (r: seq<FileRef>)
    ensures |r| == |sfx| && forall i :: 0 <= i < |sfx| ==> r[i] == Artifact(base + sfx[i])
    ensures forall f :: f in r ==> exists x :: x in sfx && f == Artifact(base + x)
  {
    var r := seq(|sfx|, i requires 0 <= i < |sfx| => Artifact(base + sfx[i]));
    forall f | f in r ensures exists x :: x in sfx && f == Artifact(base + x) {
      var i :| 0 <= i < |r| && r[i] == f;
      assert sfx[i] in sfx;
    }
    r
  }

  /** A prefixed file is in the list exactly when its suffix is. */
  lemma PrefixedHas(base: Path, sfx: seq<string>, x: string)
    ensures Artifact(base + x) in Prefixed(base, sfx) <==> x in sfx
  {
    var r := Prefixed(base, sfx);
    if x in sfx {
      var i :| 0 <= i < |sfx| && sfx[i] == x;
      assert r[i] == Artifact(base + x);
    }
    if Artifact(base + x) in r {
      var i :| 0 <= i < |r| && r[i] == Artifact(base + x);
      assert x == (base + x)[|base|..] == (base + sfx[i])[|base|..] == sfx[i];
    }
  }

  /** The files a compensation record removes if the extraction of `filebase`
      is interrupted: the contig list and the outputs of every product asked for. */
  function GuardFiles(filebase: Path, p: Selection, bwStrandSpecific: bool): (r: seq<FileRef>)
    ensures |r| >= 1 && r[0] == Artifact(filebase + "_contig_list.bed")
    ensures p.cpg <==> Artifact(filebase + "_cpg.txt.gz") in r
    ensures p.snps <==> Artifact(filebase + "_snps.txt.gz") in r
    ensures p.bedMethyl <==> Artifact(filebase + "_chh.bb") in r
    ensures forall f :: f in r ==> exists x :: x in Suffixes(p, bwStrandSpecific) && f == Artifact(filebase + x)
  {
    var sfx := Suffixes(p, bwStrandSpecific);
    SuffixesMembership(p, bwStrandSpecific);
    PrefixedHas(filebase, sfx, "_cpg.txt.gz");
    PrefixedHas(filebase, sfx, "_snps.txt.gz");
    PrefixedHas(filebase, sfx, "_chh.bb");
    Prefixed(filebase, sfx)
  }

  /** A row of the `extract` table: (filepath, sample, status). */
  datatype ExtractRow = ExtractRow(path: Path, sample: string, status: Word)

  datatype ExtractState = ExtractState(rows: seq<ExtractRow>, comp: Registry)

  /** The options a run of the stage fixes for all its samples. */
  datatype ExtractConfig = ExtractConfig(sel: Selection, bwStrandSpecific: bool, ignoreDb: bool, dryRun: bool)

  function RunMask(cfg: ExtractConfig): Word
  {
    Mask(Normalise(cfg.sel))
  }

  /** The row `fetchone` returns: the first row of the sample. */
  function FirstRowOf(rows: seq<ExtractRow>, s: string): (r: Option<nat>)
    ensures r.Some? ==> r.value < |rows| && rows[r.value].sample == s && forall j :: 0 <= j < r.value ==> rows[j].sample != s
    ensures r.None? ==> forall j :: 0 <= j < |rows| ==> rows[j].sample != s
    decreases |rows|
  {
    if |rows| == 0 then None
    else if rows[0].sample == s then Some(0)
    else match FirstRowOf(rows[1..], s)
      case None => None
      case Some(k) => Some(k + 1)
  }

  /** `UPDATE extract SET status = w WHERE filepath = p`. */
  function SetWord(rows: seq<ExtractRow>, p: Path, w: Word): (r: seq<ExtractRow>)
    ensures |r| == |rows|
    ensures forall i :: 0 <= i < |rows| ==> r[i] == (if rows[i].path == p then rows[i].(status := w) else rows[i])
  {
    seq(|rows|, i requires 0 <= i < |rows| => if rows[i].path == p then rows[i].(status := w) else rows[i])
  }

  datatype FilterStep = FilterStep(state: ExtractState, asked: Option<Selection>)

  /** `sm`: the requested pairs of a word, or zero when the database is ignored. */
  function Reading(status: Word, cfg: ExtractConfig): Word
  {
    if cfg.ignoreDb then 0 else status & RunMask(cfg)
  }

  /** The word a claim writes: every requested pair marked. */
  function ClaimedWord(prev: Word, mask: Word): Word
  {
    prev | mask
  }

  /** The word a commit writes, computed from the word read before the claim. */
  function CommittedWord(prev: Word, mask: Word): Word
  {
    (prev | DoneMask(mask)) & DoneBits
  }

  /** The compensation record of a live claim: reset the word to zero and
      delete the files of the products asked for. */
  function ExtractRecord(p: Path, asked: Selection, bwStrandSpecific: bool): (r: CompRecord)
    ensures |r.guards| >= 1 && r.guards[0] == Artifact(p + "_contig_list.bed")
    ensures asked.cpg <==> Artifact(p + "_cpg.txt.gz") in r.guards
    ensures asked.snps <==> Artifact(p + "_snps.txt.gz") in r.guards
    ensures asked.bedMethyl <==> Artifact(p + "_chh.bb") in r.guards
  {
    CompRecord(ResetStatus(ExtractTable, p, 0), GuardFiles(p, asked, bwStrandSpecific))
  }

  /** The claim block of `do_filter` on the row at `i`, read as claimable:
      every requested pair marked, then committed; a live run then registers
      its compensation record. */
  function ClaimStep(st: ExtractState, i: nat, cfg: ExtractConfig): (r: FilterStep)
    requires i < |st.rows|
    ensures r.asked == Some(Products(Normalise(cfg.sel), Reading(st.rows[i].status, cfg)))
    ensures |r.state.rows| == |st.rows|
    ensures forall j :: 0 <= j < |st.rows| ==>
              r.state.rows[j] == if st.rows[j].path != st.rows[i].path then st.rows[j]
                                 else st.rows[j].(status := ClaimedWord(st.rows[i].status, RunMask(cfg)))
    ensures cfg.dryRun ==> r.state.comp == st.comp
    ensures !cfg.dryRun ==> r.state.comp == Register(st.comp, st.rows[i].path, ExtractRecord(st.rows[i].path, r.asked.value, cfg.bwStrandSpecific))
  {
    var row := st.rows[i];
    var asked := Products(Normalise(cfg.sel), Reading(row.status, cfg));
    var comp := if cfg.dryRun then st.comp else Register(st.comp, row.path, ExtractRecord(row.path, asked, cfg.bwStrandSpecific));
    FilterStep(ExtractState(SetWord(st.rows, row.path, ClaimedWord(row.status, RunMask(cfg))), comp), Some(asked))
  }

  /** The commit block of a live run whose extraction returned: the record is
      deleted, and the word written is computed from `before`, the word read
      before the claim, whatever the row holds by now. */
  function CommitStep(st: ExtractState, p: Path, before: Word, mask: Word): (r: ExtractState)
    ensures |r.rows| == |st.rows|
    ensures forall j :: 0 <= j < |st.rows| ==>
              r.rows[j] == if st.rows[j].path == p then st.rows[j].(status := CommittedWord(before, mask)) else st.rows[j]
    ensures r.comp == Forget(st.comp, p)
  {
    ExtractState(SetWord(st.rows, p, CommittedWord(before, mask)), Forget(st.comp, p))
  }

  /** The claim and the run of the row at `i`, once its word has been read as
      claimable, when no other run touches the row in between: the claim,
      then the commit when a live extraction returned. A dry run's second
      block writes the claimed word again, which changes nothing here; a
      failed extraction raises before it. */
  function ClaimRow(st: ExtractState, i: nat, cfg: ExtractConfig, succeeded: bool): (r: FilterStep)
    requires i < |st.rows|
    ensures |r.state.rows| == |st.rows|
    ensures r.asked == Some(Products(Normalise(cfg.sel), Reading(st.rows[i].status, cfg)))
    ensures forall j :: 0 <= j < |st.rows| ==>
              r.state.rows[j] == if st.rows[j].path != st.rows[i].path then st.rows[j]
                                 else st.rows[j].(status := if !cfg.dryRun && succeeded then CommittedWord(st.rows[i].status, RunMask(cfg))
                                                            else ClaimedWord(st.rows[i].status, RunMask(cfg)))
    ensures cfg.dryRun ==> r.state.comp == st.comp
    ensures !cfg.dryRun && succeeded ==> r.state.comp == Forget(st.comp, st.rows[i].path)
    ensures !cfg.dryRun && !succeeded ==>
              r.state.comp == Register(st.comp, st.rows[i].path,
                                CompRecord(ResetStatus(ExtractTable, st.rows[i].path, 0),
                                           GuardFiles(st.rows[i].path, r.asked.value, cfg.bwStrandSpecific)))
  {
    var row := st.rows[i];
    var claimed := ClaimStep(st, i, cfg);
    if !cfg.dryRun && succeeded then
      ForgetUndoesRegister(st.comp, row.path, ExtractRecord(row.path, claimed.asked.value, cfg.bwStrandSpecific));
      FilterStep(CommitStep(claimed.state, row.path, row.status, RunMask(cfg)), claimed.asked)
    else claimed
  }

  /** Two live runs interleaving on one row whose word reads zero, one
      requesting CpG only and one SNPs only. Each commit writes the word
      computed from what it read before its own claim. Once the SNP run has
      committed, the row reads CpG done although the CpG run is still
      extracting; once the CpG run commits, the SNP "done" bit is gone. */
  lemma InterleavedCommitsLoseBits(st: ExtractState, i: nat, cpg: ExtractConfig, snp: ExtractConfig)
    requires i < |st.rows| && st.rows[i].status == 0
    requires RunMask(cpg) == CpgBits && RunMask(snp) == SnpBits && !cpg.ignoreDb && !snp.ignoreDb
    ensures var p := st.rows[i].path;
            var a := ClaimStep(st, i, cpg).state;
            var b := ClaimStep(a, i, snp).state;
            var bDone := CommitStep(b, p, a.rows[i].status, SnpBits);
            var aDone := CommitStep(bDone, p, 0, CpgBits);
            && Claims(a.rows[i].status, SnpBits, false)
            && bDone.rows[i].status == 257
            && !Claims(bDone.rows[i].status, CpgBits, false)
            && aDone.rows[i].status & SnpBits == 0
  {
  }

  /** `do_filter` for one sample. The claim writes the status with every mask
      bit set and commits. A dry run stops there, leaving the word reading "in
      progress". A live run registers a compensation record resetting the word
      to zero, runs the external extraction (`succeeded`) and, when it
      returns, sets the requested "done" bits, clears every "in progress" bit
      and deletes the record. */
  function DoFilter(st: ExtractState, s: string, cfg: ExtractConfig, succeeded: bool): (r: FilterStep)
    ensures r.asked.Some? <==> FirstRowOf(st.rows, s).Some?
                               && Claims(st.rows[FirstRowOf(st.rows, s).value].status, RunMask(cfg), cfg.ignoreDb)
    ensures r.asked.None? ==> r.state == st
    ensures r.asked.Some? ==> r == ClaimRow(st, FirstRowOf(st.rows, s).value, cfg, succeeded)
    ensures |r.state.rows| == |st.rows|
    ensures forall i :: 0 <= i < |st.rows| ==>
              r.state.rows[i].path == st.rows[i].path && r.state.rows[i].sample == st.rows[i].sample
  {
    match FirstRowOf(st.rows, s)
    case None => FilterStep(st, None)
    case Some(i) =>
      if !Claims(st.rows[i].status, RunMask(cfg), cfg.ignoreDb) then FilterStep(st, None)
      else ClaimRow(st, i, cfg, succeeded)
  }

  /** The committed word keeps every "done" bit it had, adds the requested
      ones, clears every "in progress" bit and sets nothing else. */
  lemma CommitWord(prev: Word, mask: Word)
    ensures var w := CommittedWord(prev, mask);
            && w & BusyBits == 0
            && w & DoneMask(mask) == DoneMask(mask)
            && w & (prev & DoneBits) == prev & DoneBits
            && w & !(prev | mask) == 0
  {
  }

  /** A word reads as nothing to claim for `mask`: all requested pairs in
      progress, or all requested pairs done. */
  predicate Quiet(w: Word, mask: Word)
  {
    w & mask == mask || w & mask == DoneMask(mask)
  }

  /** A claimed word is quiet: a concurrent claim with the same request does
      not claim the sample again. */
  lemma ClaimedQuiet(prev: Word, mask: Word)
    ensures Quiet(ClaimedWord(prev, mask), mask) && !Claims(ClaimedWord(prev, mask), mask, false)
  {
    assert ClaimedWord(prev, mask) & mask == mask;
  }

  /** A committed word is quiet: rerunning the same request claims nothing. */
  lemma CommittedQuiet(prev: Word, mask: Word)
    ensures Quiet(CommittedWord(prev, mask), mask) && !Claims(CommittedWord(prev, mask), mask, false)
  {
    assert CommittedWord(prev, mask) & mask == DoneMask(mask) by {
      assert CommittedWord(prev, mask) & mask == (prev & DoneMask(mask)) | DoneMask(mask);
    }
  }

  /** A claim also blocks any later request for a subset of the claimed products. */
  lemma ClaimBlocksNarrowerRequest(prev: Word, mask: Word, mask2: Word)
    requires mask2 & mask == mask2
    ensures !Claims(ClaimedWord(prev, mask), mask2, false)
  {
  }

  /** Ignoring the database claims every sample that has a row: a mask always
      has a "done" bit, so the zero reading matches neither quiet pattern. */
  lemma IgnoreDbAlwaysClaims(st: ExtractState, s: string, cfg: ExtractConfig, succeeded: bool)
    requires cfg.ignoreDb && FirstRowOf(st.rows, s).Some?
    ensures DoFilter(st, s, cfg, succeeded).asked.Some?
  {
    var m := Normalise(cfg.sel);
    assert DoneMask(RunMask(cfg)) != 0 by {
      assert m.cpg ==> RunMask(cfg) & 1 == 1;
      assert m.nonCpg ==> RunMask(cfg) & 4 == 4;
      assert m.bedMethyl ==> RunMask(cfg) & 16 == 16;
      assert m.snps ==> RunMask(cfg) & 256 == 256;
    }
  }

  /** A claimed extraction with bedMethyl requested always recomputes it,
      even when the word already reads it done. */
  lemma BedMethylAlwaysAsked(st: ExtractState, s: string, cfg: ExtractConfig, succeeded: bool)
    requires cfg.sel.bedMethyl
    ensures DoFilter(st, s, cfg, succeeded).asked.Some? ==> DoFilter(st, s, cfg, succeeded).asked.value.bedMethyl
  {
    if DoFilter(st, s, cfg, succeeded).asked.Some? {
      var row := st.rows[FirstRowOf(st.rows, s).value];
      assert Reading(row.status, cfg) & BigWigBits == row.status & (RunMask(cfg) & BigWigBits);
    }
  }

  /** A filter step keeps quiet every row that was quiet, and leaves the first
      row of its sample quiet. */
  lemma {:induction false} DoFilterQuiets(st: ExtractState, s: string, cfg: ExtractConfig, succeeded: bool)
    requires !cfg.ignoreDb
    ensures var r := DoFilter(st, s, cfg, succeeded);
            && (forall i :: 0 <= i < |st.rows| && Quiet(st.rows[i].status, RunMask(cfg)) ==> Quiet(r.state.rows[i].status, RunMask(cfg)))
            && (FirstRowOf(st.rows, s).Some? ==> Quiet(r.state.rows[FirstRowOf(st.rows, s).value].status, RunMask(cfg)))
  {
    var r := DoFilter(st, s, cfg, succeeded);
    var mask := RunMask(cfg);
    if r.asked.Some? {
      var row := st.rows[FirstRowOf(st.rows, s).value];
      ClaimedQuiet(row.status, mask);
      CommittedQuiet(row.status, mask);
    }
  }

  /** The outcome of the serial drain: the store afterwards and how many
      listed samples `do_filter` was called for. */
  datatype Drain = Drain(state: ExtractState, reached: nat)

  /** A claimed extraction whose extractor failed. The exception leaves the
      row claimed with its record registered and ends the run; a dry run
      calls no extractor and cannot fail. */
  predicate Aborts(step: FilterStep, cfg: ExtractConfig, succeeded: bool)
  {
    step.asked.Some? && !cfg.dryRun && !succeeded
  }

  /** The serial drain of the job list: `do_filter` for each listed sample in
      list order, ending after the first extraction that fails;
      `succeeded[k]` is the outcome of the k-th extraction. */
  function ExtractAll(st: ExtractState, jobs: seq<(string, Path)>, cfg: ExtractConfig, succeeded: seq<bool>): (r: Drain)
    requires |succeeded| == |jobs|
    ensures r.reached <= |jobs|
    ensures r.reached < |jobs| ==> 0 < r.reached && !cfg.dryRun && !succeeded[r.reached - 1]
    ensures (cfg.dryRun || forall k :: 0 <= k < |jobs| ==> succeeded[k]) ==> r.reached == |jobs|
    ensures |r.state.rows| == |st.rows|
    ensures forall i :: 0 <= i < |st.rows| ==> r.state.rows[i].path == st.rows[i].path && r.state.rows[i].sample == st.rows[i].sample
    decreases |jobs|
  {
    if |jobs| == 0 then Drain(st, 0)
    else
      var step := DoFilter(st, jobs[0].0, cfg, succeeded[0]);
      if Aborts(step, cfg, succeeded[0]) then Drain(step.state, 1)
      else
        var rest := ExtractAll(step.state, jobs[1..], cfg, succeeded[1..]);
        assert forall k :: 0 <= k < |jobs| - 1 ==> succeeded[1..][k] == succeeded[k + 1];
        Drain(rest.state, rest.reached + 1)
  }

  /** FirstRowOf depends on the sample column only. */
  lemma FirstRowSameSamples(a: seq<ExtractRow>, b: seq<ExtractRow>, s: string)
    requires |a| == |b| && forall i :: 0 <= i < |a| ==> a[i].sample == b[i].sample
    ensures FirstRowOf(a, s) == FirstRowOf(b, s)
    decreases |a|
  {
    if |a| > 0 {
      FirstRowSameSamples(a[1..], b[1..], s);
    }
  }

  /** After a drain that does not ignore the database, whatever the outcomes,
      a second drain with the same request claims none of the samples the
      first one reached: each reads either in progress or done. */
  lemma {:induction false} SecondPassClaimsNothing(st: ExtractState, jobs: seq<(string, Path)>, cfg: ExtractConfig,
                                                   succeeded: seq<bool>, s: string, again: bool)
    requires !cfg.ignoreDb && |succeeded| == |jobs|
    requires exists k :: 0 <= k < ExtractAll(st, jobs, cfg, succeeded).reached && jobs[k].0 == s
    ensures DoFilter(ExtractAll(st, jobs, cfg, succeeded).state, s, cfg, again).asked.None?
    decreases |jobs|
  {
    var end := ExtractAll(st, jobs, cfg, succeeded).state;
    QuietAfterDrain(st, jobs, cfg, succeeded, s);
    FirstRowSameSamples(st.rows, end.rows, s);
  }

  lemma {:induction false} QuietAfterDrain(st: ExtractState, jobs: seq<(string, Path)>, cfg: ExtractConfig,
                                           succeeded: seq<bool>, s: string)
    requires !cfg.ignoreDb && |succeeded| == |jobs|
    requires exists k :: 0 <= k < ExtractAll(st, jobs, cfg, succeeded).reached && jobs[k].0 == s
    ensures var end := ExtractAll(st, jobs, cfg, succeeded).state;
            FirstRowOf(st.rows, s).Some? ==> Quiet(end.rows[FirstRowOf(st.rows, s).value].status, RunMask(cfg))
    decreases |jobs|
  {
    var step := DoFilter(st, jobs[0].0, cfg, succeeded[0]);
    var next := step.state;
    FirstRowSameSamples(st.rows, next.rows, s);
    if jobs[0].0 == s {
      DoFilterQuiets(st, s, cfg, succeeded[0]);
      if !Aborts(step, cfg, succeeded[0]) {
        StaysQuiet(next, jobs[1..], cfg, succeeded[1..], FirstRowOf(st.rows, s));
      }
    } else {
      var k :| 0 <= k < ExtractAll(st, jobs, cfg, succeeded).reached && jobs[k].0 == s;
      assert jobs[1..][k - 1].0 == s;
      QuietAfterDrain(next, jobs[1..], cfg, succeeded[1..], s);
    }
  }

  /** A quiet row stays quiet through the rest of a drain. */
  lemma {:induction false} StaysQuiet(st: ExtractState, jobs: seq<(string, Path)>, cfg: ExtractConfig,
                                      succeeded: seq<bool>, i: Option<nat>)
    requires !cfg.ignoreDb && |succeeded| == |jobs|
    requires i.Some? ==> i.value < |st.rows| && Quiet(st.rows[i.value].status, RunMask(cfg))
    ensures i.Some? ==> Quiet(ExtractAll(st, jobs, cfg, succeeded).state.rows[i.value].status, RunMask(cfg))
    decreases |jobs|
  {
    if |jobs| > 0 {
      var step := DoFilter(st, jobs[0].0, cfg, succeeded[0]);
      DoFilterQuiets(st, jobs[0].0, cfg, succeeded[0]);
      if !Aborts(step, cfg, succeeded[0]) {
        StaysQuiet(step.state, jobs[1..], cfg, succeeded[1..], i);
      }
    }
  }

  /** A failed extraction ends the drain: a later listed sample with a row of
      its own that was claimable before is still claimable by a rerun. */
  lemma FailureLeavesRestClaimable(st: ExtractState, jobs: seq<(string, Path)>, cfg: ExtractConfig,
                                   succeeded: seq<bool>, again: bool)
    requires !cfg.ignoreDb && !cfg.dryRun && |succeeded| == |jobs| >= 2 && !succeeded[0]
    requires FirstRowOf(st.rows, jobs[0].0).Some? && FirstRowOf(st.rows, jobs[1].0).Some?
    requires st.rows[FirstRowOf(st.rows, jobs[0].0).value].path != st.rows[FirstRowOf(st.rows, jobs[1].0).value].path
    requires Claims(st.rows[FirstRowOf(st.rows, jobs[0].0).value].status, RunMask(cfg), false)
    requires Claims(st.rows[FirstRowOf(st.rows, jobs[1].0).value].status, RunMask(cfg), false)
    ensures ExtractAll(st, jobs, cfg, succeeded).reached == 1
    ensures DoFilter(ExtractAll(st, jobs, cfg, succeeded).state, jobs[1].0, cfg, again).asked.Some?
  {
    var end := ExtractAll(st, jobs, cfg, succeeded).state;
    FirstRowSameSamples(st.rows, end.rows, jobs[1].0);
  }

  /** A `calling` row that `bcf_list` takes: a merged BCF of a selected
      sample that is done, or any such BCF when the database or the
      dependencies are ignored. */
  predicate Listed(x: CallRow, sampleFilter: Option<string>, ignoreDb: bool, ignoreDep: bool)
  {
    && x.kind == MrgBcf
    && (sampleFilter.None? || sampleFilter.value == x.sample)
    && (x.status == Done || ignoreDb || ignoreDep)
  }

  /** `bcf_list`: one (sample, path) entry per listed row, in query order. */
  function BcfList(rows: seq<CallRow>, sampleFilter: Option<string>, ignoreDb: bool, ignoreDep: bool): (r: seq<(string, Path)>)
    ensures forall j :: j in r <==> exists x :: x in rows && Listed(x, sampleFilter, ignoreDb, ignoreDep) && j == (x.sample, x.path)
    ensures |r| <= |rows|
  {
    if |rows| == 0 then []
    else
      var x := rows[0];
      var rest := BcfList(rows[1..], sampleFilter, ignoreDb, ignoreDep);
      assert forall y :: y in rows <==> y == x || y in rows[1..];
      if Listed(x, sampleFilter, ignoreDb, ignoreDep) then [(x.sample, x.path)] + rest else rest
  }

  /** The list is built row by row in cursor order: a single row contributes
      its own entry or nothing, and the list of a concatenation is the
      concatenation of the lists. Together these fix both the order and the
      one-entry-per-row multiplicity the serial drain walks through. */
  lemma {:induction false} BcfListAppend(a: seq<CallRow>, b: seq<CallRow>, sampleFilter: Option<string>, ignoreDb: bool, ignoreDep: bool)
    ensures BcfList(a + b, sampleFilter, ignoreDb, ignoreDep) == BcfList(a, sampleFilter, ignoreDb, ignoreDep) + BcfList(b, sampleFilter, ignoreDb, ignoreDep)
    decreases |a|
  {
    if |a| > 0 {
      assert (a + b)[1..] == a[1..] + b;
      BcfListAppend(a[1..], b, sampleFilter, ignoreDb, ignoreDep);
    } else {
      assert a + b == b;
    }
  }

  /** A single row contributes its own entry exactly when it is listed. */
  lemma BcfListOne(x: CallRow, sampleFilter: Option<string>, ignoreDb: bool, ignoreDep: bool)
    ensures BcfList([x], sampleFilter, ignoreDb, ignoreDep) == if Listed(x, sampleFilter, ignoreDb, ignoreDep) then [(x.sample, x.path)] else []
  {
  }
}
