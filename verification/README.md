# gemBS scheduling, BPM binning and the decode stage, in Dafny

This project models three pieces of the gemBS bisulphite pipeline and of the
GEM3 mapper it drives, and proves properties of the models.

1. **The gemBS task store** (`gemBS/production.py`). Every output file of the
   pipeline is a row of an SQLite table, with a small-integer status:
   0 pending, 3 claimed, 1 done, 2 retired after a merge. Each stage does the
   following, and every block run under the exclusive database lock is
   modelled as one pure function from store to store:
   - reads its table;
   - claims a row under an exclusive lock and registers a compensation record
     (an undo statement plus the files to delete if the work is interrupted);
   - runs an external tool;
   - commits the row and deletes the record.

   A whole stage run is the composition of its blocks for a run that no other
   process interleaves with. For the extraction stage the claim and the commit
   are also given as separate steps, because the commit writes a word computed
   from the status read at claim time and can undo what another run wrote in
   between (`ExtractStage.InterleavedCommitsLoseBits`).

   Modelled here:
   - `Index.run` step gating (`IndexStage`);
   - `Mapping.do_mapping`, `Mapping.do_merge`, the `Mapping.run` work list,
     the `Merging.run` classification and the `-T`/`-p` data-type
     normalisation (`MappingStage`);
   - the sample, pool and BCF selection of `MethylationCall.run`
     (`CallingStage`);
   - the per-sample status word of `MethylationFiltering`: two bits per
     product, the low one "done" and the high one "in progress" (`ExtractStage`).

   The status codes and the compensation table live in `Store`. Tables are
   sequences of rows in query order, because `fetchone` and "the last row
   wins" depend on that order.
2. **GPU BPM candidate binning, host side**
   (`tools/gem3-mapper/resources/gem-cutter/src/gpu_bpm_primitives_filter.c`),
   modelled in `BpmBinning`:
   - candidates are counted into buckets by query size;
   - each bucket gets whole warps of slots;
   - candidates are written into their bucket's slots in candidate order;
   - free slots are padded by replicating the slot before;
   - the device's per-slot results are scattered back to candidate order.

   The warp size, bucket count and per-thread pattern length are parameters.
3. **The decode search stage** (`tools/gem3-mapper/src/search_pipeline/search_stage_decode.c`),
   modelled in `DecodeStage`. It is a two-mode iterator over a fixed vector of
   buffers: searches are packed into buffers in order while sending, and
   drained in the same order while retrieving. The per-buffer fit test is a
   function parameter.

The main results:
- claims are exclusive, given that dataset ids are unique;
- a commit after a claim leaves the compensation table as it was, when the output had no record before;
- a merge is claimed exactly when every lane BAM is done and the merged BAM
  is pending;
- the `Mapping.run` driver maps exactly the pending datasets the filters
  admit;
- an extraction pass stops at the first failed extraction, and, when the
  database is not ignored, a second pass claims none of the samples the first
  one reached;
- the binning layout places every binned candidate exactly once, and the
  scatter gives each its own result back;
- the decode stage sends each buffer exactly once, and it is first-in
  first-out when the fit test accepts any search group into an empty buffer
  (`DecodeStage.FifoNeedsFitsEmpty` shows an order lost without that).

## Model

| member | source | states |
|---|---|---|
| `Store.Code` | gemBS/production.py:437-441 | The status written to the table is 0 exactly for Pending, and every code lies in 0..3. |
| `Store.FromCode` | gemBS/production.py:398-405 | A stored integer reads as a status exactly when it is one of 0..3, and encodes back to itself. |
| `Store.CodeRoundTrip` | gemBS/production.py:437-441 | Decoding the code of a status gives the status back. |
| `Store.Register` | gemBS/production.py:443-447 | Registering a record for an output installs it under that key and keeps every other key's record. |
| `Store.Forget` | gemBS/production.py:626 | Deleting an output's record removes that key only. |
| `Store.ForgetUndoesRegister` | gemBS/production.py:443-447 | Register followed by delete of the same key leaves the registry as if that key had never had a record. |
| `Seqs.AppendNew` | gemBS/production.py:1104-1107 | The `if x not in l: l.append(x)` idiom yields a duplicate-free list holding exactly the old and new elements, with the old list as a prefix and every element placed in the order of its first occurrence in the old list followed by the input. |
| `Seqs.Distinct` | gemBS/production.py:401-402 | The keys a dict collects from a list are duplicate-free, are exactly its elements, and come in the order of their first occurrence in the list. |
| `IndexStage.Lookup` | gemBS/production.py:155-157 | `db_data[kind]` is the last indexing row of that kind, and is absent only when no row has that kind. |
| `IndexStage.LookupOr` | gemBS/production.py:163 | `db_data.get(kind, (None, 0))` is the looked-up entry, or no file with status 0. |
| `IndexStage.AllStepsInStageOrder` | gemBS/production.py:178-237 | The build steps run in one fixed order: reference, index, contig-size removal, non-bisulphite index, md5, dbSNP, contig sizes. |
| `IndexStage.Pick` | gemBS/production.py:178-237 | Picking the steps whose gate is open keeps every open step, adds nothing, and keeps stage order. |
| `IndexStage.PickAllSteps` | gemBS/production.py:178-237 | Each step runs exactly when its own gate is open, in stage order. |
| `IndexStage.FirstMissing` | gemBS/production.py:159-166 | The first required entry missing from the table is found, or every required entry is present. |
| `IndexStage.Gates` | gemBS/production.py:169-237 | Each step's gate as the stage evaluates it. Rebuilding the index removes the contig sizes when their file exists, forcing them to be rebuilt. Populating the cache forces the md5 file to be regenerated unless a fresh reference just produced it. A dbSNP configuration error closes the dbSNP and contig-sizes gates. |
| `IndexStage.Gate` | gemBS/production.py:175-237 | An empty or absent reference is an error before any step runs. A dbSNP index named without input files, or files given without an index name, is an error raised after the md5 step. Each step runs exactly under the conditions of its branch. |
| `IndexStage.RunIndex` | gemBS/production.py:156-237 | A missing required table entry is a lookup error before any step runs; otherwise the gating above applies. |
| `IndexStage.CompleteIndexIsNoOp` | gemBS/production.py:156-237 | On a table whose every entry is complete, a rerun builds nothing, except that populating the cache regenerates exactly the contig md5 file. |
| `MappingStage.SetStatus` | gemBS/production.py:440 | `UPDATE ... WHERE filepath = p` changes the status of the rows of that path and nothing else. |
| `MappingStage.FirstClaimable` | gemBS/production.py:431-436 | `fetchone` returns the first row of the dataset that is pending (any row when the database is ignored), or none when no row qualifies. |
| `MappingStage.ClaimDataset` | gemBS/production.py:431-447 | The claim succeeds only on a pending row of the dataset (any row when ignoring the database), sets it to 3 and registers a record that resets it to 0 with guard files `[bam, <fli>.json, <sample>.bai]`. With no such row nothing changes. |
| `MappingStage.CommitDataset` | gemBS/production.py:623-626 | The commit sets the BAM to done, deletes its record and touches nothing else. |
| `MappingStage.DoMapping` | gemBS/production.py:426-629 | `do_mapping` changes only statuses, never adds, drops or renames a row, and changes nothing when no row of the dataset is claimable. Its outcome on a claimed dataset is stated by `MappingStage.DoMappingOutcome`. |
| `MappingStage.AtMostOneClaim` | gemBS/production.py:431-441 | With unique dataset ids, once a dataset is claimed a second claim of it finds no pending row and changes nothing. |
| `MappingStage.DoMappingOutcome` | gemBS/production.py:426-629 | A successful mapping leaves the BAM done and, when it had no record before, the compensation table as before the claim. A failed one leaves the BAM claimed with its record registered. Other rows are untouched. |
| `MappingStage.MergeWithoutInputs` | gemBS/production.py:694-726 | `do_merge` with no inputs, as `do_mapping` calls it for a single-dataset BAM, leaves the store unchanged. |
| `MappingStage.LastMergeRow` | gemBS/production.py:642-644 | The merged-BAM row the scan remembers is the last one of the sample. |
| `MappingStage.ScanSampleMeaning` | gemBS/production.py:637-645 | The scan breaks exactly when some lane BAM of the sample is not done; otherwise it ends on the sample's last merged-BAM row. |
| `MappingStage.MergeTargetIff` | gemBS/production.py:637-647 | The merged BAM is claimed exactly when every lane BAM of the sample has status 1 and its last merged-BAM row is pending. |
| `MappingStage.RetiredLaneBlocksMerge` | gemBS/production.py:641 | As written, a lane BAM already retired (status 2) blocks the merge. |
| `MappingStage.ClaimMerge` | gemBS/production.py:646-653 | Claiming a merge sets the merged BAM to 3 and registers its record with guard files `[bam, <sample>.csi, bam.md5]`. When there is nothing to claim nothing changes. |
| `MappingStage.RetireAll` | gemBS/production.py:685-689 | Every input path goes to status 2; other rows are untouched. |
| `MappingStage.CompleteMerge` | gemBS/production.py:684-691 | Completion sets the merged BAM to done and deletes its record. With `remove` the inputs go to 2; without it they are untouched. |
| `MappingStage.DoMerge` | gemBS/production.py:631-693 | `do_merge` changes only statuses and changes nothing when the sample has no merged BAM to claim. Its outcome is stated by `MappingStage.MergeWithoutInputs` and `MappingStage.MergeCompletion`. |
| `MappingStage.MergeCompletion` | gemBS/production.py:631-693 | A completed merge leaves the merged BAM done, the inputs retired exactly when `remove` is set, other rows untouched, and no record for it. When it had none before, the compensation table is as before the claim. |
| `MappingStage.LeavesOf` | gemBS/production.py:406-407 | A sample's work list holds exactly its rows that are not merged BAMs. |
| `MappingStage.PendingMergeOf` | gemBS/production.py:399-405 | The merge target is the last merged-BAM row of the sample whose status reads 0 (always when ignoring the database): no later such row follows it. There is none when no such row exists. |
| `MappingStage.DatasetsToMap` | gemBS/production.py:411-416 | The datasets mapped for a sample are exactly its pending leaves that the `-D` filter admits. |
| `MappingStage.BamList` | gemBS/production.py:417-418 | The merge inputs are exactly the leaf outputs that are not single-dataset BAMs, whatever their status. |
| `MappingStage.MapActions` | gemBS/production.py:416 | Exactly one mapping action per listed dataset, position by position in list order, and nothing else. |
| `MappingStage.SamplesOf` | gemBS/production.py:393-402 | The driver visits exactly the samples of the selected rows. |
| `MappingStage.InPlanSamples` | gemBS/production.py:408-420 | An action is in the run exactly when it is in the plan of one of the visited samples. |
| `MappingStage.MapsExactlyPending` | gemBS/production.py:398-416 | A dataset is mapped exactly when a selected, effectively pending leaf row carries it and the dataset filter admits it. |
| `MappingStage.MappingRun` | gemBS/production.py:398-420 | The action list of `Mapping.run`; no contract of its own. What it maps is stated by `MappingStage.MapsExactlyPending` and `MappingStage.InPlanSamples`, and what it merges by `MappingStage.MergePlannedIff`. |
| `MappingStage.SamplePlanMaps` | gemBS/production.py:411-416 | A sample's plan maps exactly its pending leaves that the filter admits. |
| `MappingStage.IgnoreDbMapsEveryDataset` | gemBS/production.py:399-400 | When the database is ignored and there is no dataset filter, every leaf of a selected sample is mapped. |
| `MappingStage.MergePlannedIff` | gemBS/production.py:408-420 | A merge of a sample is attempted exactly when all of the following hold: the sample is selected; no pending leaf was skipped by the filter; its merged BAM is pending; `--no-merge` is off. The inputs are then its non-single BAMs and the target is that merged BAM. |
| `MappingStage.MergeInSamplePlan` | gemBS/production.py:419-420 | A sample's plan holds a merge only of that sample, exactly under the merge condition. |
| `MappingStage.SingleBamNeverMerged` | gemBS/production.py:417-418 | A single-dataset BAM is never a merge input. |
| `MappingStage.DoneLanes` | gemBS/production.py:839-843 | The merge-only driver's inputs are exactly the done lane BAMs of the sample. |
| `MappingStage.ClassifySample` | gemBS/production.py:830-858 | A sample is reported "not all generated" exactly when some lane or single BAM is unfinished and nothing is past pending. It is "nothing to do" when there is no pending merged BAM. Otherwise its done lanes are merged into the pending merged BAM. |
| `MappingStage.MergingRunNoOp` | gemBS/production.py:850-858 | A sample not classified for merging leaves the store unchanged. |
| `MappingStage.MergingRunSample` | gemBS/production.py:826-858 | `Merging.run` for one sample changes only statuses. `MappingStage.MergingRunNoOp` states that it changes nothing unless the sample is classified for merging. |
| `MappingStage.Upper` | gemBS/production.py:308 | ASCII upper-casing: the result has the input's length, no lower-case ASCII letter is left, each one becomes its capital, and every other character is kept. |
| `MappingStage.NormaliseType` | gemBS/production.py:307-317 | An absent or empty type passes through unchanged. An accepted type is one of the known types and never the bare STREAM. A paired type forces paired-end mode. STREAM resolves by the `-p` flag. A non-paired type with `-p`, or an unknown type, is an error. |
| `MappingStage.NormaliseTypeIdempotent` | gemBS/production.py:307-317 | Every accepted type is canonical: normalising an accepted result again accepts it unchanged. |
| `CallingStage.LastBam` | gemBS/production.py:1080-1090 | The last merged or single-dataset BAM row of a sample that is done (or any, when the database or dependencies are ignored), with no later usable row of that sample; none when there is no usable row. |
| `CallingStage.SampleBams` | gemBS/production.py:1078-1090 | A sample has an input exactly when it has a usable BAM row, and a later row overwrites an earlier one: its input is its last usable BAM. |
| `CallingStage.SampleBamsMembership` | gemBS/production.py:1078-1090 | The samples with calling inputs are exactly those with some usable BAM row. |
| `CallingStage.PoolOf` | gemBS/production.py:1100-1103 | A contig's pool is the last pool listing it, or none. |
| `CallingStage.PoolsOf` | gemBS/production.py:1104-1105 | Every requested contig maps to its pool, position by position. Otherwise the lookup error names the first requested contig that no pool lists, and every contig before it has a pool. |
| `CallingStage.PoolsOfMembership` | gemBS/production.py:1104-1107 | The pools looked up are exactly the pools of the requested contigs. |
| `CallingStage.PoolNames` | gemBS/production.py:1110 | Without a contig list, the run covers every pool in order. |
| `CallingStage.ListedPools` | gemBS/production.py:1098-1110 | Before `--pool` narrows it, the list is every pool when no contig is requested. Otherwise it holds the pools of the requested contigs without repeats, in first-request order. An unknown contig is an error. |
| `CallingStage.SelectPools` | gemBS/production.py:1098-1116 | The pool list is the pools of the requested contigs without repeats, or all pools when no contig is requested. The requested pools come in the order in which their contigs were first requested. An unknown contig is an error. `--pool` narrows the list to that pool, or to nothing. |
| `CallingStage.RequestedPoolKeptIff` | gemBS/production.py:1112-1116 | The requested pool is kept exactly when it was in the list; an unknown contig is the same error with or without `--pool`. |
| `CallingStage.MergedBcf` | gemBS/production.py:1123-1131 | A sample's merged BCF is its last row that is not a per-pool BCF, or none. |
| `CallingStage.PendingPoolBcfs` | gemBS/production.py:1123-1143 | The BCFs to produce for a sample are exactly its per-pool rows whose pool is listed and whose status reads 0. |
| `CallingStage.PendingPoolBcfsAppend` | gemBS/production.py:1123-1129 | The BCFs are collected row by row: the selection over two runs of rows is the selection over the first followed by the selection over the second, so they come in query order. |
| `CallingStage.PendingPoolBcfsNonEmpty` | gemBS/production.py:1137-1146 | A sample has something to call exactly when it has such a pending per-pool row. |
| `CallingStage.PendingCalls` | gemBS/production.py:1133-1146 | When every sample has a merged-BCF row, a sample is scheduled exactly when its merged BCF is pending and some listed per-pool BCF is pending. Each scheduled sample gets its non-empty list of those BCFs. |
| `CallingStage.SelectCalls` | gemBS/production.py:1133-1146 | A sample with an input BAM but no merged-BCF row is a lookup error. Otherwise a sample is scheduled exactly when its merged BCF and at least one listed per-pool BCF read 0. A scheduled sample gets every such BCF and no other, in query order. |
| `CallingStage.CallRun` | gemBS/production.py:1078-1168 | After the index checks, which are not modelled, the errors come in source order: no usable BAM first, then an unknown contig, then a sample without a merged BCF. A successful plan carries every sample with a usable BAM, mapped to its last usable BAM (the source's `samples`), and the selected pool list. The caller's inputs are the BAMs of exactly the scheduled samples, and each scheduled sample has at least one BCF to produce. |
| `CallingStage.PlanCalls` | gemBS/production.py:1133-1168 | The plan fails exactly when a sample lacks a merged BCF. Otherwise it carries the given samples and pools and the calls selected for them. Its inputs are the given BAMs of exactly the scheduled samples (`sampleBam`, 1133-1148), each scheduled sample having a BCF to produce, and the caller runs exactly when some sample's merged BCF is pending. |
| `CallingStage.DoneMergedBcfNotCalled` | gemBS/production.py:1136 | A sample whose merged BCF is done is never scheduled. |
| `ExtractStage.Normalise` | gemBS/production.py:1415-1416 | With no product requested, CpG extraction is requested; otherwise the request is kept. |
| `ExtractStage.Mask` | gemBS/production.py:1418-1423 | The mask holds both bits of the pair of exactly the requested products (3, 12, 48, 768) and never the bigWig pair 192. |
| `ExtractStage.DoneMask` | gemBS/production.py:1424 | `mask1` holds only done bits of the mask. |
| `ExtractStage.Products` | gemBS/production.py:1519-1539 | A product is extracted when requested and its pair did not read set. For bedMethyl the pair read is 192, as written. |
| `ExtractStage.CpgMarker` | gemBS/production.py:1520-1522 | The CpG text file belongs to the CpG files only. |
| `ExtractStage.SnpMarker` | gemBS/production.py:1537-1539 | The SNP text file belongs to the SNP files only. |
| `ExtractStage.ChhMarker` | gemBS/production.py:1526-1533 | The CHH bigBed file belongs to the bedMethyl files only. |
| `ExtractStage.SuffixesMembership` | gemBS/production.py:1518-1539 | The file list starts with the contig list and holds each product's marker file exactly when that product is extracted. |
| `ExtractStage.Prefixed` | gemBS/production.py:1518-1539 | Each file is the file base followed by one of the suffixes, in order. |
| `ExtractStage.PrefixedHas` | gemBS/production.py:1518-1539 | A prefixed file is listed exactly when its suffix is. |
| `ExtractStage.GuardFiles` | gemBS/production.py:1518-1539 | The guarded files start with the contig list. They contain each product's outputs exactly when it is asked for, and nothing outside the product suffixes. |
| `ExtractStage.FirstRowOf` | gemBS/production.py:1506-1508 | `fetchone` returns the sample's first row, or none when it has no row. |
| `ExtractStage.SetWord` | gemBS/production.py:1516 | The status update changes the rows of one path only. |
| `ExtractStage.ClaimStep` | gemBS/production.py:1509-1583 | The claim block sets every mask bit in the word on the rows of the sample's path and nothing else, works out the products to extract from the word it read, and, unless it is a dry run, registers a record that resets the word to 0 and guards the requested files. |
| `ExtractStage.ExtractRecord` | gemBS/production.py:1518-1583 | The record of a live extraction claim guards the contig list first and each product's marker file exactly when that product is asked for. |
| `ExtractStage.CommitStep` | gemBS/production.py:1594-1597 | The commit block writes the word computed from the status read at claim time on the rows of that path, whatever they hold now, and deletes the record. |
| `ExtractStage.InterleavedCommitsLoseBits` | gemBS/production.py:1509-1597 | Two runs for different products on the same pending sample both claim it. The SNP run's commit, computed from the word it read after the CpG claim, leaves 257: SNPs done and CpG done although the CpG run has not finished, so a new CpG request claims nothing. The CpG run's commit then erases the SNP done bit. |
| `ExtractStage.ClaimRow` | gemBS/production.py:1509-1597 | For a run that no other run interleaves with: the claim sets every mask bit in the word. A dry run stops there and leaves the compensation table alone. A failed live run leaves the word claimed, with a record that resets it to 0 and guards the requested files. A finished live run writes the old word with the requested done bits added, masked to the done bits (341), and deletes the record. |
| `ExtractStage.DoFilter` | gemBS/production.py:1497-1600 | A sample is claimed exactly when it has a row whose masked word (0 when ignoring the database) is neither `mask` nor `mask1`; otherwise nothing changes. Paths and samples are never changed. |
| `ExtractStage.CommitWord` | gemBS/production.py:1594 | The committed word clears every in-progress bit, adds the requested done bits, keeps the done bits it had and sets no other bit. |
| `ExtractStage.ClaimedQuiet` | gemBS/production.py:1514-1516 | After a claim, a concurrent identical request does not claim the sample again. |
| `ExtractStage.CommittedQuiet` | gemBS/production.py:1594-1597 | After a commit, rerunning the same request claims nothing. |
| `ExtractStage.ClaimBlocksNarrowerRequest` | gemBS/production.py:1514-1515 | A claim also blocks any request for a subset of the claimed products. |
| `ExtractStage.IgnoreDbAlwaysClaims` | gemBS/production.py:1512-1514 | Ignoring the database claims every sample that has a row. |
| `ExtractStage.BedMethylAlwaysAsked` | gemBS/production.py:1526 | As written, a claimed run with bedMethyl requested always recomputes bedMethyl, even when it reads done. |
| `ExtractStage.DoFilterQuiets` | gemBS/production.py:1497-1600 | When the database is not ignored, a filter step keeps every quiet row quiet and leaves its sample's row quiet, whatever the outcome. |
| `ExtractStage.ExtractAll` | gemBS/production.py:1489-1491 | The serial drain calls `do_filter` for each listed sample in order and ends after the first extraction that fails, since the extractor's exception leaves the loop. It reaches every listed sample when nothing fails or in a dry run, and it keeps the rows' paths and samples. |
| `ExtractStage.SecondPassClaimsNothing` | gemBS/production.py:1489-1491 | After a drain that does not ignore the database, whatever the outcomes, a second pass claims none of the samples the drain reached. |
| `ExtractStage.QuietAfterDrain` | gemBS/production.py:1489-1491 | After a drain, every sample the drain reached reads in progress or done. |
| `ExtractStage.FailureLeavesRestClaimable` | gemBS/production.py:1489-1491 | When the first extraction fails, the drain ends there, and a later listed sample with a claimable row of its own is still claimable by a rerun. |
| `ExtractStage.StaysQuiet` | gemBS/production.py:1489-1491 | A quiet row stays quiet through any further drain, including one that ends at a failure. |
| `ExtractStage.BcfList` | gemBS/production.py:1463-1470 | The extraction list holds exactly the merged BCFs of selected samples that are done, or all of them when the database or dependencies are ignored. Its order and multiplicity are stated by `ExtractStage.BcfListAppend` and `ExtractStage.BcfListOne`. |
| `ExtractStage.BcfListAppend` | gemBS/production.py:1468-1470 | The list is built row by row in cursor order: the list of a concatenation of rows is the concatenation of their lists. |
| `ExtractStage.BcfListOne` | gemBS/production.py:1468-1470 | One row contributes its own (sample, path) entry exactly when it is listed, and nothing otherwise; with `BcfListAppend` this gives one entry per listed row, in query order. |
| `DecodeStage.Clear` | tools/gem3-mapper/src/search_pipeline/search_stage_decode.c:80-92 | Clear puts the stage in sending mode on buffer 0 with every buffer empty. |
| `DecodeStage.New` | tools/gem3-mapper/src/search_pipeline/search_stage_decode.c:54-79 | A new stage has the requested number of empty buffers and is cleared. |
| `DecodeStage.Seek` | tools/gem3-mapper/src/search_pipeline/search_stage_decode.c:131-144 | The occupancy loop passes only buffers the group does not fit, sending each one it leaves. It stops on a fitting buffer or the last one. |
| `DecodeStage.Send` | tools/gem3-mapper/src/search_pipeline/search_stage_decode.c:131-146 | A group is accepted exactly when some buffer from the current one on fits it. It is then appended to the first such buffer; otherwise nothing is added and the iterator stays on the last buffer. |
| `DecodeStage.SendAll` | tools/gem3-mapper/src/search_pipeline/search_stage_decode.c:127-155 | Sending a sequence of groups keeps the stage invariant, stays in sending mode and keeps the number of buffers. `DecodeStage.SendAllKeepsLog` and `DecodeStage.FifoRoundTrip` state what it sends and in what order. |
| `DecodeStage.SendSe` | tools/gem3-mapper/src/search_pipeline/search_stage_decode.c:127-155 | A single search is appended to the first fitting buffer, or refused when none fits. |
| `DecodeStage.SendPe` | tools/gem3-mapper/src/search_pipeline/search_stage_decode.c:156-191 | Both ends go to the same buffer, end 1 then end 2, or neither does. |
| `DecodeStage.RetrieveBegin` | tools/gem3-mapper/src/search_pipeline/search_stage_decode.c:195-212 | The switch to retrieving sends the current buffer, fetches buffer 0 and resets the iterator to its first search. |
| `DecodeStage.FinishedIffPastLast` | tools/gem3-mapper/src/search_pipeline/search_stage_decode.c:213-221 | Retrieval is finished while sending, and while retrieving exactly when the iterator is past the last buffer. A stop at an empty middle buffer does not finish it. |
| `DecodeStage.RetrieveNext` | tools/gem3-mapper/src/search_pipeline/search_stage_decode.c:222-250 | Retrieval reads beyond the buffers exactly when called past the last one. A search comes from the current buffer's next position or from a later buffer. |
| `DecodeStage.RetrievedFromBuffer` | tools/gem3-mapper/src/search_pipeline/search_stage_decode.c:245-249 | The retrieved search is the one at the position the iterator just passed. |
| `DecodeStage.RetrieveSe` | tools/gem3-mapper/src/search_pipeline/search_stage_decode.c:254-269 | A retrieved search is one a buffer holds. |
| `DecodeStage.RetrievePe` | tools/gem3-mapper/src/search_pipeline/search_stage_decode.c:270-301 | A pair needs two successful retrievals. No first end ends the iteration; no second end is the unpaired-query error. |
| `DecodeStage.FirstEmpty` | tools/gem3-mapper/src/search_pipeline/search_stage_decode.c:233-241 | The buffer at which retrieval stops is the first empty one, or the end. |
| `DecodeStage.DrainOrder` | tools/gem3-mapper/src/search_pipeline/search_stage_decode.c:222-250 | From any position, retrieval yields the rest of the buffer, then whole buffers, up to the first empty one. |
| `DecodeStage.Drain` | tools/gem3-mapper/src/search_pipeline/search_stage_decode.c:222-250 | Calling `retrieve_next` until it fails; no contract of its own. Its result is stated by `DecodeStage.DrainOrder` and `DecodeStage.DrainPacked`. |
| `DecodeStage.DrainNextBuffer` | tools/gem3-mapper/src/search_pipeline/search_stage_decode.c:233-244 | At the end of a buffer, retrieval continues with the following buffers up to the first empty one. |
| `DecodeStage.DrainEnterBuffer` | tools/gem3-mapper/src/search_pipeline/search_stage_decode.c:236-249 | Entering a non-empty buffer yields its first search, then the rest of the drain. |
| `DecodeStage.DrainPacked` | tools/gem3-mapper/src/search_pipeline/search_stage_decode.c:195-250 | A stage filled in order drains into the concatenation of its buffers. |
| `DecodeStage.SendAppends` | tools/gem3-mapper/src/search_pipeline/search_stage_decode.c:131-146 | Sending keeps the buffers filled in order and appends the accepted group to their concatenation. |
| `DecodeStage.FifoRoundTrip` | tools/gem3-mapper/src/search_pipeline/search_stage_decode.c:127-250 | Retrieval yields what the buffers held, followed by exactly the accepted searches in sending order. |
| `DecodeStage.FifoFromClear` | tools/gem3-mapper/src/search_pipeline/search_stage_decode.c:80-250 | After a clear, retrieval yields exactly the accepted searches, in sending order. |
| `DecodeStage.FifoNeedsFitsEmpty` | tools/gem3-mapper/src/search_pipeline/search_stage_decode.c:131-146 | The first-in first-out results need a fit test that accepts any group in an empty buffer. With three buffers of two searches each, a group of three fits nowhere and leaves the middle buffer empty. The search then accepted into the last buffer is never retrieved, because retrieval stops at the empty buffer (line 241). |
| `DecodeStage.SentExactlyOnce` | tools/gem3-mapper/src/search_pipeline/search_stage_decode.c:131-211 | Each buffer from 0 to the one being filled is sent exactly once, in order, before buffer 0's results are fetched. |
| `DecodeStage.SendAllKeepsLog` | tools/gem3-mapper/src/search_pipeline/search_stage_decode.c:131-144 | While sending, the buffers before the current one have each been sent once, in order. |
| `DecodeStage.SendPeAligned` | tools/gem3-mapper/src/search_pipeline/search_stage_decode.c:176-177 | Paired sends keep every buffer holding whole pairs. |
| `DecodeStage.PairsNeverSplit` | tools/gem3-mapper/src/search_pipeline/search_stage_decode.c:280-293 | Over whole-pair buffers, paired retrieval never raises the unpaired-query error and stays between pairs. |
| `BpmBinning.Bucket` | tools/gem3-mapper/resources/gem-cutter/src/gpu_bpm_primitives_filter.c:202-203 | Every candidate is counted in one of the `numBuckets` buckets: the raw bucket, computed in 32-bit arithmetic, is clamped to the overflow bucket. |
| `BpmBinning.CountIn` | tools/gem3-mapper/resources/gem-cutter/src/gpu_bpm_primitives_filter.c:201-205 | A bucket count over a prefix never exceeds the prefix. |
| `BpmBinning.Counts` | tools/gem3-mapper/resources/gem-cutter/src/gpu_bpm_primitives_filter.c:201-205 | There is one count per bucket. |
| `BpmBinning.CountsSumToCandidates` | tools/gem3-mapper/resources/gem-cutter/src/gpu_bpm_primitives_filter.c:201-205 | The per-bucket counts sum to the number of candidates. |
| `BpmBinning.CountBuckets` | tools/gem3-mapper/resources/gem-cutter/src/gpu_bpm_primitives_filter.c:194-205 | The counting loop produces the reference counts, and they sum to the number of candidates. |
| `BpmBinning.PerWarp` | tools/gem3-mapper/resources/gem-cutter/src/gpu_bpm_primitives_filter.c:209-210 | Every non-overflow bucket fits at least one query per warp. |
| `BpmBinning.QuotIsDivision` | tools/gem3-mapper/resources/gem-cutter/src/gpu_bpm_primitives_filter.c:210 | The quotient used for queries per warp is integer division. |
| `BpmBinning.TimesIsProduct` | tools/gem3-mapper/resources/gem-cutter/src/gpu_bpm_primitives_filter.c:213 | The slots of a bucket are warps times queries per warp. |
| `BpmBinning.DivCeilBounds` | tools/gem3-mapper/resources/gem-cutter/src/gpu_bpm_primitives_filter.c:211 | Whole warps hold every query with less than one warp of padding, and a bucket has warps exactly when it has queries. |
| `BpmBinning.PosPrefixMonotone` | tools/gem3-mapper/resources/gem-cutter/src/gpu_bpm_primitives_filter.c:212-213 | Bucket start positions never decrease. |
| `BpmBinning.BucketFits` | tools/gem3-mapper/resources/gem-cutter/src/gpu_bpm_primitives_filter.c:211-213 | A bucket's slot range holds its count with less than one warp of queries to spare, and is non-empty exactly when the bucket is. |
| `BpmBinning.BucketWarps` | tools/gem3-mapper/resources/gem-cutter/src/gpu_bpm_primitives_filter.c:207-214 | Each non-overflow bucket gets its warp count and the prefix sum of earlier buckets' slots as its start. The total is `elementsPerBuffer`, and the overflow bucket keeps 0. |
| `BpmBinning.LayOutOne` | tools/gem3-mapper/resources/gem-cutter/src/gpu_bpm_primitives_filter.c:208-214 | One iteration of the warp loop extends the layout by one bucket. |
| `BpmBinning.FirstWarps` | tools/gem3-mapper/resources/gem-cutter/src/gpu_bpm_primitives_filter.c:216-217 | Each bucket's first warp is the sum of the warps of the buckets before it. |
| `BpmBinning.TotalWarps` | tools/gem3-mapper/resources/gem-cutter/src/gpu_bpm_primitives_filter.c:237-238 | The warp total is the sum over all non-overflow buckets. |
| `BpmBinning.LayOut` | tools/gem3-mapper/resources/gem-cutter/src/gpu_bpm_primitives_filter.c:207-238 | The layout's start slots, start warps and totals are the prefix sums of the reference layout. |
| `BpmBinning.CountInMonotone` | tools/gem3-mapper/resources/gem-cutter/src/gpu_bpm_primitives_filter.c:226-230 | A later candidate of the same bucket has a higher rank in it. |
| `BpmBinning.SlotBounds` | tools/gem3-mapper/resources/gem-cutter/src/gpu_bpm_primitives_filter.c:224-232 | A binned candidate's slot lies within its bucket's range, below `elementsPerBuffer`. |
| `BpmBinning.SlotInjective` | tools/gem3-mapper/resources/gem-cutter/src/gpu_bpm_primitives_filter.c:224-232 | Distinct binned candidates get distinct slots, and within a bucket in candidate order. |
| `BpmBinning.PlaceOne` | tools/gem3-mapper/resources/gem-cutter/src/gpu_bpm_primitives_filter.c:229 | Writing a binned candidate into its bucket's next free slot places it without disturbing earlier placements. |
| `BpmBinning.AdvanceOne` | tools/gem3-mapper/resources/gem-cutter/src/gpu_bpm_primitives_filter.c:230 | The bucket's next free slot is the candidate's slot and moves on by one. |
| `BpmBinning.SkipOne` | tools/gem3-mapper/resources/gem-cutter/src/gpu_bpm_primitives_filter.c:227-228 | An overflow candidate changes neither the placement nor the free slots. |
| `BpmBinning.Place` | tools/gem3-mapper/resources/gem-cutter/src/gpu_bpm_primitives_filter.c:218-232 | After placement, every binned candidate sits in its slot. Every occupied slot holds the binned candidate whose slot it is. Overflow candidates are not placed. |
| `BpmBinning.FirstOfBucket` | tools/gem3-mapper/resources/gem-cutter/src/gpu_bpm_primitives_filter.c:226-230 | A non-empty bucket has a first candidate, with no earlier candidate of that bucket, so its slot is the bucket's start. |
| `BpmBinning.FirstNonEmptyBucket` | tools/gem3-mapper/resources/gem-cutter/src/gpu_bpm_primitives_filter.c:207-214 | When any slot is laid out, some non-empty bucket starts at slot zero. |
| `BpmBinning.SlotZeroOwned` | tools/gem3-mapper/resources/gem-cutter/src/gpu_bpm_primitives_filter.c:233-235 | Slot zero is never a padding slot, so padding never reads before the buffer. |
| `BpmBinning.Origin` | tools/gem3-mapper/resources/gem-cutter/src/gpu_bpm_primitives_filter.c:233-235 | The nearest occupied slot at or before a slot, with only free slots between them. |
| `BpmBinning.Pad` | tools/gem3-mapper/resources/gem-cutter/src/gpu_bpm_primitives_filter.c:233-235 | Each free slot copies the slot before it, so every slot holds the candidate of the nearest occupied slot at or before it. |
| `BpmBinning.ReorderProcess` | tools/gem3-mapper/resources/gem-cutter/src/gpu_bpm_primitives_filter.c:186-241 | The schedule has the reference layout, with `numReorderedAlignments` equal to `elementsPerBuffer`. Every binned candidate is in its own slot. Every slot holds a binned candidate. |
| `BpmBinning.ChooseBinning` | tools/gem3-mapper/resources/gem-cutter/src/gpu_bpm_primitives_filter.c:344-345 | Binning is chosen exactly when the bin size is not a power of two (or zero); its bin size is then stored as 0. |
| `BpmBinning.IsPow2Iff` | tools/gem3-mapper/resources/gem-cutter/src/gpu_bpm_primitives_filter.c:344 | The bit test accepts exactly zero and the 32 powers of two. |
| `BpmBinning.ReorderingBuffer` | tools/gem3-mapper/resources/gem-cutter/src/gpu_bpm_primitives_filter.c:243-274 | With binning, every binned candidate has a slot and every slot holds one, over `elementsPerBuffer` slots. Without binning, no slot is laid out and `numWarps = ceil(binSize * numCandidates / warpSize)`. Bucket starts from `binSize` on are the end of the candidates and of the warps; the others are 0. |
| `BpmBinning.LastWriter` | tools/gem3-mapper/resources/gem-cutter/src/gpu_bpm_primitives_filter.c:375-376 | The last slot holding a candidate, or none. |
| `BpmBinning.ScatterBack` | tools/gem3-mapper/resources/gem-cutter/src/gpu_bpm_primitives_filter.c:367-380 | With binning, each candidate takes the result of the last slot holding it and keeps its alignment when none does. Without binning the alignments are unchanged. |
| `BpmBinning.ScatterRoundTrip` | tools/gem3-mapper/resources/gem-cutter/src/gpu_bpm_primitives_filter.c:367-380 | Binning is transparent. When each slot's result is computed from the candidate it holds, every binned candidate gets its own result back, replicated padding included, and overflow candidates keep their alignments. |
| `BpmBinning.PaddingAllowance` | tools/gem3-mapper/resources/gem-cutter/src/gpu_bpm_primitives_filter.c:72-81 | The padding allowance is the sum of `warpSize / b` for b from 1 to `numBuckets - 2`. |
| `BpmBinning.PaddingBound` | tools/gem3-mapper/resources/gem-cutter/src/gpu_bpm_primitives_filter.c:207-214 | A bucket's start is the counts before it plus their padding. The padding of the first k buckets is at most `warpSize/1 + ... + warpSize/k - k`. |
| `BpmBinning.ReorderBufferFits` | tools/gem3-mapper/resources/gem-cutter/src/gpu_bpm_primitives_filter.c:135-144 | The laid-out slots never exceed the candidates plus the padding allowance, the size reserved as `maxReorderBuffer`. |

## Left out

- External tools (the mapper, merger, caller, extractor and index builders) are reduced to a success flag or to a fact about the environment (`IndexEnv`). File-system work is not modelled: `os.remove`, existence tests, JSON manifests and logging.
- The existence check on calling inputs (`gemBS/production.py:1085-1087`) is not modelled; it is file-system I/O.
- Dry-run command printing and JSON task output are not modelled. A dry run works on an in-memory copy of the database; the modelled store is that copy.
- Concurrency is not modelled. The threaded extraction drain (`jobs > 1`, `gemBS/production.py:1480-1488`) is left out; only the serial drain is modelled. Each locked SQL block is one atomic step. A race with another process appears as a claim that finds nothing, and for extraction as the separate claim and commit steps, whose interleaving `ExtractStage.InterleavedCommitsLoseBits` exhibits; the other stages' drivers are modelled only for runs that nothing interleaves with.
- Database internals are not modelled. `reg_db_com` and `del_db_com` are map insertion and deletion, and the undo statement is recorded as data. The synchronisation pass that replays compensation records is not part of this model.
- The sample-name and configuration lookups of the JSON configuration, and how contigs are grouped into pools, are inputs.
- `inputs.sort()` in `do_merge` is not modelled: merge inputs matter only as a set of paths here.
- A merged-BAM path that is the empty string reads as absent in `Merging.run` (`elif not v[0]`); the model treats paths as non-empty.
- The index stage's `db.check_index()` refresh after the reference step is not modelled; its effect is covered by `IndexEnv`.
- `DIV_CEIL` and `ISPOW2` come from headers that are not part of this model. They are taken as `(a + b - 1) / b` and `x & (x - 1) == 0` on 32-bit words.
- Integer widths: the only 32-bit wrap-around modelled is the bucket of an empty query. Candidate counts are below 2^32. `binSize * numCandidates`, `elementsPerBuffer` and the warp sums are unbounded here.
- CUDA transfers, kernels, buffer sizing and reallocation, address alignment, and the floating-point average query size in the GPU file are not modelled.
- ReorderingBuffer: without binning, the source leaves the reorder buffer holding the previous batch's slots, while the model reports it empty. Nothing reads those slots, because `numReorderedAlignments` is 0 (set by `gpu_bpm_filter_send_buffer_`).
- Pad: requires slot zero to be occupied. The source would read before the buffer otherwise; `SlotZeroOwned` shows that `ReorderProcess` always meets this.
- ReorderBufferFits: assumes `warpSize / (numBuckets - 1) <= numBuckets - 1`, which holds for 32-thread warps and 32 buckets. The bound is not proved for other constants.
- The decode stage's GPU copy, decode and receive, the per-search preparation, profiling counters and `mm_alloc`/vector plumbing are not modelled. The fit test is a parameter; transfers appear only as a log of events.
- New: the source leaves the search counters uninitialised until retrieval begins; the model starts them at 0.
- RetrieveNext: a call after the iterator has passed the last buffer reads past the buffer vector in the source (undefined behaviour). The model reports it as `OutOfRange`.
- Upper: case folding is ASCII-only. Python's `str.upper` also maps non-ASCII letters (`ſ` to `S`, `ı` to `I`, `é` to `É`) and can change the length (`ß` to `SS`); strings here are plain character sequences with no Unicode tables.
- NormaliseType: inherits Upper's ASCII-only folding, so a type such as `ſtream`, which the source accepts as STREAM, is rejected here as unknown.
- SendAppends: assumes the fit test accepts any group in an empty buffer (`FitsEmpty`). The fit test, `search_stage_decode_buffer_fits`, is not part of this model; FifoNeedsFitsEmpty shows what breaks without the assumption.
- FifoRoundTrip: holds under the same `FitsEmpty` assumption; without it an accepted search placed after a buffer left empty is lost (FifoNeedsFitsEmpty).
- FifoFromClear: holds under the same `FitsEmpty` assumption.
- ClaimDataset: the claim's commit and the registration of its compensation record are one step here; in the source the record is registered after the lock is released, and a crash between the two is not modelled.
- ClaimRow: states one extraction run's effect only when no other run writes the sample's row between its claim and its commit. An interleaved run's bits can be overwritten by the commit; `ExtractStage.ClaimStep` and `ExtractStage.CommitStep` model the two blocks on their own.
- The reference-index checks of the drivers are not modelled: `Mapping.run` (`gemBS/production.py:377-387`, the `contig_md5` and `gembs_reference` rows), `Merging.run` (818-823, `gembs_reference`), `MethylationCall.run` (1064-1074, `gembs_reference` and `dbsnp_idx`) and `MethylationFiltering.run` (1446-1449, `contig_sizes` missing or not done) raise `CommandException` before any other work when a needed `indexing` row is not done. The models of those drivers start after these checks, as if every needed row is done.
- CallRun: the index checks come before its first modelled error (see the line above), so a missing index is not reported.
- CallRun: the missing merged-BCF error (a `KeyError` in the source) does not carry the sample name.
