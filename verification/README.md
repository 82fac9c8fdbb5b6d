# Wakir runtime: verified models

A Dafny model of the decision-making parts of the Wakir runtime's operations tooling, with proofs of what those
parts promise. It checks with `dafny verify dfyconfig.toml`.

**The acceptance window.** A probe samples a SPIRE substrate; a judge folds the whole series into PASS, FAIL or
UNKNOWN. Its rule is that *the absence of a measurement is not a passed measurement*.
`Samples`, `Episodes`, `Series`, `Assurances`, `Falsifications` and `Window` hold the judge: the status readers, the
episode automaton, the one-pass stall scans, the judgements Z1..Z4, F1, F2, the negative control and coverage, and the
priority-ordered verdict, each loop proved against a quantified specification. `Readings`, `FieldLaws` and
`ProbeMeaning` say what each state means of the recorded fields, without that vocabulary. `Soundness` and `Acceptance`
prove that PASS is *equivalent* to a statement about every judged sample and every pair of them. `Consequences` bounds
quiet stretches by renewals. `Absence`, `ProbeLoss` and `LossVerdict` say, for every judgement and for the verdict,
exactly what one missing status or value does, in either direction; `LossExamples` shows the surprising cases.
`Baseline` is the seven-day window of the tests with the default limits, and it passes. `LogOrder` covers the sort and
the choice of a side that precede everything.

**The bucket tools.** `KvCluster` is a mutable key-value cluster with an arbitrary pattern of API failures, and drift;
`RunLaws` proves the frame, idempotence, recovery and dry-run fidelity of any run over it; `Provisioner` and
`ProvisionerLaws` are the per-organisation provisioner with its fan-out and dedupe, and `SharedNames` the calls that
defeat it; `BucketInventory` is the initialiser and the health check that must agree with it.

**The proof report and the statistics.** `SpoolProjection` reads spools strictly and leniently; `ProofReport` and
`ReportValidator` carry step records through emit, load, assemble and validate; `Percentiles`, `Decisions`,
`DecisionEnvelope` and `Labels` hold the nearest-rank percentile with its histogram, windowed aggregation and label
escaping.

`Sequences`, `Sorting`, `Numbers`, `PythonText` and `Findings` are shared vocabulary.

## Modelling choices

- Records start typed: a source status is one of absent, ok, target-bad, unmeasured or other, a missing value is
  `None`. `ClassifyAnswersEveryTest` shows the classification keeps every test made of the raw string.
- `observed_at_epoch` and other times are unbounded integers. Latencies, rates and percentiles are exact reals; Python
  computes them in floating point.
- The judge is specified for time-sorted samples, because its only caller sorts first; `LoadSortsTheLog` proves that.
  All limits may be any integer, including negative ones.
- A created bucket's status echoes its spec, and a failed create changes nothing. An API failure pattern is any
  function of the kind of call, the bucket name and the number of calls made before.
- A permitted identifier may end in one newline, because the pattern's `$` matches there
  (wirelang/federation/marker_stack_kv.py:203, wirelang/federation/sequence_number_ledger_kv.py:177).
- Report sentences are reduced to tags (`Findings.Reason`, `ReportValidator.Violation`).

## Where code and documentation part ways

- scripts/acceptance/substrate_acceptance_window.py:139-147 says an unmeasured value is never converted into a FAIL.
  Z1, Z2, the negative control and coverage keep that promise for every series (`Z1AfterLoss`, `Z2AfterLoss`,
  `GreenControlAfterLoss`). Four judgements do not, because dropping a sample also changes what the remaining ones are
  compared with. Z3 calls a file motionless when the only differing mtime was the first or last one (`Z3AfterLoss`). Z4
  joins the quiet stretches around a lost mtime when the mtime did not grow across it (`Z4AfterLoss`); it cannot happen
  while mtimes never go backwards (`GrowingAnchorLossIsNoFinding`). F1 loses sight of rotations or exposes one that was
  not survived (`F1AfterLoss`). F2 says the agent did not come back when nobody looked (`UnmeasuredReturnIsAFinding`),
  and compares with the wrong sample when the right one is lost (`F2AfterLoss`). Each lemma gives the exact condition
  for any series not already red; `RedFromAbsenceIff` and `GreenWindowAfterLoss` combine them for the verdict.
  `LossExamples` holds a concrete series for each, and a green seven-day window that one missing expiry turns red.
  However many fields are lost, Z1, Z2 and a Z4 over never-falling mtimes stay short of FAIL (`Z1Z2AfterLosses`,
  `GrowingAnchorAfterLosses`).
- scripts/acceptance/substrate_acceptance_window.py:154-164 says there is no path by which "not measured" comes out as
  "fine". That holds for seven of the eight judgements (`OnlyF2TurnsGreen`), and for the verdict whenever the missing
  value belongs to a judged sample (`NoGreenFromAbsence`). It does not hold for F2, which reads samples inside the cold
  episode without that check (lines 788-799 and 830-843): a lost mtime hides a touched volume
  (`LostMtimeHidesTouch`), a lost expiry hides an old credential (`LostExpiryHidesOldCredential`), and both turn a red
  seven-day window green. `GreenFromAbsenceIff` gives the exact condition for every window that is not green.
- bin/nats_kv_bucket_provision.py announces in a dry run what a wet run would do. With caller-supplied families that
  share a bucket name it does not (`DryRunMisleads`); `ProvisionDryRunFaithfulIff` gives the exact condition. If they
  also differ in configuration, a rerun after failures can end elsewhere than an undisturbed run (`RerunMisleads`);
  `RecoversIff` is exact again. `RegisteredNames` shows that the registered families meet both conditions.

## Model

| member | source | states |
|---|---|---|
| Samples.ClassifyAnswersEveryTest | scripts/acceptance/substrate_acceptance_window.py:197-216 | the typed status answers every question asked of the raw string: equality with ok, the target_bad_ prefix, and the negative control's unmeasured prefix |
| Samples.Settle | scripts/acceptance/substrate_acceptance_window.py:236-259 | a violation outranks a gap, PASS needs neither, and UNKNOWN always carries a gap |
| Episodes.FindEpisodes | scripts/acceptance/substrate_acceptance_window.py:376-405 | the automaton finds exactly the specified episodes of both kinds, and reports a problem iff some kind's markers are not well paired |
| Episodes.PairKind | scripts/acceptance/substrate_acceptance_window.py:385-404 | one pass with one remembered start pairs a kind's markers; no problem iff well paired |
| Episodes.WellPairedIsOpenCloseStar | scripts/acceptance/substrate_acceptance_window.py:376-405 | well-paired markers are exactly the words of (open close)*, position by position |
| Episodes.EpisodeIffAdjacentPair | scripts/acceptance/substrate_acceptance_window.py:387-400 | an episode is reported iff it spans an adjacent open/close pair, or starts at a final open marker |
| Episodes.EpisodesOrdered | scripts/acceptance/substrate_acceptance_window.py:376-405 | on sorted samples episodes of a kind run forward, follow one another, share at most an endpoint, and only the last can be open |
| Episodes.OpenEpisodeIsReported | scripts/acceptance/substrate_acceptance_window.py:399-404 | an open episode exists iff some kind ends on an open marker, there is at most one per kind, and it is always a reported problem |
| Episodes.EpisodesReadOnlyMarkers | scripts/acceptance/substrate_acceptance_window.py:376-405 | episodes depend on nothing but times and markers |
| ProbeMeaning.EpisodesFromMarkers | scripts/acceptance/substrate_acceptance_window.py:376-405 | an episode is reported iff it spans consecutive opening and closing markers of its kind among the samples, or starts at a last opening one |
| ProbeMeaning.WellPairedFromMarkers | scripts/acceptance/substrate_acceptance_window.py:385-404 | no problem iff every closing marker answers an opening one and every opening one is answered |
| ProbeMeaning.JudgedMeaning | scripts/acceptance/substrate_acceptance_window.py:1042-1043 | the judged samples are those outside every episode, in order |
| Series.ScanExpiry | scripts/acceptance/substrate_acceptance_window.py:488-514 | the expiry loop reports a violation iff some value falls or the worst stall exceeds the limit, and counts the rises |
| Series.ScanStateFile | scripts/acceptance/substrate_acceptance_window.py:553-568 | the state-file loop reports exactly the falls and counts the rises |
| Series.ScanAnchor | scripts/acceptance/substrate_acceptance_window.py:630-638 | the anchor loop computes the running worst stall, where only a strict rise resets the clock |
| Series.WorstAtEnd | scripts/acceptance/substrate_acceptance_window.py:630-638 | the running worst stall is the longest time between any two samples with no strict rise between them |
| Series.KeepsRisingIff | scripts/acceptance/substrate_acceptance_window.py:488-525 | no fall, no over-long stall and some rise is the same as: never down, strictly up across any distance beyond the limit, up from first to last |
| Assurances.JudgeZ1 | scripts/acceptance/substrate_acceptance_window.py:415-459 | FAIL iff some sample has a bad source or a chain authority outside its bundle, otherwise UNKNOWN iff something is missing or nothing was judged |
| Assurances.JudgeZ2 | scripts/acceptance/substrate_acceptance_window.py:462-531 | the state follows from falls, stalls and rises of the expiry series for every integer tolerance; the worst stall is the true maximum when nothing falls |
| Assurances.JudgeZ3 | scripts/acceptance/substrate_acceptance_window.py:534-588 | FAIL iff a bad source, a fall, or no write over more than the floor; UNKNOWN iff a gap, too few points, or no write |
| Assurances.JudgeZ4 | scripts/acceptance/substrate_acceptance_window.py:591-657 | FAIL iff a bad anchor or bundle, disjoint authorities, or a restage stall beyond the limit; worst_stall is the longest quiet time |
| Assurances.JudgeF1 | scripts/acceptance/substrate_acceptance_window.py:660-750 | FAIL iff a rotation was not survived or too few happened in a long enough span; the rotation and survivor counts are exact |
| FieldLaws.Z1FromFields | scripts/acceptance/substrate_acceptance_window.py:415-459 | FAIL iff some sample serves nothing, has no authority set, or chains outside its bundle; otherwise UNKNOWN iff a source did not answer, a value is missing or nothing was judged |
| FieldLaws.Z2FromFields | scripts/acceptance/substrate_acceptance_window.py:462-531 | from the fields: nothing served, a fall between consecutive expiries, or a stretch beyond the tolerance without a rise; UNKNOWN otherwise for a missing expiry, fewer than two, or no rise |
| FieldLaws.Z3FromFields | scripts/acceptance/substrate_acceptance_window.py:534-588 | from the fields: no state file, a fall, or no write between a first and a last reading further apart than the floor |
| FieldLaws.Z4FromFields | scripts/acceptance/substrate_acceptance_window.py:591-657 | from the fields: an unusable anchor, no authority set beside it, no shared authority, or no rewrite beyond the limit |
| FieldLaws.F1FromFields | scripts/acceptance/substrate_acceptance_window.py:660-750 | from the fields: a change of signer at a sample whose chain leaves its bundle, or too few changes between the first and last complete sample |
| FieldLaws.F1CountsFromFields | scripts/acceptance/substrate_acceptance_window.py:705-720 | the rotation and survivor counts are the numbers of samples at which the signer changed, and at which the chain then held |
| Falsifications.JudgeRestart | scripts/acceptance/substrate_acceptance_window.py:778-843 | one cold restart: violations and gaps exactly as specified from the samples before, after and at its ends |
| Falsifications.JudgeF2 | scripts/acceptance/substrate_acceptance_window.py:753-850 | the state over all cold episodes; none at all is UNKNOWN |
| ProbeLoss.F2FromFields | scripts/acceptance/substrate_acceptance_window.py:778-843 | from the fields around each cold episode: too short, not back, an old credential, a chain outside the bundle or a changed mtime; UNKNOWN for an open episode, nothing before, or an unmeasured authority |
| Falsifications.AbsentAnchorFailsZ4 | scripts/acceptance/substrate_acceptance_window.py:607-611 | any slice with a target-bad anchor makes Z4 FAIL, whatever else is in it |
| Falsifications.JudgeControl | scripts/acceptance/substrate_acceptance_window.py:888-967 | one control has no gap iff it was carried out, and its violation branch is never taken |
| Falsifications.JudgeNegativeControl | scripts/acceptance/substrate_acceptance_window.py:853-977 | PASS iff there are controls and all were carried out; never FAIL |
| Falsifications.JudgeCoverage | scripts/acceptance/substrate_acceptance_window.py:980-1035 | UNKNOWN iff too short, an unexplained gap beyond the limit, or more excluded than judged; never FAIL |
| ProbeMeaning.ControlShownIff | scripts/acceptance/substrate_acceptance_window.py:888-967 | a control counts iff it is closed, some sample in it has bundle ok and an svid status that does not begin with unmeasured, and enough have a target-bad anchor |
| ProbeMeaning.CoverageFromFields | scripts/acceptance/substrate_acceptance_window.py:980-1035 | PASS iff the span reaches the window, half the samples are judged, and each over-long silence has an episode at one of its ends; otherwise UNKNOWN |
| Window.Evaluate | scripts/acceptance/substrate_acceptance_window.py:1041-1079 | the verdict and all eight states, in the documented priority order |
| Window.OpenEpisodeForcesUnknown | scripts/acceptance/substrate_acceptance_window.py:1061-1072 | an episode left open makes the verdict UNKNOWN whatever the judgements say |
| Soundness.StandingIff | scripts/acceptance/substrate_acceptance_window.py:1045-1050 | Z1..Z4 and F1 are all green iff every judged sample is complete and matching, the expiry and state file move, the anchor stays fresh and enough signers changed |
| Acceptance.ColdRestartIff | scripts/acceptance/substrate_acceptance_window.py:778-843 | F2 accepts an episode iff it is closed, long enough, not seen to be touched, and the first credential served after it is strictly newer than the last one before and chains to the bundle |
| Acceptance.ControlPassIff | scripts/acceptance/substrate_acceptance_window.py:872-977 | the control is green iff there is one and each was carried out; it is never a finding |
| Acceptance.PassIffGreen | scripts/acceptance/substrate_acceptance_window.py:1041-1079 | PASS iff the window is green, stated over all samples, pairs of samples and episodes |
| Consequences.Z2OnMeasuredSeries | scripts/acceptance/substrate_acceptance_window.py:484-531 | on a served, measured series: FAIL iff an adjacent fall or an over-long constant run, UNKNOWN iff not FAIL and nothing moved |
| Consequences.RenewalBound | scripts/acceptance/substrate_acceptance_window.py:488-514 | in a PASS window an episode-free stretch with m renewals lasts at most (m+1) stalls plus m sampling gaps |
| LossVerdict.NoGreenFromAbsence | scripts/acceptance/substrate_acceptance_window.py:154-164 | a loss on a judged sample never gives PASS; on any sample it turns a window green only by taking F2's evidence against a restart, an mtime, an SVID status or an expiry |
| LossVerdict.OnlyF2TurnsGreen | scripts/acceptance/substrate_acceptance_window.py:1045-1059 | every judgement other than F2 that is green after a loss was green before it |
| LossVerdict.GreenAfterLossIff | scripts/acceptance/substrate_acceptance_window.py:1041-1079 | for every window: PASS after a loss iff the sample lies in an episode, everything but F2 is green without the value, and every cold restart is proved without it |
| LossVerdict.GreenFromAbsenceIff | scripts/acceptance/substrate_acceptance_window.py:154-164 | a window that is not green becomes green by a loss iff moreover F2's objection to some restart rests on the lost value alone |
| ProbeLoss.ProvedWithoutIff | scripts/acceptance/substrate_acceptance_window.py:788-843 | a cold restart is proved after a loss iff it was and the loss is neither a finding nor a gap, or its objection vanishes |
| ProbeLoss.VanishesIff | scripts/acceptance/substrate_acceptance_window.py:788-843 | an objection vanishes iff an mtime at either end hid a touch, an unbeaten expiry or a bad return is lost and its neighbour is good, or a sample compared with itself is gone |
| LossExamples.LostMtimeHidesTouch | scripts/acceptance/substrate_acceptance_window.py:830-843 | the baseline with a touched volume is FAIL, and PASS without the mtime that shows it |
| LossExamples.LostExpiryHidesOldCredential | scripts/acceptance/substrate_acceptance_window.py:794-816 | the baseline with an old credential after the restart is FAIL, and PASS without that expiry |
| Absence.Z1AfterLoss | scripts/acceptance/substrate_acceptance_window.py:415-459 | any series Z1 does not fail is UNKNOWN after losing a field Z1 reads, unchanged otherwise |
| Absence.Z2AfterLoss | scripts/acceptance/substrate_acceptance_window.py:462-531 | the same for Z2 and every tolerance: a missing expiry is never a stall |
| Absence.Z3AfterLoss | scripts/acceptance/substrate_acceptance_window.py:534-588 | a lost state-file measurement is FAIL iff it was the first or last point and the rest shows one mtime over more than the floor, else UNKNOWN |
| Absence.Z4AfterLoss | scripts/acceptance/substrate_acceptance_window.py:591-657 | a lost anchor or bundle measurement is FAIL iff the mtime did not grow across it and the quiet stretches on both sides join beyond the limit, else UNKNOWN |
| Absence.GrowingAnchorLossIsNoFinding | scripts/acceptance/substrate_acceptance_window.py:630-643 | while the anchor mtime never goes backwards, no loss makes Z4 fail |
| Absence.Z1Z2AfterLosses | scripts/acceptance/substrate_acceptance_window.py:139-147 | after any number of losses Z1 and Z2 are UNKNOWN if one of them is theirs, unchanged otherwise |
| Absence.GrowingAnchorAfterLosses | scripts/acceptance/substrate_acceptance_window.py:139-147 | the same for Z4 while the anchor mtime never goes backwards |
| Absence.F1AfterLoss | scripts/acceptance/substrate_acceptance_window.py:660-750 | a lost signing is FAIL iff it exposes a rotation that was not survived or leaves too few rotations for the remaining span |
| ProbeLoss.F2AfterLoss | scripts/acceptance/substrate_acceptance_window.py:778-843 | a lost status or expiry is FAIL iff for some restart nothing good is served behind the lost return, or the expiry before the lost one is no earlier than what was served |
| ProbeLoss.GreenF2AfterLoss | scripts/acceptance/substrate_acceptance_window.py:753-850 | from a green F2: FAIL, UNKNOWN or PASS after a loss, each with its condition |
| ProbeLoss.UnmeasuredReturnIsAFinding | scripts/acceptance/substrate_acceptance_window.py:788-808 | with no served and measured sample from the restart on, F2 is FAIL even when nobody looked |
| ProbeLoss.GreenControlAfterLoss | scripts/acceptance/substrate_acceptance_window.py:888-967 | a loss leaves a green control UNKNOWN iff it drops an absent anchor or the last answering sample it needs, never FAIL |
| LossVerdict.RedFromAbsenceIff | scripts/acceptance/substrate_acceptance_window.py:139-147 | one missing measurement makes a window that is not red red, iff no episode is open and it is a finding for Z3, Z4, F1 or F2 |
| LossVerdict.GreenWindowAfterLoss | scripts/acceptance/substrate_acceptance_window.py:1041-1079 | a green window after one loss: FAIL iff the loss is a finding, else UNKNOWN iff the sample was judged or a probe needed the field, else PASS |
| LossExamples.LostMtimeFailsZ3 | scripts/acceptance/substrate_acceptance_window.py:569-574 | an accepted state-file series that fails without its first mtime |
| LossExamples.LostMtimeFailsZ4 | scripts/acceptance/substrate_acceptance_window.py:630-643 | an accepted anchor series that fails without its middle mtime |
| LossExamples.LostSignerFailsF1 | scripts/acceptance/substrate_acceptance_window.py:723-730 | an accepted signing series that fails without one signer |
| LossExamples.LostReturnFailsTheWindow | scripts/acceptance/substrate_acceptance_window.py:804-808 | a green seven-day window whose verdict is FAIL without one expiry |
| Baseline.SomeWindowPasses | tests/infra/test_substrate_acceptance_window.py:58-173 | the hourly seven-day baseline with both episodes is PASS under the default limits |
| Baseline.BaselinePasses | tests/infra/test_substrate_acceptance_window.py:58-173 | it is PASS wherever its two episodes are sensibly placed |
| LogOrder.LoadSortsTheLog | scripts/acceptance/substrate_acceptance_window.py:265-301 | the judge sees a time-sorted permutation of the log |
| LogOrder.JudgeLog | scripts/acceptance/substrate_acceptance_window.py:1157-1212 | a log is refused iff several sides are judged at once; otherwise states, verdict, problems and exit code are those of the chosen side's own lines, whatever other sides are in the log |
| Sorting.SortThenKeep | scripts/acceptance/substrate_acceptance_window.py:1157-1168 | choosing a side after sorting is sorting that side's lines |
| LogOrder.LogOrderIndependence | scripts/acceptance/substrate_acceptance_window.py:265-301 | with distinct timestamps any shuffle of the lines gives the same series, states and verdict |
| LogOrder.LogOrderMattersOnlyWithinTies | scripts/acceptance/substrate_acceptance_window.py:300-301 | two logs load alike iff they agree on the order within each timestamp |
| KvCluster.DriftDiff | bin/nats_kv_bucket_provision.py:509-544 | the comparison loop computes the drift |
| KvCluster.DriftMeaning | scripts/init-nats-buckets.py:426-456 | drift names exactly the observable fields that differ, with ttl floats truncated and unobservable fields skipped, and what was wanted and seen |
| KvCluster.DriftByField | bin/nats_kv_bucket_provision.py:509-544 | from the raw values: a number differs from another number or text, a ttl float after dropping its fraction, storage from any other text; with the documented and the observed value |
| KvCluster.DriftIsReported | bin/nats_kv_bucket_provision.py:720-758 | a bucket that can be looked at is drifting iff one of its observable values differs, otherwise unchanged |
| KvCluster.OutcomeIff | bin/nats_kv_bucket_provision.py:664-758 | an error is reported iff a call fails, and created, would_create, unchanged and drift only where the bucket was missing or present |
| KvCluster.EchoShowsConfig | bin/nats_kv_bucket_provision.py:697-717 | a created bucket shows every documented value and the description |
| KvCluster.ExitCodeMeaning | bin/nats_kv_bucket_provision.py:1073-1078 | 1 iff something failed, 2 iff nothing failed and something drifts, 0 otherwise |
| KvCluster.EchoHasNoDrift | bin/nats_kv_bucket_provision.py:697-717 | a bucket just created from a spec does not drift from it |
| KvCluster.EnsureBucket | bin/nats_kv_bucket_provision.py:664-758 | lookup, create and drift report for one bucket under any failures, as the step the laws are about |
| RunLaws.RunFrame | bin/nats_kv_bucket_provision.py:613-759 | under any failures existing buckets stay, every new bucket was created by an item naming it with exactly its configuration, a dry run creates nothing |
| RunLaws.OutcomeMeaning | scripts/init-nats-buckets.py:481-553 | in the final store, created and unchanged mean no drift, drift means that diff, a refused name is an error |
| RunLaws.RunIdempotent | bin/nats_kv_bucket_provision.py:560-574 | a second undisturbed run leaves the store alone and repeats the report with created read as unchanged, with no assumption on names |
| RunLaws.DryRunFaithfulIff | bin/nats_kv_bucket_provision.py:678-718 | a dry run changes nothing and announces the wet run iff no missing bucket is asked for twice |
| RunLaws.RecoversIff | bin/nats_kv_bucket_provision.py:560-574 | an undisturbed run after a disturbed one leaves what one undisturbed run leaves, for every failure pattern, iff a missing bucket is always asked for alike |
| Provisioner.CollectOrgIds | bin/nats_kv_bucket_provision.py:1004-1039 | roster then flags, first occurrence wins; nothing at all is an error unless allowed |
| Provisioner.DistinctHasNoRepeats | bin/nats_kv_bucket_provision.py:440-466 | the deduplicated list has no repeats |
| Provisioner.DistinctKeepsFirstOccurrences | bin/nats_kv_bucket_provision.py:440-466 | it is in order of first occurrence |
| Provisioner.DistinctAbsorbs | bin/nats_kv_bucket_provision.py:1004-1039 | deduplicating early changes nothing, so the collector's and the planner's dedupe agree |
| Provisioner.PlanAndApply | bin/nats_kv_bucket_provision.py:552-879 | the nested loops with their seen-sets process exactly the targets: distinct organisations, family-minor, then distinct persona pairs |
| Provisioner.ReportIsRun | bin/nats_kv_bucket_provision.py:604-879 | the report is one labelled action per target of a plain run |
| ProvisionerLaws.ProvisionIdempotent | bin/nats_kv_bucket_provision.py:552-879 | a second identical run leaves the cluster unchanged and gives the first actions with created replaced by unchanged |
| ProvisionerLaws.ProvisionDryRunFaithfulIff | bin/nats_kv_bucket_provision.py:678-695 | a dry run's actions are the wet run's with would_create for created iff no missing bucket is a target twice |
| ProvisionerLaws.InjectiveDryRunFaithful | bin/nats_kv_bucket_provision.py:678-695 | with injective bucket names dry runs are always faithful |
| ProvisionerLaws.RegisteredNames | bin/nats_kv_bucket_provision.py:324-365 | the three registered families name buckets injectively over family and identifier |
| ProvisionerLaws.ProvisionFrame | bin/nats_kv_bucket_provision.py:613-759 | for every failure pattern nothing existing changes, new buckets carry their family's spec, refused identifiers are errors, labels follow the targets |
| ProvisionerLaws.NewBucketsFollowFamilies | bin/nats_kv_bucket_provision.py:474-506 | every new bucket is named by one of the families and carries exactly that family's configuration |
| ProvisionerLaws.OrgIsReportedOnce | bin/nats_kv_bucket_provision.py:613-759 | for every failure pattern a requested organisation has one action per family in order, or exactly one error with no family and no bucket; nobody unrequested has any |
| ProvisionerLaws.PairIsReportedOnce | bin/nats_kv_bucket_provision.py:760-879 | each distinct persona token has exactly one action, in input order |
| ProvisionerLaws.ProvisionRecovers | bin/nats_kv_bucket_provision.py:552-879 | with injective names, rerunning after any failures leaves what an undisturbed run would have left |
| SharedNames.DryRunMisleads | bin/nats_kv_bucket_provision.py:678-718 | two families that give an organisation the same missing bucket: the dry run is not the wet run |
| SharedNames.RerunMisleads | bin/nats_kv_bucket_provision.py:678-718 | if they also differ in configuration, some failure pattern leaves another store after a rerun |
| SharedNames.SharedNameWitness | bin/nats_kv_bucket_provision.py:583-585 | both for a concrete planner call on an empty cluster |
| BucketInventory.PlanAndApply | scripts/init-nats-buckets.py:459-553 | one action per spec of a run over the inventory |
| BucketInventory.InspectBuckets | scripts/check-nats-kv-health.py:327-393 | read-only survey: only the call counter moves |
| BucketInventory.CheckIff | scripts/check-nats-kv-health.py:327-393 | a check fails iff a call does, says missing iff the bucket is, and diverged iff a raw value differs |
| BucketInventory.HealthExitCodeMeaning | scripts/check-nats-kv-health.py:585-610 | 1 iff unreachable or a check failed, 0 iff all are healthy |
| BucketInventory.CheckerAgreesAt | scripts/check-nats-kv-health.py:297-393 | after any wet init run, each check that could look says ok for created and unchanged, the same diff for drift, and never missing |
| BucketInventory.ExitCodesAgree | scripts/check-nats-kv-health.py:585-610 | when neither tool met an error the two exit codes are equal |
| PythonText.BlankIffStripsToNothing | scripts/demo_proof_helpers.py:414-426 | a value is blank iff stripping leaves nothing |
| SpoolProjection.SpoolToEvents | scripts/demo_proof_helpers.py:326-411 | a spool is accepted iff every line is blank or a record whose four fields all have a value, and the events are those of the records in line order |
| SpoolProjection.RecordBecomesEvent | scripts/demo_proof_helpers.py:376-404 | each record of an accepted spool has its event, whose four fields hold exactly the values read for them |
| SpoolProjection.FieldValueIsFirstUsable | scripts/demo_proof_helpers.py:376-443 | a field is read from the first usable of its own value, the other spelling and the envelope; strictly, only from its own |
| SpoolProjection.AcceptedTexts | scripts/demo_proof_helpers.py:414-426 | a field accepts text that strips to something; the capability hash accepts any text |
| SpoolProjection.RepairSource | scripts/demo_proof_helpers.py:429-443 | a repair of time comes from a usable event_time in the record, any other from the envelope, and there is none only if neither is usable |
| SpoolProjection.StrictAndLenientAgree | scripts/demo_proof_helpers.py:326-443 | strict accepts iff lenient accepts without repairs, and then the events are the same |
| SpoolProjection.StrictIgnoresEnvelope | scripts/demo_proof_helpers.py:339-345 | a strict read never depends on the envelope |
| SpoolProjection.EventMeaning | scripts/demo_proof_helpers.py:376-404 | a record yields an event iff all four fields have a value, and the event maps each field to it |
| SpoolProjection.EveryRepairIsListed | scripts/demo_proof_helpers.py:347-352 | a line, field and source are listed iff the record's own value was unusable and the replacement came from there |
| SpoolProjection.RepairsAreListedInOrder | scripts/demo_proof_helpers.py:367-402 | repairs are listed strictly by line and, within a line, by field |
| ProofReport.StepsFile.Emit | scripts/demo_proof_helpers.py:761-811 | appends one validated record or writes nothing; every line of the file stays well emitted |
| ProofReport.LoadStepRecords | scripts/demo_proof_helpers.py:814-832 | the loading loop computes the specified table or refuses |
| ProofReport.LoadMeaning | scripts/demo_proof_helpers.py:814-832 | loading succeeds iff every line is loadable and no step occurs twice, and gives the record of each step |
| ProofReport.LoadIff | scripts/demo_proof_helpers.py:814-832 | a file loads iff every line names a step, has a known status and details, and no step is named twice |
| ProofReport.AssembleMeaning | scripts/demo_proof_helpers.py:835-902 | the report carries each step's line or a not_run with code 30, the commit, and code 10 iff a failed step was emitted, else 0 |
| ProofReport.AssembleReport | scripts/demo_proof_helpers.py:847-902 | the five steps once each in canonical order, not_run where no record exists, exit code from failures |
| ProofReport.AssembleIgnoresOrder | scripts/demo_proof_helpers.py:847-902 | the report does not depend on the order of the emitted records |
| ReportValidator.CheckDetails | scripts/ci/validate_demo_proof_report.py:163-211 | no violation iff the details bear out the green status |
| ReportValidator.DetailsByStep | scripts/ci/validate_demo_proof_report.py:108-211 | which details each step needs, key by key |
| ReportValidator.AcceptedMeaning | scripts/ci/validate_demo_proof_report.py:214-322 | exactly which reports are accepted, field by field, with the expected commit |
| ReportValidator.ValidateReport | scripts/ci/validate_demo_proof_report.py:214-322 | no violation iff the report is accepted under the profile; requiring the external check cancels the relaxation |
| ReportValidator.AcceptedIffEveryStepGood | scripts/ci/validate_demo_proof_report.py:214-322 | an assembled report is accepted iff each of the five steps left a good record |
| ReportValidator.StrictAcceptanceOfEmittedSteps | scripts/ci/validate_demo_proof_report.py:265-305 | for emitted steps the strict profile accepts iff all five were emitted ok with consistent details |
| ReportValidator.NotRunNeverAccepted | scripts/demo_proof_helpers.py:880-887 | a filled-in step is never accepted, under any profile |
| Percentiles.PercentileIsObserved | scripts/wat-anchor-pipeline-observability.py:759-784 | the percentile is a value that was observed |
| Percentiles.PercentileMonotone | scripts/wat-anchor-pipeline-observability.py:759-784 | the percentile is monotone in p, for every real p |
| Percentiles.PercentileExtremes | scripts/wat-anchor-pipeline-observability.py:775-784 | at or below 0 the smallest value, at or above 100 the largest |
| Percentiles.PercentileBucketAdjunction | scripts/wat-anchor-pipeline-observability.py:759-805 | the percentile is at most a boundary iff that boundary's cumulative count reaches the rank |
| Percentiles.PercentileWithinBucketIff | scripts/wat-anchor-pipeline-observability.py:781-784 | for 0 < p <= 100 the percentile is at most a boundary iff at least p percent of the values are |
| Percentiles.PercentilesAgree | scripts/backend-decision-observability.py:395-411 | the two tools' nearest-rank percentiles are equal |
| Percentiles.Bucketize | scripts/wat-anchor-pipeline-observability.py:787-805 | one cumulative bucket per distinct boundary in order, never decreasing, ending at the number of values |
| Percentiles.CountIsCardinality | scripts/wat-anchor-pipeline-observability.py:787-805 | a bucket count is the number of values at most its boundary |
| Percentiles.BoundariesIncrease | scripts/wat-anchor-pipeline-observability.py:799 | the boundaries are exactly the given ones, strictly increasing |
| Decisions.SelectWindow | scripts/backend-decision-observability.py:300-313 | the trailing records, as many as the smaller of the record count and the effective window |
| Decisions.TallyMeaning | scripts/backend-decision-observability.py:429-444 | the component, fallback and latency dictionaries hold exactly the hand counts, with a key only where something was seen |
| Decisions.TallyBackends | scripts/backend-decision-observability.py:433-434 | the nested backend dictionary holds exactly the hand counts |
| Decisions.TallyFromRecords | scripts/backend-decision-observability.py:341-392 | component and fallback counts are numbers of records by their raw domain and reason |
| Decisions.BackendsFromRecords | scripts/backend-decision-observability.py:341-352 | backend counts are numbers of records by raw domain and backend |
| Decisions.LatenciesFromRecords | scripts/backend-decision-observability.py:355-372 | the latency lists hold, in order, the non-negative whole latencies of the component's records |
| DecisionEnvelope.AggregateDecisions | scripts/backend-decision-observability.py:414-489 | the aggregation loops compute the envelope of the selected window |
| DecisionEnvelope.SummaryMeaning | scripts/backend-decision-observability.py:446-460 | a summary is the count, the mean and the 50th, 95th and 99th percentile of the latencies; of nothing all zero |
| DecisionEnvelope.EnvelopeMeaning | scripts/backend-decision-observability.py:446-489 | per component the summary of its latencies and its fallbacks over its count |
| DecisionEnvelope.AggregationConserves | scripts/backend-decision-observability.py:421-489 | component counts sum to the sample size, backend counts to their component's, fallbacks and latencies stay within it |
| DecisionEnvelope.AggregatedRateIsWeightedMean | scripts/backend-decision-observability.py:465-478 | the aggregated rate is the count-weighted mean of the component rates |
| DecisionEnvelope.AggregationPermuted | scripts/backend-decision-observability.py:446-489 | shuffling the windowed records changes no count, rate or latency summary |
| Labels.SequentialEqualsOnePass | scripts/backend-decision-observability.py:652-654 | the three replacements in sequence equal one character-wise escape |
| Labels.EscapedForms | scripts/backend-decision-observability.py:652-654 | what is written for a backslash, a quote, a newline and any other character |
| Labels.LabelRoundTrip | scripts/backend-decision-observability.py:652-654 | unescaping per the Prometheus text exposition format 0.0.4 returns every value |
| Labels.EscapedTextIsSafe | scripts/backend-decision-observability.py:652-654 | no raw newline is written and each quote directly follows a backslash |

## Left out

- Sample and report parsing (`_to_sample`, JSON decoding, field coercion, the forbidden verdict keys): the model starts from typed records.
- All text and JSON rendering.
- Report observations that no decision reads: bundle-set transitions in F1, the worst unexplained gap, and sample totals of the controls.
- Files, atomic renames, subprocesses, NATS and HTTP connections, argument parsing, environment variables.
- Bucket status values other than integers, floats and text, and the not-found heuristics on exception class names: a lookup finds, misses or fails.
- The fixed inventory of the initialiser and the health check: agreement is proved for every spec list.
- `summarize_stage` and `summarize_window`, which only arrange percentiles and buckets already covered.
- Merkle trees, leaf hashes, signing, anchoring and replay.
- Catalogues, alert bridges and retired scripts, which would only add easy members.
