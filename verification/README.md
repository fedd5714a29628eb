# Verified models of the trading workstation's exact parts

This project models, in Dafny, the places where the repository transforms data step by step and has
to keep an exact property, and proves those properties for every input and every run. Where the
program is a loop, the model is a method with the same branches, proved against a specification
function or a stated postcondition; the theorems are lemmas about that specification.

* **Guardian projection maintenance** (`Options`, `StringOrder`, `OrderedLists`, `Utf8`,
  `IdentityStream`, `GuardianTables`, `ProjectionAudit`, `CountAudit`, `MembershipRewrite`, `RowVerification`,
  `CandidateCopy`). Stored receipts call for one membership row per plan they protect. Two audits
  check the stored rows against the receipts; a cleanup removes the rows of selected plans, by a
  windowed deletion or by rewriting the table from the rows to keep; a rebuild puts them back; and
  the copy is verified row by row. The chain of results: the digest's input determines the list of
  identities; so the streaming audit accepts exactly the right membership set; so the cleanup, the
  rebuild and both of their verifications are exact, and cleanup and rebuild undo each other.
* **The Windows service host** (`ServiceLog` with `Utf8`, and `CommandLine`). The rotating log loses
  nothing but whole oldest archives and never cuts a character; quoted child arguments are parsed
  back to the same list.
* **The late-day study** (`SettlementLedger`, `HacVariance`). A two-arm cash account with held-back
  proceeds agrees with a reference account computed from its trades; the long-run variance equals a
  mean of squared windows, so clamping it at zero never matters.
* **The halt study** (`HaltPolicy`). Five halt policies in a feedback loop: one changes nothing, one
  always lets go, and the deployed one never does.
* **Secret redaction** (`Redaction`). Longest-first replacement over nested values.
* **The anomaly baseline** (`OrderStatistics`, `RobustBaseline`). What one outlier can and cannot do
  to a median and a MAD, and exactly when there is no score.
* **The checked resume** (`CheckedResume`). A retry loop against an environment that may commit and
  then lose its output.
* **Momentum rotation** (`MomentumRotation`). A table of all dates, past and future, that lets no
  future information through.

Conventions. SHA-256 is a function parameter assumed to have no collisions. Decimals and floats are
exact reals. Exceptions are results (`Refused`, `Raised`, `ValueError`, `ZeroDivision`, `TypeError`).
Order by primary key is order by character code. Log sizes are relative to a limit of at least four
bytes, the source's being 32 MiB.

## Where the code and its description part

* `hysteresis` is documented as releasing on a shallower threshold. It never releases at all when
  `resume_at` is below the halt threshold (`HaltPolicy.HysteresisChangesNothingIff`); it differs from
  `current` exactly when `resume_at` is at or above it.
* Redaction promises that sensitive values are removed. A registered secret can come back beside a
  marker put in its place: one that lies in `[REDACTED]`, such as `RED`, or one that overlaps an end
  of the marker, such as `x[`. Registered alone, a secret is protected exactly when it cannot return
  in this way (`Redaction.Returns`, `Redaction.OneSecretIsProtectedIff`); so `[[` is safe alone, but
  not beside the secret `a` (`Redaction.CompanyMatters`). Whatever else is registered, a secret is
  protected exactly when no placement of it that overlaps the marker agrees with it
  (`Redaction.Apart`, `Redaction.AlwaysProtectedIff`). Brackets alone do no harm: `p[ss]w` is such a
  secret (`Redaction.BracketsCanBeHarmless`).
* `_candidate_copy` lets a rebuild default to every eligible plan. It then audits the source for
  nothing removed and inserts the eligible plans again, so it is refused unless nothing is eligible
  (`CandidateCopy.DefaultRebuildCollides`, `CandidateCopy.DefaultRebuildIsRefused`). The public
  `rebuild_selected` takes the selection as a required argument and the command line wants at least
  one plan, so only an explicit `None` gets there.

## Model

| member | source | states |
|---|---|---|
| IdentityStream.LengthReadsBack | scripts/offline_guardian_projection_cleanup.py:201-203 | the eight-byte length prefix determines the length |
| IdentityStream.FrameBytes | scripts/offline_guardian_projection_cleanup.py:201-203 | each update is the length as eight bytes, the most significant first, and then one ASCII byte a character |
| IdentityStream.FrameIsPrefixFree | scripts/offline_guardian_projection_cleanup.py:201-203 | two digest inputs that agree start with the same identity, and the rest agrees too |
| IdentityStream.StreamIsInjective | scripts/offline_guardian_projection_cleanup.py:201-203 | the concatenated length-prefixed identities determine the list of identities |
| IdentityStream.DigestDetermines | scripts/offline_guardian_projection_cleanup.py:219-236 | equal digests of two lists of identities mean equal lists |
| GuardianTables.Derived | scripts/offline_sqlite_compaction.py:52-68 | the memberships called for are exactly the (plan, receipt) pairs of stored receipts that protect the plan |
| GuardianTables.KeyOrderIsUnique | scripts/offline_guardian_projection_cleanup.py:648-658 | a membership table listed by (plan, receipt) is determined by its contents |
| StringOrder.LessIff | scripts/offline_guardian_projection_cleanup.py:648-658 | the key order: a string comes before the longer ones it begins, and else the first differing character decides |
| ProjectionAudit.ReceiptWitness | scripts/offline_guardian_projection_cleanup.py:206-236 | accepts exactly when every receipt is valid, carries its own id and repeats no plan; then every plan's count, digest and ownership are those of its receipts in id order, and no other plan has a proof; a plan's ownership holds exactly the owner, generation, release and lane of its receipts, each marked cited if and only if the plan is among that receipt's sources |
| ProjectionAudit.OwnersAre | scripts/offline_guardian_projection_cleanup.py:225-233 | the recorded ownership of the first n receipts, field by field |
| ProjectionAudit.WalkGroup | scripts/offline_guardian_projection_cleanup.py:244-249 | one group of rows is exactly one plan's column: its length and digest input are the column's |
| ProjectionAudit.GroupEnds | scripts/offline_guardian_projection_cleanup.py:244 | in key order a plan's rows are contiguous, so grouping visits each plan once |
| ProjectionAudit.Projection | scripts/offline_guardian_projection_cleanup.py:239-261 | the streaming pass accepts exactly when every plan's rows match its proof by count and digest, removed plans having none; it returns the number of rows |
| ProjectionAudit.PlanAuditIsExact | scripts/offline_guardian_projection_cleanup.py:251-260 | for one plan, count and digest match exactly when its rows are its receipts |
| ProjectionAudit.AuditIsExact | scripts/offline_guardian_projection_cleanup.py:239-261 | all plans match exactly when the table equals the derived memberships without the removed plans |
| ProjectionAudit.AuditProjection | scripts/offline_guardian_projection_cleanup.py:527-528 | both passes together accept exactly the consistent databases |
| CountAudit.DerivedCount | scripts/offline_sqlite_compaction.py:56-69 | the running total of plan-list lengths is the number of derived memberships, receipt ids being unique and plan lists free of repeats |
| CountAudit.CountIsExact | scripts/offline_sqlite_compaction.py:48-73 | every derived pair present and equal totals force set equality |
| CountAudit.Audit | scripts/offline_sqlite_compaction.py:48-73 | the count-and-lookup audit, over receipts in any order, accepts exactly the consistent databases and reports both totals |
| CountAudit.AuditsAgree | scripts/offline_sqlite_compaction.py:48-73 | it accepts exactly when the digest audit does with nothing removed |
| MembershipRewrite.NextPage | scripts/offline_guardian_projection_cleanup.py:741-756 | deleting behind the page does not move the next page: it holds the next original rows |
| MembershipRewrite.PageDeleted | scripts/offline_guardian_projection_cleanup.py:757-765 | deleting a page's selected row numbers leaves its other rows and everything else |
| MembershipRewrite.MembershipTable.DeleteInChunks | scripts/offline_guardian_projection_cleanup.py:757-765 | chunks of 500 delete exactly the listed rows, and the count adds up |
| MembershipRewrite.MembershipTable.DeleteSelected | scripts/offline_guardian_projection_cleanup.py:734-767 | for any window from 1 to 4096 it ends having scanned every row once, leaving exactly the unselected rows in order, and counts the deleted ones; refused windows and aborted transactions leave the table alone |
| MembershipRewrite.MembershipTable.CopyRetained | scripts/offline_guardian_projection_cleanup.py:795-850 | refuses exactly when the audited counts disagree; otherwise the table holds the unselected memberships |
| MembershipRewrite.MembershipTable.Insert | scripts/offline_guardian_projection_cleanup.py:1031-1034 | an insert is refused exactly for a pair already present |
| MembershipRewrite.MembershipTable.InsertReceipt | scripts/offline_guardian_projection_cleanup.py:1027-1034 | inserts one receipt's selected plans, refused exactly when one of the pairs is there |
| MembershipRewrite.MembershipTable.RebuildSelected | scripts/offline_guardian_projection_cleanup.py:1023-1034 | adds exactly the selected plans' derived memberships, refused exactly on a duplicate, and then rolled back whole |
| RowVerification.CompareRows | scripts/offline_sqlite_compaction.py:93-103 | the paired stream is accepted exactly when both tables are the same list |
| RowVerification.SkipSelected | scripts/offline_guardian_projection_cleanup.py:678-686 | the generator passes over selected rows only, keeping a count and digest input for each of their plans |
| RowVerification.CompareRebuilt | scripts/offline_guardian_projection_cleanup.py:676-705 | accepted exactly when the unselected rows agree and every selected plan has rows that match its witness; the completeness check is reached before acceptance |
| RowVerification.VerifyRows | scripts/offline_guardian_projection_cleanup.py:661-706 | accepts exactly when the schemas are equal and every table passes its comparison |
| RowVerification.CleanupVerificationIsExact | scripts/offline_guardian_projection_cleanup.py:697-704 | after a cleanup the membership comparison accepts exactly the source without the selected plans |
| RowVerification.RebuildVerificationIsExact | scripts/offline_guardian_projection_cleanup.py:676-705 | after a rebuild it accepts exactly the complete projection of the receipts |
| CandidateCopy.RebuildUndoesCleanup | scripts/offline_guardian_projection_cleanup.py:1023-1050 | pruning an audited table and inserting the same plans' derived rows gives the table back, without a duplicate, and the pruned table passes the rebuild audit |
| CandidateCopy.CleanupUndoesRebuild | scripts/offline_guardian_projection_cleanup.py:1023-1050 | rebuilding a pruned table and pruning it again gives it back |
| CandidateCopy.RebuildAuditIsExact | scripts/offline_guardian_projection_cleanup.py:517-528 | the audit for a claimed removal accepts a pruned table exactly when claim and pruned set agree on plans that have receipts |
| CandidateCopy.CleanupThenRebuild | scripts/offline_guardian_projection_cleanup.py:984-1050 | after any accepted cleanup the rebuild of the same plans is accepted, and its membership listing is the source's |
| CandidateCopy.RebuildThenCleanup | scripts/offline_guardian_projection_cleanup.py:984-1050 | after any accepted rebuild the cleanup of the same plans is accepted and gives the source's listing |
| CandidateCopy.OnlyTheSameSelectionRebuilds | scripts/offline_guardian_projection_cleanup.py:978-989 | a pruned database is accepted for rebuild with the pruned selection and no other |
| CandidateCopy.DefaultRebuildCollides | scripts/offline_guardian_projection_cleanup.py:978-988 | a rebuild with the default selection inserts a duplicate unless nothing is eligible |
| CandidateCopy.DefaultRebuildIsRefused | scripts/offline_guardian_projection_cleanup.py:978-988 | with one eligible plan and a complete projection, the default cleanup is accepted and the default rebuild is not |
| CandidateCopy.ProofCounts | scripts/offline_guardian_projection_cleanup.py:220-225 | a plan's proof counts its derived memberships |
| CandidateCopy.CountSelected | scripts/offline_guardian_projection_cleanup.py:991 | summing the selected proofs' counts gives the number of derived memberships of the selection |
| CandidateCopy.CopyCannotRefuse | scripts/offline_guardian_projection_cleanup.py:1036-1044 | on an audited source the copying rewrite's count check always holds |
| CandidateCopy.AuditSource | scripts/offline_guardian_projection_cleanup.py:517-614 | accepts exactly the consistent and auditable databases; a plan is eligible exactly if some receipt protects it and the eligibility rule holds of the ownership its receipts record, field by field |
| CandidateCopy.VerificationIsExact | scripts/offline_guardian_projection_cleanup.py:661-706 | against an audited source verification accepts exactly the databases that differ in the intended memberships alone |
| CandidateCopy.CompactionIsIdentity | scripts/offline_sqlite_compaction.py:76-104 | with nothing selected it accepts exactly the databases with the same rows in every table |
| CandidateCopy.VerifyCleanup | scripts/offline_guardian_projection_cleanup.py:709-731 | accepts exactly when the source passes the audit, the selection is eligible and the candidate is the intended one |
| CandidateCopy.Rewrite | scripts/offline_guardian_projection_cleanup.py:1018-1050 | each of the three rewrites makes the intended membership set; only a duplicate insert or an aborting callback refuses |
| CandidateCopy.CandidateCopy | scripts/offline_guardian_projection_cleanup.py:945-1096 | a whole run hands out exactly the intended database with the right counts; once the request is acceptable, only the progress callback of the windowed deletion can refuse it, and a rebuild or a copying rewrite never is |
| Utf8.EncodingIsWellFormed | deploy/omen/service-host.cs:88 | every encoded record is well-formed UTF-8 |
| Utf8.DecodeUndoesEncode | deploy/omen/service-host.cs:88 | decoding by the grammar gives every encoded text back |
| Utf8.CutAtBoundary | deploy/omen/service-host.cs:100-102 | cutting well-formed text where no continuation byte follows leaves two well-formed parts |
| Utf8.BoundaryWithinFour | deploy/omen/service-host.cs:100-102 | backing off from a cut takes at most three steps |
| Utf8.TailIsMask | deploy/omen/service-host.cs:101 | the bit test finds exactly the continuation bytes 80 to BF |
| ServiceLog.TrimRetains | deploy/omen/service-host.cs:49-60 | what is kept is exactly what follows the first line feed of the last `limit` bytes, if anything does, and else those bytes from their first one that is not a continuation byte |
| ServiceLog.TrimKeepsText | deploy/omen/service-host.cs:37-70 | trimming keeps well-formed text and something of it, and gives up more than three bytes only to start on a whole record |
| ServiceLog.RotatingLog.constructor | deploy/omen/service-host.cs:24-35 | every file is trimmed; an active one at the limit is shifted away, the oldest archive dropped if there is one, and a new one begun; a shorter one goes on; each file is within the limit and, if it was, whole text |
| ServiceLog.RotatingLog.TrimOversized | deploy/omen/service-host.cs:37-70 | an oversized file is cut to the bytes that are to be retained, exactly; others are untouched |
| ServiceLog.RotatingLog.Move | deploy/omen/service-host.cs:82-83 | a move requires that its target does not exist |
| ServiceLog.RotatingLog.Rotate | deploy/omen/service-host.cs:77-84 | every file ends one place older, only a whole oldest archive is dropped, and no move lands on a file |
| ServiceLog.RotatingLog.MakeRoom | deploy/omen/service-host.cs:92-99 | the files shift exactly when the active one is not empty and the rest of the record does not fit |
| ServiceLog.RotatingLog.ChunkSize | deploy/omen/service-host.cs:100-102 | a chunk is never empty, fits, ends at a character boundary, is the whole record when that fits, and else is the longest that does |
| ServiceLog.RotatingLog.WriteChunk | deploy/omen/service-host.cs:90-106 | one pass of the loop shifts the files exactly when the active one is not empty and the rest of the record does not fit, and puts the longest prefix of it that can, cut between characters, at the end of the last file or in a new one |
| ServiceLog.ChunkWritten | deploy/omen/service-host.cs:94-105 | it alters no file left behind, adds the chunk to the bytes there are, and keeps whole characters whole |
| ServiceLog.OpeningHistory | deploy/omen/service-host.cs:24-35 | joined together, the files of an opened log are what the trimmed files held, oldest first |
| ServiceLog.RotatingLog.WriteLine | deploy/omen/service-host.cs:86-107 | all bytes are kept in order; of all files there ever were, dropped ones first, only the last is appended to and new ones begun after it, so what is dropped is a whole oldest archive; each is within the limit and keeps whole characters; and a record that fits is never split |
| ServiceLog.RecordIsLine | deploy/omen/service-host.cs:88 | a record is the line in UTF-8, a carriage return and a line feed |
| ServiceLog.RunHost | deploy/omen/service-host.cs:137-151 | the same over any sequence of lines: the files there ever were hold the opening content followed by every record, the dropped ones being the oldest, whole and within the limit |
| CommandLine.Quote | deploy/omen/service-host.cs:117-135 | the quoted argument parses back to the value, by Microsoft's rules |
| CommandLine.EscapeIsUndone | deploy/omen/service-host.cs:117-135 | parsing a quoted value stops exactly at its closing quote, whatever follows |
| CommandLine.QuoteRoundTrip | deploy/omen/service-host.cs:167 | the child sees exactly the argument list the host was given, for every list |
| SettlementLedger.SettlementIsTimely | scripts/late_day_research.py:63-65 | between two sessions cash grows by exactly the sales that turned two sessions old, and those leave the queue |
| SettlementLedger.AtMostTwoPending | scripts/late_day_research.py:63-83 | at most two sales are unsettled at a time |
| SettlementLedger.RoundDownIsLargest | scripts/late_day_research.py:76-78 | the quantity is the largest of six decimals within the bound |
| SettlementLedger.QuantityIsAffordable | scripts/late_day_research.py:76-82 | a purchase costs at most the settled cash and nine percent of equity |
| SettlementLedger.SessionKeepsSound | scripts/late_day_research.py:63-84 | every session keeps the account in step with its reference, and loses at most nine percent |
| SettlementLedger.LedgerIsSound | scripts/late_day_research.py:47-115 | in both arms, for every chronological row sequence: cash is never negative and is what two-session settlement allows, equity is 500 plus all profit, at most two lots are pending |
| SettlementLedger.EquityFloor | scripts/late_day_research.py:110-111 | equity never falls below 91% of the row before and stays positive, so no return divides by zero |
| SettlementLedger.DrawdownStep | scripts/late_day_research.py:100-101 | the running drawdown is the deepest relative fall between any two points of the equity path, and is reached |
| SettlementLedger.SettleArm | scripts/late_day_research.py:63-65 | releases what is due and keeps the rest in order |
| SettlementLedger.PlaySession | scripts/late_day_research.py:63-99 | equity before a session plus its profit is the equity after it, and cash stays non-negative |
| SettlementLedger.QuantityIsLargest | scripts/late_day_research.py:76-80 | the quantity is the largest number of millionths whose cost is within nine percent of equity and the settled cash, and is positive exactly if one is |
| SettlementLedger.SessionObeys | scripts/late_day_research.py:63-96 | in both arms a session adds a trade exactly if the row is eligible, the close is above the previous one (for the strategy) and something is affordable; it costs quantity times entry times one plus the cost, and brings quantity times exit times one less the cost |
| SettlementLedger.HistoryIsUnique | scripts/late_day_research.py:57-98 | these rules determine every trade |
| SettlementLedger.Simulate | scripts/late_day_research.py:47-144 | runs exactly for the two cost cases over chronological, priced rows; both arms' trades follow the rules of trading, and daily entries, returns, unsettled proceeds, drawdown, minimum cash, trades and both endings are told from those trades alone; mean and variance are those of the returns' differences on exactly the eligible sessions |
| HacVariance.ExpandWindows | scripts/late_day_research.py:120-124 | multiplying out the squared six-wide windows leaves 6 - lag copies of every lagged sum |
| HacVariance.BartlettIsSumOfSquares | scripts/late_day_research.py:120-124 | six times the weighted sum of autocovariances is the sum of squared zero-padded windows |
| HacVariance.ShortListsLoseNothing | scripts/late_day_research.py:121 | stopping at lag n - 1 on short lists changes nothing |
| HacVariance.VarianceIsMeanOfSquares | scripts/late_day_research.py:120-124 | the variance equals the squared windows over 6n and is non-negative |
| HacVariance.PairedVariance | scripts/late_day_research.py:117-143 | the program's loops compute the mean, and the squared windows over 6n of the distances from it; the clamp at zero never changes them |
| HacVariance.VarianceIgnoresShift | scripts/late_day_research.py:118-124 | adding one amount to every difference moves the mean by it and leaves the variance alone |
| HacVariance.EqualDifferencesDoNotVary | scripts/late_day_research.py:118-124 | equal differences have their common value for mean and no variance |
| HaltPolicy.SessionEffects | scripts/halt_policy_study.py:81-128 | under every policy a session earns the whole return, nothing while halted (and then is counted, and never as an escape), or a share under the floor; at most one escape; peak and drawdown never shrink, and only the lookback's mark can fall behind the equity |
| HaltPolicy.Simulate | scripts/halt_policy_study.py:57-130 | every session obeys its policy's rules for mark, halt, exposure, escapes and high-water mark, starting from an account of 100; the report is the last state's equity, escapes and deepest fall, with the share of sessions halted; and it fails exactly without sessions, for an unknown policy or a negative window |
| HaltPolicy.DecisionObeys | scripts/halt_policy_study.py:87-126 | the halt, re-anchoring, exposure and escape rules of each policy, by the equity's place against the mark |
| HaltPolicy.TrailingIsWindow | scripts/halt_policy_study.py:86 | the lookback's mark is the largest of the last recorded values |
| HaltPolicy.DrawdownIsDeepest | scripts/halt_policy_study.py:123-128 | under every policy the reported drawdown is the deepest fall of the equity path from its running peak, and is reached |
| HaltPolicy.NeverHalts | scripts/halt_policy_study.py:99-107 | re-anchoring and the floor never halt a session |
| HaltPolicy.HysteresisIsCurrent | scripts/halt_policy_study.py:89-98 | with release below the halt threshold both policies are in the same state after every stream |
| HaltPolicy.HysteresisChangesNothingIff | scripts/halt_policy_study.py:89-98 | hysteresis reports what the current policy reports on all streams exactly when it releases below the threshold |
| HaltPolicy.CurrentHaltAbsorbs | scripts/halt_policy_study.py:89-91 | under the current policy a halt is never left and equity is frozen |
| HaltPolicy.HaltFreezesHistory | scripts/halt_policy_study.py:119-124 | during a halt the recorded equity does not change |
| HaltPolicy.LookbackReleases | scripts/halt_policy_study.py:82-112 | with a window of L sessions, no L consecutive sessions are all halted, whatever the returns |
| HaltPolicy.LookbackBoundIsSharp | scripts/halt_policy_study.py:82-112 | L - 1 consecutive halted sessions do occur |
| Redaction.ReplaceIsJoin | src/quantbot/logging.py:24-27 | replacement cuts the text at its leftmost occurrences and joins the parts by the marker, losing nothing else |
| Redaction.RedactText | src/quantbot/logging.py:24-27 | the loop applies the secrets' replacements in order |
| Redaction.LongestFirst | src/quantbot/logging.py:59-61 | every non-empty secret once, longest first |
| Redaction.NothingNew | src/quantbot/logging.py:24-27 | replacing brings no text into existence that stays apart from the marker |
| Redaction.NoSecretSurvives | src/quantbot/logging.py:24-27 | after all replacements, in any order and among any others, no secret that stays apart from the marker occurs |
| Redaction.RedactedIsClean | src/quantbot/logging.py:30-48 | if every secret stays apart from the marker, no string in a value position of the output contains any of them |
| Redaction.BracketlessIsApart | src/quantbot/logging.py:11 | a secret without brackets that is no part of the marker's word stays apart from the marker |
| Redaction.LeakReturns | src/quantbot/logging.py:24-27 | wherever a secret is found in the result of its own replacement, it lies in the marker, begins as the marker ends, or goes on into the marker from a text after which it is first found |
| Redaction.OneSecretIsProtectedIff | src/quantbot/logging.py:24-27 | registered alone, any secret is protected in all texts exactly when it cannot return in this way |
| Redaction.OneSecretIsCleanIff | src/quantbot/logging.py:51-65 | and in the value positions of all nested values |
| Redaction.MarkerWordLeaks | src/quantbot/logging.py:24-27 | a secret that lies in the marker leaks from every registry |
| Redaction.AlwaysProtectedIff | src/quantbot/logging.py:51-65 | a secret is protected in every registry it may be part of exactly when it stays apart from the marker |
| Redaction.CompanyMatters | src/quantbot/logging.py:24-27 | a secret that is protected alone can leak beside another one |
| Redaction.BracketedSecretCanReturn | src/quantbot/logging.py:24-27 | `x[`, which is no part of the marker, comes back when it is replaced in `xx[` |
| Redaction.ShapeAndKeysPreserved | src/quantbot/logging.py:30-48 | containers, order and keys are kept; secret keys get the marker, exceptions become text |
| Redaction.RedactsEverything | src/quantbot/logging.py:30-48 | at every depth an entry under one of the six secret names, in any case, holds the marker, and every other one the redaction of its own value; an exception comes out as its message would |
| Redaction.RedactionIsUnique | src/quantbot/logging.py:30-48 | no value has two redactions |
| Redaction.CleanTextUnchanged | src/quantbot/logging.py:24-27 | a text without secrets is not changed |
| Redaction.RedactionIsIdempotent | src/quantbot/logging.py:51-65 | with secrets that stay apart from the marker, redacting twice is redacting once |
| Redaction.WholeSecretBecomesMarker | src/quantbot/logging.py:59-61 | with such secrets, one standing alone becomes exactly the marker, even when shorter ones are parts of it |
| Redaction.RedactSecrets | src/quantbot/logging.py:51-65 | mappings are redacted as just said, with shape kept, and left clean under the condition for one secret or the one for many; anything else is a type error |
| OrderStatistics.SortSorts | src/quantbot/anomaly/detector.py:80 | the sorted list is ascending and a permutation |
| OrderStatistics.Rank | src/quantbot/anomaly/detector.py:80 | the k-th order statistic is at most x exactly when more than k values are |
| OrderStatistics.Interlace | src/quantbot/anomaly/detector.py:7-10 | replacing one value moves every order statistic at most to its neighbours |
| OrderStatistics.SortMap | src/quantbot/anomaly/detector.py:80-84 | sorting commutes with increasing changes of scale |
| RobustBaseline.MedianResistsOutlier | src/quantbot/anomaly/detector.py:7-10 | one replaced value moves the median no further than the order statistics next to the middle |
| RobustBaseline.MadResistsOutlier | src/quantbot/anomaly/detector.py:7-10 | and the MAD no further than one order statistic of the deviations plus the median's own move |
| RobustBaseline.MadVanishesIff | src/quantbot/anomaly/detector.py:81-83 | the MAD is zero exactly when strictly more than half of the values equal the median |
| RobustBaseline.RefusedIffNotVarying | src/quantbot/anomaly/detector.py:72-84 | there is no score exactly for an empty list or such a list |
| RobustBaseline.MedianOfSorted | src/quantbot/anomaly/detector.py:80 | the median is half the sum of the two middle places of the sorted values |
| RobustBaseline.RobustZMeans | src/quantbot/anomaly/detector.py:72-84 | the median is returned with every non-empty list, and the score times 1.4826 times the median distance from it is how far the observed value lies above it |
| RobustBaseline.ScoreReaches | src/quantbot/anomaly/detector.py:84 | a score reaches a threshold exactly when the value lies that many scaled MADs above the median |
| RobustBaseline.ScoreIsInvariant | src/quantbot/anomaly/detector.py:72-84 | a common shift or positive rescaling does not change the score |
| RobustBaseline.Baseline | src/quantbot/anomaly/detector.py:108-109 | the baseline is the latest completed sessions, never the judged one |
| RobustBaseline.MeasurableIff | src/quantbot/anomaly/detector.py:117-143 | which of the five outcomes the volume family records: nothing, an unfit feed, an insufficient baseline, one filled to more than half by one value, or a measurement |
| CheckedResume.Newest | scripts/checked_resume.py:78 | the newest event has the highest sequence |
| CheckedResume.AppendAllKeepsFencePassed | src/quantbot/paper_core/authority.py:113-120 | once the fence is superseded no later event brings it back |
| CheckedResume.ResumePassesFence | src/quantbot/paper_core/authority.py:572-591 | a resume appended on top of the fence supersedes it |
| CheckedResume.Runner.Current | scripts/checked_resume.py:47-101 | guards first, then the newest event as the matching resume, as anything but the requested fence, as the fence, then the account binding: each verdict exactly in its case |
| CheckedResume.Runner.Dispatch | scripts/checked_resume.py:173-209 | a dispatch follows sight of the fence; it may commit and still end in any way |
| CheckedResume.Runner.TryResume | scripts/checked_resume.py:160-209 | after a preparation the command is given only at sight of the fence; then success, timeout and a curable refusal leave it to the log, and any other end is fatal |
| CheckedResume.Runner.Attempt | scripts/checked_resume.py:148-216 | one attempt dispatches at most once and goes on only after seeing the fence again; a failed or timed-out preparation lets the loop go on, and a smooth one ends in success |
| CheckedResume.Runner.Retry | scripts/checked_resume.py:143-217 | with the preparation failing n < 60 times and all going smoothly after, the loop succeeds at attempt n + 1 |
| CheckedResume.Runner.Body | scripts/checked_resume.py:121-217 | at most sixty attempts; every normal end was decided by the last observation |
| CheckedResume.Runner.Execute | scripts/checked_resume.py:121-251 | over every run: each dispatch directly follows sight of the requested fence, at most sixty are made, success is reported exactly after seeing the matching durable resume, expiry exactly for a fence still in place when time or attempts ran out, and at most one resume is committed if the command refuses a stale fence; and when all goes smoothly after n < 60 failed preparations, success is reported with n + 1 attempts |
| MomentumRotation.RebalanceDays | scripts/cycle11_mechanisms.py:76-79 | a date is a rebalance day exactly when it is `offset` dates into its month, counting earlier dates only |
| MomentumRotation.Gains | scripts/cycle11_mechanisms.py:85-90 | one gain, in order, for every holding quoted on both days, which takes its earlier close to the later one; a division by zero exactly if one of them closed at zero before |
| MomentumRotation.Rotate | scripts/cycle11_mechanisms.py:64-106 | each return times the number of gains is their sum, over the holdings quoted on both days; from the 252nd date on, at the date `offset` dates into its month, the holdings become the `topN` best scored of the symbols quoted 252 and 21 dates before, and else stay; it stops exactly where a close to divide by is zero; and it is the run that only looks back |
| MomentumRotation.NoLookAhead | scripts/cycle11_mechanisms.py:64-106 | whatever dates and closes follow the first k dates, returns and holdings up to there are the same |
| MomentumRotation.ReturnsAreFinal | scripts/cycle11_mechanisms.py:83-93 | later dates only append returns |
| MomentumRotation.TruncationKeepsReturns | scripts/cycle11_mechanisms.py:64-106 | the run on the first k dates gives the first k - 1 returns of the full run |
| MomentumRotation.RankIsRanked | scripts/cycle11_mechanisms.py:96-105 | the ranking holds exactly the measurable symbols, best first |
| MomentumRotation.RankCounts | scripts/cycle11_mechanisms.py:96-105 | every measurable symbol is ranked as often as the universe lists it |
| MomentumRotation.TopIsChosen | scripts/cycle11_mechanisms.py:105 | the holdings are the front of that ranking |
| MomentumRotation.DueIff | scripts/cycle11_mechanisms.py:76-95 | the rebalance test, by counting earlier dates of the same year and month |

## Left out

- The rules of `eligible` and the ledger checks before it: both are open parameters that read the receipts and the ledger, never the memberships.
- SQLite itself: pragmas, integrity checks, query plans, leases, scratch space, VACUUM, the schema checks of the copying rewrite and the capacity plan.
- SHA-256 as a finite function: it is a parameter without collisions, which no finite digest can be.
- JSON documents and their validation: a payload that does not validate is a missing one.
- RowVerification.VerifyRows: the row counts and digests that it reports for each table are not modelled, only whether it accepts.
- MembershipRewrite.MembershipTable.CopyRetained: its refusals of foreign schemas, triggers, indexes and referencing tables are not modelled; it starts where those have passed.
- CandidateCopy.AuditSource: eligibility and the checks of orders, configuration and evidence before it are open predicates over receipts and ledger.
- CandidateCopy.CandidateCopy: deadlines are modelled where the windowed deletion reports progress; elsewhere a deadline only aborts the run before anything is handed out.
- ServiceLog.RotatingLog.Rotate: a crash between two moves, failing moves and flushing are not modelled, and the limit is a parameter.
- Two threads writing the log: the callback lock makes their lines one sequence.
- CommandLine.QuoteRoundTrip: NUL characters and unpaired surrogates, which Windows would not pass on, are characters like any other; the program name has its own rules and is not part of the arguments.
- Decimal precision and float rounding in the ledger, the estimator, the halt study, the detector and the rotation: all are over exact reals.
- SettlementLedger.Simulate: the sleeve return, the break-even cost, the counters and the square root are not modelled, and dates are ordinals.
- Redaction.RedactedIsClean: for several secrets together the condition is sufficient; which other registries happen to be clean depends on how their secrets overlap each other, and only the extremes (one secret, or any company) have exact conditions.
- Redaction.AlwaysProtectedIff: takes some character that the secret does not use, to build the company that makes it leak; a secret using every character there is would have none.
- Redaction of objects the redactor does not look into, aliasing of copied containers, and case folding, which is a parameter.
- RobustBaseline.MeasurableIff: the rules behind "enabled" and "fit" are two flags and the logarithm is a parameter; the price family, rounding and event construction are not modelled.
- CheckedResume.Runner.Execute: file digests, configuration and bindings are readings of a guard, the clock and sleeps are moments of the script, and the reason text and printed result are not modelled.
- MomentumRotation.Rotate: `offset` and `top_n` are not negative; a negative offset would count from the end of the month and look ahead.
- Research scripts that fetch, print or compare numbers, the dashboards and the command-line wiring.
