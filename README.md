# OCPP charging-log session engine

A Dafny model of the charging-log analysis core of an OCPP 1.6 back end. The back end takes a
log of OCPP messages from one charge point, such as StartTransaction, StopTransaction,
StatusNotification and MeterValues. From that log it rebuilds the charging sessions of
connector 1 and connector 2, classifies how each one ended, and aggregates them into a summary.

The core exists in two generations, and both are modelled.

- **The current engine** (`backend/main.py`) is modelled in `enhanced_partition.dfy`,
  `enhanced_sessions.dfy`, `meter_stats.dfy`, `enhanced_metrics.dfy`, `document_ids.dfy` and
  `json_safe.dfy`.
  - It splits decoded events by connector. Connector 0, or a missing connector, goes to both
    connectors.
  - It pairs every StartTransactionRequest with the first StopTransactionRequest stamped strictly
    later.
  - It computes each session's energy, duration and average power.
  - It collects the StatusNotification error codes of the closed window [start, stop] and
    classifies the session as Failed, Successful, Incomplete or Interrupted.
  - It aggregates counts, sums, means and error histograms.
- **The older index-based engine** (`backend/main-original.py`) is modelled in the remaining
  files.
  - It first prepares the log rows (`preprocess.dfy`, `selected_metrics.dfy`):
    - filling connectors by transaction, and by the Preparing/Authorize scan;
    - relabelling statuses by message Id and by the start-mode rule;
    - selecting MeterValues attributes.
  - It then cuts each connector's rows into sessions at every "Preparing" row
    (`session_bounds.dfy`), and chooses each stop by priority:
    1. the session transaction's meterStop;
    2. else the first Available, Faulted or Finishing row;
    3. else Incomplete or No_Clear_Stop.
  - It opens a two-minute error window after the stop.
  - It assigns transactionIds by a tiered forward and backward search that never reuses an id
    (`transaction_ids.dfy`, `report.dfy`).
  - It collects per-row error records, energy and peak power (`session_details.dfy`).
  - It reports error rows outside every session as idle errors (`idle_errors.dfy`).
  - It classifies every session and picks its display error (`stop_classification.dfy`).
  - It summarises each connector (`summary_original.dfy`) and reports the date range of the log
    (`date_details.dfy`).

The step-by-step parts keep their own form:
- loops become methods proved against specification functions;
- in-place updates of the frame become methods over an `array`;
- the boolean session mask of the idle-error scan is an `array<bool>`.

The decision trees and recursive helpers are functions with lemmas about them.

## Model

| member | source | states |
|---|---|---|
| JsonSafety.JsonSafeCleans | backend/main.py:291-303 | the sanitised value has no NaN or infinity anywhere, and keeps the shape of the input (same keys, same list lengths) |
| JsonSafety.JsonSafeKeepsClean | backend/main.py:291-303 | a value that is already JSON-safe is returned unchanged |
| JsonSafety.JsonSafeIdempotent | backend/main-original.py:341-356 | sanitising twice gives the same value as sanitising once |
| DocumentIds.NumericIds | backend/main.py:281 | the numeric ids are exactly the values of the all-digit document ids |
| DocumentIds.MaxNat | backend/main.py:286 | the maximum is one of the ids and no id exceeds it |
| DocumentIds.NextDocumentId | backend/main.py:276-288 | the next id is larger than every numeric id, equals one of them plus 1, and is 1 when there is no numeric id |
| EnhancedPartition.ConnectorRows | backend/main.py:321-325 | a connector's frame holds exactly the events whose connector is that connector or 0 (a missing one counting as 0), each with its multiplicity, in log order |
| Seqs.Filter | backend/main.py:324-325 | boolean-mask selection keeps exactly the selected elements, each with its multiplicity, in order |
| Seqs.FilterAppend | backend/main.py:324-325 | selecting from a concatenation is selecting from each part, in turn |
| EnhancedPartition.ConnectorRowsAppend | backend/main.py:321-325 | partitioning a log read in two parts gives the first part's rows followed by the second part's, so the partition never reorders rows |
| EnhancedPartition.SharedRowInBothPartitions | backend/main.py:321-325 | an event with connector 0 or no connector appears in both frames |
| EnhancedPartition.OtherConnectorDropped | backend/main.py:324-325 | an event of any other connector appears in neither frame |
| EnhancedSessions.FirstStopAfter | backend/main.py:371-374 | the stop found is the first StopTransactionRequest row stamped strictly after the start; none is found only when no such row exists |
| EnhancedSessions.WindowErrorsMembers | backend/main.py:390-404 | a code is collected iff it is not "NoError" and some StatusNotification stamped within [start, stop] carries it, a missing code counting as "NoError" |
| EnhancedSessions.ScanStatuses | backend/main.py:396-406 | the status loop returns exactly the window's error codes, and whether Charging was seen in the window |
| EnhancedSessions.MeterRowsIn | backend/main.py:419-424 | the meter rows are the MeterValuesRequest rows on the session's connector stamped within [start, stop], each with its multiplicity, in log order |
| EnhancedSessions.BuildSession | backend/main.py:363-467 | the loop body builds exactly the session record the specification gives for that start row |
| EnhancedSessions.StartRows | backend/main.py:356 | the start rows are the StartTransactionRequest rows, each with its multiplicity, in log order |
| EnhancedSessions.Sessions | backend/main.py:363-467 | one session record per StartTransactionRequest, in row order |
| EnhancedSessions.BuildSessions | backend/main.py:360-467 | the loop appends exactly one record per start row, in order |
| EnhancedSessions.UnpairedSession | backend/main.py:447-467 | a session has no end iff no stop is stamped after its start; it is then Incomplete, with zero duration and energy, meter stop equal to meter start, reason "Not Completed" and errors "No Stop Transaction" |
| EnhancedSessions.PairedSession | backend/main.py:366-385 | a paired session ends at the first later stop, strictly after its start, with duration (stop - start)/60 minutes; its meterStop (meterStart when the stop has none), transactionId and reason ("Normal" when absent) are that stop's; its start time, meterStart (0 when absent) and idTag ("Unknown" when absent) are the start's |
| EnhancedSessions.SessionEnergy | backend/main.py:366-387 | energy is (meterStop - meterStart)/1000 when that is positive and 0 otherwise, so it is never negative; a missing meterStart is 0; average power is energy / hours for a positive duration and 0 when the duration in hours is 0; the duration in minutes is 60 times the duration in hours |
| EnhancedSessions.OutcomeRule | backend/main.py:409-416 | the outcome follows the priority rule: any window error gives Failed; else Charging seen and over 1 minute gives Successful; else under 1 minute gives Incomplete; else Interrupted. Every case is stated as an iff |
| EnhancedSessions.ErrorsMatchOutcome | backend/main.py:443 | a session lists error codes iff it Failed; that list is never empty; a Successful session's errors are "None" |
| EnhancedSessions.OneMinuteIsInterrupted | backend/main.py:411-416 | a session of exactly one minute with no errors is Interrupted |
| EnhancedSessions.TwoStartsShareAStop | backend/main.py:371-374 | two starts before one stop both pair with that stop, because a second start does not close the first session |
| MeterStats.Max | backend/main.py:562 | the maximum is one of the readings and none exceeds it |
| MeterStats.MaxOrZero | backend/main.py:562 | the peak is 0 with no reading, else the largest reading |
| MeterStats.ExtractMeterStats | backend/main.py:530-564 | the nested loops give the mean voltage and mean current of the samples (0 when there are none), and the largest Power.Active.Import reading in kW (0 when there is none) |
| EnhancedMetrics.CountResult | backend/main.py:501-506 | the count of sessions with an outcome never exceeds the number of sessions |
| EnhancedMetrics.SessionsListing | backend/main.py:490-497 | the number of sessions with an outcome that list a code is at most that outcome's count |
| EnhancedMetrics.HistogramCountsSessions | backend/main.py:490-497 | a code's histogram entry equals the number of sessions with that outcome that list it, because each session adds each distinct code once |
| EnhancedMetrics.PositiveAvgPowers | backend/main.py:511 | the averaged powers are the positive per-session average powers, each with its multiplicity, in session order |
| EnhancedMetrics.SessionTotals | backend/main.py:507-512 | Total Energy is never negative and is 0 iff every session delivered 0; the average duration is the total hours times 60 over the session count; Average Power is positive iff some session has a positive average power |
| EnhancedMetrics.PeakPower | backend/main.py:512 | the peak is the largest per-session peak when some peak is positive, else 0 |
| EnhancedMetrics.CountsAddUp | backend/main.py:500-506 | Successful + Failed + Incomplete + Interrupted = Total Sessions |
| EnhancedMetrics.AddLabels | backend/main.py:494-497 | adding one session's codes increments each code's count by one |
| EnhancedMetrics.CountErrorCodes | backend/main.py:487-497 | the histogram loop returns the counts of the codes over the sessions with that outcome |
| EnhancedMetrics.BuildSessionsEnhanced | backend/main.py:339-527 | returns the session list of the specification and its metrics |
| EnhancedMetrics.NoStartsNoMetrics | backend/main.py:342-353 | without a StartTransactionRequest there are no sessions, every count and total is 0 and both histograms are empty |
| EnhancedMetrics.SuccessfulErrorsAlwaysEmpty | backend/main.py:474-484 | the Successful Session Errors histogram is always empty |
| EnhancedMetrics.NoSuccessfulLabels | backend/main.py:477-484 | when Successful sessions carry no codes, they contribute no labels |
| EnhancedMetrics.FailedReasonsCountSessions | backend/main.py:487-504 | each Failed Session Reasons entry counts the Failed sessions listing that code, and is at most Failed Sessions |
| EnhancedMetrics.GenerateSummary | backend/main.py:567-612 | the deprecated summary equals the counting part of the metrics |
| EnhancedMetrics.ProcessOcppLogs | backend/main.py:309-336 | each connector gets the sessions of its own frame, and metrics computed from exactly those sessions |
| LogRows.FirstIn | backend/main-original.py:1123 | the first row of a range with a property, or none when no row has it |
| LogRows.LastIn | backend/main-original.py:1214 | the last row of a range with a property, or none when no row has it |
| LogRows.StartModeOf | backend/main-original.py:1350-1356 | exactly one start mode: Auto iff the idTag contains "VID", RFID iff it does not and has 8 characters, Remote otherwise |
| LogRows.MissingTagIsRemote | backend/main-original.py:912-914 | a missing idTag, read as the text "nan" or "None", counts as a Remote start |
| Text.StripLeft | backend/main-original.py:589 | stripping the front removes only whitespace and keeps a suffix that does not start with whitespace |
| Text.StripRight | backend/main-original.py:589 | stripping the back removes only whitespace and keeps a prefix that does not end with whitespace |
| Preprocess.FirstConnectorFor | backend/main-original.py:598-606 | the connector of the first row of that transaction that has one; none iff no such row exists |
| Preprocess.ConnectorsFilled | backend/main-original.py:595-614 | only the connector can change; a row that has a connector keeps it; a row without one but with a transaction takes the connector of that transaction's first row that has one |
| Preprocess.ConnectorsFilledIdempotent | backend/main-original.py:595-614 | filling a second time changes nothing |
| Preprocess.FillConnectorsByTransaction | backend/main-original.py:595-614 | the in-place loop leaves the frame equal to the filled rows |
| Preprocess.AcceptedIds | backend/main-original.py:841 | the collected Ids are exactly those of the command's rows with status "Accepted" |
| Preprocess.AcceptanceRelabelledStatus | backend/main-original.py:838-853 | rows sharing an Id with an Invalid AuthorizeResponse are dropped and the rest keep their order; each kept row changes only in its status: an Id accepted by an AuthorizeResponse (or marked by the early steps and carried by one) ends "Accepted", an Id accepted by a StartTransaction or RemoteStartTransaction response ends "meterStart" on a StartTransactionRequest and "Accepted" elsewhere, an accepted StartTransactionRequest ends "meterStart", and every other row keeps its status |
| Preprocess.DropIds | backend/main-original.py:839 | the rows kept are those whose Id is not in the set, each with its multiplicity, in order |
| Preprocess.InvalidIds | backend/main-original.py:838 | the Ids collected are exactly those of AuthorizeResponse rows with status "Invalid" |
| Preprocess.ResponsesNeverMeterStart | backend/main-original.py:838-853 | the relabelling never turns a StartTransactionResponse into "meterStart" |
| Preprocess.Scan | backend/main-original.py:869-881 | the `while True` scan only stops on an accepted Authorize row, and only for a Preparing row with a connector |
| Preprocess.Target | backend/main-original.py:864-881 | the row a Preparing row stamps is a later accepted Authorize row |
| Preprocess.AuthorizeFilled | backend/main-original.py:864-881 | the outer loop keeps the frame length |
| Preprocess.AuthorizeFilledKeeps | backend/main-original.py:860-881 | the fill changes only the connector, and only of accepted Authorize rows |
| Preprocess.AuthorizeFilledAgrees | backend/main-original.py:860-881 | every field the scan reads is left as it was |
| Preprocess.LastStamper | backend/main-original.py:864-881 | the last Preparing row whose scan stamps a given row |
| Preprocess.AuthorizeFilledStamp | backend/main-original.py:860-881 | a row ends with the connector of the last Preparing row that stamped it, and is untouched when none did |
| Preprocess.ScanStep | backend/main-original.py:869-881 | one step of the scan on the current array makes the same decision as on the original rows |
| Preprocess.FindTarget | backend/main-original.py:866-881 | the scan on the array finds exactly the specified target |
| Preprocess.FillAuthorizeConnectors | backend/main-original.py:860-881 | the in-place loop leaves the frame equal to the specified fill |
| Preprocess.MapTids | backend/main-original.py:885-889 | a row whose Id was last seen on a StartTransactionResponse labelled "meterStart" with a transactionId takes that transactionId; every other row and every other field is unchanged |
| Preprocess.MapTidsIdentity | backend/main-original.py:885-889 | with no StartTransactionResponse labelled "meterStart", the mapping changes nothing |
| Preprocess.MappingKeepsStamped | backend/main-original.py:838-889 | when the log labels no StartTransactionResponse "meterStart", the mapping leaves the filled and relabelled frame unchanged |
| Preprocess.IdMapLast | backend/main-original.py:886 | `to_dict` maps every selected Id to the value of the last selected row with that Id |
| Preprocess.DropCommands | backend/main-original.py:898-904 | exactly the rows of the five dropped commands are removed; the others stay, each with its multiplicity, in order |
| Preprocess.RelabelRule | backend/main-original.py:911-929 | a StartTransactionRequest is relabelled by the start-mode rule (a missing tag giving "REMOTE-Start"); a row matching no condition keeps its status |
| Preprocess.ResponseConnectors | backend/main-original.py:932-938 | a StartTransactionResponse takes the connector of the last StartTransactionRequest with its Id when that request has one; no other row and no other field changes |
| Preprocess.ConnectorFrame | backend/main-original.py:939-940 | a connector's frame holds the rows on that connector or on connector "0", each with its multiplicity, in order |
| Preprocess.MissingConnectorInNeither | backend/main-original.py:939-940 | a row with no connector reaches neither frame |
| Preprocess.StampRows | backend/main-original.py:595-881 | the array steps produce the specified rows |
| Preprocess.PrepareFrames | backend/main-original.py:595-940 | the two frames are the connector frames of the fully prepared rows |
| SelectedMetrics.AttributeOf | backend/main-original.py:688-707 | a sample is filed by its exact (measurand, location) entry, else by its measurand alone |
| SelectedMetrics.LastSampleWins | backend/main-original.py:668-717 | an attribute is present iff some stored sample is filed under it, and it holds what the last such sample stored |
| SelectedMetrics.KeysAreAllowed | backend/main-original.py:624-634 | only attribute names of the allowed table appear as keys |
| SelectedMetrics.StoreSample | backend/main-original.py:673-717 | one pass of the inner loop stores the sample as specified |
| SelectedMetrics.StoreSamples | backend/main-original.py:673-717 | the inner loop stores all samples of an entry |
| SelectedMetrics.ExtractSelectedOcppMetrics | backend/main-original.py:663-719 | the nested loops give the selection of all samples, in order |
| SelectedMetrics.PowerInKwhScaled | backend/main-original.py:693-695 | every numeric Power.Active.Import reading, whatever its location, is stored as that attribute: multiplied by 1000 when its unit is kWh, unchanged otherwise |
| SessionBounds.Starts | backend/main-original.py:1058 | the starts are exactly the indices of the "Preparing" rows, ascending |
| SessionBounds.SessionTid | backend/main-original.py:1114-1131 | the transactionId of the first StartTransaction request or response carrying one, else of the first row carrying one; none only when no row of the range has one |
| SessionBounds.FindStop | backend/main-original.py:1140-1195 | the stop follows the priority: the first meterStop of the session's transaction, else the first Available/Faulted/Finishing row, else the last row, Incomplete iff it is Charging; always start <= stop < search end |
| SessionBounds.ErrorWindowEnd | backend/main-original.py:1200-1230 | the window ends at the last row in [stop, search end) stamped no later than stop + 2 minutes, or at the stop when it has no time |
| SessionBounds.BoundsFor | backend/main-original.py:1096-1232 | start <= stop <= error window end < search end |
| SessionBounds.AllBounds | backend/main-original.py:1094-1232 | one bounds record per Preparing row |
| SessionBounds.AllBoundsFramed | backend/main-original.py:1105-1109 | every session lies within its own search range, from its Preparing row to before the next one |
| SessionBounds.SessionsDisjoint | backend/main-original.py:1105-1109 | each session's error window ends before the next session starts |
| SessionBounds.NoPreparingNoSessions | backend/main-original.py:1058-1062 | no Preparing row means no sessions |
| SessionBounds.SessionBoundsAt | backend/main-original.py:1096-1232 | the loop body computes the specified bounds |
| SessionBounds.FindSessionBounds | backend/main-original.py:1094-1232 | the loop over the starts gives all the bounds, in order |
| TransactionIds.OrElse | backend/main-original.py:1443 | the next tier is consulted only when the current one found no usable id |
| TransactionIds.ForwardTid | backend/main-original.py:1407-1485 | an unassigned id from [start, next start): the first usable StartTransactionRequest (on the session's connector when it has one), else the first usable StartTransactionResponse, else the first usable StopTransactionRequest, else the first usable row, each tier consulted only when the earlier ones gave no non-empty id |
| TransactionIds.BackwardResponseTid | backend/main-original.py:1496-1521 | none without a connector; else the id of the last usable StartTransactionResponse of the backward range on the session's connector, else of the last one on any connector |
| TransactionIds.BackwardRequestTid | backend/main-original.py:1525-1544 | none without a connector; else the id of the last usable StartTransactionRequest of the backward range on the session's connector, none when there is none |
| TransactionIds.BackwardOpenTid | backend/main-original.py:1549-1574 | the id of the last usable row of the backward range, unless a StopTransaction request or response in that range carries it; none when no row is usable |
| TransactionIds.BackwardTid | backend/main-original.py:1492-1574 | the response tier, else the request tier, else the open-transaction tier, the first giving a non-empty id |
| TransactionIds.ExpandedTid | backend/main-original.py:1581-1607 | none unless the session reached Charging and has a connector; else the id of the last usable row on that connector among the 500 rows before the start |
| TransactionIds.AssignedTid | backend/main-original.py:1400-1611 | the forward tiers, else the backward tiers, else the expanded tier, the first giving a non-empty id, else none; an assigned id is non-empty, was not given to an earlier session, and is carried by a row between 500 rows before the start and the next start |
| TransactionIds.ForwardRequestFirst | backend/main-original.py:1418-1438 | the first usable StartTransactionRequest ahead, on the session's connector, decides the id |
| SessionDetails.FirstPresentIsFirst | backend/main-original.py:1312-1314 | the first present value comes from a row of the range with none before it; none only when no row has one |
| SessionDetails.LastPresentIsLast | backend/main-original.py:1727-1735 | the last present value comes from a row of the range with none after it; none only when no row has one |
| SessionDetails.MaxPresentIsMax | backend/main-original.py:1738-1742 | the maximum is a value of the range that no other value exceeds; none only when no row has one |
| SessionDetails.Keep | backend/main-original.py:1654-1667 | a field is kept iff its value is informative, and it is kept unchanged |
| SessionDetails.ErrorsIn | backend/main-original.py:1622-1674 | at most one record per row of the range |
| SessionDetails.ErrorsInInformative | backend/main-original.py:1644-1671 | every record carries at least one informative value |
| SessionDetails.ScanErrorFields | backend/main-original.py:1637-1641 | the loop over the five fields finds an informative one iff the row has one |
| SessionDetails.CollectErrors | backend/main-original.py:1622-1674 | the row loop returns exactly the specified records, in order |
| SessionDetails.RowRecordInErrors | backend/main-original.py:1625-1671 | every row with an informative field contributes its record |
| SessionDetails.ErrorsFromRows | backend/main-original.py:1625-1671 | every record comes from a row of the range with an informative field |
| SessionDetails.ErrorsInRecordsRows | backend/main-original.py:1622-1674 | the records are exactly those of the rows with an informative field |
| SessionDetails.StartFlags | backend/main-original.py:1332-1356 | with a StartTransaction idTag the flags follow the start-mode rule; otherwise they are the statuses seen in the session |
| SessionDetails.BackwardStart | backend/main-original.py:1384-1387 | the backward search begins at most 200 rows back and not before the previous start: it is the start - 200, row 0 or the previous start |
| SessionDetails.SessionEnergy | backend/main-original.py:1680-1707 | energy is present iff the session has a meterStart and an end reading (the last meterStop, else the last energy register value) |
| SessionDetails.SessionEnergyFromMeterStop | backend/main-original.py:1680-1707 | the energy is (last meterStop of the full session - first meterStart of the session)/1000 |
| SessionDetails.SessionEnergyFromRegister | backend/main-original.py:1694-1707 | without any meterStop, the last Energy.Active.Import.Register reading of the full session stands in for it |
| SessionDetails.PeakPowerIsMax | backend/main-original.py:1712-1720 | the peak is a Power.Active.Import reading of the full session, in kW, that no reading there exceeds |
| SessionDetails.SessionTidFor | backend/main-original.py:1376-1611 | the id given to session i was not given to an earlier session |
| SessionDetails.DetailsWith | backend/main-original.py:1277-1742 | the record keeps its bounds, its id and its error records, and is Charging iff Charging was seen from start to stop |
| SessionDetails.SessionRecord | backend/main-original.py:1277-1742 | the record keeps its bounds and id, and is Charging iff Charging was seen |
| SessionDetails.PreparingAlwaysSet | backend/main-original.py:1329-1333 | every session has its Preparing flag set |
| SessionDetails.ExactlyOneStartMode | backend/main-original.py:1344-1356 | a session whose StartTransaction has an idTag sets exactly one start mode |
| SessionDetails.SessionDetailsAt | backend/main-original.py:1277-1742 | the loop body builds the specified record |
| Report.FreshTidKeepsDistinct | backend/main-original.py:1376-1378 | adding an id not yet assigned keeps the assigned ids distinct |
| Report.AllFramedWellFramed | backend/main-original.py:1277-1300 | bounds framed session by session lie within the rows, in order |
| Report.AssignedTids | backend/main-original.py:1376-1611 | the transactionId column of the first n sessions never repeats an id |
| Report.RecordsOf | backend/main-original.py:1277-1742 | one record per session |
| Report.RecordsOfKeys | backend/main-original.py:1277-1742 | record k has the bounds and the id it was built from |
| Report.SessionRecords | backend/main-original.py:1094-1766 | one record per Preparing row |
| Report.SessionTidsDistinct | backend/main-original.py:1376-1611 | no two session records share a transactionId |
| Report.RecordsLoop | backend/main-original.py:1277-1742 | the loop over the sessions builds exactly the specified records |
| Report.SessionLoop | backend/main-original.py:1094-1766 | bounds first, then records: the specified session records |
| Report.GroupFirst | backend/main-original.py:1771-1781 | `first` over a transaction's group gives the value of its earliest record that has one; none only when no record has one |
| Report.GroupMax | backend/main-original.py:1782-1785 | `max` over a transaction's group is a value of the group that no other value exceeds; none only when no record has one |
| Report.GroupFirstOfSingle | backend/main-original.py:1787-1791 | a group of one record gives back that record's value |
| Report.GroupMaxOfSingle | backend/main-original.py:1787-1791 | a group of one record gives back that record's maximum |
| Report.MergeKeepsDistinctRows | backend/main-original.py:1798-1802 | with distinct ids, the merge gives every session with an id its own values back |
| Report.ReportDf | backend/main-original.py:1038-1836 | the merged session records |
| IdleErrors.IdleUpTo | backend/main-original.py:1012-1030 | at most one entry per row |
| IdleErrors.IdleRowReported | backend/main-original.py:1012-1030 | every row outside all sessions with an informative field is reported |
| IdleErrors.IdleEntryFromRow | backend/main-original.py:1012-1030 | every entry comes from such a row |
| IdleErrors.IdleErrorsExactly | backend/main-original.py:958-1030 | the entries are exactly the idle error rows when there is a session, and none otherwise |
| IdleErrors.SessionRowsNeverIdle | backend/main-original.py:969-979 | no row from a session's start through its error window is idle |
| IdleErrors.MarkRange | backend/main-original.py:979 | the slice [start, end] is set and nothing else changes |
| IdleErrors.CoveredSnoc | backend/main-original.py:969-979 | the rows covered after one more session are those covered before plus that session's rows |
| IdleErrors.MarkSessions | backend/main-original.py:966-979 | the mask is set exactly on the rows some clamped session range covers |
| IdleErrors.DetectIdleErrors | backend/main-original.py:958-1033 | the scan returns exactly the specified idle errors |
| StopClassification.ByReason | backend/main-original.py:1943-1965 | never Incomplete; reason Remote or Local gives Successful, EVDisconnected gives Failed, Reboot gives Successful iff there is no real error; any other reason defers to StopReason (Successful iff it is a clean one), and without StopReason Successful iff there is no real error |
| StopClassification.StopOf | backend/main-original.py:1894-1999 | the decision tree: Incomplete iff the stop type is Incomplete; none iff the session never charged; Successful for SoC >= 99; Failed for Faulted and No_Clear_Stop; the reason rule for meterStop, Available and Finishing |
| StopClassification.ClosingStopsAgree | backend/main-original.py:1943-1996 | meterStop, Available and Finishing stops are judged alike: swapping one for another never changes the verdict |
| StopClassification.CleanCloseSucceeds | backend/main-original.py:1962-1996 | a charging session closed with neither reason nor StopReason is Successful iff it has no real error or its SoC is at least 99 |
| StopClassification.ScanRecord | backend/main-original.py:1910-1932 | the loop over one record finds a real error iff the record has one |
| StopClassification.ScanRealErrors | backend/main-original.py:1908-1934 | the loop over the records finds a real error iff one of them has one |
| StopClassification.SetStop | backend/main-original.py:1872-2009 | the classification equals the decision tree |
| StopClassification.FirstTruthy | backend/main-original.py:2027-2029 | the first non-empty value, or none when all are empty |
| StopClassification.VendorErrorOf | backend/main-original.py:2011-2059 | "Precharging Failure" for a session that never charged; the first record's first value when there is one; else info, else vendorErrorCode, else a StopReason other than "NoError", else "EVDisconnected" when the reason is EVDisconnected and SoC < 99, else none |
| StopClassification.KeptTruthy | backend/main-original.py:1654-1667 | a kept field is never empty |
| StopClassification.RecordValuesTruthy | backend/main-original.py:1644-1671 | no value of an error record is empty |
| StopClassification.FirstRecordShown | backend/main-original.py:2022-2029 | a charging session with a record shows that record's first value |
| StopClassification.RecordedErrorShown | backend/main-original.py:2022-2029 | a charging session that collected an error shows the first value of its first error record |
| StopClassification.Classified | backend/main-original.py:2006-2065 | a report row keeps its session and carries its classification |
| StopClassification.ConnectorReport | backend/main-original.py:2006-2078 | every session is classified, in order; the last row is dropped exactly when it has a transactionId, no reason, charged and is not Incomplete |
| StopClassification.IncompleteLastKept | backend/main-original.py:2070-2073 | an Incomplete last session is never dropped |
| OriginalSummary.CountIf | backend/main-original.py:443-453 | a flag count never exceeds the number of sessions |
| OriginalSummary.CountStop | backend/main-original.py:432-434 | a classification count never exceeds the number of sessions |
| OriginalSummary.StopCountsAddUp | backend/main-original.py:432-434 | the Successful, Failed, Incomplete and unclassified counts add up to the number of sessions |
| OriginalSummary.ColumnAppend | backend/main-original.py:382-401 | a numeric column is built row by row: one row gives its value when present, and the column of a concatenation is the concatenation of the columns, so order and repetition are kept |
| OriginalSummary.Column | backend/main-original.py:382-401 | a numeric column never has more values than there are sessions |
| OriginalSummary.ColumnValues | backend/main-original.py:382-401 | a value is in the column iff some session has it present |
| OriginalSummary.RecordLabelsHold | backend/main-original.py:418-420 | a record contributes a label iff one of its values is countable |
| OriginalSummary.HistogramLabelFromSession | backend/main-original.py:404-430 | every histogram key is a countable value of an error record of a session with that classification |
| OriginalSummary.SessionLabelInHistogram | backend/main-original.py:404-430 | every countable value of such a record appears in the histogram |
| OriginalSummary.CountValues | backend/main-original.py:418-420 | the loop over one record counts its countable values |
| OriginalSummary.CountRecords | backend/main-original.py:415-420 | the loop over a session's records counts all their values |
| OriginalSummary.ErrorSummary | backend/main-original.py:412-430 | the histogram loop gives the counts of the countable values over that classification's sessions |
| OriginalSummary.PeakIsLargestPower | backend/main-original.py:454 | the peak power is the largest power reading in kW, or 0 when there is none |
| OriginalSummary.EmptyGuardAgrees | backend/main-original.py:361-378 | the empty-frame shortcut gives the same dict as the general computation on no rows |
| OriginalSummary.SummaryCountsAddUp | backend/main-original.py:432-434 | Successful + Failed / Error + Incomplete + the unclassified precharging failures = the number of rows |
| OriginalSummary.BuildSummary | backend/main-original.py:359-460 | all-zero counts and empty histograms for an empty frame, else the computed summary |
| DateDetails.Format | backend/main-original.py:528 | the date column is ten characters, dd/mm/YYYY |
| DateDetails.ParseDate | backend/main-original.py:528 | only a valid calendar day is read back |
| DateDetails.ParseFormat | backend/main-original.py:528 | every formatted day reads back as itself, so the column loses no information |
| DateDetails.MinString | backend/main-original.py:500 | `min` gives a string of the column that is no greater than any other |
| DateDetails.MaxString | backend/main-original.py:500 | `max` gives a string of the column that is no smaller than any other |
| DateDetails.DateDetailsAsWritten | backend/main-original.py:499-500 | as written, on a column of date strings, the range is the smallest and the largest string of the column |
| DateDetails.LexicalRangeReversed | backend/main-original.py:499-500 | a log from 15/12/2023 to 02/01/2024 is reported as starting on 02/01/2024 and ending on 15/12/2023 |
| DateDetails.Earliest | backend/main-original.py:499-500 | the earliest day is a day of the log no later than any other |
| DateDetails.Latest | backend/main-original.py:499-500 | the latest day is a day of the log no earlier than any other |
| DateDetails.DateRangeBoundsEveryDay | backend/main-original.py:499-500 | corrected: the range starts on a day no later than any day of the log and ends on one no earlier |
| DateDetails.CalendarRangeInOrder | backend/main-original.py:499-500 | corrected: the example log runs from 15/12/2023 to 02/01/2024 |
| DateDetails.PyExtremumOutcome | backend/main-original.py:500 | `min`/`max` over the date column: over strings only, a string of the column bounding every other; over NaN only, NaN; over a column holding both, TypeError |
| DateDetails.CellsMixed | backend/main-original.py:511-527 | the column mixes strings and NaN exactly when one stamp parsed and another did not |
| DateDetails.DateDetailsOfStamps | backend/main-original.py:499-527 | as written: one unparseable `real_time` beside a parsed one makes `date_details` raise; with every stamp parsed, the range bounds every formatted day; with none parsed, both dates are NaN |
| DateDetails.CorrectedDateDetailsBounds | backend/main-original.py:499-527 | corrected: a range exists iff some stamp parsed, and it runs from a parsed day no later than any other to one no earlier than any other |
| DateDetails.MissingStampRaises | backend/main-original.py:499-527 | a log whose second stamp does not parse makes `date_details` raise as written, while the corrected range is that one parsed day |

## Left out

- HTTP endpoints, CORS and server start-up: transport only.
- MongoDB and Firestore: `cp_details`, the upload and lookup endpoints and the document stream of
  `get_next_document_id` are external services. Only the "largest numeric id + 1, else 1"
  arithmetic is modelled, over a given list of ids.
- File decoding (`read_csv` / `read_excel`), JSON decoding of payloads, `find_json_column` and
  the regex field extraction of `final_process`: the model starts from decoded events
  (`Events.Event`) and from log rows whose fields are already extracted (`LogRows.LogRow`).
- Timestamp parsing and `strftime`: timestamps are whole seconds. They are always present in the
  current engine, and optional (NaT) in the older one. Only the `dd/mm/YYYY` date column is
  formatted, since `date_details` works on it; a NaT stamp is a NaN cell of that column
  (`DateDetails.Cell`), whose effect on `date_details` is the second finding below.
- Rounding: `round(..., 1)`, `round(..., 2)` and `round(..., 3)` are not modelled, and every
  quantity is an exact `real`.
- EnhancedSessions.OutcomeRule: compares the exact duration in minutes against 1. The source
  compares the duration already rounded to 0.1 minute, so a session of 59.96 seconds is
  Interrupted in the source and Incomplete here.
- Console logging and the debug `to_csv` dumps.
- Exceptions: the `try/except` fallbacks of `set_stop`, `set_vendorErrorCode` and
  `extract_meter_stats` cover type errors, which cannot occur on the typed model. The bare
  `except: return 1` of `get_next_document_id` (`backend/main.py:287-288`) also catches a failing
  Firestore stream and an `int()` that rejects a digit string `isdigit()` accepted (such as a
  superscript digit). That fallback to 1 on a database or conversion failure is not modelled:
  the model starts from the list of ids and converts only ASCII digit strings.
- Text.StripLeft, Text.StripRight: remove only the ASCII whitespace characters (space, tab, line
  feed, carriage return, vertical tab, form feed). Python's `str.strip()` also removes
  `\x1c`-`\x1f`, `\x85`, `\xa0` and the other Unicode spaces, so a field padded with those is
  stripped in the source and kept as it is here, which can change `Significant` and the idle
  and error masks built on it.
- DocumentIds.NumericIds: accepts ASCII digits only. Python's `str.isdigit()` (`backend/main.py:281`)
  also accepts other Unicode digits, which the source then converts with `int()` or, failing
  that, answers with the fallback above.
- pandas type coercion: `to_numeric(errors='coerce')`, NaN versus None, and `astype(str)` of
  numbers are modelled through `Option` and typed fields. The drop-last test compares `reason`
  with `None`. A session without a transactionId gets NaN from the left merge, which is not
  None, so that session is never dropped (`StopClassification.Unfinished`).
- StopClassification.ConnectorReport: for a session with a transactionId whose group holds no
  reason at all, `first` is read as None, so the row can be dropped. If pandas gives NaN there
  instead (NaN == None is False), the source keeps that row.
- EnhancedSessions.SessionEnergy: average power divides by the exact duration in hours. The source
  (`backend/main.py:385-387`) tests and divides by `duration_hrs` already rounded to 0.01 hour. So
  a paired session shorter than 18 seconds has average power 0 there, and is left out of
  Average Power (`backend/main.py:511`), while the model gives it a positive value and counts it.
- EnhancedMetrics.HistogramCountsSessions: assumes error codes hold no comma and no surrounding
  whitespace. The source joins a session's codes with ", " and splits them back, which would
  break such a code apart.
- `transferConnectId` (`backend/main-original.py:830-836`) is not modelled separately. It runs
  after the connector fill by transaction, and can only fill what that fill already filled.
- The column-existence checks (`valid_cols`, `'transactionId' in search_df.columns`) are always
  true in the model, because every log row has every column.
- `idle_errors if idle_errors else []`: the idle error list is passed through unchanged, since an
  empty list and `[]` are the same.
- The `"date"` key of the response: it is absent for an empty log. `date_details` itself is only
  modelled on a non-empty column.
- `analyze_log.py` is not part of this model: it only prints samples of one fixed file.

## Findings

| source | as written | input that shows it | evidently intended | confidence | as-written member | corrected member |
|---|---|---|---|---|---|---|
| backend/main-original.py:499-500 | `date_details` takes `min` and `max` of the `dd/mm/YYYY` date strings, which orders them by day of month first | a log from 15/12/2023 to 02/01/2024 is reported with start date 02/01/2024 and end date 15/12/2023 | the earliest and the latest calendar day of the log, formatted as the column is | not executed | DateDetails.LexicalRangeReversed | DateDetails.DateRangeBoundsEveryDay |
| backend/main-original.py:499-527 | `real_time` is parsed with `errors="coerce"` and formatted with `strftime`, so an unparseable stamp becomes NaN in the `date` column, and `min`/`max` then compare a `str` with a `float` | a two-row log whose first stamp is 15/12/2023 and whose second does not parse: `date_details` raises TypeError and the report fails | the range of the stamps that parsed, here 15/12/2023 to 15/12/2023 | not executed | DateDetails.MissingStampRaises | DateDetails.CorrectedDateDetailsBounds |
