# Recruitment backend: verified model

A Dafny model of the parts of the recruitment backend that hold real state or
real arithmetic, with proofs of what they keep. Verify it with
`dafny verify dfyconfig.toml`.

An area that changes rows has up to four layers. A *specification* module gives
the tables as a value and every call as a function from tables to tables and a
reply, refusals included. A *service* module gives a class whose fields are the
tables and whose methods, written statement by statement as the services are,
are proved equal to those functions. A *calls* module says of each call, in terms
of nothing but the columns, when it answers what and what it leaves of every row.
The remaining modules prove, about the functions, what holds after any run of
calls, in any order, with any arguments.

| area | modules |
|---|---|
| Hiring Approval Sheets | ApprovalSheets, ApprovalCalls, ApprovalSafety, ApprovalRuns, ApprovalDecisions, ApprovalNumbers, BoardService, VoteRace, ResendRace, SheetReferences, IdLists |
| First-interview hand-over | FirstInterview, HandOverCalls, FirstInterviewService, DelegationProgress |
| Interview rounds, links and marks | InterviewRounds, RoundCalls, RoundSafety, RoundRuns, RoundService |
| Months of service | ServiceMonths |
| Question papers | Shuffle |
| Emailed application codes | ApplyCodes, ApplyCodeRuns, ApplyEmailService, EmailAddress, Base64Url, VerificationToken |
| Image headers | ImageSize |
| Account lock | Lockout |
| Printed IDs | ReferenceIds, SheetReferences, Decimal |

## What the proofs found

Where a promise does not hold as one would wish, the code is kept as it is, the
failing case is shown, and the condition under which the promise does hold is
proved.

- A board decision on a sheet need not be final, in either direction: answering
  does not look at the sheet's status. `ApprovalDecisions.DecisionIsFinal` says
  that whatever is called from then on a decision stands exactly when no link of
  its sheet is live at that moment. `ApprovalDecisions.DecisionIsOverturned` gives
  the condition for one call, `ApprovalDecisions.LaterBoardAnswerWins` says that of
  two live board links the later answer wins whatever the two are, and
  `ApprovalDecisions.RefusedSheetCanBeApproved` gives a run in which a refused
  sheet is approved. A CHRO rejection is final (`ApprovalRuns.ChroRejectionIsFinal`).
- After ten thousand sheets of a year the numbering proposes the ten thousandth
  reference again, which the unique column refuses, whatever the table holds of
  other years: `SheetReferences.NextIsTaken`,
  `ApprovalNumbers.SendingFailsAfterTenThousand`. `ApprovalNumbers.YearRunsOut`
  gives the run.
- A resend whose read and write have an answer between them asks that person
  again: `ResendRace.ResendAsksTwice` gives the exact condition and
  `ResendRace.AnswerThenAskedAgain` the run. A CHRO asked twice can approve a sheet
  and reject it later (`ResendRace.ChroApprovesAndRejects`).
- An edit may give a live round a kind its candidate already has a live round
  of. `RoundRuns.OneLiveAtEveryPoint` says that this is the only way to get two,
  `RoundRuns.KindEditsMakeTwoLive` gives a run of three calls.
- An edit that changes the panel and the time together leaves the links of
  people on both panels on the old date: `RoundRuns.DatedAfterStep` and
  `RoundRuns.LinksFollowTheDate` give the exact condition,
  `RoundRuns.PanelEditsLeaveLinks` a run of two calls.
- The comment in `apply-email-verification.ts` speaks of five codes in a window;
  in an hour placed anywhere ten can arrive (`ApplyCodeRuns.TenCanArriveInAnHour`),
  which takes a failed mail: while mail works the most is nine
  (`ApplyCodeRuns.NinePerHourWhenMailWorks`), and nine can arrive
  (`ApplyCodeRuns.NineCanArriveWhenMailWorks`).
- A JPEG whose frame header is the very end of the buffer has no size
  (`ImageSize.PrintedStreamReads` asks for one byte more). Section B.1.1.2 of
  ITU-T T.81 allows fill bytes before a marker; before the frame's marker the scan
  takes them for a segment. `ImageSize.FillBytesHideFrame` proves that whole laps
  of 65,537 of them do no harm and that, with at most 49,154 bytes in the rest of
  them and the tail, the size is read exactly when that rest is nothing and
  something follows the header. Only for a longer tail does the answer depend on
  what the tail holds, from the place the lemma names.
- A printed application ID is found again exactly up to number 999,999,999 and
  in years of four digits (`ReferenceIds.PrintedIdIsRead`), though the sequence
  goes on to 2,147,483,647; the pattern takes nine digits, so its test for
  thirty-two bits never refuses anything.

## Model

| member | source | states |
|---|---|---|
| ApprovalRuns.ApprovedSheetsAreSigned | src/modules/board/board.service.ts:1655-1741 | After any run of the calls an approved sheet carries the approval of its own CHRO and of one of its own board members, and board votes exist only on sheets whose CHRO approved. |
| ApprovalRuns.TablesStayInStep | src/modules/board/board.service.ts:1185-1193 | After any run there is at most one approval to a candidate; a row on a sheet shows the sheet's stage and its status, unless HR approved it with a document; and a person has at most one vote, pending or answered, for a sheet at a stage. |
| ApprovalRuns.AnswersStay | src/modules/board/board.service.ts:1684-1688 | A vote once answered is never changed or deleted by any later run. |
| ApprovalRuns.ChroRejectionIsFinal | src/modules/board/board.service.ts:1690-1713 | After the CHRO's rejection the sheet stays rejected through every run and never has a live link again. |
| ApprovalRuns.ResendReachesTheUnanswered | src/modules/board/board.service.ts:1475-1544 | After a resend the live links of the stage belong to exactly the expected people who have not answered and have an email, each on a token never used before. |
| ApprovalRuns.ChroApprovalAsksTheBoard | src/modules/board/board.service.ts:1715-1723 | The CHRO's approval moves the sheet and its rows to the board stage, changing nothing else about any row, and gives links to exactly the board members who can be mailed. |
| ApprovalRuns.ColumnsStayAsSent | src/modules/board/board.service.ts:1105-1126 | A row that is on a sheet at two moments of a run has the same three corrected columns stored at both. |
| ApprovalDecisions.DecisionIsOverturned | src/modules/board/board.service.ts:1660-1734 | One call changes the status of a decided sheet, approved or rejected, exactly when a live link of it answers otherwise, and that link is a board member's. |
| ApprovalDecisions.LaterBoardAnswerWins | src/modules/board/board.service.ts:1660-1741 | With two live board links of one sheet both answers are accepted, whatever they are, and the sheet has the later one. |
| ApprovalDecisions.StatusIsLastAnswer | src/modules/board/board.service.ts:1690-1741 | After any run a sheet has the status of the last accepted answer that decided it, and is pending when there is none. |
| ApprovalDecisions.DecisionIsFinal | src/modules/board/board.service.ts:1660-1741 | A decided sheet keeps its status through every sequence of later calls exactly when no vote of it is pending now. |
| ApprovalDecisions.LastAnswerIsOfItsStage | src/modules/board/board.service.ts:1715-1734 | That answer is the CHRO's rejection while the sheet is with the CHRO and a board member's once it is with the board. |
| ApprovalDecisions.RefusedSheetCanBeApproved | src/modules/board/board.service.ts:1725-1734 | A run from empty tables whose next call approves a sheet the board has refused. |
| ApprovalDecisions.ApprovedCandidatesAreSigned | src/modules/board/board.service.ts:555-577 | After any run an approved candidate has HR's document, or is on an approved sheet that its own CHRO and one of its own board members approved. |
| ApprovalNumbers.YearsAreNumbered | src/modules/board/board.service.ts:1174-1183 | After any run each year's sheets are numbered 1, 2, 3 and so on in the order they were sent, whatever years come between. |
| ApprovalNumbers.YearsReferencesDiffer | src/modules/board/board.service.ts:1262-1273 | After any run a year has at most ten thousand references, and they are pairwise different. |
| ApprovalNumbers.SendingFailsAfterTenThousand | src/modules/board/board.service.ts:1174-1183 | After any run a sheet that passes every other guard is refused exactly when ten thousand of its year were sent, and gets the next number otherwise. |
| ApprovalNumbers.YearFills | src/modules/board/board.service.ts:1174-1193 | For every number up to ten thousand a run from empty tables holds that many sheets of a year. |
| ApprovalNumbers.YearRunsOut | src/modules/board/board.service.ts:1174-1183 | A run from empty tables after whose ten thousand sheets of a year one more, which nothing else stands against, is refused. |
| ApprovalRuns.StepKeepsSheets | src/modules/board/board.service.ts:1137-1213 | No call drops a sheet or changes whom it was sent to. |
| ApprovalSafety.RunKeeps | src/modules/board/board.service.ts:1276-1411 | The invariant behind these results holds after every run from tables that satisfy it. |
| ApprovalSafety.ChroVoteIsAlone | src/modules/board/board.service.ts:1322-1334 | While the CHRO's vote is pending the sheet is pending and nobody on the board has been asked. |
| ApprovalSafety.Reissued | src/modules/board/board.service.ts:1350-1392 | Opening or resending a stage replaces its pending votes by fresh ones for the people asked for, and touches no other vote. |
| BoardService.ApprovalDesk.SendForApprovalRequest | src/modules/board/board.service.ts:249-289 | The new tables and the reply of a request for approval: refused when approved or on a sheet, otherwise the candidate's one row is made or reset. |
| BoardService.ApprovalDesk.HrApproveWithDocument | src/modules/board/board.service.ts:555-577 | HR's approval sets the candidate's row approved with the attachment and leaves its sheet alone. |
| BoardService.ApprovalDesk.CorrectSheetRow | src/modules/board/board.service.ts:1105-1127 | The three columns change only while the row is on no sheet. |
| BoardService.ApprovalDesk.AllSalariesFixed | src/modules/board/board.service.ts:1168-1172 | True exactly when every candidate selected has a fixed salary. |
| BoardService.ApprovalDesk.SendSheetToChro | src/modules/board/board.service.ts:1137-1213 | The guards in order, then the sheet, its rows and the CHRO's vote, with the whole new tables stated. |
| BoardService.ApprovalDesk.IssueVotes | src/modules/board/board.service.ts:1524-1564 | The loop over recipients creates one vote for each person with an email and counts who was sent to and who was skipped. |
| BoardService.ApprovalDesk.OpenSheetStage | src/modules/board/board.service.ts:1322-1410 | Sheet and rows move to the stage, its stale pending votes go, and its recipients get new ones. |
| BoardService.ApprovalDesk.Resend | src/modules/board/board.service.ts:1468-1544 | A resend's refusals, and the tables it leaves. |
| BoardService.ApprovalDesk.SubmitVote | src/modules/board/board.service.ts:1655-1741 | The guards, the claim and the effect of an answer on vote, sheet and rows. |
| ApprovalCalls.SendForApprovalAnswers | src/modules/board/board.service.ts:225-262 | When a request is refused and for which reason, read off the candidate's newest row. |
| ApprovalCalls.SendForApprovalWrites | src/modules/board/board.service.ts:264-289 | An accepted request leaves one row waiting for HR, off any sheet and without the old reason; its columns and every other row stay, and a refused one changes nothing. |
| ApprovalCalls.HrApproveDoes | src/modules/board/board.service.ts:555-577 | With a document and an onboarding candidate the row is approved by the actor and keeps sheet, stage, columns and reason; otherwise the refusal, and nothing changes. |
| ApprovalCalls.UpdateSheetRowDoes | src/modules/board/board.service.ts:1105-1127 | Off a sheet each column is left, cleared by an empty text or replaced, and nothing else changes; otherwise the refusal. |
| ApprovalCalls.SendSheetAnswers | src/modules/board/board.service.ts:1137-1183 | When a sheet is refused and for which reason, and the number, reference and count of one that is sent. |
| ApprovalCalls.SendSheetWrites | src/modules/board/board.service.ts:1174-1213 | Every row sent is on the new sheet, at the CHRO and approved for HR by the sender, every other row is as it was, and the CHRO, if there is an email, has one new vote for sixty days. |
| ApprovalCalls.ResendAnswers | src/modules/board/board.service.ts:1468-1503 | When a resend is refused and for which reason; otherwise how many were sent to and who was skipped. |
| ApprovalCalls.ResendWrites | src/modules/board/board.service.ts:1503-1564 | A resend leaves sheets and rows alone; the open votes of the stage go and each person who has not answered and has an email has one new vote for sixty days. |
| ApprovalCalls.RecipientsInOrder | src/modules/board/board.service.ts:1494-1497 | The recipients are the users asked for, in the order the query gives them. |
| ApprovalCalls.SkippedInOrder | src/modules/board/board.service.ts:1524-1564 | A recipient is counted as sent to exactly when there is an email and the mail goes, and is otherwise named among the skipped, in order. |
| ApprovalCalls.VoteAnswers | src/modules/board/board.service.ts:1668-1688 | Whether an answer is taken, and otherwise why not, read off the vote. |
| ApprovalCalls.VoteWrites | src/modules/board/board.service.ts:1690-1741 | A rejection rejects the sheet and every row on it with its reason, a board approval approves them, the CHRO's moves them to the board and asks exactly its members; no other row or vote changes, and an answer not taken changes nothing. |
| VoteRace.EachVoteDecidesOnce | src/modules/board/board.service.ts:1682-1688 | However reads, conditional claims, effects, deletions and new votes interleave, at most one submission wins a vote, its decision is carried out at most once, and it is the decision on record. |
| VoteRace.SettledRaceLosesNothing | src/modules/board/board.service.ts:809-817 | When no submission is between its claim and its effect, the answered votes are exactly those whose decision was carried out. |
| VoteRace.ClaimDoes | src/modules/board/board.service.ts:1682-1688 | A claim answers the vote it read with its decision while that is still pending, and leaves no trace otherwise. |
| VoteRace.VotesComeAndGo | src/modules/board/board.service.ts:1350-1385 | A stage opening or resend in between adds a pending vote on a new token and drops exactly the pending votes of its stage. |
| VoteRace.AloneIsTheCall | src/modules/board/board.service.ts:1660-1741 | A submission whose read, claim and effect nothing disturbs records and carries out its decision exactly when the one call answers that it voted, and leaves no trace otherwise. |
| ResendRace.ResendAsksTwice | src/modules/board/board.service.ts:1424-1503 | A resend that reads, lets anything happen to other stages and any submissions claim, and then writes leaves one vote to a person of its stage exactly when no claim by somebody it asks succeeded in between. The openings of other stages that approvals carry out are among what may happen. |
| ResendRace.AnswerThenAskedAgain | src/modules/board/board.service.ts:1482-1544 | The run in which a person answers in between and is left with an answered vote and a live link. |
| ResendRace.ChroApprovesAndRejects | src/modules/board/board.service.ts:1690-1723 | In tables that keep the invariant, a CHRO who approves between a resend's read and write can reject by the second link: the sheet, by then with the board, is rejected, and both answers of the CHRO stand. |
| ResendRace.UndisturbedResend | src/modules/board/board.service.ts:1468-1544 | A resend with nothing between its read and its write leaves the tables of the one call. |
| SheetReferences.FourPlacesInOrder | src/modules/board/board.service.ts:1266-1272 | On four padded places text order is number order. |
| SheetReferences.LastIsOfYear | src/modules/board/board.service.ts:1266-1270 | Other years' references take no part in finding the last of a year. |
| SheetReferences.LastIsGreatest | src/modules/board/board.service.ts:1266-1270 | The last of a year begins with its prefix and no other such reference comes after it as text; there is none only when none begins so. |
| SheetReferences.PrefixesApart | src/modules/board/board.service.ts:1264-1265 | No reference of one year begins with another year's prefix. |
| SheetReferences.PowersSortFirst | src/modules/board/board.service.ts:1268-1272 | From ten thousand on a power of ten sorts as text before the number one less. |
| SheetReferences.NextOfYear | src/modules/board/board.service.ts:1262-1273 | On a table of any years in sequence the next reference is the year's next number, and the ten thousandth again once there are ten thousand. |
| SheetReferences.NextIsTaken | src/modules/board/board.service.ts:1262-1273 | On such a table the next reference is already there exactly when ten thousand of that year are. |
| SheetReferences.AddingKeepsSequential | src/modules/board/board.service.ts:1262-1273 | Adding the next reference of any year, while it is new, keeps every year in sequence. |
| SheetReferences.ReferenceText | src/modules/board/board.service.ts:1262-1273 | A reference is HAS, the year's digits and a number of at least four places, with dashes between. |
| FirstInterview.PendingAlwaysHeld | src/modules/assessment/interview.service.ts:1939-2017 | Over any run of hand-overs, revocations, outcomes, Head decisions, rejections and arbitrary stage moves, a candidate whose sign-off is pending has a hand-off neither revoked nor completed. |
| FirstInterview.VerdictReleases | src/modules/assessment/interview.service.ts:2033-2064 | One call releases a held candidate exactly when it is a verdict, direct or the Head's, or takes back the last open hand-off; a verdict leaves the candidate decided. |
| FirstInterview.ReleasedUntilReopened | src/modules/assessment/interview.service.ts:1585-1595 | One call opens a released candidate's hand-over again exactly when it hands them to someone whose own part was never completed. |
| FirstInterview.ReleasedForGood | src/modules/assessment/interview.service.ts:1585-1595 | A released candidate is released at every point of a run exactly when no call of the run reopens the hand-over. |
| FirstInterview.CompletedStays | src/modules/assessment/interview.service.ts:2059-2064 | A completed part keeps its completion through every run. |
| FirstInterview.FirstInterviewHold | src/modules/assessment/first-interview-hold.ts:49-94 | The loop over hand-offs returns nothing when none is open or the candidate is decided, and otherwise each holder once and whether the Head is deciding. |
| FirstInterview.HoldShowsHolders | src/modules/assessment/first-interview-hold.ts:61-94 | On the rows of a candidate there is a hold exactly while somebody has them open and no verdict is in, and it names exactly those people, once each. |
| FirstInterview.HoldStaysReleased | src/modules/assessment/first-interview-hold.ts:69-72 | After a verdict the hold stays away through every run that does not reopen the hand-over, whatever stage the candidate is moved to. |
| FirstInterview.HoldComesBack | src/modules/assessment/first-interview-hold.ts:69-80 | One call brings the hold back on a released candidate exactly when it reopens the hand-over of one who is not decided. |
| FirstInterview.PendingHolds | src/modules/assessment/first-interview-hold.ts:90-93 | While the Head is deciding the candidate is held, unless moved on or rejected meanwhile. |
| FirstInterview.SelectionDecidesEachAlone | src/modules/assessment/first-interview-approval.service.ts:355-365 | Deciding a selection gives every candidate the answer and rows of being decided alone, and changes nobody else. |
| FirstInterviewService.HandOverDesk.HandOver | src/modules/assessment/interview.service.ts:1507-1598 | Every selected candidate is handed to every active person, new or restored, completion kept; or the refusal. |
| FirstInterviewService.HandOverDesk.Upsert | src/modules/assessment/interview.service.ts:1571-1596 | One pair is made, or restored with one more send, and no other row changes. |
| FirstInterviewService.HandOverDesk.Revoke | src/modules/assessment/interview.service.ts:2240-2281 | A revocation is refused while the Head decides, and otherwise marks the one pair. |
| FirstInterviewService.HandOverDesk.Record | src/modules/assessment/interview.service.ts:1939-2064 | An outcome goes to the Head, or moves the candidate and completes every open hand-off, or is refused. |
| FirstInterviewService.HandOverDesk.Decide | src/modules/assessment/first-interview-approval.service.ts:374-484 | The Head's approval, rejection or return, with what each writes, or why it did not go through. |
| FirstInterviewService.HandOverDesk.DecideMany | src/modules/assessment/first-interview-approval.service.ts:355-370 | The loop over a selection, each id once, leaves the tables and results of deciding them in turn. |
| FirstInterviewService.HandOverDesk.RejectOnScreen | src/modules/assessment/interview.service.ts:1869-1907 | A rejection on the interview screen writes the candidate only, under the guard of reject-guard.ts. |
| HandOverCalls.DelegateAnswers | src/modules/assessment/interview.service.ts:1507-1560 | When a hand-over is refused and for which reason: nothing selected, somebody not found or selected twice, or nobody active. |
| HandOverCalls.DelegateWrites | src/modules/assessment/interview.service.ts:1562-1598 | Every pair of a selected candidate and an active person is not revoked, sent now and counted once more, with its completion kept; every other pair is as it was. |
| HandOverCalls.RevokeDoes | src/modules/assessment/interview.service.ts:2240-2281 | A revocation marks one pair, if not revoked before, or is refused while the Head decides; no other column or pair changes. |
| HandOverCalls.OutcomeAnswers | src/modules/assessment/interview.service.ts:1939-2017 | When an outcome is refused and why, when it goes to the Head and when it is done outright. |
| HandOverCalls.OutcomeWrites | src/modules/assessment/interview.service.ts:2003-2064 | Put through, the candidate is at the final stage without a rejection date; turned down, rejected at that time; every open hand-off is completed then and nothing else changes. Sent to the Head, only the sign-off opens. |
| HandOverCalls.HeadAnswers | src/modules/assessment/first-interview-approval.service.ts:380-414 | When a Head's decision is refused and for which reason. |
| HandOverCalls.HeadWrites | src/modules/assessment/first-interview-approval.service.ts:416-484 | Approval sends the candidate to the final stage, rejection rejects, both completing what is open; a return leaves candidate and hand-offs alone; the sign-off shows which. |
| HandOverCalls.RejectDoes | src/modules/assessment/interview.service.ts:1869-1907 | A rejection on the screen rejects the candidate at that time and changes nothing else, or is refused for one rejected, selected or being hired. |
| HandOverCalls.SelectionInOrder | src/modules/assessment/first-interview-approval.service.ts:355-370 | The results of a selection name its ids in order, one each. |
| HandOverCalls.OnceInOrder | src/modules/assessment/first-interview-approval.service.ts:355-358 | The ids decided come in the order they first appear. |
| HandOverCalls.NamedInOrder | src/modules/assessment/first-interview-hold.ts:81-89 | The people on a hold come in the order of their first rows. |
| HandOverCalls.OpenInOrder | src/modules/assessment/first-interview-hold.ts:69-72 | The rows looked at are those neither revoked nor completed, in order. |
| DelegationProgress.ProgressMeans | src/modules/assessment/delegation-progress.ts:85-127 | The stage is the furthest thing that has happened in any live round, and an arranged one shows the earliest date. |
| DelegationProgress.DateShown | src/modules/assessment/delegation-progress.ts:106-126 | The date shown is that of the first marked or first held live round, a date when arranged, and none when sent or decided. |
| DelegationProgress.OrderDoesNotMatter | src/modules/assessment/delegation-progress.ts:103-126 | The same rounds in any order give the same stage. |
| DelegationProgress.TimeOnlyAdvances | src/modules/assessment/delegation-progress.ts:111-119 | As time passes the stage never falls back. |
| DelegationProgress.MarkAdvances | src/modules/assessment/delegation-progress.ts:106-109 | A mark on a live round never moves the stage back, and shows as marked unless decided. |
| DelegationProgress.DelegateWorkload | src/modules/assessment/interview.service.ts:2382-2453 | For each person asked about, in order, what they hold splits into waiting, in progress and done, with the oldest wait and the resends. |
| DelegationProgress.WorkloadMeans | src/modules/assessment/interview.service.ts:2413-2452 | A person's figures are the numbers of that person's rows, of those whose candidate waits, is arranged or interviewed, is marked or decided, and of those sent more than once; the days are the whole ones of the longest wait. |
| DelegationProgress.ByUser | src/modules/assessment/interview.service.ts:2406-2411 | The map groups the rows by holder, in order, losing none. |
| DelegationProgress.LoadsOnlyAdvance | src/modules/assessment/interview.service.ts:2422-2438 | While no candidate falls back, nobody's waiting pile grows and nobody's done pile shrinks. |
| DelegationProgress.LoadAdvancesWithTime | src/modules/assessment/interview.service.ts:2413-2452 | With time alone passing, what a person holds stays, what waits does not grow and what is done does not shrink. |
| DelegationProgress.LoadAdvancesWithMark | src/modules/assessment/interview.service.ts:2413-2452 | The same when a mark is added to a live round of any candidate. |
| RoundRuns.RoundTablesStayInStep | src/modules/assessment/interview.service.ts:1315-1335 | After any run, edits of kind included, the owners of links are exactly the panel, every panelist's round exists, a person marks a round at most once, a used link has its mark, and an unattended round has no marks. |
| RoundRuns.OneLiveAtEveryPoint | src/modules/assessment/interview.service.ts:575-600 | No candidate has two live rounds of a kind at any point of a run exactly when no edit of it gives a live round a kind its candidate already has live. |
| RoundRuns.OneLivePerKind | src/modules/assessment/interview.service.ts:244-267 | A run whose edits keep the kind leaves at most one live round to a candidate and kind. |
| RoundRuns.KindEditsMakeTwoLive | src/modules/assessment/interview.service.ts:612-616 | Without that, two calls of schedule and one of update leave two live first interviews. |
| RoundRuns.MarkStays | src/modules/assessment/interview.service.ts:990-999 | A submitted mark reads the same, after any run, for as long as its round exists. |
| RoundRuns.MarkedOnceForAll | src/modules/assessment/interview.service.ts:1213-1233 | Once marked, the same person never marks the same round again, signed in or by link, after any run. |
| RoundRuns.ResendKillsOldLink | src/modules/assessment/interview.service.ts:1293-1308 | A resent link replaces the old one, which no seat has any more, and the new one opens the same seat. |
| RoundRuns.DeadLinkStaysDead | src/modules/assessment/interview.service.ts:1197-1205 | A replaced link opens no form and submits no marks after any later run. |
| RoundRuns.DatedAfterStep | src/modules/assessment/interview.service.ts:642-671 | One call leaves an unused link out of date exactly when it edits panel and time together while somebody stays on the panel with an unused link dated otherwise. |
| RoundRuns.LinksFollowTheDate | src/modules/assessment/interview.service.ts:745-749 | Over a run unused links expire a week after their round's time throughout exactly when no edit of it is such. |
| RoundRuns.PanelEditsLeaveLinks | src/modules/assessment/interview.service.ts:646-660 | Arranging a round and then moving it together with its panel leaves an unused link on the old date, for any two different dates. |
| RoundSafety.LiveAfterStep | src/modules/assessment/interview.service.ts:575-600 | One call leaves two live rounds of a candidate and kind exactly when it is an accepted edit of kind to one the candidate already has live. |
| RoundSafety.StepKeepsBase | src/modules/assessment/interview.service.ts:560-672 | Every call keeps links, panel, marks and rounds in step. |
| RoundService.InterviewDesk.ScheduleRound | src/modules/assessment/interview.service.ts:244-309 | A round is refused while a live one of its kind stands, and otherwise is made with its panel and a dated link each. |
| RoundService.InterviewDesk.GenerateEvalTokens | src/modules/assessment/interview.service.ts:1315-1335 | The loop gives a link to each panelist without one and leaves the others' links as they are. |
| RoundService.InterviewDesk.AddToPanel | src/modules/assessment/interview.service.ts:484-505 | Only new people join a round not over, each with a link. |
| RoundService.InterviewDesk.UpdateRound | src/modules/assessment/interview.service.ts:560-672 | An edit's refusals, and the round, panel and links it leaves. |
| RoundService.InterviewDesk.MoveRound | src/modules/assessment/interview.service.ts:720-749 | A round moves in time under the rules of reschedule.ts, and its unused links are dated anew. |
| RoundService.InterviewDesk.RemoveRound | src/modules/assessment/interview.service.ts:830-862 | A round goes with its panel, links and marks, and nothing else does. |
| RoundService.InterviewDesk.MarkSignedIn | src/modules/assessment/interview.service.ts:979-1017 | A panelist's marks are taken once, never for an unattended round, and use up the link. |
| RoundService.InterviewDesk.OpenForm | src/modules/assessment/interview.service.ts:1065-1123 | A link opens while unused and in date, or once used, and is stamped on first access. |
| RoundService.InterviewDesk.MarkByLink | src/modules/assessment/interview.service.ts:1197-1245 | The guards of marking by link in order; a repeat uses the link up and is refused. |
| RoundService.InterviewDesk.ResendEvalToken | src/modules/assessment/interview.service.ts:1262-1311 | A panelist gets a new link, unused and dated, in place of the old. |
| RoundCalls.ScheduleAnswers | src/modules/assessment/interview.service.ts:244-267 | A round is refused exactly without leave or while another of its candidate and kind is neither cancelled nor unattended. |
| RoundCalls.ScheduleWrites | src/modules/assessment/interview.service.ts:268-309 | The new round is scheduled as asked with exactly the people given on its panel, each with a new link for a week after the time, or after now without one. |
| RoundCalls.AddPanelistsAnswers | src/modules/assessment/interview.service.ts:475-499 | When adding people is refused and for which reason. |
| RoundCalls.AddPanelistsWrites | src/modules/assessment/interview.service.ts:501-505 | Everybody given is on the panel afterwards, those who were not with a new link, and everything else stays. |
| RoundCalls.UpdateAnswers | src/modules/assessment/interview.service.ts:560-594 | When an edit is refused: an unattended round that has marks, or a called-off one brought back while another is on. |
| RoundCalls.UpdateStores | src/modules/assessment/interview.service.ts:607-633 | Exactly the columns an edit carries are stored, in that round alone; a refused edit changes nothing. |
| RoundCalls.UpdateReseats | src/modules/assessment/interview.service.ts:649-662 | The people an edit names are the panel; who is dropped loses the link, who stays keeps it as it is, who is new gets one for the round's new time. |
| RoundCalls.UpdateDates | src/modules/assessment/interview.service.ts:663-672 | An edit of time without people dates the round's unused links a week after it; without a time links stay. |
| RoundCalls.RescheduleDoes | src/modules/assessment/interview.service.ts:720-749 | When a move is refused and why; otherwise the round has the time, its unused links run out a week later, and nothing else changes. |
| RoundCalls.RemoveDoes | src/modules/assessment/interview.service.ts:830-862 | A removed round is gone with its panel, links and marks, and everything of other rounds is as it was. |
| RoundCalls.SubmitEvaluationDoes | src/modules/assessment/interview.service.ts:979-1022 | When marks are refused and why; otherwise one mark with the total is added, the seat's link is used, and nothing else changes. |
| RoundCalls.SubmitByLinkDoes | src/modules/assessment/interview.service.ts:1197-1252 | The same by link, out of date first; a repeat is refused and only uses the link up. |
| RoundCalls.OpenLinkDoes | src/modules/assessment/interview.service.ts:1065-1123 | A link opens while in date or once used, and only its first opening is noted, on it alone. |
| RoundCalls.UnknownLinks | src/modules/assessment/interview.service.ts:1065-1075 | A value no seat of a round has opens nothing, marks nothing and changes nothing. |
| RoundCalls.ResendLinkDoes | src/modules/assessment/interview.service.ts:1262-1311 | A panelist's link has a new value, is unused and dated by the round's time; all other links stay. |
| ServiceMonths.MergedMonths | src/modules/assessment/candidate-brief.ts:127-145 | The filter, clamp, sort, merge and sum give the number of distinct months entered before now by some valid span, spans that start after now included. |
| ServiceMonths.MonthsServedAre | src/modules/assessment/candidate-brief.ts:129-135 | A month is counted exactly when some span with a readable start began in an earlier month, it is not after now, and the span has no end or a readable one in that month or later. |
| ServiceMonths.Merge | src/modules/assessment/candidate-brief.ts:137-143 | The sweep leaves separated ranges that cover the same months. |
| ServiceMonths.OrderDoesNotMatter | src/modules/assessment/candidate-brief.ts:127-145 | The total depends on which spans there are, not on their order or repeats. |
| ServiceMonths.SeparatedMonthsAdd | src/modules/assessment/candidate-brief.ts:144-144 | Adding the lengths of separated ranges, negative ones as nothing, counts each month once. |
| ServiceMonths.ClampKeepsMonths | src/modules/assessment/candidate-brief.ts:129-135 | Dropping invalid spans and clamping the rest to now keeps exactly the months served by now. |
| ServiceMonths.GroupByCompany | src/modules/assessment/candidate-brief.ts:304-312 | The map holds each company's jobs in listed order, companies in the order they first appear. |
| ServiceMonths.RowsInListedOrder | src/modules/assessment/candidate-brief.ts:304-312 | A company's jobs are the ones that name it, in listed order. |
| ServiceMonths.CompaniesInFirstOrder | src/modules/assessment/candidate-brief.ts:304-312 | The companies are those named, once each, those first named earlier in front. |
| ServiceMonths.TotalsAgree | src/modules/assessment/candidate-brief.ts:313-322 | Total service is at least each company's total and at most their sum. |
| ServiceMonths.BriefTotals | src/modules/assessment/candidate-brief.ts:297-322 | The figures of the brief: each company's months, the total, and how they compare. |
| ServiceMonths.JobMonthsAre | src/modules/assessment/candidate-brief.ts:313-322 | A current job counts up to now whatever end it carries, any other up to its end. |
| Shuffle.Shuffle | src/modules/ai-proficiency/ai-proficiency.service.ts:528-534 | The in-place loop leaves the order that its draws pick. |
| Shuffle.DealtIsPermutation | src/modules/ai-proficiency/ai-proficiency.service.ts:528-534 | Whatever is picked, the result is a rearrangement and leaves the places beyond untouched. |
| Shuffle.ChoicesMatchOrders | src/modules/ai-proficiency/ai-proficiency.service.ts:528-534 | On distinct elements every order comes from exactly one vector of choices. |
| Shuffle.EqualShares | src/modules/ai-proficiency/ai-proficiency.service.ts:530-530 | Each position is picked on a stretch of draws of the same length. |
| Shuffle.OrderHasOneBox | src/modules/ai-proficiency/ai-proficiency.service.ts:528-534 | Every order of distinct elements comes out of the draws of exactly one box, whose sides at place i are 1/(i+1) long, so that all orders have boxes of one size. |
| Shuffle.EveryPaperCanBeDrawn | src/modules/ai-proficiency/ai-proficiency.service.ts:262-262 | The papers that can be drawn are exactly the repeat-free selections of the size asked for, in every order. |
| ApplyCodes.FivePerWindow | src/modules/candidates/apply-email-verification.ts:74-94 | At most five codes arrive in a window, over any run with a clock that does not go back. |
| ApplyCodes.TenPerHour | src/modules/candidates/apply-email-verification.ts:74-94 | At most ten codes arrive in any hour. |
| ApplyCodes.RunKeeps | src/modules/candidates/apply-email.service.ts:85-98 | The row's count is the number of codes that arrived in its window, windows are an hour apart, and a row's dates fit together. |
| ApplyCodeRuns.TenCanArriveInAnHour | src/modules/candidates/apply-email.service.ts:114-123 | A run in which ten codes arrive within an hour. |
| ApplyCodeRuns.NinePerHourWhenMailWorks | src/modules/candidates/apply-email-verification.ts:88-94 | While every mail goes out at most nine codes arrive in any hour. |
| ApplyCodeRuns.NineCanArriveWhenMailWorks | src/modules/candidates/apply-email-verification.ts:88-94 | A run in which every mail goes out and nine codes arrive within an hour. |
| ApplyCodeRuns.LimitMeansFive | src/modules/candidates/apply-email-verification.ts:77-87 | A send is refused for the limit exactly when five codes have arrived in a window not over and no usable code arrived less than a minute ago. |
| ApplyCodeRuns.RequestAnswers | src/modules/candidates/apply-email.service.ts:63-129 | A request is told to wait exactly while the last code is usable and under a minute old, refused otherwise exactly while five codes have arrived in a window not over, and mailed otherwise; the seconds and minutes told are the least whole ones left. |
| ApplyCodeRuns.NoSecondCodeSoon | src/modules/candidates/apply-email-verification.ts:58-73 | While a code is usable no second one arrives within a minute of it. |
| ApplyCodeRuns.FailedSendCostsNothing | src/modules/candidates/apply-email.service.ts:110-127 | After a mail that failed the same send is open at once with the same quota. |
| ApplyCodeRuns.AdviceIsExact | src/modules/candidates/apply-email-verification.ts:66-87 | The seconds and minutes told are the least whole ones after which a send is no longer refused. |
| ApplyCodeRuns.FiveGuessesOneUse | src/modules/candidates/apply-email.service.ts:157-182 | No code is compared with more than five wrong guesses or accepted twice. |
| ApplyCodeRuns.AcceptedIsTheLastCode | src/modules/candidates/apply-email.service.ts:137-182 | A guess is accepted exactly when it is the last code that arrived, under ten minutes old, unused, with guesses left and no mail failed since. |
| ApplyCodeRuns.GuessAnswers | src/modules/candidates/apply-email.service.ts:131-185 | Every answer to a guess over a run: accepted, the guesses left told, cancelled at the fifth wrong one, expired, or nothing there. |
| ApplyCodeRuns.CallsWrite | src/modules/candidates/apply-email.service.ts:87-182 | A mailed code has ten minutes and no guesses made; a failed mail leaves no code; a wrong guess is counted; a code accepted or cancelled is gone. |
| ApplyCodeRuns.PurgedRowActsTheSame | src/modules/candidates/apply-email.service.ts:205-222 | No send decision, and no check of a code but for which way it says there is none, depends on whether a stale row was purged. |
| ApplyCodeRuns.PurgeIsInvisible | src/modules/candidates/apply-email.service.ts:205-222 | Over any run the replies with and without purges are the same in order and kind, but that a check of a purged code may say there is none where it would have said expired. |
| ApplyCodeRuns.RowsAreDated | src/modules/candidates/apply-email.service.ts:205-222 | A row is forgotten exactly when its last change is more than a day old, and every change is dated. |
| ApplyEmailService.EmailDesk.SendCodeTo | src/modules/candidates/apply-email.service.ts:63-129 | Storing the code, mailing it and taking it back on failure changes the one address's row as specified. |
| ApplyEmailService.EmailDesk.VerifyCodeFor | src/modules/candidates/apply-email.service.ts:131-185 | The check of a code changes the one row as specified, and a right code's note proves that address for exactly an hour. |
| ApplyEmailService.EmailDesk.ForgetStale | src/modules/candidates/apply-email.service.ts:209-222 | Exactly the rows untouched for a day go, and their number is returned. |
| EmailAddress.SpellingsOf | src/modules/candidates/apply-email-verification.ts:37-38 | A text normalises to an address exactly when it is that address in some case with white space around it. |
| EmailAddress.NormaliseTwice | src/modules/candidates/apply-email-verification.ts:37-38 | A normalised address normalises to itself. |
| Base64Url.EncodedReadsBack | src/modules/candidates/apply-email-verification.ts:119-119 | Every byte string comes back from its base64url text, which holds no dot. |
| Base64Url.EncodesBits | src/modules/candidates/apply-email-verification.ts:119-119 | Three bytes print as the four characters of their 24 bits, one or two as two or three with zero bits filled up. |
| Base64Url.EncodesInThrees | src/modules/candidates/apply-email-verification.ts:119-119 | After whole threes of bytes the text goes on with that of the rest. |
| VerificationToken.SignedReadsBack | src/modules/candidates/apply-email-verification.ts:123-151 | A note signed at a time reads as the normalised address exactly before that time plus an hour. |
| VerificationToken.AdmitsItsSpellings | src/modules/candidates/apply-email.service.ts:188-203 | While required, a signed note admits exactly the spellings of its address and exactly in its hour; a spent one and a changed address are told apart. |
| VerificationToken.NotesDiffer | src/modules/candidates/apply-email-verification.ts:128-130 | Equal notes prove equal addresses at equal times. |
| VerificationToken.OnlyItsOwnHashReads | src/modules/candidates/apply-email-verification.ts:139-150 | A text is read as proof of an address exactly when it is v1, that address in base64url, a time still to come and the keyed hash of just that, with dots between. |
| VerificationToken.AnswersForAnyText | src/modules/candidates/apply-email.service.ts:188-203 | For every text given: passed exactly when proof is not asked for or the text proves the address, changed exactly when it proves another, and not verified exactly when it is empty. |
| ImageSize.ReadJpeg | src/common/upload/image-size.ts:31-69 | The scan ends on every buffer, reads within bounds, and answers as the specification of the scan. |
| ImageSize.ReadSize | src/common/upload/image-size.ts:110-124 | The readers tried in order give the first size with both sides above zero; tags are compared as ASCII, without each byte's highest bit. |
| ImageSize.AnyReaderDecides | src/common/upload/image-size.ts:113-122 | Whichever reader gives such a size gives the answer, so their order does not matter. |
| ImageSize.ReadersExclude | src/common/upload/image-size.ts:113-116 | No buffer is read by two readers. |
| ImageSize.PrintedStreamReads | src/common/upload/image-size.ts:31-69 | Start of image, any stray bytes, standalone markers and length-carrying segments, a frame header and a tail read as that frame's size exactly when the tail is not empty and no side is zero. |
| ImageSize.FillBytesHideFrame | src/common/upload/image-size.ts:35-66 | Of the fill bytes before the frame marker only the rest after whole laps of 65,537 matters; with at most 49,154 bytes of that rest and tail the size is read exactly when the rest is nothing and a byte follows the header; otherwise the scan goes on at the place given. |
| ImageSize.JpegAnswers | src/common/upload/image-size.ts:31-69 | A buffer is answered with a JPEG's sides exactly when it is a start of image, pieces, a frame header of those sides, both above zero, and a tail. |
| ImageSize.PngAnswers | src/common/upload/image-size.ts:19-29 | A buffer is answered with a PNG's sides exactly when it has the signature and IHDR, and the sides are its four-byte numbers, highest byte first, both above zero. |
| ImageSize.GifAnswers | src/common/upload/image-size.ts:71-76 | The same of a GIF: 87a or 89a, and two-byte numbers, lowest byte first. |
| ImageSize.WebpAnswers | src/common/upload/image-size.ts:78-108 | The same of a WebP, lossy, lossless and extended, each with its own bits. |
| Lockout.AtMostTheLimit | src/modules/auth/auth.service.ts:235-247 | In any lock's length without a sign-in or reset at most the limit of wrong passwords are counted. |
| Lockout.CounterStaysBelow | src/modules/auth/auth.service.ts:237-242 | In every reachable state the counter is below the limit. |
| Lockout.LockedChangesNothing | src/modules/auth/auth.service.ts:160-168 | While locked any attempt is refused and changes nothing, and the minutes told are the least that are enough. |
| Lockout.TheLimitLocks | src/modules/auth/auth.service.ts:237-247 | The limit is reached, and then the right password too is refused for the lock's whole length. |
| Lockout.CountsAreConserved | src/modules/auth/auth.service.ts:235-247 | Until a sign-in or reset, passwords counted are the limit times the locks set, plus the counter. |
| Lockout.AccountRow.TryPassword | src/modules/auth/auth.service.ts:160-189 | A sign-in attempt's reply and the row it leaves. |
| Lockout.AccountRow.RecordFailedLogin | src/modules/auth/auth.service.ts:235-262 | A wrong password counts, or locks and starts the count again. |
| Lockout.AccountRow.ClearFailedLogins | src/modules/auth/auth.service.ts:265-275 | A right password clears counter and lock. |
| Lockout.AccountRow.ResetPassword | src/modules/auth/auth.service.ts:109-126 | A reset of the password clears counter and lock. |
| Lockout.LoginDoes | src/modules/auth/auth.service.ts:160-189 | A lock refuses first; an inactive account is refused without a trace; an active one's wrong password counts, and locks at the limit; its right one signs in and clears counter and lock. |
| Lockout.OtherCallsDo | src/modules/auth/auth.service.ts:109-126 | A password reset clears counter and lock alone; a change of status leaves both. |
| ReferenceIds.SearchIsThePattern | src/modules/candidates/reference-ids.ts:35-40 | Reading a term from left to right gives a number exactly when the regular expression can divide the term so as to capture it; it is positive and fits thirty-two bits. |
| ReferenceIds.OneNumberPerTerm | src/modules/candidates/reference-ids.ts:36-38 | All ways in which the expression can divide a term capture the same number. |
| ReferenceIds.AnySpellingIsRead | src/modules/candidates/reference-ids.ts:30-34 | Every spelling of a number from 1 to 999,999,999, with or without year, in any case and with any separators and zeros, is read as it. |
| ReferenceIds.PrintedIdIsRead | src/modules/candidates/reference-ids.ts:22-40 | A printed ID is read as its number exactly for 1 to 999,999,999 and years of four digits, with or without a minus sign. |
| ReferenceIds.PrintedText | src/modules/candidates/reference-ids.ts:22-24 | A printed ID is APP, the year's digits, with a minus sign before the common era, and the number on five places or on as many as it has, with dashes between. |
| ReferenceIds.KindsAre | src/modules/candidates/reference-ids.ts:36-36 | The characters the expression takes for white space, separators, digits and zeros, by their codes. |
| ReferenceIds.PartsAre | src/modules/candidates/reference-ids.ts:36-36 | The fixed letters in either case, and the optional year of four digits with separators after it, by their codes. |
| Decimal.PaddedReadsBack | src/modules/candidates/reference-ids.ts:23-23 | A padded number reads back as itself. |

## Left out

- Roles, permissions and unit scopes: who may call, who holds a role and who is a unit's Head are arguments of the calls.
- Mail, notifications, calendar events, Drive, PDF, Excel and AI calls: only whether a mail went out matters, as an argument.
- Concurrency: calls are taken one at a time, except in VoteRace and ResendRace.
- The single-candidate board chain (`openStage` and the rest of `submitVote`): nothing creates its first vote any more; its claim is the one VoteRace models.
- Deleting users, requisitions and candidates, which clears or removes rows elsewhere.
- HR's `findFirst` on a candidate's approval has no order; with one approval to a candidate it is that row.
- Columns that only record (notes, names, reasons for a move, times of answers, who sits for HR) and the tests and package parts of a hand-over.
- `recordFirstInterviewOutcomeMany` and `bulkSchedule`: loops over calls that are modelled, with mail and notices of their own.
- The move to the interview stage when a round is arranged, and other stage moves: an arbitrary write to the candidate's row.
- Random values: link and vote tokens are numbers never drawn before, codes and shuffle draws are arguments; how likely they are is not modelled.
- The shuffle's product of a draw and a length is exact, not rounded to a double.
- Calendar conversion: an instant is a month number and milliseconds within the month, and the Dhaka year of an ID is an argument.
- The company key's lower-casing and punctuation: jobs carry the key.
- EmailAddress.SpellingsOf: white space and letters are ASCII; JavaScript also trims and lowers other Unicode characters.
- VerificationToken.OnlyItsOwnHashReads: times are read as decimal numbers and text outside the base64url alphabet is passed over; JavaScript's Number and Buffer accept more spellings, which only a holder of the key could sign.
- Cryptography: the keyed hash is any function, a stored code is the code itself, and hashes and timing-safe comparison are equality.
- `referralId`, token hashing, two-factor sign-in, sessions and the marking of the AI test's answers.
