/** The board service as an object over its tables
    (src/modules/board/board.service.ts). */
module BoardService {
  import opened Optional
  import opened ApprovalSheets
  import opened ApprovalSafety
  import IdLists
  import SheetReferences

  class ApprovalDesk {
    var approvals: seq<Approval>
    var sheets: seq<Sheet>
    var votes: map<Token, Vote>
    var nextToken: Token

    ghost function Contents(): Tables
      reads this
    {
      Tables(approvals, sheets, votes, nextToken)
    }

    ghost predicate Valid()
      reads this
    {
      Inv(Contents())
    }

    constructor ()
      ensures Valid() && Contents() == EMPTY
    {
      approvals, sheets, votes, nextToken := [], [], map[], 0;
    }

    method SendForApprovalRequest(candidate: CandidateId, actor: UserId, facts: Facts) returns (reply: Reply)
      requires Valid()
      modifies this`approvals
      ensures Valid() && Outcome(Contents(), reply) == SendForApproval(old(Contents()), candidate, actor, facts)
    {
      SendForApprovalKeeps(Contents(), candidate, actor, facts);
      if !facts.onboarding { return Refused(NotOnboarding); }
      if !facts.salaryFixed { return Refused(SalaryNotFixed); }
      if !facts.holders { return Refused(NobodyToAsk); }
      var existing := Latest(approvals, candidate);
      if existing.Some? {
        var row := approvals[existing.value];
        if row.status == Approved { return Refused(AlreadyApproved); }
        if row.status == Pending && row.sheet.Some? { return Refused(AlreadyOnSheet); }
        approvals := approvals[existing.value := Requested(row, actor)];
      } else {
        approvals := approvals + [Approval(candidate, actor, Pending, CorporateHr, None, NO_COLUMNS, None, None, None)];
      }
      reply := Recorded;
    }

    method HrApproveWithDocument(candidate: CandidateId, actor: UserId, attachment: Option<string>, onboarding: bool)
      returns (reply: Reply)
      requires Valid()
      modifies this`approvals
      ensures Valid()
      ensures Outcome(Contents(), reply) == HrApprove(old(Contents()), candidate, actor, attachment, onboarding)
    {
      HrApproveKeeps(Contents(), candidate, actor, attachment, onboarding);
      if attachment.None? { return Refused(NoAttachment); }
      if !onboarding { return Refused(NotOnboarding); }
      var existing := Latest(approvals, candidate);
      if existing.Some? {
        var row := approvals[existing.value];
        approvals := approvals[existing.value := row.(status := Approved, hrApprovedBy := Some(actor),
            attachment := attachment)];
      } else {
        approvals := approvals +
            [Approval(candidate, actor, Approved, Board, None, NO_COLUMNS, Some(actor), attachment, None)];
      }
      reply := Recorded;
    }

    method CorrectSheetRow(approval: nat, patch: Patch) returns (reply: Reply)
      requires Valid()
      modifies this`approvals
      ensures Valid() && Outcome(Contents(), reply) == UpdateSheetRow(old(Contents()), approval, patch)
    {
      UpdateSheetRowKeeps(Contents(), approval, patch);
      if approval >= |approvals| { return Refused(NotFound); }
      var row := approvals[approval];
      if row.sheet.Some? { return Refused(SheetIsSent); }
      var education := Corrected(row.columns.education, patch.education);
      var experience := Corrected(row.columns.experience, patch.experience);
      var lastOrg := Corrected(row.columns.lastOrg, patch.lastOrg);
      approvals := approvals[approval := row.(columns := Columns(education, experience, lastOrg))];
      reply := Recorded;
    }

    /** Create a pending vote for each person with an email, mailing as it goes. */
    method IssueVotes(sheet: nat, stage: Stage, people: seq<Person>, undeliverable: set<UserId>, expires: Millis)
      returns (sent: nat, skipped: seq<string>)
      modifies this`votes, this`nextToken
      ensures votes == Issued(old(votes), old(nextToken), sheet, stage, people, expires)
      ensures nextToken == old(nextToken) + Mailed(people)
      ensures sent == Delivered(people, undeliverable) && skipped == Skipped(people, undeliverable)
    {
      sent, skipped := 0, [];
      for n := 0 to |people|
        invariant votes == Issued(old(votes), old(nextToken), sheet, stage, people[..n], expires)
        invariant nextToken == old(nextToken) + Mailed(people[..n])
        invariant sent == Delivered(people[..n], undeliverable) && skipped == Skipped(people[..n], undeliverable)
      {
        var person := people[n];
        assert people[..n + 1][..n] == people[..n];
        if !person.hasEmail {
          skipped := skipped + [person.name];
          continue;
        }
        votes := votes[nextToken := Vote(sheet, person.id, stage, Pending, expires)];
        nextToken := nextToken + 1;
        if person.id in undeliverable {
          skipped := skipped + [person.name];
        } else {
          sent := sent + 1;
        }
      }
      assert people[..|people|] == people;
    }

    method OpenSheetStage(sheet: nat, stage: Stage, directory: seq<Person>, now: Millis)
      requires sheet < |sheets|
      modifies this
      ensures Contents() == OpenStage(old(Contents()), sheet, stage, directory, now)
    {
      var moved := sheets[sheet].(stage := stage);
      var people := Recipients(directory, Expected(moved));
      sheets := sheets[sheet := moved];
      approvals := OnSheet(approvals, sheet, (a: Approval) => a.(stage := stage));
      votes := WithoutPending(votes, sheet, stage);
      var sent, skipped := IssueVotes(sheet, stage, people, {}, now + TOKEN_VALID_MS);
    }

    method AllSalariesFixed(ids: seq<nat>, salaryFixed: set<CandidateId>) returns (fixed: bool)
      requires forall i :: i in ids ==> i < |approvals|
      ensures fixed <==> forall i :: i in ids ==> approvals[i].candidate in salaryFixed
    {
      for n := 0 to |ids|
        invariant forall m :: 0 <= m < n ==> ids[m] < |approvals| && approvals[ids[m]].candidate in salaryFixed
      {
        assert ids[n] in ids;
        if approvals[ids[n]].candidate !in salaryFixed { return false; }
      }
      fixed := true;
    }

    method SendSheetToChro(ids: seq<nat>, chro: UserId, boardMembers: seq<UserId>, actor: UserId,
                           roles: Roles, directory: seq<Person>, now: Millis) returns (reply: Reply)
      requires Valid() && DistinctPeople(directory)
      modifies this
      ensures Valid()
      ensures Outcome(Contents(), reply) == SendSheet(old(Contents()), ids, chro, boardMembers, actor, roles,
          directory, now)
    {
      SendSheetKeeps(Contents(), ids, chro, boardMembers, actor, roles, directory, now);
      if ids == [] { return Refused(NoCandidates); }
      if boardMembers == [] { return Refused(NoBoardMembers); }
      if |Found(approvals, ids)| != |ids| { return Refused(NotWaiting); }
      if chro !in roles.chroHolders { return Refused(NotChro); }
      IdLists.AllFound(ids, Found(approvals, ids));
      var fixed := AllSalariesFixed(ids, roles.salaryFixed);
      if !fixed { return Refused(SalaryNotFixed); }
      var reference := SheetReferences.Next(SheetReferences.Prefix(roles.year), References(sheets));
      if reference in References(sheets) { return Refused(ReferenceTaken); }
      var sheet := |sheets|;
      sheets := sheets + [Sheet(reference, actor, chro, boardMembers, Pending, Chro, None)];
      approvals := PutOnSheet(approvals, ids, sheet, actor);
      OpenSheetStage(sheet, Chro, directory, now);
      reply := SheetSent(sheet, reference, |ids|);
    }

    method Resend(sheet: nat, directory: seq<Person>, undeliverable: set<UserId>, now: Millis) returns (reply: Reply)
      requires Valid() && DistinctPeople(directory)
      modifies this`votes, this`nextToken
      ensures Valid()
      ensures Outcome(Contents(), reply) == ResendSheet(old(Contents()), sheet, directory, undeliverable, now)
    {
      ResendSheetKeeps(Contents(), sheet, directory, undeliverable, now);
      if sheet >= |sheets| { return Refused(NotFound); }
      var status, stage := sheets[sheet].status, sheets[sheet].stage;
      if status != Pending { return Refused(SheetDecided(status)); }
      var targets := Expected(sheets[sheet]) - Settled(votes, sheet, stage);
      if targets == {} { return Refused(EveryoneAnswered); }
      var people := Recipients(directory, targets);
      votes := WithoutPending(votes, sheet, stage);
      var sent, skipped := IssueVotes(sheet, stage, people, undeliverable, now + TOKEN_VALID_MS);
      reply := Resent(sent, skipped);
    }

    method SubmitVote(token: Token, decision: Decision, directory: seq<Person>, now: Millis) returns (reply: Reply)
      requires Valid() && DistinctPeople(directory)
      modifies this
      ensures Valid() && Outcome(Contents(), reply) == SubmitSheetVote(old(Contents()), token, decision, directory, now)
    {
      StepKeeps(Contents(), SubmitSheetVoteCall(token, decision, directory, now));
      if token !in votes || votes[token].sheet >= |sheets| { return Refused(LinkInvalid); }
      var vote := votes[token];
      if now > vote.expires { return Refused(LinkExpired); }
      if vote.status != Pending { return AlreadyVoted; }
      if decision.Reject? && decision.reason == "" { return Refused(ReasonMissing); }
      votes := votes[token := vote.(status := StatusOf(decision))];
      var sheet := vote.sheet;
      match decision {
        case Reject(reason) =>
          sheets := sheets[sheet := sheets[sheet].(status := Rejected, reason := Some(reason))];
          approvals := OnSheet(approvals, sheet, (a: Approval) => a.(status := Rejected, reason := Some(reason)));
        case Approve =>
          if vote.stage == Chro {
            OpenSheetStage(sheet, Board, directory, now);
          } else {
            sheets := sheets[sheet := sheets[sheet].(status := Approved)];
            approvals := OnSheet(approvals, sheet, (a: Approval) => a.(status := Approved));
          }
      }
      reply := Voted;
    }
  }
}
