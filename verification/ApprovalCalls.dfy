/** What each approval-sheet call answers and leaves behind, column by column. */
module ApprovalCalls {
  import opened Optional
  import opened ApprovalSheets
  import ApprovalSafety
  import IdLists
  import SheetReferences

  // ---- Requests ----

  /** Row i is the candidate's newest. */
  ghost predicate Newest(approvals: seq<Approval>, c: CandidateId, i: nat) {
    i < |approvals| && approvals[i].candidate == c && forall j :: i < j < |approvals| ==> approvals[j].candidate != c
  }

  ghost predicate HasRow(approvals: seq<Approval>, c: CandidateId) {
    exists i: nat :: Newest(approvals, c, i)
  }

  lemma {:induction false} LatestIsNewest(approvals: seq<Approval>, c: CandidateId)
    ensures Latest(approvals, c).Some? ==> Newest(approvals, c, Latest(approvals, c).value)
    ensures forall i: nat :: Newest(approvals, c, i) ==> Latest(approvals, c) == Some(i)
  {
    if approvals != [] && approvals[|approvals| - 1].candidate != c {
      var n := |approvals| - 1;
      LatestIsNewest(approvals[..n], c);
      assert forall i: nat :: Newest(approvals, c, i) <==> Newest(approvals[..n], c, i);
    }
  }

  lemma SendForApprovalAnswers(t: Tables, c: CandidateId, actor: UserId, facts: Facts)
    ensures Step(t, SendForApprovalCall(c, actor, facts)).reply
            == if !facts.onboarding then Refused(NotOnboarding)
               else if !facts.salaryFixed then Refused(SalaryNotFixed)
               else if !facts.holders then Refused(NobodyToAsk)
               else if exists i: nat :: Newest(t.approvals, c, i) && t.approvals[i].status == Approved
                    then Refused(AlreadyApproved)
               else if exists i: nat :: Newest(t.approvals, c, i) && t.approvals[i].status == Pending
                                        && t.approvals[i].sheet != None
                    then Refused(AlreadyOnSheet)
               else Recorded
  {
    LatestIsNewest(t.approvals, c);
  }

  /** Only approvals differ, and of these only row i. */
  ghost predicate RowsBut(t: Tables, after: Tables, i: nat) {
    && after.sheets == t.sheets && after.votes == t.votes && after.nextToken == t.nextToken
    && |after.approvals| == |t.approvals|
    && forall j :: 0 <= j < |t.approvals| && j != i ==> after.approvals[j] == t.approvals[j]
  }

  /** Only approvals differ, by one row more. */
  ghost predicate RowAdded(t: Tables, after: Tables) {
    && after.sheets == t.sheets && after.votes == t.votes && after.nextToken == t.nextToken
    && |after.approvals| == |t.approvals| + 1
    && forall j :: 0 <= j < |t.approvals| ==> after.approvals[j] == t.approvals[j]
  }

  ghost predicate Unstarted(columns: Columns) {
    columns.education == None && columns.experience == None && columns.lastOrg == None
  }

  /** A request waits for HR afresh, off any sheet and without the old reason,
      in the candidate's newest row or in a new one. */
  lemma SendForApprovalWrites(t: Tables, c: CandidateId, actor: UserId, facts: Facts)
    ensures var done := Step(t, SendForApprovalCall(c, actor, facts));
            var after := done.tables;
            && (done.reply != Recorded ==> after == t)
            && (done.reply == Recorded ==>
                  forall i: nat :: Newest(t.approvals, c, i) ==>
                    && RowsBut(t, after, i) && after.approvals[i].candidate == c
                    && after.approvals[i].requestedBy == actor && after.approvals[i].status == Pending
                    && after.approvals[i].stage == CorporateHr && after.approvals[i].sheet == None
                    && after.approvals[i].reason == None && after.approvals[i].columns == t.approvals[i].columns
                    && after.approvals[i].hrApprovedBy == t.approvals[i].hrApprovedBy
                    && after.approvals[i].attachment == t.approvals[i].attachment)
            && (done.reply == Recorded && !HasRow(t.approvals, c) ==>
                  && RowAdded(t, after)
                  && var row := after.approvals[|t.approvals|];
                     && row.candidate == c && row.requestedBy == actor && row.status == Pending
                     && row.stage == CorporateHr && row.sheet == None && row.reason == None && Unstarted(row.columns)
                     && row.hrApprovedBy == None && row.attachment == None)
  {
    LatestIsNewest(t.approvals, c);
  }

  /** HR's approval with a document approves, and keeps the row on its sheet. */
  lemma HrApproveDoes(t: Tables, c: CandidateId, actor: UserId, file: Option<string>, onboarding: bool)
    ensures var done := Step(t, HrApproveCall(c, actor, file, onboarding));
            var after := done.tables;
            && done.reply == (if file == None then Refused(NoAttachment)
                              else if !onboarding then Refused(NotOnboarding)
                              else Recorded)
            && (done.reply != Recorded ==> after == t)
            && (done.reply == Recorded ==>
                  forall i: nat :: Newest(t.approvals, c, i) ==>
                    && RowsBut(t, after, i) && after.approvals[i].candidate == c
                    && after.approvals[i].status == Approved && after.approvals[i].hrApprovedBy == Some(actor)
                    && after.approvals[i].attachment == file
                    && after.approvals[i].requestedBy == t.approvals[i].requestedBy
                    && after.approvals[i].stage == t.approvals[i].stage
                    && after.approvals[i].sheet == t.approvals[i].sheet
                    && after.approvals[i].columns == t.approvals[i].columns
                    && after.approvals[i].reason == t.approvals[i].reason)
            && (done.reply == Recorded && !HasRow(t.approvals, c) ==>
                  && RowAdded(t, after)
                  && var row := after.approvals[|t.approvals|];
                     && row.candidate == c && row.requestedBy == actor && row.status == Approved
                     && row.stage == Board && row.sheet == None && row.reason == None && Unstarted(row.columns)
                     && row.hrApprovedBy == Some(actor) && row.attachment == file)
  {
    LatestIsNewest(t.approvals, c);
  }

  /** A column is left as it is, cleared by an empty text, or replaced. */
  ghost predicate ColumnPatched(current: Option<string>, patch: Option<string>, after: Option<string>) {
    match patch
    case None => after == current
    case Some(text) => if |text| == 0 then after == None else after == Some(text)
  }

  lemma UpdateSheetRowDoes(t: Tables, approval: nat, patch: Patch)
    ensures var done := Step(t, UpdateSheetRowCall(approval, patch));
            && done.reply == (if |t.approvals| <= approval then Refused(NotFound)
                              else if t.approvals[approval].sheet != None then Refused(SheetIsSent)
                              else Recorded)
            && (done.reply != Recorded ==> done.tables == t)
            && (done.reply == Recorded ==>
                  var columns := done.tables.approvals[approval].columns;
                  && RowsBut(t, done.tables, approval)
                  && done.tables.approvals[approval] == t.approvals[approval].(columns := columns)
                  && ColumnPatched(t.approvals[approval].columns.education, patch.education, columns.education)
                  && ColumnPatched(t.approvals[approval].columns.experience, patch.experience, columns.experience)
                  && ColumnPatched(t.approvals[approval].columns.lastOrg, patch.lastOrg, columns.lastOrg))
  {
  }

  // ---- Asking people ----

  const SIXTY_DAYS_MS: Millis := 5_184_000_000

  /** Some row of the directory gives the person an email. */
  ghost predicate HasEmail(directory: seq<Person>, u: UserId) {
    exists i :: 0 <= i < |directory| && directory[i].id == u && directory[i].hasEmail
  }

  /** A vote of the sheet at the stage that has not been answered. */
  ghost predicate Open(v: Vote, sheet: nat, stage: Stage) {
    v.sheet == sheet && v.stage == stage && v.status == Pending
  }

  /** The open votes of the stage are gone and all others are as they were; each
      of the people who has an email has one new vote, good for sixty days. */
  ghost predicate Asked(votes: map<Token, Vote>, after: map<Token, Vote>, next: Token, sheet: nat, stage: Stage,
                        people: set<UserId>, directory: seq<Person>, now: Millis) {
    && (forall x: Token :: x < next ==> (x in after <==> x in votes && !Open(votes[x], sheet, stage)))
    && (forall x: Token :: x < next && x in after ==> after[x] == votes[x])
    && (forall x: Token :: x in after && next <= x ==>
          && Open(after[x], sheet, stage) && after[x].expires == now + SIXTY_DAYS_MS
          && after[x].user in people && HasEmail(directory, after[x].user))
    && (forall u: UserId :: u in people && HasEmail(directory, u) ==> NewVoteOf(after, next, u))
    && (forall x: Token, y: Token ::
          x in after && y in after && next <= x && next <= y && after[x].user == after[y].user ==> x == y)
  }

  ghost predicate NewVoteOf(after: map<Token, Vote>, next: Token, u: UserId) {
    exists x: Token :: x in after && next <= x && after[x].user == u
  }

  /** A vote the issuing made is a person's who was asked for and has an email. */
  lemma NewVoteIs(kept: map<Token, Vote>, next: Token, sheet: nat, stage: Stage, directory: seq<Person>,
                  targets: set<UserId>, expires: Millis, x: Token)
    requires ApprovalSafety.Below(kept, next) && next <= x
    requires x in Issued(kept, next, sheet, stage, Recipients(directory, targets), expires)
    ensures var v := Issued(kept, next, sheet, stage, Recipients(directory, targets), expires)[x];
            Open(v, sheet, stage) && v.expires == expires && v.user in targets && HasEmail(directory, v.user)
  {
    var people := Recipients(directory, targets);
    assert ApprovalSafety.Fresh(Issued(kept, next, sheet, stage, people, expires), x, next);
    var k := ApprovalSafety.IssuedOwner(kept, next, sheet, stage, people, expires, x);
    ApprovalSafety.IssuedFor(kept, next, sheet, stage, people, expires, k);
    ApprovalSafety.RecipientsAre(directory, targets);
    assert people[k] in directory;
  }

  lemma EverybodyIsAsked(kept: map<Token, Vote>, next: Token, sheet: nat, stage: Stage, directory: seq<Person>,
                         targets: set<UserId>, expires: Millis, u: UserId)
    requires ApprovalSafety.Below(kept, next) && u in targets && HasEmail(directory, u)
    ensures NewVoteOf(Issued(kept, next, sheet, stage, Recipients(directory, targets), expires), next, u)
  {
    var people := Recipients(directory, targets);
    var i :| 0 <= i < |directory| && directory[i].id == u && directory[i].hasEmail;
    ApprovalSafety.RecipientsAre(directory, targets);
    assert directory[i] in people;
    var k :| 0 <= k < |people| && people[k] == directory[i];
    ApprovalSafety.IssuedFor(kept, next, sheet, stage, people, expires, k);
  }

  lemma AskingAsks(votes: map<Token, Vote>, next: Token, sheet: nat, stage: Stage, directory: seq<Person>,
                   targets: set<UserId>, now: Millis)
    requires ApprovalSafety.Below(votes, next) && DistinctPeople(directory)
    ensures Asked(votes, Issued(WithoutPending(votes, sheet, stage), next, sheet, stage,
                                Recipients(directory, targets), now + TOKEN_VALID_MS),
                  next, sheet, stage, targets, directory, now)
  {
    hide Issued, Recipients, Mailed, HasEmail;
    var expires := now + TOKEN_VALID_MS;
    var kept := WithoutPending(votes, sheet, stage);
    var after := Issued(kept, next, sheet, stage, Recipients(directory, targets), expires);
    ApprovalSafety.Reissued(votes, next, sheet, stage, directory, targets, expires);
    forall x: Token | x in after && next <= x
      ensures Open(after[x], sheet, stage) && after[x].expires == now + SIXTY_DAYS_MS && after[x].user in targets
              && HasEmail(directory, after[x].user)
    {
      NewVoteIs(kept, next, sheet, stage, directory, targets, expires, x);
    }
    forall u | u in targets && HasEmail(directory, u) ensures NewVoteOf(after, next, u) {
      EverybodyIsAsked(kept, next, sheet, stage, directory, targets, expires, u);
    }
    forall x: Token, y: Token | x in after && y in after && next <= x && next <= y && after[x].user == after[y].user
      ensures x == y
    {
      assert ApprovalSafety.Fresh(after, x, next) && ApprovalSafety.Fresh(after, y, next);
    }
  }

  // ---- Sending ----

  ghost predicate AllWaitingOnce(t: Tables, ids: seq<nat>) {
    && (forall i :: 0 <= i < |ids| ==>
          ids[i] < |t.approvals| && t.approvals[ids[i]].status == Pending && t.approvals[ids[i]].sheet == None)
    && (forall i, j :: 0 <= i < j < |ids| ==> ids[i] != ids[j])
  }

  lemma {:induction false} WaitingOnce(t: Tables, ids: seq<nat>)
    ensures |Found(t.approvals, ids)| == |ids| <==> AllWaitingOnce(t, ids)
  {
    var found := Found(t.approvals, ids);
    if |found| == |ids| {
      IdLists.AllFound(ids, found);
      forall i | 0 <= i < |ids|
        ensures ids[i] < |t.approvals| && t.approvals[ids[i]].status == Pending && t.approvals[ids[i]].sheet == None
      {
        assert ids[i] in found;
      }
    } else if AllWaitingOnce(t, ids) {
      assert found == IdLists.IdSet(ids);
      IdLists.DistinctSize(ids);
    }
  }

  /** The reference is one no sheet has, or the sending fails. */
  ghost predicate Taken(t: Tables, reference: string) {
    exists i :: 0 <= i < |t.sheets| && t.sheets[i].reference == reference
  }

  ghost function NextReference(t: Tables, year: nat): string {
    SheetReferences.Next(SheetReferences.Prefix(year), References(t.sheets))
  }

  lemma TakenIs(t: Tables, reference: string)
    ensures reference in References(t.sheets) <==> Taken(t, reference)
  {
    if i :| 0 <= i < |t.sheets| && t.sheets[i].reference == reference { assert References(t.sheets)[i] == reference; }
  }

  lemma SalariesAre(t: Tables, ids: seq<nat>, fixed: set<CandidateId>)
    requires AllWaitingOnce(t, ids)
    ensures (exists i :: i in ids && i < |t.approvals| && t.approvals[i].candidate !in fixed)
            <==> exists i :: 0 <= i < |ids| && t.approvals[ids[i]].candidate !in fixed
  {
    if i :| i in ids && i < |t.approvals| && t.approvals[i].candidate !in fixed {
      var k :| 0 <= k < |ids| && ids[k] == i;
      assert t.approvals[ids[k]].candidate !in fixed;
    }
    if k :| 0 <= k < |ids| && t.approvals[ids[k]].candidate !in fixed { assert ids[k] in ids; }
  }

  lemma SendSheetAnswers(t: Tables, ids: seq<nat>, chro: UserId, members: seq<UserId>, actor: UserId, roles: Roles,
                         directory: seq<Person>, now: Millis)
    ensures Step(t, SendSheetCall(ids, chro, members, actor, roles, directory, now)).reply
            == if |ids| == 0 then Refused(NoCandidates)
               else if |members| == 0 then Refused(NoBoardMembers)
               else if !AllWaitingOnce(t, ids) then Refused(NotWaiting)
               else if chro !in roles.chroHolders then Refused(NotChro)
               else if exists i :: 0 <= i < |ids| && t.approvals[ids[i]].candidate !in roles.salaryFixed
                    then Refused(SalaryNotFixed)
               else if Taken(t, NextReference(t, roles.year)) then Refused(ReferenceTaken)
               else SheetSent(|t.sheets|, NextReference(t, roles.year), |ids|)
  {
    WaitingOnce(t, ids);
    TakenIs(t, NextReference(t, roles.year));
    if AllWaitingOnce(t, ids) { SalariesAre(t, ids, roles.salaryFixed); }
    hide Found, AllWaitingOnce, Taken, References, OpenStage, PutOnSheet, Waiting;
  }

  /** Every row sent is on the new sheet, at the CHRO, approved by HR through the
      sender; the other rows are as they were; the CHRO is asked. */
  lemma {:induction false} SendSheetWrites(t: Tables, ids: seq<nat>, chro: UserId, members: seq<UserId>,
                                           actor: UserId, roles: Roles, directory: seq<Person>, now: Millis)
    requires ApprovalSafety.Inv(t) && DistinctPeople(directory)
    ensures var done := Step(t, SendSheetCall(ids, chro, members, actor, roles, directory, now));
            var after := done.tables;
            if !done.reply.SheetSent? then after == t
            else
              && after.sheets == t.sheets + [Sheet(done.reply.reference, actor, chro, members, Pending, Chro, None)]
              && |after.approvals| == |t.approvals|
              && (forall i :: 0 <= i < |t.approvals| ==>
                    after.approvals[i]
                    == if i in ids
                       then t.approvals[i].(sheet := Some(|t.sheets|), stage := Chro, hrApprovedBy := Some(actor))
                       else t.approvals[i])
              && Asked(t.votes, after.votes, t.nextToken, |t.sheets|, Chro, {chro}, directory, now)
  {
    var done := Step(t, SendSheetCall(ids, chro, members, actor, roles, directory, now));
    if done.reply.SheetSent? {
      AskingAsks(t.votes, t.nextToken, |t.sheets|, Chro, directory, {chro}, now);
      assert forall i :: 0 <= i < |t.approvals| ==> ApprovalSafety.FollowsSheet(t.approvals[i], t.sheets);
    }
  }

  // ---- Resending ----

  /** The sheet's stage asks the person. */
  ghost predicate Asks(s: Sheet, u: UserId) {
    if s.stage == Board then exists i :: 0 <= i < |s.boardMembers| && s.boardMembers[i] == u else u == s.chro
  }

  ghost predicate Answered(t: Tables, sheet: nat, stage: Stage, u: UserId) {
    exists x :: x in t.votes && t.votes[x].sheet == sheet && t.votes[x].stage == stage && t.votes[x].user == u
                && t.votes[x].status != Pending
  }

  /** The people are those the sheet's stage asks who have not answered. */
  ghost predicate Unanswered(t: Tables, sheet: nat, people: set<UserId>)
    requires sheet < |t.sheets|
  {
    forall u: UserId :: u in people <==> Asks(t.sheets[sheet], u) && !Answered(t, sheet, t.sheets[sheet].stage, u)
  }

  lemma TargetsAre(t: Tables, sheet: nat, people: set<UserId>)
    requires sheet < |t.sheets| && Unanswered(t, sheet, people)
    ensures people == Expected(t.sheets[sheet]) - Settled(t.votes, sheet, t.sheets[sheet].stage)
  {
    var s := t.sheets[sheet];
    forall u: UserId ensures u in people <==> u in Expected(s) - Settled(t.votes, sheet, s.stage) {
      assert u in Expected(s) <==> Asks(s, u);
      assert u in Settled(t.votes, sheet, s.stage) <==> Answered(t, sheet, s.stage, u);
    }
  }

  lemma ResendAnswers(t: Tables, sheet: nat, directory: seq<Person>, undeliverable: set<UserId>, now: Millis,
                      people: set<UserId>)
    requires sheet < |t.sheets| ==> Unanswered(t, sheet, people)
    ensures Step(t, ResendSheetCall(sheet, directory, undeliverable, now)).reply
            == if |t.sheets| <= sheet then Refused(NotFound)
               else if t.sheets[sheet].status != Pending then Refused(SheetDecided(t.sheets[sheet].status))
               else if people == {} then Refused(EveryoneAnswered)
               else Resent(Delivered(Recipients(directory, people), undeliverable),
                           Skipped(Recipients(directory, people), undeliverable))
  {
    if sheet < |t.sheets| { TargetsAre(t, sheet, people); }
  }

  /** A resend leaves sheets and rows alone and asks those who have not answered. */
  lemma ResendWrites(t: Tables, sheet: nat, directory: seq<Person>, undeliverable: set<UserId>, now: Millis,
                     people: set<UserId>)
    requires ApprovalSafety.Inv(t) && DistinctPeople(directory)
    requires sheet < |t.sheets| ==> Unanswered(t, sheet, people)
    ensures var done := Step(t, ResendSheetCall(sheet, directory, undeliverable, now));
            var after := done.tables;
            if !done.reply.Resent? then after == t
            else
              && sheet < |t.sheets| && after.sheets == t.sheets && after.approvals == t.approvals
              && Asked(t.votes, after.votes, t.nextToken, sheet, t.sheets[sheet].stage, people, directory, now)
  {
    if sheet < |t.sheets| {
      TargetsAre(t, sheet, people);
      AskingAsks(t.votes, t.nextToken, sheet, t.sheets[sheet].stage, directory, people, now);
    }
  }

  lemma OneMoreRecipient(directory: seq<Person>, p: Person, ids: set<UserId>)
    ensures Recipients(directory + [p], ids) == Recipients(directory, ids) + if p.id in ids then [p] else []
  {
    assert (directory + [p])[..|directory|] == directory;
  }

  lemma Regroup<T>(a: seq<T>, b: seq<T>, c: seq<T>)
    ensures (a + b) + c == a + (b + c)
  {
  }

  lemma {:induction false} RecipientsJoin(directory: seq<Person>, more: seq<Person>, ids: set<UserId>)
    ensures Recipients(directory + more, ids) == Recipients(directory, ids) + Recipients(more, ids)
  {
    assert Recipients([], ids) == [];
    hide Recipients;
    if more == [] {
      assert directory + more == directory;
    } else {
      var front, p := more[..|more| - 1], more[|more| - 1];
      assert more == front + [p];
      RecipientsJoin(directory, front, ids);
      OneMoreRecipient(front, p, ids);
      OneMoreRecipient(directory + front, p, ids);
      Regroup(directory, front, [p]);
      Regroup(Recipients(directory, ids), Recipients(front, ids), if p.id in ids then [p] else []);
    }
  }

  /** The recipients are the directory's rows asked for, in the directory's order. */
  lemma {:induction false} RecipientsInOrder(directory: seq<Person>, more: seq<Person>, ids: set<UserId>)
    ensures Recipients(directory + more, ids) == Recipients(directory, ids) + Recipients(more, ids)
    ensures forall p: Person :: p.id in ids ==> Recipients([p], ids) == [p]
    ensures forall p: Person :: p.id !in ids ==> Recipients([p], ids) == []
  {
    RecipientsJoin(directory, more, ids);
    forall p: Person
      ensures p.id in ids ==> Recipients([p], ids) == [p]
      ensures p.id !in ids ==> Recipients([p], ids) == []
    {
      OneMoreRecipient([], p, ids);
      assert [] + [p] == [p];
    }
  }

  lemma OneMoreMailed(people: seq<Person>, p: Person, undeliverable: set<UserId>)
    ensures Delivered(people + [p], undeliverable)
            == Delivered(people, undeliverable) + if p.hasEmail && p.id !in undeliverable then 1 else 0
    ensures Skipped(people + [p], undeliverable)
            == Skipped(people, undeliverable) + if p.hasEmail && p.id !in undeliverable then [] else [p.name]
  {
    assert (people + [p])[..|people|] == people;
  }

  lemma {:induction false} SkippedJoin(people: seq<Person>, more: seq<Person>, undeliverable: set<UserId>)
    ensures Delivered(people + more, undeliverable) == Delivered(people, undeliverable) + Delivered(more, undeliverable)
    ensures Skipped(people + more, undeliverable) == Skipped(people, undeliverable) + Skipped(more, undeliverable)
  {
    assert Delivered([], undeliverable) == 0 && Skipped([], undeliverable) == [];
    hide Delivered, Skipped;
    if more == [] {
      assert people + more == people;
    } else {
      var front, p := more[..|more| - 1], more[|more| - 1];
      assert more == front + [p];
      SkippedJoin(people, front, undeliverable);
      OneMoreMailed(front, p, undeliverable);
      OneMoreMailed(people + front, p, undeliverable);
      Regroup(people, front, [p]);
      Regroup(Skipped(people, undeliverable), Skipped(front, undeliverable),
              if p.hasEmail && p.id !in undeliverable then [] else [p.name]);
    }
  }

  /** A person is counted as sent to exactly if there is an email and it can be
      delivered; the others' names are listed in order. */
  lemma {:induction false} SkippedInOrder(people: seq<Person>, more: seq<Person>, undeliverable: set<UserId>)
    ensures Delivered(people + more, undeliverable) == Delivered(people, undeliverable) + Delivered(more, undeliverable)
    ensures Skipped(people + more, undeliverable) == Skipped(people, undeliverable) + Skipped(more, undeliverable)
    ensures forall p: Person :: p.hasEmail && p.id !in undeliverable ==>
              Delivered([p], undeliverable) == 1 && Skipped([p], undeliverable) == []
    ensures forall p: Person :: !p.hasEmail || p.id in undeliverable ==>
              Delivered([p], undeliverable) == 0 && Skipped([p], undeliverable) == [p.name]
  {
    SkippedJoin(people, more, undeliverable);
    forall p: Person
      ensures p.hasEmail && p.id !in undeliverable ==>
        Delivered([p], undeliverable) == 1 && Skipped([p], undeliverable) == []
      ensures !p.hasEmail || p.id in undeliverable ==>
        Delivered([p], undeliverable) == 0 && Skipped([p], undeliverable) == [p.name]
    {
      OneMoreMailed([], p, undeliverable);
      assert [] + [p] == [p];
    }
  }

  // ---- Answering ----

  lemma VoteAnswers(t: Tables, token: Token, d: Decision, directory: seq<Person>, now: Millis)
    ensures Step(t, SubmitSheetVoteCall(token, d, directory, now)).reply
            == if token !in t.votes || |t.sheets| <= t.votes[token].sheet then Refused(LinkInvalid)
               else if t.votes[token].expires < now then Refused(LinkExpired)
               else if t.votes[token].status != Pending then AlreadyVoted
               else if d == Reject("") then Refused(ReasonMissing)
               else Voted
  {
  }

  /** Row by row, those on the sheet are as the answer leaves them, and the others as they were. */
  ghost predicate SheetMoved(t: Tables, after: Tables, sheet: nat, stage: Stage) {
    && sheet < |t.sheets| && after.sheets == t.sheets[sheet := t.sheets[sheet].(stage := stage)]
    && |after.approvals| == |t.approvals|
    && forall i :: 0 <= i < |t.approvals| ==>
         after.approvals[i]
         == if t.approvals[i].sheet == Some(sheet) then t.approvals[i].(stage := stage) else t.approvals[i]
  }

  ghost predicate SheetApproved(t: Tables, after: Tables, sheet: nat) {
    && sheet < |t.sheets| && after.sheets == t.sheets[sheet := t.sheets[sheet].(status := Approved)]
    && |after.approvals| == |t.approvals|
    && forall i :: 0 <= i < |t.approvals| ==>
         after.approvals[i]
         == if t.approvals[i].sheet == Some(sheet) then t.approvals[i].(status := Approved) else t.approvals[i]
  }

  ghost predicate SheetRejected(t: Tables, after: Tables, sheet: nat, reason: string) {
    && sheet < |t.sheets|
    && after.sheets == t.sheets[sheet := t.sheets[sheet].(status := Rejected, reason := Some(reason))]
    && |after.approvals| == |t.approvals|
    && forall i :: 0 <= i < |t.approvals| ==>
         after.approvals[i]
         == if t.approvals[i].sheet == Some(sheet)
            then t.approvals[i].(status := Rejected, reason := Some(reason)) else t.approvals[i]
  }

  /** A rejection rejects the sheet and all on it with its reason; an approval by
      the board approves them; one by the CHRO asks the board. */
  lemma VoteWrites(t: Tables, token: Token, d: Decision, directory: seq<Person>, now: Millis)
    requires ApprovalSafety.Inv(t) && DistinctPeople(directory)
    ensures var done := Step(t, SubmitSheetVoteCall(token, d, directory, now));
            var after := done.tables;
            if done.reply != Voted then after == t
            else
              && token in t.votes
              && var v := t.votes[token];
                 match d
                 case Reject(reason) =>
                   SheetRejected(t, after, v.sheet, reason) && after.votes == t.votes[token := v.(status := Rejected)]
                 case Approve =>
                   if v.stage == Chro
                   then && SheetMoved(t, after, v.sheet, Board)
                        && Asked(t.votes[token := v.(status := Approved)], after.votes, t.nextToken, v.sheet, Board,
                                 (set u | u in t.sheets[v.sheet].boardMembers), directory, now)
                   else SheetApproved(t, after, v.sheet) && after.votes == t.votes[token := v.(status := Approved)]
  {
    if Step(t, SubmitSheetVoteCall(token, d, directory, now)).reply == Voted {
      var v := t.votes[token];
      if d == Approve && v.stage == Chro {
        var claimed := t.votes[token := v.(status := Approved)];
        var members := set u | u in t.sheets[v.sheet].boardMembers;
        AskingAsks(claimed, t.nextToken, v.sheet, Board, directory, members, now);
      }
    }
  }
}
