/** What every run of the approval-sheet calls keeps. */
module ApprovalSafety {
  import opened Optional
  import opened ApprovalSheets
  import IdLists

  // ---- The invariant ----

  ghost predicate OneApprovalEach(approvals: seq<Approval>) {
    forall i, j :: 0 <= i < j < |approvals| ==> approvals[i].candidate != approvals[j].candidate
  }

  /** A row on a sheet shows the sheet's stage, and its status unless HR approved it with a document. */
  ghost predicate FollowsSheet(a: Approval, sheets: seq<Sheet>) {
    a.sheet.Some? ==>
      && a.sheet.value < |sheets|
      && a.stage == sheets[a.sheet.value].stage
      && (a.status == sheets[a.sheet.value].status || (a.status.Approved? && a.attachment.Some?))
  }

  ghost predicate RowsFollowSheets(t: Tables) {
    forall i :: 0 <= i < |t.approvals| ==> FollowsSheet(t.approvals[i], t.sheets)
  }

  /** A vote belongs to the sheet's CHRO or to one of its board members. */
  ghost predicate Placed(v: Vote, sheets: seq<Sheet>) {
    && v.sheet < |sheets|
    && (v.stage == Chro || v.stage == Board)
    && (v.stage == Chro ==> v.user == sheets[v.sheet].chro)
    && (v.stage == Board ==> v.user in sheets[v.sheet].boardMembers)
  }

  ghost predicate VotesPlaced(t: Tables) {
    forall x :: x in t.votes ==> x < t.nextToken && Placed(t.votes[x], t.sheets)
  }

  ghost predicate SameSeat(v: Vote, w: Vote) {
    v.sheet == w.sheet && v.stage == w.stage && v.user == w.user
  }

  /** A person has one vote, pending or answered, for a sheet at a stage. */
  ghost predicate OneVoteEach(votes: map<Token, Vote>) {
    forall x, y :: x in votes && y in votes && SameSeat(votes[x], votes[y]) ==> x == y
  }

  ghost predicate IsVote(v: Vote, sheet: nat, stage: Stage, status: Status) {
    v.sheet == sheet && v.stage == stage && v.status == status
  }

  ghost predicate Has(votes: map<Token, Vote>, sheet: nat, stage: Stage, status: Status) {
    exists x :: x in votes && IsVote(votes[x], sheet, stage, status)
  }

  /** A sheet is at the board exactly when its CHRO has approved, and its status
      rests on a vote that decides. */
  ghost predicate Phase(votes: map<Token, Vote>, sheet: nat, s: Sheet) {
    && (s.stage == Chro || s.stage == Board)
    && (s.stage == Board <==> Has(votes, sheet, Chro, Approved))
    && (s.stage == Chro ==> forall status :: !Has(votes, sheet, Board, status))
    && (Has(votes, sheet, Chro, Rejected) ==> s.status == Rejected)
    && (s.status == Approved ==> Has(votes, sheet, Board, Approved))
    && (s.status == Rejected ==> Has(votes, sheet, Chro, Rejected) || Has(votes, sheet, Board, Rejected))
    && (s.status == Pending ==> !Has(votes, sheet, Board, Approved) && !Has(votes, sheet, Board, Rejected))
  }

  ghost predicate Phases(t: Tables) {
    forall s :: 0 <= s < |t.sheets| ==> Phase(t.votes, s, t.sheets[s])
  }

  ghost predicate Inv(t: Tables) {
    && OneApprovalEach(t.approvals)
    && RowsFollowSheets(t)
    && VotesPlaced(t)
    && OneVoteEach(t.votes)
    && Phases(t)
  }

  // ---- Issuing votes ----

  ghost predicate Below(votes: map<Token, Vote>, next: Token) {
    forall x :: x in votes ==> x < next
  }

  lemma {:induction false} RecipientsAre(directory: seq<Person>, ids: set<UserId>)
    ensures forall p :: p in Recipients(directory, ids) <==> p in directory && p.id in ids
    ensures DistinctPeople(directory) ==> DistinctPeople(Recipients(directory, ids))
  {
    if directory != [] {
      var n := |directory| - 1;
      RecipientsAre(directory[..n], ids);
      assert directory == directory[..n] + [directory[n]];
      var rest := Recipients(directory[..n], ids);
      if DistinctPeople(directory) {
        forall i | 0 <= i < |rest| ensures rest[i].id != directory[n].id {
          assert rest[i] in directory[..n];
        }
      }
    }
  }

  ghost predicate Fresh(votes: map<Token, Vote>, x: Token, next: Token) {
    x in votes && next <= x
  }

  /** Issuing leaves the old votes alone. */
  lemma {:induction false} IssuedKeeps(votes: map<Token, Vote>, next: Token, sheet: nat, stage: Stage,
                                       people: seq<Person>, expires: Millis)
    requires Below(votes, next)
    ensures var all := Issued(votes, next, sheet, stage, people, expires);
            && Below(all, next + Mailed(people))
            && (forall x :: x in votes ==> x in all && all[x] == votes[x])
            && (forall x :: x in all && x < next ==> x in votes)
  {
    if people != [] {
      IssuedKeeps(votes, next, sheet, stage, people[..|people| - 1], expires);
    }
  }

  /** The k-th person's token. */
  function TokenOf(next: Token, people: seq<Person>, k: nat): Token
    requires k < |people|
  {
    next + Mailed(people[..k])
  }

  /** A person with an email gets one pending vote on a token never drawn before. */
  lemma {:induction false} IssuedFor(votes: map<Token, Vote>, next: Token, sheet: nat, stage: Stage,
                                     people: seq<Person>, expires: Millis, k: nat)
    requires Below(votes, next) && k < |people| && people[k].hasEmail
    ensures var all := Issued(votes, next, sheet, stage, people, expires);
            var x := TokenOf(next, people, k);
            Fresh(all, x, next) && all[x] == Vote(sheet, people[k].id, stage, Pending, expires)
    decreases |people|
  {
    var n := |people| - 1;
    if k < n {
      IssuedFor(votes, next, sheet, stage, people[..n], expires, k);
      assert people[..n][..k] == people[..k];
      IssuedKeeps(votes, next, sheet, stage, people[..n], expires);
    }
  }

  /** Every fresh vote is somebody's. */
  lemma {:induction false} IssuedOwner(votes: map<Token, Vote>, next: Token, sheet: nat, stage: Stage,
                                       people: seq<Person>, expires: Millis, x: Token) returns (k: nat)
    requires Below(votes, next) && Fresh(Issued(votes, next, sheet, stage, people, expires), x, next)
    ensures k < |people| && people[k].hasEmail && x == TokenOf(next, people, k)
    decreases |people|
  {
    var n := |people| - 1;
    if people[n].hasEmail && x == TokenOf(next, people, n) {
      k := n;
    } else {
      k := IssuedOwner(votes, next, sheet, stage, people[..n], expires, x);
      assert people[..n][..k] == people[..k];
    }
  }

  /** Votes of the stage that were still pending are replaced by fresh ones for
      the targets; nothing else changes. */
  ghost predicate Reissue(votes: map<Token, Vote>, after: map<Token, Vote>, next: Token, sheet: nat, stage: Stage,
                          targets: set<UserId>) {
    && (forall x :: x in after && x < next ==> x in votes && after[x] == votes[x] && !IsPending(votes[x], sheet, stage))
    && (forall x :: x in votes && !IsPending(votes[x], sheet, stage) ==> x in after && after[x] == votes[x])
    && (forall x :: Fresh(after, x, next) ==> IsPending(after[x], sheet, stage) && after[x].user in targets)
    && (forall x, y :: Fresh(after, x, next) && Fresh(after, y, next) && after[x].user == after[y].user ==> x == y)
  }

  lemma Reissued(votes: map<Token, Vote>, next: Token, sheet: nat, stage: Stage, directory: seq<Person>,
                 targets: set<UserId>, expires: Millis)
    requires Below(votes, next) && DistinctPeople(directory)
    ensures var people := Recipients(directory, targets);
            var after := Issued(WithoutPending(votes, sheet, stage), next, sheet, stage, people, expires);
            Below(after, next + Mailed(people)) && Reissue(votes, after, next, sheet, stage, targets)
  {
    var people := Recipients(directory, targets);
    var kept := WithoutPending(votes, sheet, stage);
    var after := Issued(kept, next, sheet, stage, people, expires);
    RecipientsAre(directory, targets);
    IssuedKeeps(kept, next, sheet, stage, people, expires);
    forall x | Fresh(after, x, next) ensures IsPending(after[x], sheet, stage) && after[x].user in targets {
      var k := IssuedOwner(kept, next, sheet, stage, people, expires, x);
      IssuedFor(kept, next, sheet, stage, people, expires, k);
      assert people[k] in people;
    }
    forall x, y | Fresh(after, x, next) && Fresh(after, y, next) && after[x].user == after[y].user ensures x == y {
      var j := IssuedOwner(kept, next, sheet, stage, people, expires, x);
      var k := IssuedOwner(kept, next, sheet, stage, people, expires, y);
      IssuedFor(kept, next, sheet, stage, people, expires, j);
      IssuedFor(kept, next, sheet, stage, people, expires, k);
    }
  }

  lemma ReissueKeepsOneVote(votes: map<Token, Vote>, after: map<Token, Vote>, next: Token, sheet: nat, stage: Stage,
                            targets: set<UserId>)
    requires OneVoteEach(votes) && Reissue(votes, after, next, sheet, stage, targets)
    requires targets !! Settled(votes, sheet, stage)
    ensures OneVoteEach(after)
  {
  }

  /** Issuing touches pending votes of one stage only. */
  lemma ReissueKeepsAnswers(votes: map<Token, Vote>, after: map<Token, Vote>, next: Token, sheet: nat, stage: Stage,
                            targets: set<UserId>)
    requires Reissue(votes, after, next, sheet, stage, targets)
    ensures forall s, g, st :: st != Pending || s != sheet || g != stage ==>
        (Has(after, s, g, st) <==> Has(votes, s, g, st))
  {
  }

  // ---- Each call keeps the invariant ----

  lemma SendForApprovalKeeps(t: Tables, candidate: CandidateId, actor: UserId, facts: Facts)
    requires Inv(t)
    ensures Inv(SendForApproval(t, candidate, actor, facts).tables)
  {
  }

  lemma HrApproveKeeps(t: Tables, candidate: CandidateId, actor: UserId, attachment: Option<string>, onboarding: bool)
    requires Inv(t)
    ensures Inv(HrApprove(t, candidate, actor, attachment, onboarding).tables)
  {
  }

  lemma UpdateSheetRowKeeps(t: Tables, approval: nat, patch: Patch)
    requires Inv(t)
    ensures Inv(UpdateSheetRow(t, approval, patch).tables)
  {
  }

  /** Opening a stage keeps every vote in its place and one vote to a seat, and
      the sheet's rows follow it. */
  lemma OpenStageKeepsVotes(t: Tables, sheet: nat, stage: Stage, directory: seq<Person>, now: Millis)
    requires sheet < |t.sheets| && (stage == Chro || stage == Board)
    requires VotesPlaced(t) && OneVoteEach(t.votes) && DistinctPeople(directory)
    requires Expected(t.sheets[sheet].(stage := stage)) !! Settled(t.votes, sheet, stage)
    ensures var after := OpenStage(t, sheet, stage, directory, now);
            && VotesPlaced(after) && OneVoteEach(after.votes)
            && Reissue(t.votes, after.votes, t.nextToken, sheet, stage, Expected(t.sheets[sheet].(stage := stage)))
  {
    var targets := Expected(t.sheets[sheet].(stage := stage));
    var after := OpenStage(t, sheet, stage, directory, now);
    Reissued(t.votes, t.nextToken, sheet, stage, directory, targets, now + TOKEN_VALID_MS);
    ReissueKeepsOneVote(t.votes, after.votes, t.nextToken, sheet, stage, targets);
    forall x | x in after.votes ensures Placed(after.votes[x], after.sheets) {
      assert x < t.nextToken || Fresh(after.votes, x, t.nextToken);
    }
  }

  /** A sheet whose votes did not change in any respect that matters keeps its phase. */
  lemma PhaseCarries(votes: map<Token, Vote>, after: map<Token, Vote>, sheet: nat, s: Sheet)
    requires Phase(votes, sheet, s)
    requires forall g, st :: Has(after, sheet, g, st) <==> Has(votes, sheet, g, st)
    ensures Phase(after, sheet, s)
  {
  }

  /** Rows follow a sheet that moves to a stage. */
  lemma RowsFollowOpening(t: Tables, sheet: nat, stage: Stage, directory: seq<Person>, now: Millis)
    requires sheet < |t.sheets| && RowsFollowSheets(t)
    ensures RowsFollowSheets(OpenStage(t, sheet, stage, directory, now))
    ensures OneApprovalEach(t.approvals) ==> OneApprovalEach(OpenStage(t, sheet, stage, directory, now).approvals)
  {
  }

  ghost function Created(t: Tables, ids: seq<nat>, reference: string, chro: UserId, boardMembers: seq<UserId>,
                         actor: UserId): Tables {
    t.(sheets := t.sheets + [Sheet(reference, actor, chro, boardMembers, Pending, Chro, None)],
       approvals := PutOnSheet(t.approvals, ids, |t.sheets|, actor))
  }

  lemma CreatingKeepsRows(t: Tables, ids: seq<nat>, reference: string, chro: UserId, boardMembers: seq<UserId>,
                          actor: UserId)
    requires OneApprovalEach(t.approvals) && RowsFollowSheets(t) && forall i :: i in ids ==> Waiting(t.approvals, i)
    ensures OneApprovalEach(Created(t, ids, reference, chro, boardMembers, actor).approvals)
    ensures RowsFollowSheets(Created(t, ids, reference, chro, boardMembers, actor))
  {
  }

  lemma {:induction false} SendSheetKeeps(t: Tables, ids: seq<nat>, chro: UserId, boardMembers: seq<UserId>,
                                          actor: UserId,
                       roles: Roles, directory: seq<Person>, now: Millis)
    requires Inv(t) && DistinctPeople(directory)
    ensures Inv(SendSheet(t, ids, chro, boardMembers, actor, roles, directory, now).tables)
  {
    var outcome := SendSheet(t, ids, chro, boardMembers, actor, roles, directory, now);
    if outcome.reply.SheetSent? {
      IdLists.AllFound(ids, Found(t.approvals, ids));
      CreatingKeepsRows(t, ids, outcome.reply.reference, chro, boardMembers, actor);
      OpenNewSheetKeeps(Created(t, ids, outcome.reply.reference, chro, boardMembers, actor), t, directory, now);
    }
  }

  lemma OpenNewSheetKeeps(created: Tables, t: Tables, directory: seq<Person>, now: Millis)
    requires Inv(t) && DistinctPeople(directory)
    requires |created.sheets| == |t.sheets| + 1 && created.sheets[..|t.sheets|] == t.sheets
    requires created.sheets[|t.sheets|].status == Pending && created.sheets[|t.sheets|].stage == Chro
    requires created.votes == t.votes && created.nextToken == t.nextToken
    requires OneApprovalEach(created.approvals) && RowsFollowSheets(created)
    ensures Inv(OpenStage(created, |t.sheets|, Chro, directory, now))
  {
    var sheet := |t.sheets|;
    var after := OpenStage(created, sheet, Chro, directory, now);
    forall x | x in created.votes ensures Placed(created.votes[x], created.sheets) && created.votes[x].sheet != sheet {
      assert Placed(t.votes[x], t.sheets) && created.sheets[t.votes[x].sheet] == t.sheets[t.votes[x].sheet];
    }
    OpenStageKeepsVotes(created, sheet, Chro, directory, now);
    RowsFollowOpening(created, sheet, Chro, directory, now);
    ReissueKeepsAnswers(t.votes, after.votes, t.nextToken, sheet, Chro, {created.sheets[sheet].chro});
    assert forall g, st :: !Has(t.votes, sheet, g, st);
    forall s | 0 <= s < |after.sheets| ensures Phase(after.votes, s, after.sheets[s]) {
      if s < sheet {
        assert Phase(t.votes, s, t.sheets[s]);
        PhaseCarries(t.votes, after.votes, s, t.sheets[s]);
        assert after.sheets[s] == created.sheets[..sheet][s] == t.sheets[s];
      }
    }
  }

  lemma ResendSheetKeeps(t: Tables, sheet: nat, directory: seq<Person>, undeliverable: set<UserId>, now: Millis)
    requires Inv(t) && DistinctPeople(directory)
    ensures Inv(ResendSheet(t, sheet, directory, undeliverable, now).tables)
  {
    var outcome := ResendSheet(t, sheet, directory, undeliverable, now);
    if outcome.reply.Resent? {
      var after, stage := outcome.tables, t.sheets[sheet].stage;
      var targets := Expected(t.sheets[sheet]) - Settled(t.votes, sheet, stage);
      Reissued(t.votes, t.nextToken, sheet, stage, directory, targets, now + TOKEN_VALID_MS);
      ReissueKeepsOneVote(t.votes, after.votes, t.nextToken, sheet, stage, targets);
      ReissueKeepsAnswers(t.votes, after.votes, t.nextToken, sheet, stage, targets);
      assert Phase(t.votes, sheet, t.sheets[sheet]);
      forall x | x in after.votes ensures x < after.nextToken && Placed(after.votes[x], after.sheets) {
        assert x < t.nextToken || Fresh(after.votes, x, t.nextToken);
      }
      forall s | 0 <= s < |after.sheets| ensures Phase(after.votes, s, after.sheets[s]) {
        assert Phase(t.votes, s, t.sheets[s]);
      }
    }
  }

  /** A CHRO vote is the only vote of its sheet at that stage, so while it is
      pending the sheet is pending and the board has not been asked. */
  lemma ChroVoteIsAlone(t: Tables, token: Token)
    requires Inv(t) && token in t.votes && t.votes[token].stage == Chro
    ensures forall st :: Has(t.votes, t.votes[token].sheet, Chro, st) <==> st == t.votes[token].status
    ensures t.votes[token].status == Pending ==>
              var s := t.sheets[t.votes[token].sheet]; s.stage == Chro && s.status == Pending
  {
  }

  /** Claiming one vote changes what the tables hold at its seat only. */
  lemma ClaimChanges(t: Tables, token: Token, d: Decision)
    requires Inv(t) && token in t.votes && t.votes[token].status == Pending
    ensures var v := t.votes[token];
            var after := Claimed(t, token, d);
            && VotesPlaced(after) && OneVoteEach(after.votes)
            && Has(after.votes, v.sheet, v.stage, StatusOf(d))
            && (forall s, g, st :: (s != v.sheet || g != v.stage || (st != Pending && st != StatusOf(d))) ==>
                  (Has(after.votes, s, g, st) <==> Has(t.votes, s, g, st)))
            && (forall s, g :: Has(t.votes, s, g, StatusOf(d)) ==> Has(after.votes, s, g, StatusOf(d)))
            && (forall s, g :: Has(after.votes, s, g, Pending) ==> Has(t.votes, s, g, Pending))
  {
    var v := t.votes[token];
    var after := Claimed(t, token, d);
    assert IsVote(after.votes[token], v.sheet, v.stage, StatusOf(d));
    forall s, g, st | Has(t.votes, s, g, st) && !(s == v.sheet && g == v.stage && st == Pending)
      ensures Has(after.votes, s, g, st)
    {
      var x :| x in t.votes && IsVote(t.votes[x], s, g, st);
      assert x != token && IsVote(after.votes[x], s, g, st);
    }
    forall s, g, st | Has(after.votes, s, g, st) && !(s == v.sheet && g == v.stage && st == StatusOf(d))
      ensures Has(t.votes, s, g, st)
    {
      var x :| x in after.votes && IsVote(after.votes[x], s, g, st);
      assert x != token && IsVote(t.votes[x], s, g, st);
    }
    forall x, y | x in after.votes && y in after.votes && SameSeat(after.votes[x], after.votes[y]) ensures x == y {
      assert SameSeat(t.votes[x], t.votes[y]);
    }
    forall x | x in after.votes ensures Placed(after.votes[x], after.sheets) {
      assert Placed(t.votes[x], t.sheets);
    }
  }

  lemma PhaseAfterChroApproval(votes: map<Token, Vote>, after: map<Token, Vote>, sheet: nat, s: Sheet)
    requires Phase(votes, sheet, s) && s.stage == Chro && s.status == Pending
    requires !Has(votes, sheet, Chro, Rejected)
    requires Has(after, sheet, Chro, Approved) && !Has(after, sheet, Chro, Rejected)
    requires forall st :: st != Pending ==> (Has(after, sheet, Board, st) <==> Has(votes, sheet, Board, st))
    ensures Phase(after, sheet, s.(stage := Board))
  {
  }

  lemma NobodySettled(votes: map<Token, Vote>, sheet: nat, stage: Stage)
    requires forall st :: !Has(votes, sheet, stage, st)
    ensures Settled(votes, sheet, stage) == {}
  {
    forall x | x in votes && votes[x].stage == stage ensures votes[x].sheet != sheet {
      assert !Has(votes, sheet, stage, votes[x].status);
    }
  }

  lemma ChroApprovalKeeps(t: Tables, token: Token, directory: seq<Person>, now: Millis)
    requires Inv(t) && DistinctPeople(directory)
    requires VoteRefusal(t, token, Approve, now) == None && t.votes[token].stage == Chro
    ensures Inv(SubmitSheetVote(t, token, Approve, directory, now).tables)
  {
    var sheet := t.votes[token].sheet;
    var claimed := Claimed(t, token, Approve);
    ChroVoteIsAlone(t, token);
    ClaimChanges(t, token, Approve);
    assert Phase(t.votes, sheet, t.sheets[sheet]);
    NobodySettled(claimed.votes, sheet, Board);
    OpenStageKeepsVotes(claimed, sheet, Board, directory, now);
    RowsFollowOpening(claimed, sheet, Board, directory, now);
    var after := OpenStage(claimed, sheet, Board, directory, now);
    ReissueKeepsAnswers(claimed.votes, after.votes, t.nextToken, sheet, Board,
        Expected(t.sheets[sheet].(stage := Board)));
    forall s | 0 <= s < |after.sheets| ensures Phase(after.votes, s, after.sheets[s]) {
      assert Phase(t.votes, s, t.sheets[s]);
      if s == sheet {
        PhaseAfterChroApproval(t.votes, after.votes, s, t.sheets[s]);
      } else {
        PhaseCarries(t.votes, after.votes, s, t.sheets[s]);
      }
    }
  }

  lemma RowsFollowDecision(t: Tables, sheet: nat, d: Decision)
    requires sheet < |t.sheets| && RowsFollowSheets(t)
    ensures RowsFollowSheets(Decided(t, sheet, d))
    ensures OneApprovalEach(t.approvals) ==> OneApprovalEach(Decided(t, sheet, d).approvals)
  {
  }

  lemma PhaseAfterChroRejection(votes: map<Token, Vote>, after: map<Token, Vote>, sheet: nat, s: Sheet,
                                reason: Option<string>)
    requires Phase(votes, sheet, s) && s.stage == Chro
    requires Has(after, sheet, Chro, Rejected) && !Has(after, sheet, Chro, Approved)
    requires forall st :: Has(after, sheet, Board, st) <==> Has(votes, sheet, Board, st)
    ensures Phase(after, sheet, s.(status := Rejected, reason := reason))
  {
  }

  lemma PhaseAfterBoardAnswer(votes: map<Token, Vote>, after: map<Token, Vote>, sheet: nat, s: Sheet, status: Status,
                              reason: Option<string>)
    requires Phase(votes, sheet, s) && s.stage == Board && status != Pending
    requires Has(after, sheet, Board, status)
    requires Has(after, sheet, Chro, Approved) && !Has(after, sheet, Chro, Rejected)
    ensures Phase(after, sheet, s.(status := status, reason := reason))
  {
  }

  /** A board vote presupposes an approved CHRO vote, and no rejected one. */
  lemma BoardVoteFollowsChro(t: Tables, token: Token)
    requires Inv(t) && token in t.votes && t.votes[token].stage == Board
    ensures var sheet := t.votes[token].sheet;
            && t.sheets[sheet].stage == Board
            && Has(t.votes, sheet, Chro, Approved) && !Has(t.votes, sheet, Chro, Rejected) &&
                !Has(t.votes, sheet, Chro, Pending)
  {
    var v := t.votes[token];
    assert Placed(v, t.sheets) && Phase(t.votes, v.sheet, t.sheets[v.sheet]);
    assert IsVote(v, v.sheet, Board, v.status);
    assert Has(t.votes, v.sheet, Board, v.status);
    var x :| x in t.votes && IsVote(t.votes[x], v.sheet, Chro, Approved);
    ChroVoteIsAlone(t, x);
  }

  lemma {:induction false} DecisionKeeps(t: Tables, token: Token, d: Decision, directory: seq<Person>, now: Millis)
    requires Inv(t) && DistinctPeople(directory)
    requires VoteRefusal(t, token, d, now) == None && !(d.Approve? && t.votes[token].stage == Chro)
    ensures Inv(SubmitSheetVote(t, token, d, directory, now).tables)
  {
    var v := t.votes[token];
    assert Placed(v, t.sheets);
    var claimed := Claimed(t, token, d);
    ClaimChanges(t, token, d);
    RowsFollowDecision(claimed, v.sheet, d);
    var after := Decided(claimed, v.sheet, d);
    if v.stage == Chro { ChroVoteIsAlone(t, token); } else { BoardVoteFollowsChro(t, token); }
    forall x | x in after.votes ensures Placed(after.votes[x], after.sheets) {
      assert Placed(claimed.votes[x], t.sheets);
    }
    forall s | 0 <= s < |after.sheets| ensures Phase(after.votes, s, after.sheets[s]) {
      assert Phase(t.votes, s, t.sheets[s]);
      if s != v.sheet {
        PhaseCarries(t.votes, after.votes, s, t.sheets[s]);
      } else if v.stage == Chro {
        PhaseAfterChroRejection(t.votes, after.votes, s, t.sheets[s], Some(d.reason));
      } else {
        PhaseAfterBoardAnswer(t.votes, after.votes, s, t.sheets[s], StatusOf(d), after.sheets[s].reason);
      }
    }
  }

  lemma {:induction false} StepKeeps(t: Tables, e: Event)
    requires Inv(t) && Directory(e)
    ensures Inv(Step(t, e).tables)
  {
    match e
    case SendForApprovalCall(c, actor, facts) => SendForApprovalKeeps(t, c, actor, facts);
    case HrApproveCall(c, actor, file, onboarding) => HrApproveKeeps(t, c, actor, file, onboarding);
    case UpdateSheetRowCall(a, patch) => UpdateSheetRowKeeps(t, a, patch);
    case SendSheetCall(ids, chro, members, actor, roles, directory, now) =>
      SendSheetKeeps(t, ids, chro, members, actor, roles, directory, now);
    case ResendSheetCall(s, directory, undeliverable, now) => ResendSheetKeeps(t, s, directory, undeliverable, now);
    case SubmitSheetVoteCall(token, d, directory, now) =>
      if VoteRefusal(t, token, d, now) == None {
        if d.Approve? && t.votes[token].stage == Chro {
          ChroApprovalKeeps(t, token, directory, now);
        } else {
          DecisionKeeps(t, token, d, directory, now);
        }
      }
  }

  /** Every run keeps the invariant. */
  lemma {:induction false} RunKeeps(t: Tables, events: seq<Event>)
    requires Inv(t) && Directories(events)
    ensures Inv(Run(t, events))
  {
    if events != [] {
      RunKeeps(t, events[..|events| - 1]);
      StepKeeps(Run(t, events[..|events| - 1]), events[|events| - 1]);
    }
  }
}
