/** Results over whole runs of the approval-sheet calls. */
module ApprovalRuns {
  import opened Optional
  import opened ApprovalSheets
  import opened ApprovalSafety

  ghost predicate CastBy(t: Tables, x: Token, sheet: nat, stage: Stage, status: Status, user: UserId) {
    x in t.votes && t.votes[x].sheet == sheet && t.votes[x].stage == stage && t.votes[x].status == status &&
        t.votes[x].user == user
  }

  // ---- Safety of every reachable state ----

  /** From empty tables: an approved sheet carries its own CHRO's approval and
      one board member's, and nobody on the board is asked before the CHRO approves. */
  lemma {:induction false} ApprovedSheetsAreSigned(events: seq<Event>, sheet: nat)
    requires Directories(events)
    requires sheet < |Run(EMPTY, events).sheets|
    ensures var t := Run(EMPTY, events);
            var s := t.sheets[sheet];
            && (s.status == Approved ==>
                  && (exists x :: CastBy(t, x, sheet, Chro, Approved, s.chro))
                  && (exists x, m :: m in s.boardMembers && CastBy(t, x, sheet, Board, Approved, m)))
            && (forall x :: x in t.votes && t.votes[x].sheet == sheet && t.votes[x].stage == Board ==>
                  exists y :: CastBy(t, y, sheet, Chro, Approved, s.chro))
  {
    RunKeeps(EMPTY, events);
    var t := Run(EMPTY, events);
    assert Phase(t.votes, sheet, t.sheets[sheet]);
    forall x | x in t.votes && t.votes[x].sheet == sheet && t.votes[x].stage == Board
      ensures exists y :: CastBy(t, y, sheet, Chro, Approved, t.sheets[sheet].chro)
    {
      BoardVoteFollowsChro(t, x);
      ChroSigned(t, sheet);
    }
    if t.sheets[sheet].status == Approved {
      var x :| x in t.votes && IsVote(t.votes[x], sheet, Board, Approved);
      assert Placed(t.votes[x], t.sheets);
      assert CastBy(t, x, sheet, Board, Approved, t.votes[x].user);
    }
  }

  lemma ChroSigned(t: Tables, sheet: nat)
    requires Inv(t) && Has(t.votes, sheet, Chro, Approved)
    ensures sheet < |t.sheets| && exists y :: CastBy(t, y, sheet, Chro, Approved, t.sheets[sheet].chro)
  {
    var y :| y in t.votes && IsVote(t.votes[y], sheet, Chro, Approved);
    assert Placed(t.votes[y], t.sheets);
    assert CastBy(t, y, sheet, Chro, Approved, t.sheets[sheet].chro);
  }

  /** From empty tables: one approval to a candidate, rows in step with their
      sheet, and at most one vote, pending or answered, to a seat. */
  lemma {:induction false} TablesStayInStep(events: seq<Event>)
    requires Directories(events)
    ensures var t := Run(EMPTY, events);
            && (forall i, j :: 0 <= i < j < |t.approvals| ==> t.approvals[i].candidate != t.approvals[j].candidate)
            && (forall i :: 0 <= i < |t.approvals| ==> FollowsSheet(t.approvals[i], t.sheets))
            && (forall x, y :: x in t.votes && y in t.votes && SameSeat(t.votes[x], t.votes[y]) ==> x == y)
  {
    RunKeeps(EMPTY, events);
  }

  // ---- Answers stay; a CHRO rejection is final ----

  ghost predicate AnswersKept(votes: map<Token, Vote>, after: map<Token, Vote>) {
    forall x :: x in votes && votes[x].status != Pending ==> x in after && after[x] == votes[x]
  }

  ghost predicate SameOrders(s: Sheet, after: Sheet) {
    after.chro == s.chro && after.boardMembers == s.boardMembers && after.reference == s.reference
  }

  ghost predicate SheetsKept(sheets: seq<Sheet>, after: seq<Sheet>) {
    |sheets| <= |after| && forall i :: 0 <= i < |sheets| ==> SameOrders(sheets[i], after[i])
  }

  lemma OpeningKeepsAnswers(t: Tables, sheet: nat, stage: Stage, directory: seq<Person>, now: Millis)
    requires sheet < |t.sheets| && Below(t.votes, t.nextToken) && DistinctPeople(directory)
    ensures AnswersKept(t.votes, OpenStage(t, sheet, stage, directory, now).votes)
  {
    var targets := Expected(t.sheets[sheet].(stage := stage));
    Reissued(t.votes, t.nextToken, sheet, stage, directory, targets, now + TOKEN_VALID_MS);
  }

  lemma SendingKeepsAnswers(t: Tables, ids: seq<nat>, chro: UserId, members: seq<UserId>, actor: UserId,
                            roles: Roles, directory: seq<Person>, now: Millis)
    requires Below(t.votes, t.nextToken) && DistinctPeople(directory)
    ensures AnswersKept(t.votes, SendSheet(t, ids, chro, members, actor, roles, directory, now).tables.votes)
  {
    var outcome := SendSheet(t, ids, chro, members, actor, roles, directory, now);
    if outcome.reply.SheetSent? {
      OpeningKeepsAnswers(Created(t, ids, outcome.reply.reference, chro, members, actor), |t.sheets|, Chro,
          directory, now);
    }
  }

  lemma ResendingKeepsAnswers(t: Tables, sheet: nat, directory: seq<Person>, undeliverable: set<UserId>, now: Millis)
    requires Inv(t) && DistinctPeople(directory)
    ensures AnswersKept(t.votes, ResendSheet(t, sheet, directory, undeliverable, now).tables.votes)
  {
    if sheet < |t.sheets| {
      var stage := t.sheets[sheet].stage;
      Reissued(t.votes, t.nextToken, sheet, stage, directory,
        Expected(t.sheets[sheet]) - Settled(t.votes, sheet, stage), now + TOKEN_VALID_MS);
    }
  }

  lemma {:induction false} AnsweringKeepsAnswers(t: Tables, token: Token, d: Decision, directory: seq<Person>,
                                                 now: Millis)
    requires Inv(t) && DistinctPeople(directory)
    ensures AnswersKept(t.votes, SubmitSheetVote(t, token, d, directory, now).tables.votes)
  {
    if VoteRefusal(t, token, d, now) == None {
      var claimed := Claimed(t, token, d);
      assert AnswersKept(t.votes, claimed.votes);
      if d.Approve? && t.votes[token].stage == Chro {
        OpeningKeepsAnswers(claimed, t.votes[token].sheet, Board, directory, now);
      }
    }
  }

  /** No call changes or deletes an answered vote. */
  lemma {:induction false} StepKeepsAnswers(t: Tables, e: Event)
    requires Inv(t) && Directory(e)
    ensures AnswersKept(t.votes, Step(t, e).tables.votes)
  {
    hide SendSheet, ResendSheet, SubmitSheetVote;
    match e
    case SendSheetCall(ids, chro, members, actor, roles, directory, now) =>
      SendingKeepsAnswers(t, ids, chro, members, actor, roles, directory, now);
    case ResendSheetCall(s, directory, undeliverable, now) =>
      ResendingKeepsAnswers(t, s, directory, undeliverable, now);
    case SubmitSheetVoteCall(token, d, directory, now) => AnsweringKeepsAnswers(t, token, d, directory, now);
    case _ =>
  }

  lemma AnsweringKeepsSheets(t: Tables, token: Token, d: Decision, directory: seq<Person>, now: Millis)
    ensures var after := SubmitSheetVote(t, token, d, directory, now).tables;
            SheetsKept(t.sheets, after.sheets) && |after.sheets| == |t.sheets|
  {
  }

  lemma SendingKeepsSheets(t: Tables, ids: seq<nat>, chro: UserId, members: seq<UserId>, actor: UserId, roles: Roles,
                           directory: seq<Person>, now: Millis)
    ensures var after := SendSheet(t, ids, chro, members, actor, roles, directory, now).tables;
            SheetsKept(t.sheets, after.sheets) && |after.sheets| <= |t.sheets| + 1
  {
  }

  /** No call drops a sheet or changes its approvers or reference. */
  lemma {:induction false} StepKeepsSheets(t: Tables, e: Event)
    ensures SheetsKept(t.sheets, Step(t, e).tables.sheets)
    ensures |Step(t, e).tables.sheets| <= |t.sheets| + 1
  {
    hide SendSheet, SubmitSheetVote;
    match e
    case SendSheetCall(ids, chro, members, actor, roles, directory, now) =>
      SendingKeepsSheets(t, ids, chro, members, actor, roles, directory, now);
    case SubmitSheetVoteCall(token, d, directory, now) => AnsweringKeepsSheets(t, token, d, directory, now);
    case _ =>
  }

  lemma {:induction false} AnswersStay(t: Tables, events: seq<Event>, x: Token)
    requires Inv(t) && Directories(events) && x in t.votes && t.votes[x].status != Pending
    ensures x in Run(t, events).votes && Run(t, events).votes[x] == t.votes[x]
  {
    if events != [] {
      var n := |events| - 1;
      AnswersStay(t, events[..n], x);
      RunKeeps(t, events[..n]);
      StepKeepsAnswers(Run(t, events[..n]), events[n]);
    }
  }

  /** Once the CHRO has rejected a sheet it stays rejected, and no link of it is live again. */
  lemma {:induction false} ChroRejectionIsFinal(t: Tables, token: Token, events: seq<Event>)
    requires Inv(t) && Directories(events)
    requires token in t.votes && t.votes[token].stage == Chro && t.votes[token].status == Rejected
    ensures var sheet := t.votes[token].sheet;
            var later := Run(t, events);
            && sheet < |later.sheets| && later.sheets[sheet].status == Rejected
            && (forall x :: x in later.votes && later.votes[x].sheet == sheet ==> later.votes[x].status != Pending)
  {
    var later := Run(t, events);
    var sheet := t.votes[token].sheet;
    RunKeeps(t, events);
    AnswersStay(t, events, token);
    ChroVoteIsAlone(later, token);
    assert Placed(later.votes[token], later.sheets) && Phase(later.votes, sheet, later.sheets[sheet]);
    forall x | x in later.votes && later.votes[x].sheet == sheet ensures later.votes[x].status != Pending {
      assert Placed(later.votes[x], later.sheets);
      assert IsVote(later.votes[x], sheet, later.votes[x].stage, later.votes[x].status);
      assert Has(later.votes, sheet, later.votes[x].stage, later.votes[x].status);
    }
  }

  // ---- Who holds a live link ----

  ghost predicate Live(votes: map<Token, Vote>, x: Token, sheet: nat, stage: Stage) {
    x in votes && IsPending(votes[x], sheet, stage)
  }

  ghost predicate CanBeMailed(directory: seq<Person>, u: UserId) {
    exists p :: p in directory && p.id == u && p.hasEmail
  }

  ghost predicate LinksAre(votes: map<Token, Vote>, next: Token, sheet: nat, stage: Stage, users: iset<UserId>) {
    && (forall x :: Live(votes, x, sheet, stage) ==> next <= x && votes[x].user in users)
    && (forall u :: u in users ==> exists x :: Live(votes, x, sheet, stage) && votes[x].user == u)
  }

  lemma IssuingReaches(votes: map<Token, Vote>, next: Token, sheet: nat, stage: Stage, directory: seq<Person>,
                       targets: set<UserId>, expires: Millis)
    requires Below(votes, next) && DistinctPeople(directory)
    ensures var after := Issued(WithoutPending(votes, sheet, stage), next, sheet, stage,
        Recipients(directory, targets), expires);
            LinksAre(after, next, sheet, stage, iset u | u in targets && CanBeMailed(directory, u))
  {
    var people := Recipients(directory, targets);
    var kept := WithoutPending(votes, sheet, stage);
    var after := Issued(kept, next, sheet, stage, people, expires);
    Reissued(votes, next, sheet, stage, directory, targets, expires);
    RecipientsAre(directory, targets);
    forall x | Live(after, x, sheet, stage)
      ensures next <= x && after[x].user in targets && CanBeMailed(directory, after[x].user)
    {
      assert Fresh(after, x, next);
      var k := IssuedOwner(kept, next, sheet, stage, people, expires, x);
      IssuedFor(kept, next, sheet, stage, people, expires, k);
      assert people[k] in people;
    }
    forall u | u in targets && CanBeMailed(directory, u)
      ensures exists x :: Live(after, x, sheet, stage) && after[x].user == u
    {
      var p :| p in directory && p.id == u && p.hasEmail;
      assert p in people;
      var k :| 0 <= k < |people| && people[k] == p;
      IssuedFor(kept, next, sheet, stage, people, expires, k);
      assert Live(after, TokenOf(next, people, k), sheet, stage);
    }
  }

  /** After a resend the live links of the stage are exactly those of the
      recipients still to answer who have an email, all on new tokens. */
  lemma ResendReachesTheUnanswered(t: Tables, sheet: nat, directory: seq<Person>, undeliverable: set<UserId>,
                                   now: Millis)
    requires Inv(t) && DistinctPeople(directory)
    requires ResendSheet(t, sheet, directory, undeliverable, now).reply.Resent?
    ensures var after := ResendSheet(t, sheet, directory, undeliverable, now).tables;
            var s := t.sheets[sheet];
            LinksAre(after.votes, t.nextToken, sheet, s.stage,
                     iset u | u in Expected(s) && u !in Settled(t.votes, sheet, s.stage) && CanBeMailed(directory, u))
  {
    var s := t.sheets[sheet];
    var targets := Expected(s) - Settled(t.votes, sheet, s.stage);
    IssuingReaches(t.votes, t.nextToken, sheet, s.stage, directory, targets, now + TOKEN_VALID_MS);
    assert (iset u | u in Expected(s) && u !in Settled(t.votes, sheet, s.stage) && CanBeMailed(directory, u))
        == (iset u | u in targets && CanBeMailed(directory, u));
  }

  /** The CHRO's approval moves the sheet and its rows to the board, changing
      nothing else about them, and gives links to exactly the board members who
      can be mailed. */
  lemma ChroApprovalAsksTheBoard(t: Tables, token: Token, directory: seq<Person>, now: Millis)
    requires Inv(t) && DistinctPeople(directory)
    requires VoteRefusal(t, token, Approve, now) == None && t.votes[token].stage == Chro
    ensures var after := SubmitSheetVote(t, token, Approve, directory, now).tables;
            var sheet := t.votes[token].sheet;
            && LinksAre(after.votes, t.nextToken, sheet, Board,
                        iset u | u in t.sheets[sheet].boardMembers && CanBeMailed(directory, u))
            && after.sheets == t.sheets[sheet := t.sheets[sheet].(stage := Board)] && |after.approvals| == |t.approvals|
            && (forall i :: 0 <= i < |t.approvals| ==>
                  var row := t.approvals[i];
                  after.approvals[i] == if row.sheet == Some(sheet) then row.(stage := Board) else row)
  {
    var sheet := t.votes[token].sheet;
    var targets := Expected(t.sheets[sheet].(stage := Board));
    var claimed := Claimed(t, token, Approve);
    IssuingReaches(claimed.votes, t.nextToken, sheet, Board, directory, targets, now + TOKEN_VALID_MS);
    assert (iset u | u in t.sheets[sheet].boardMembers && CanBeMailed(directory, u))
        == (iset u | u in targets && CanBeMailed(directory, u));
  }

  // ---- What is on a sheet stays as it was sent ----

  /** A row can only join a sheet numbered next, and its columns do not change
      while it is on one. */
  ghost predicate RowFrozen(a: Approval, after: Approval, next: nat) {
    && after.candidate == a.candidate
    && (after.sheet == a.sheet || after.sheet == None || after.sheet == Some(next))
    && (a.sheet.Some? ==> after.columns == a.columns)
  }

  lemma SendingFreezesRow(t: Tables, ids: seq<nat>, chro: UserId, members: seq<UserId>, actor: UserId, roles: Roles,
                          directory: seq<Person>, now: Millis, i: nat)
    requires i < |t.approvals|
    ensures var after := SendSheet(t, ids, chro, members, actor, roles, directory, now).tables.approvals;
            i < |after| && RowFrozen(t.approvals[i], after[i], |t.sheets|)
  {
  }

  lemma AnsweringFreezesRow(t: Tables, token: Token, d: Decision, directory: seq<Person>, now: Millis, i: nat)
    requires i < |t.approvals|
    ensures var after := SubmitSheetVote(t, token, d, directory, now).tables.approvals;
            i < |after| && RowFrozen(t.approvals[i], after[i], |t.sheets|)
  {
  }

  lemma {:induction false} StepFreezesRows(t: Tables, e: Event, i: nat)
    requires i < |t.approvals|
    ensures var after := Step(t, e).tables.approvals;
            i < |after| && RowFrozen(t.approvals[i], after[i], |t.sheets|)
  {
    hide SendSheet, SubmitSheetVote;
    match e
    case SendSheetCall(ids, chro, members, actor, roles, directory, now) =>
      SendingFreezesRow(t, ids, chro, members, actor, roles, directory, now, i);
    case SubmitSheetVoteCall(token, d, directory, now) => AnsweringFreezesRow(t, token, d, directory, now, i);
    case _ =>
  }

  /** A candidate who is on the same sheet at two moments has the same three
      columns stored at both. */
  lemma {:induction false} ColumnsStayAsSent(t: Tables, events: seq<Event>, i: nat, sheet: nat)
    requires Inv(t) && Directories(events) && i < |t.approvals| && sheet < |t.sheets|
    ensures i < |Run(t, events).approvals| && sheet < |Run(t, events).sheets|
    ensures Run(t, events).approvals[i].sheet == Some(sheet) ==>
              t.approvals[i].sheet == Some(sheet) && Run(t, events).approvals[i].columns == t.approvals[i].columns
  {
    if events != [] {
      var n := |events| - 1;
      ColumnsStayAsSent(t, events[..n], i, sheet);
      RunKeeps(t, events[..n]);
      StepKeepsSheets(Run(t, events[..n]), events[n]);
      StepFreezesRows(Run(t, events[..n]), events[n], i);
    }
  }
}
