/** What a sheet and a candidate's approval show is what was answered last. */
module ApprovalDecisions {
  import opened Optional
  import opened ApprovalSheets
  import opened ApprovalSafety
  import opened ApprovalRuns
  import SheetReferences

  // ---- One answer ----

  ghost predicate Answers(t: Tables, e: Event, sheet: nat) {
    && e.SubmitSheetVoteCall?
    && VoteRefusal(t, e.token, e.decision, e.now) == None
    && t.votes[e.token].sheet == sheet
  }

  /** An accepted answer on a sheet that decides it: any but the CHRO's approval. */
  ghost predicate Decides(t: Tables, e: Event, sheet: nat) {
    Answers(t, e, sheet) && !(e.decision.Approve? && t.votes[e.token].stage == Chro)
  }

  /** One call gives a sheet the status of the answer that decides it, and
      leaves every other status as it was; a new sheet is pending. */
  lemma StatusAfterStep(t: Tables, e: Event, sheet: nat)
    requires sheet < |Step(t, e).tables.sheets|
    ensures Step(t, e).tables.sheets[sheet].status
            == if Decides(t, e, sheet) then StatusOf(e.decision)
               else if sheet < |t.sheets| then t.sheets[sheet].status
               else Pending
  {
  }

  /** A decided sheet changes its status in a step exactly when a live link of
      it, which is then a board member's, answers otherwise. Approved and
      rejected sheets are alike in this: answering does not look at the status. */
  lemma DecisionIsOverturned(t: Tables, e: Event, sheet: nat)
    requires Inv(t) && sheet < |t.sheets| && t.sheets[sheet].status != Pending
    ensures sheet < |Step(t, e).tables.sheets|
    ensures Step(t, e).tables.sheets[sheet].status != t.sheets[sheet].status
            <==> Answers(t, e, sheet) && StatusOf(e.decision) != t.sheets[sheet].status
    ensures Answers(t, e, sheet) ==> t.votes[e.token].stage == Board
  {
    StepKeepsSheets(t, e);
    StatusAfterStep(t, e, sheet);
    if Answers(t, e, sheet) {
      assert Placed(t.votes[e.token], t.sheets);
      if t.votes[e.token].stage == Chro { ChroVoteIsAlone(t, e.token); }
    }
  }

  /** Of two live board links of a sheet the one answered later decides it,
      whatever the two answers are. */
  lemma LaterBoardAnswerWins(t: Tables, x: Token, y: Token, d: Decision, e: Decision, directory: seq<Person>,
                             now: Millis, later: Millis)
    requires VoteRefusal(t, x, d, now) == None && t.votes[x].stage == Board
    requires VoteRefusal(t, y, e, later) == None && t.votes[y].stage == Board
    requires Inv(t) && x != y && t.votes[x].sheet == t.votes[y].sheet
    ensures var sheet := t.votes[x].sheet;
            var once := SubmitSheetVote(t, x, d, directory, now);
            var twice := SubmitSheetVote(once.tables, y, e, directory, later);
            && once.reply == Voted && once.tables.sheets[sheet].status == StatusOf(d)
            && twice.reply == Voted && twice.tables.sheets[sheet].status == StatusOf(e)
  {
  }

  // ---- Whole runs ----

  datatype Answer = Answer(stage: Stage, decision: Decision)

  /** The last accepted answer of a run that decided the sheet. */
  ghost function LastAnswer(events: seq<Event>, sheet: nat): Option<Answer> {
    if events == [] then None
    else
      var t, e := Run(EMPTY, events[..|events| - 1]), events[|events| - 1];
      if Decides(t, e, sheet) then Some(Answer(t.votes[e.token].stage, e.decision))
      else LastAnswer(events[..|events| - 1], sheet)
  }

  lemma {:induction false} UnsentHasNoAnswer(events: seq<Event>, sheet: nat)
    requires Directories(events) && sheet >= |Run(EMPTY, events).sheets|
    ensures LastAnswer(events, sheet) == None
  {
    if events != [] {
      var before := events[..|events| - 1];
      RunKeeps(EMPTY, before);
      StepKeepsSheets(Run(EMPTY, before), events[|events| - 1]);
      UnsentHasNoAnswer(before, sheet);
    }
  }

  /** After every run a sheet has the status of the last answer that decided it,
      and is pending if there is none. */
  lemma {:induction false} StatusIsLastAnswer(events: seq<Event>, sheet: nat)
    requires Directories(events) && sheet < |Run(EMPTY, events).sheets|
    ensures var last := LastAnswer(events, sheet);
            Run(EMPTY, events).sheets[sheet].status == if last.None? then Pending else StatusOf(last.value.decision)
  {
    var before, e := events[..|events| - 1], events[|events| - 1];
    StatusAfterStep(Run(EMPTY, before), e, sheet);
    if sheet < |Run(EMPTY, before).sheets| {
      StatusIsLastAnswer(before, sheet);
    } else {
      UnsentHasNoAnswer(before, sheet);
    }
  }

  /** That last answer is the CHRO's rejection while the sheet is with the CHRO,
      and a board member's once it is with the board. */
  lemma {:induction false} LastAnswerIsOfItsStage(events: seq<Event>, sheet: nat)
    requires Directories(events) && LastAnswer(events, sheet).Some?
    ensures var last := LastAnswer(events, sheet).value;
            && sheet < |Run(EMPTY, events).sheets| && last.stage == Run(EMPTY, events).sheets[sheet].stage
            && (last.stage == Board || (last.stage == Chro && last.decision.Reject?))
  {
    var before, e := events[..|events| - 1], events[|events| - 1];
    var t := Run(EMPTY, before);
    RunKeeps(EMPTY, before);
    if Decides(t, e, sheet) {
      StageOfAnswer(t, e, sheet);
    } else {
      LastAnswerIsOfItsStage(before, sheet);
      StatusIsLastAnswer(before, sheet);
      StageOfDecided(t, e, sheet);
    }
  }

  lemma StageOfAnswer(t: Tables, e: Event, sheet: nat)
    requires Inv(t) && Decides(t, e, sheet)
    ensures sheet < |Step(t, e).tables.sheets| && Step(t, e).tables.sheets[sheet].stage == t.votes[e.token].stage
    ensures t.votes[e.token].stage == Board || (t.votes[e.token].stage == Chro && e.decision.Reject?)
  {
    assert Placed(t.votes[e.token], t.sheets);
    if t.votes[e.token].stage == Chro { ChroVoteIsAlone(t, e.token); } else { BoardVoteFollowsChro(t, e.token); }
  }

  /** A sheet moves to another stage by an approval of its CHRO alone. */
  lemma StageAfterStep(t: Tables, e: Event, sheet: nat)
    requires sheet < |t.sheets| && sheet < |Step(t, e).tables.sheets|
    ensures Step(t, e).tables.sheets[sheet].stage == t.sheets[sheet].stage
            || (Answers(t, e, sheet) && t.votes[e.token].stage == Chro)
  {
  }

  /** A decided sheet does not move to another stage. */
  lemma StageOfDecided(t: Tables, e: Event, sheet: nat)
    requires Inv(t) && sheet < |t.sheets| && t.sheets[sheet].status != Pending
    ensures sheet < |Step(t, e).tables.sheets| && Step(t, e).tables.sheets[sheet].stage == t.sheets[sheet].stage
  {
    hide Step, Inv;
    DecisionIsOverturned(t, e, sheet);
    StageAfterStep(t, e, sheet);
  }

  // ---- When a decision is final ----

  ghost predicate NoLiveLink(votes: map<Token, Vote>, sheet: nat) {
    forall x :: x in votes && votes[x].sheet == sheet ==> votes[x].status != Pending
  }

  /** Decided, with nobody left who could answer. */
  ghost predicate Closed(t: Tables, sheet: nat) {
    sheet < |t.sheets| && t.sheets[sheet].status != Pending && NoLiveLink(t.votes, sheet)
  }

  /** The status it has is the one it will have after any calls. */
  ghost predicate StaysAs(t: Tables, events: seq<Event>, sheet: nat, status: Status) {
    sheet < |Run(t, events).sheets| && Run(t, events).sheets[sheet].status == status
  }

  lemma ReissueElsewhere(votes: map<Token, Vote>, after: map<Token, Vote>, next: Token, other: nat, stage: Stage,
                         targets: set<UserId>, sheet: nat)
    requires Reissue(votes, after, next, other, stage, targets) && other != sheet && NoLiveLink(votes, sheet)
    ensures NoLiveLink(after, sheet)
  {
    forall x: Token | x in after ensures (x in votes && after[x] == votes[x]) || after[x].sheet == other {
      assert x < next || Fresh(after, x, next);
    }
  }

  lemma OpeningElsewhere(t: Tables, other: nat, stage: Stage, directory: seq<Person>, now: Millis, sheet: nat)
    requires other < |t.sheets| && sheet != other && Below(t.votes, t.nextToken) && DistinctPeople(directory)
    requires NoLiveLink(t.votes, sheet)
    ensures NoLiveLink(OpenStage(t, other, stage, directory, now).votes, sheet)
  {
    var targets := Expected(t.sheets[other].(stage := stage));
    Reissued(t.votes, t.nextToken, other, stage, directory, targets, now + TOKEN_VALID_MS);
    var after := OpenStage(t, other, stage, directory, now).votes;
    ReissueElsewhere(t.votes, after, t.nextToken, other, stage, targets, sheet);
  }

  lemma SendingElsewhere(t: Tables, ids: seq<nat>, chro: UserId, members: seq<UserId>, actor: UserId, roles: Roles,
                         directory: seq<Person>, now: Millis, sheet: nat)
    requires Below(t.votes, t.nextToken) && DistinctPeople(directory)
    requires sheet < |t.sheets| && NoLiveLink(t.votes, sheet)
    ensures NoLiveLink(SendSheet(t, ids, chro, members, actor, roles, directory, now).tables.votes, sheet)
  {
    var outcome := SendSheet(t, ids, chro, members, actor, roles, directory, now);
    if outcome.reply.SheetSent? {
      var created := Created(t, ids, outcome.reply.reference, chro, members, actor);
      OpeningElsewhere(created, |t.sheets|, Chro, directory, now, sheet);
    }
  }

  lemma ResendingElsewhere(t: Tables, other: nat, directory: seq<Person>, undeliverable: set<UserId>, now: Millis,
                           sheet: nat)
    requires Below(t.votes, t.nextToken) && DistinctPeople(directory) && Closed(t, sheet)
    ensures NoLiveLink(ResendSheet(t, other, directory, undeliverable, now).tables.votes, sheet)
  {
    var outcome := ResendSheet(t, other, directory, undeliverable, now);
    if outcome.reply.Resent? {
      var s := t.sheets[other];
      var targets := Expected(s) - Settled(t.votes, other, s.stage);
      Reissued(t.votes, t.nextToken, other, s.stage, directory, targets, now + TOKEN_VALID_MS);
      ReissueElsewhere(t.votes, outcome.tables.votes, t.nextToken, other, s.stage, targets, sheet);
    }
  }

  lemma AnsweringElsewhere(t: Tables, token: Token, d: Decision, directory: seq<Person>, now: Millis, sheet: nat)
    requires Below(t.votes, t.nextToken) && DistinctPeople(directory) && NoLiveLink(t.votes, sheet)
    ensures NoLiveLink(SubmitSheetVote(t, token, d, directory, now).tables.votes, sheet)
  {
    if VoteRefusal(t, token, d, now) == None && d.Approve? && t.votes[token].stage == Chro {
      OpeningElsewhere(Claimed(t, token, d), t.votes[token].sheet, Board, directory, now, sheet);
    }
  }

  lemma StepKeepsClosed(t: Tables, e: Event, sheet: nat)
    requires Inv(t) && Directory(e) && Closed(t, sheet)
    ensures Closed(Step(t, e).tables, sheet) && Step(t, e).tables.sheets[sheet].status == t.sheets[sheet].status
  {
    DecisionIsOverturned(t, e, sheet);
    match e
    case SendSheetCall(ids, chro, members, actor, roles, directory, now) =>
      SendingElsewhere(t, ids, chro, members, actor, roles, directory, now, sheet);
    case ResendSheetCall(other, directory, undeliverable, now) =>
      ResendingElsewhere(t, other, directory, undeliverable, now, sheet);
    case SubmitSheetVoteCall(token, d, directory, now) => AnsweringElsewhere(t, token, d, directory, now, sheet);
    case _ =>
  }

  lemma {:induction false} ClosedStays(t: Tables, events: seq<Event>, sheet: nat)
    requires Inv(t) && Directories(events) && Closed(t, sheet)
    ensures Closed(Run(t, events), sheet) && StaysAs(t, events, sheet, t.sheets[sheet].status)
  {
    if events != [] {
      var before := events[..|events| - 1];
      ClosedStays(t, before, sheet);
      RunKeeps(t, before);
      StepKeepsClosed(Run(t, before), events[|events| - 1], sheet);
    }
  }

  lemma LiveLinkOverturns(t: Tables, x: Token) returns (events: seq<Event>)
    requires Inv(t) && x in t.votes && t.votes[x].status == Pending
    requires t.votes[x].sheet < |t.sheets| && t.sheets[t.votes[x].sheet].status != Pending
    ensures Directories(events) && !StaysAs(t, events, t.votes[x].sheet, t.sheets[t.votes[x].sheet].status)
  {
    var sheet := t.votes[x].sheet;
    var d := if t.sheets[sheet].status == Approved then Reject("no") else Approve;
    var e := SubmitSheetVoteCall(x, d, [], t.votes[x].expires);
    events := [e];
    DecisionIsOverturned(t, e, sheet);
    assert events[..0] == [];
    assert Run(t, events) == Step(t, e).tables;
  }

  /** A decision is final, whatever is called from then on, exactly when no link
      of its sheet is live at the moment it stands. */
  lemma {:induction false} DecisionIsFinal(t: Tables, sheet: nat)
    requires Inv(t) && sheet < |t.sheets| && t.sheets[sheet].status != Pending
    ensures NoLiveLink(t.votes, sheet)
            <==> forall events :: Directories(events) ==> StaysAs(t, events, sheet, t.sheets[sheet].status)
  {
    if NoLiveLink(t.votes, sheet) {
      forall events | Directories(events) ensures StaysAs(t, events, sheet, t.sheets[sheet].status) {
        ClosedStays(t, events, sheet);
      }
    } else {
      var x :| x in t.votes && t.votes[x].sheet == sheet && t.votes[x].status == Pending;
      var events := LiveLinkOverturns(t, x);
    }
  }

  // ---- A run that overturns a rejection ----

  lemma OneMore(events: seq<Event>, e: Event)
    ensures Run(EMPTY, events + [e]) == Step(Run(EMPTY, events), e).tables
  {
    assert (events + [e])[..|events|] == events;
  }

  /** Three people with an email: a CHRO and two board members. */
  ghost predicate Three(people: seq<Person>) {
    && |people| == 3 && DistinctPeople(people)
    && forall i :: 0 <= i < 3 ==> people[i].hasEmail
  }

  function Members(people: seq<Person>): seq<UserId>
    requires |people| == 3
  {
    [people[1].id, people[2].id]
  }

  lemma LinkOf(votes: map<Token, Vote>, next: Token, stage: Stage, users: iset<UserId>, u: UserId) returns (x: Token)
    requires LinksAre(votes, next, 0, stage, users) && u in users
    ensures Live(votes, x, 0, stage) && votes[x].user == u
  {
    x :| Live(votes, x, 0, stage) && votes[x].user == u;
  }

  /** One waiting candidate and no sheet yet. */
  ghost predicate Ready(t: Tables) {
    t.sheets == [] && |t.approvals| == 1 && Waiting(t.approvals, 0)
  }

  lemma SendingMakesASheet(t: Tables, people: seq<Person>, roles: Roles) returns (reference: string)
    requires Ready(t) && Three(people)
    requires people[0].id in roles.chroHolders && t.approvals[0].candidate in roles.salaryFixed
    ensures SendSheet(t, [0], people[0].id, Members(people), 0, roles, people, 0).tables
            == OpenStage(Created(t, [0], reference, people[0].id, Members(people), 0), 0, Chro, people, 0)
  {
    reference := SheetReferences.Next(SheetReferences.Prefix(roles.year), References(t.sheets));
    assert Found(t.approvals, [0]) == {0};
    assert References(t.sheets) == [];
  }

  lemma SendingAsksTheChro(t: Tables, people: seq<Person>, roles: Roles) returns (link: Token)
    requires Ready(t) && Below(t.votes, t.nextToken) && Three(people)
    requires people[0].id in roles.chroHolders && t.approvals[0].candidate in roles.salaryFixed
    ensures var after := SendSheet(t, [0], people[0].id, Members(people), 0, roles, people, 0).tables;
            && |after.sheets| == 1 && after.sheets[0].boardMembers == Members(people)
            && Live(after.votes, link, 0, Chro)
  {
    var reference := SendingMakesASheet(t, people, roles);
    var created := Created(t, [0], reference, people[0].id, Members(people), 0);
    var after := OpenStage(created, 0, Chro, people, 0);
    IssuingReaches(t.votes, t.nextToken, 0, Chro, people, Expected(created.sheets[0]), TOKEN_VALID_MS);
    assert people[0] in people && CanBeMailed(people, people[0].id);
    var users := iset u | u in Expected(created.sheets[0]) && CanBeMailed(people, u);
    link := LinkOf(after.votes, t.nextToken, Chro, users, people[0].id);
  }

  lemma {:induction false} SendOne(people: seq<Person>) returns (events: seq<Event>, link: Token)
    requires Three(people)
    ensures Directories(events)
    ensures var t := Run(EMPTY, events);
            && |t.sheets| == 1 && t.sheets[0].boardMembers == Members(people) && Live(t.votes, link, 0, Chro)
  {
    var roles := Roles({people[0].id}, {0}, 2026);
    var request := SendForApprovalCall(0, 0, Facts(true, true, true));
    var send := SendSheetCall([0], people[0].id, Members(people), 0, roles, people, 0);
    var t := Step(EMPTY, request).tables;
    assert Ready(t);
    link := SendingAsksTheChro(t, people, roles);
    OneMore([], request);
    OneMore([] + [request], send);
    events := [] + [request] + [send];
  }

  lemma {:induction false} AskTwo(people: seq<Person>) returns (events: seq<Event>, x: Token, y: Token)
    requires Three(people)
    ensures Directories(events) && x != y
    ensures var t := Run(EMPTY, events);
            |t.sheets| == 1 && Live(t.votes, x, 0, Board) && Live(t.votes, y, 0, Board)
  {
    var sent, link := SendOne(people);
    var t := Run(EMPTY, sent);
    RunKeeps(EMPTY, sent);
    var approve := SubmitSheetVoteCall(link, Approve, people, t.votes[link].expires);
    ChroApprovalAsksTheBoard(t, link, people, approve.now);
    OneMore(sent, approve);
    events := sent + [approve];
    x, y := TwoLinks(Run(EMPTY, events).votes, t.nextToken, people);
  }

  lemma TwoLinks(votes: map<Token, Vote>, next: Token, people: seq<Person>) returns (x: Token, y: Token)
    requires Three(people) && LinksAre(votes, next, 0, Board, iset u | u in Members(people) && CanBeMailed(people, u))
    ensures x != y && Live(votes, x, 0, Board) && Live(votes, y, 0, Board)
  {
    var users := iset u | u in Members(people) && CanBeMailed(people, u);
    assert people[1] in people && people[2] in people;
    assert CanBeMailed(people, people[1].id) && CanBeMailed(people, people[2].id);
    x := LinkOf(votes, next, Board, users, people[1].id);
    y := LinkOf(votes, next, Board, users, people[2].id);
  }

  /** From empty tables: a sheet the board refused can still be approved. */
  lemma {:induction false} RefusedSheetCanBeApproved(people: seq<Person>) returns (events: seq<Event>, e: Event)
    requires Three(people)
    ensures Directories(events + [e]) && |Run(EMPTY, events).sheets| == |Run(EMPTY, events + [e]).sheets| == 1
    ensures Run(EMPTY, events).sheets[0].status == Rejected && Run(EMPTY, events + [e]).sheets[0].status == Approved
  {
    var asked, x, y := AskTwo(people);
    var t := Run(EMPTY, asked);
    RunKeeps(EMPTY, asked);
    var reject := SubmitSheetVoteCall(x, Reject("no"), people, t.votes[x].expires);
    e := SubmitSheetVoteCall(y, Approve, people, t.votes[y].expires);
    LaterBoardAnswerWins(t, x, y, reject.decision, Approve, people, reject.now, e.now);
    events := asked + [reject];
    OneMore(asked, reject);
    OneMore(events, e);
  }

  // ---- Candidates ----

  /** Off a sheet an approval is waiting, or approved with a document. */
  ghost predicate Accounted(a: Approval) {
    a.sheet.None? ==> a.status.Pending? || (a.status.Approved? && a.attachment.Some?)
  }

  ghost predicate AllAccounted(approvals: seq<Approval>) {
    forall i :: 0 <= i < |approvals| ==> Accounted(approvals[i])
  }

  lemma StepKeepsAccounted(t: Tables, e: Event)
    requires AllAccounted(t.approvals)
    ensures AllAccounted(Step(t, e).tables.approvals)
  {
  }

  lemma {:induction false} RunKeepsAccounted(events: seq<Event>)
    ensures AllAccounted(Run(EMPTY, events).approvals)
  {
    if events != [] {
      RunKeepsAccounted(events[..|events| - 1]);
      StepKeepsAccounted(Run(EMPTY, events[..|events| - 1]), events[|events| - 1]);
    }
  }

  /** A sheet approved by its own CHRO and by one of its own board members. */
  ghost predicate SignedSheet(t: Tables, sheet: nat) {
    && sheet < |t.sheets| && t.sheets[sheet].status == Approved
    && (exists x :: CastBy(t, x, sheet, Chro, Approved, t.sheets[sheet].chro))
    && (exists x, m :: m in t.sheets[sheet].boardMembers && CastBy(t, x, sheet, Board, Approved, m))
  }

  /** After every run an approved candidate has HR's document, or is on a sheet
      that its CHRO and one of its board members approved. */
  lemma {:induction false} ApprovedCandidatesAreSigned(events: seq<Event>, i: nat)
    requires Directories(events) && i < |Run(EMPTY, events).approvals|
    ensures var t := Run(EMPTY, events);
            var a := t.approvals[i];
            a.status == Approved ==> a.attachment.Some? || (a.sheet.Some? && SignedSheet(t, a.sheet.value))
  {
    RunKeeps(EMPTY, events);
    RunKeepsAccounted(events);
    var t := Run(EMPTY, events);
    assert Accounted(t.approvals[i]) && FollowsSheet(t.approvals[i], t.sheets);
    if t.approvals[i].sheet.Some? { ApprovedSheetsAreSigned(events, t.approvals[i].sheet.value); }
  }
}
