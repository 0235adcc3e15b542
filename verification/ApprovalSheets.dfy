/** The approval tables of src/modules/board/board.service.ts and what each
    service call makes of them. */
module ApprovalSheets {
  import opened Optional
  import SheetReferences

  type UserId = nat
  type CandidateId = nat
  type Token = nat
  type Millis = int

  datatype Stage = CorporateHr | Chro | Board

  /** Where an approval, a sheet or a vote stands. */
  datatype Status = Pending | Approved | Rejected

  /** The sheet columns that Head of Talent Acquisition may correct. */
  datatype Columns = Columns(education: Option<string>, experience: Option<string>, lastOrg: Option<string>)

  /** A patch leaves out a column, or gives its new text ("" clears it). */
  datatype Patch = Patch(education: Option<string>, experience: Option<string>, lastOrg: Option<string>)

  datatype Approval = Approval(candidate: CandidateId, requestedBy: UserId, status: Status, stage: Stage,
                               sheet: Option<nat>, columns: Columns, hrApprovedBy: Option<UserId>,
                               attachment: Option<string>, reason: Option<string>)

  datatype Sheet = Sheet(reference: string, createdBy: UserId, chro: UserId, boardMembers: seq<UserId>,
                         status: Status, stage: Stage, reason: Option<string>)

  datatype Vote = Vote(sheet: nat, user: UserId, stage: Stage, status: Status, expires: Millis)

  /** Approvals and sheets are numbered as they are created; a vote is found by
      its token, and tokens are never drawn twice. */
  datatype Tables = Tables(approvals: seq<Approval>, sheets: seq<Sheet>, votes: map<Token, Vote>, nextToken: Token)

  const EMPTY := Tables([], [], map[], 0)

  /** A row of the user table, as a query for recipients returns it. */
  datatype Person = Person(id: UserId, name: string, hasEmail: bool)

  ghost predicate DistinctPeople(people: seq<Person>) {
    forall i, j :: 0 <= i < j < |people| ==> people[i].id != people[j].id
  }

  const TOKEN_VALID_MS: Millis := 60 * 24 * 60 * 60 * 1000

  datatype Refusal =
    | NotOnboarding | SalaryNotFixed | NobodyToAsk | AlreadyApproved | AlreadyOnSheet
    | NoAttachment | NotFound | SheetIsSent | NoCandidates | NoBoardMembers | NotWaiting
    | NotChro | ReferenceTaken | SheetDecided(status: Status) | EveryoneAnswered
    | LinkInvalid | LinkExpired | ReasonMissing

  datatype Reply =
    | Refused(why: Refusal)
    | Recorded
    | SheetSent(sheet: nat, reference: string, candidates: nat)
    | Resent(sent: nat, skipped: seq<string>)
    | AlreadyVoted
    | Voted

  datatype Outcome = Outcome(tables: Tables, reply: Reply)

  function Refuse(t: Tables, why: Refusal): Outcome {
    Outcome(t, Refused(why))
  }

  // ---- Requests ----

  /** A candidate's newest approval. */
  function Latest(approvals: seq<Approval>, candidate: CandidateId): (found: Option<nat>)
    ensures found.Some? ==> found.value < |approvals| && approvals[found.value].candidate == candidate
    ensures found.None? ==> forall i :: 0 <= i < |approvals| ==> approvals[i].candidate != candidate
  {
    if approvals == [] then None
    else if approvals[|approvals| - 1].candidate == candidate then Some(|approvals| - 1)
    else Latest(approvals[..|approvals| - 1], candidate)
  }

  function Requested(a: Approval, actor: UserId): Approval {
    a.(requestedBy := actor, status := Pending, stage := CorporateHr, sheet := None, reason := None)
  }

  const NO_COLUMNS := Columns(None, None, None)

  /** What a step reads outside these tables about the candidate. */
  datatype Facts = Facts(onboarding: bool, salaryFixed: bool, holders: bool)

  function SendForApproval(t: Tables, candidate: CandidateId, actor: UserId, facts: Facts): Outcome {
    var existing := Latest(t.approvals, candidate);
    if !facts.onboarding then Refuse(t, NotOnboarding)
    else if !facts.salaryFixed then Refuse(t, SalaryNotFixed)
    else if !facts.holders then Refuse(t, NobodyToAsk)
    else if existing.Some? && t.approvals[existing.value].status.Approved? then Refuse(t, AlreadyApproved)
    else if existing.Some? && t.approvals[existing.value].status.Pending? &&
        t.approvals[existing.value].sheet.Some? then
      Refuse(t, AlreadyOnSheet)
    else if existing.Some? then
      Outcome(t.(approvals := t.approvals[existing.value := Requested(t.approvals[existing.value], actor)]), Recorded)
    else
      Outcome(t.(approvals := t.approvals +
          [Approval(candidate, actor, Pending, CorporateHr, None, NO_COLUMNS, None, None, None)]), Recorded)
  }

  /** HR approves on the board's behalf, with a document. */
  function HrApprove(t: Tables, candidate: CandidateId, actor: UserId, attachment: Option<string>,
                     onboarding: bool): Outcome {
    var existing := Latest(t.approvals, candidate);
    if attachment.None? then Refuse(t, NoAttachment)
    else if !onboarding then Refuse(t, NotOnboarding)
    else if existing.Some? then
      Outcome(t.(approvals := t.approvals[existing.value :=
        t.approvals[existing.value].(status := Approved, hrApprovedBy := Some(actor), attachment := attachment)]),
        Recorded)
    else
      Outcome(t.(approvals := t.approvals +
          [Approval(candidate, actor, Approved, Board, None, NO_COLUMNS, Some(actor), attachment, None)]), Recorded)
  }

  function Corrected(current: Option<string>, patch: Option<string>): Option<string> {
    if patch.None? then current else if patch.value == "" then None else patch
  }

  function UpdateSheetRow(t: Tables, approval: nat, patch: Patch): Outcome {
    if approval >= |t.approvals| then Refuse(t, NotFound)
    else
      var a := t.approvals[approval];
      if a.sheet.Some? then Refuse(t, SheetIsSent)
      else Outcome(t.(approvals := t.approvals[approval := a.(columns := Columns(
        Corrected(a.columns.education, patch.education),
        Corrected(a.columns.experience, patch.experience),
        Corrected(a.columns.lastOrg, patch.lastOrg)))]), Recorded)
  }

  // ---- Votes ----

  /** The people among the directory whose id is asked for. */
  function Recipients(directory: seq<Person>, ids: set<UserId>): seq<Person> {
    if directory == [] then []
    else
      var rest := Recipients(directory[..|directory| - 1], ids);
      if directory[|directory| - 1].id in ids then rest + [directory[|directory| - 1]] else rest
  }

  function Mailed(people: seq<Person>): nat {
    if people == [] then 0 else Mailed(people[..|people| - 1]) + if people[|people| - 1].hasEmail then 1 else 0
  }

  /** One pending vote, on a fresh token, for every person with an email. */
  function Issued(votes: map<Token, Vote>, next: Token, sheet: nat, stage: Stage, people: seq<Person>,
                  expires: Millis): map<Token, Vote> {
    if people == [] then votes
    else
      var n := |people| - 1;
      var before := Issued(votes, next, sheet, stage, people[..n], expires);
      if people[n].hasEmail
      then before[next + Mailed(people[..n]) := Vote(sheet, people[n].id, stage, Pending, expires)]
      else before
  }

  predicate IsPending(v: Vote, sheet: nat, stage: Stage) {
    v.sheet == sheet && v.stage == stage && v.status.Pending?
  }

  function WithoutPending(votes: map<Token, Vote>, sheet: nat, stage: Stage): map<Token, Vote> {
    map token | token in votes && !IsPending(votes[token], sheet, stage) :: votes[token]
  }

  function OnSheet(approvals: seq<Approval>, sheet: nat, change: Approval -> Approval): seq<Approval> {
    seq(|approvals|, i requires 0 <= i < |approvals| =>
      if approvals[i].sheet == Some(sheet) then change(approvals[i]) else approvals[i])
  }

  function Expected(s: Sheet): set<UserId> {
    if s.stage == Board then set u | u in s.boardMembers else {s.chro}
  }

  /** Move a sheet to a stage and mail its recipients. */
  function OpenStage(t: Tables, sheet: nat, stage: Stage, directory: seq<Person>, now: Millis): Tables
    requires sheet < |t.sheets|
  {
    var s := t.sheets[sheet].(stage := stage);
    var people := Recipients(directory, Expected(s));
    Tables(
      OnSheet(t.approvals, sheet, (a: Approval) => a.(stage := stage)),
      t.sheets[sheet := s],
      Issued(WithoutPending(t.votes, sheet, stage), t.nextToken, sheet, stage, people, now + TOKEN_VALID_MS),
      t.nextToken + Mailed(people))
  }

  // ---- Sending a sheet ----

  predicate Waiting(approvals: seq<Approval>, i: nat) {
    i < |approvals| && approvals[i].status.Pending? && approvals[i].sheet.None?
  }

  /** The approvals a query for these ids finds still waiting. */
  function Found(approvals: seq<Approval>, ids: seq<nat>): set<nat> {
    set i | i in ids && Waiting(approvals, i)
  }

  function PutOnSheet(approvals: seq<Approval>, ids: seq<nat>, sheet: nat, actor: UserId): seq<Approval> {
    seq(|approvals|, i requires 0 <= i < |approvals| =>
      if i in ids then approvals[i].(sheet := Some(sheet), stage := Chro, hrApprovedBy := Some(actor))
      else approvals[i])
  }

  function References(sheets: seq<Sheet>): seq<string> {
    seq(|sheets|, i requires 0 <= i < |sheets| => sheets[i].reference)
  }

  /** What sending a sheet reads outside these tables. */
  datatype Roles = Roles(chroHolders: set<UserId>, salaryFixed: set<CandidateId>, year: nat)

  function SendSheet(t: Tables, ids: seq<nat>, chro: UserId, boardMembers: seq<UserId>, actor: UserId,
                     roles: Roles, directory: seq<Person>, now: Millis): Outcome {
    if ids == [] then Refuse(t, NoCandidates)
    else if boardMembers == [] then Refuse(t, NoBoardMembers)
    else if |Found(t.approvals, ids)| != |ids| then Refuse(t, NotWaiting)
    else if chro !in roles.chroHolders then Refuse(t, NotChro)
    else if exists i :: i in ids && i < |t.approvals| && t.approvals[i].candidate !in roles.salaryFixed then
      Refuse(t, SalaryNotFixed)
    else
      var reference := SheetReferences.Next(SheetReferences.Prefix(roles.year), References(t.sheets));
      if reference in References(t.sheets) then Refuse(t, ReferenceTaken)
      else
        var sheet := |t.sheets|;
        var created := t.(sheets := t.sheets + [Sheet(reference, actor, chro, boardMembers, Pending, Chro, None)],
                          approvals := PutOnSheet(t.approvals, ids, sheet, actor));
        Outcome(OpenStage(created, sheet, Chro, directory, now), SheetSent(sheet, reference, |ids|))
  }

  // ---- Resending ----

  function Settled(votes: map<Token, Vote>, sheet: nat, stage: Stage): set<UserId> {
    set token | token in votes && votes[token].sheet == sheet && votes[token].stage == stage &&
        !votes[token].status.Pending?
      :: votes[token].user
  }

  predicate Reached(p: Person, undeliverable: set<UserId>) {
    p.hasEmail && p.id !in undeliverable
  }

  function Delivered(people: seq<Person>, undeliverable: set<UserId>): nat {
    if people == [] then 0
    else
      var rest := Delivered(people[..|people| - 1], undeliverable);
      if Reached(people[|people| - 1], undeliverable) then rest + 1 else rest
  }

  function Skipped(people: seq<Person>, undeliverable: set<UserId>): seq<string> {
    if people == [] then []
    else
      var rest := Skipped(people[..|people| - 1], undeliverable);
      if Reached(people[|people| - 1], undeliverable) then rest else rest + [people[|people| - 1].name]
  }

  function ResendSheet(t: Tables, sheet: nat, directory: seq<Person>, undeliverable: set<UserId>,
                       now: Millis): Outcome {
    if sheet >= |t.sheets| then Refuse(t, NotFound)
    else
      var s := t.sheets[sheet];
      var targets := Expected(s) - Settled(t.votes, sheet, s.stage);
      var people, expires := Recipients(directory, targets), now + TOKEN_VALID_MS;
      if !s.status.Pending? then Refuse(t, SheetDecided(s.status))
      else if targets == {} then Refuse(t, EveryoneAnswered)
      else Outcome(
        t.(votes := Issued(WithoutPending(t.votes, sheet, s.stage), t.nextToken, sheet, s.stage, people, expires),
           nextToken := t.nextToken + Mailed(people)),
        Resent(Delivered(people, undeliverable), Skipped(people, undeliverable)))
  }

  // ---- Answering ----

  datatype Decision = Approve | Reject(reason: string)

  function StatusOf(d: Decision): Status {
    if d.Approve? then Approved else Rejected
  }

  function Claimed(t: Tables, token: Token, d: Decision): Tables
    requires token in t.votes
  {
    t.(votes := t.votes[token := t.votes[token].(status := StatusOf(d))])
  }

  function Decided(t: Tables, sheet: nat, d: Decision): Tables
    requires sheet < |t.sheets|
  {
    match d
    case Approve =>
      t.(sheets := t.sheets[sheet := t.sheets[sheet].(status := Approved)],
         approvals := OnSheet(t.approvals, sheet, (a: Approval) => a.(status := Approved)))
    case Reject(reason) =>
      t.(sheets := t.sheets[sheet := t.sheets[sheet].(status := Rejected, reason := Some(reason))],
         approvals := OnSheet(t.approvals, sheet, (a: Approval) => a.(status := Rejected, reason := Some(reason))))
  }

  /** A link answers if it is known, not expired, not used, and a rejection gives a reason. */
  function VoteRefusal(t: Tables, token: Token, d: Decision, now: Millis): Option<Reply> {
    if token !in t.votes || t.votes[token].sheet >= |t.sheets| then Some(Refused(LinkInvalid))
    else if now > t.votes[token].expires then Some(Refused(LinkExpired))
    else if !t.votes[token].status.Pending? then Some(AlreadyVoted)
    else if d.Reject? && d.reason == "" then Some(Refused(ReasonMissing))
    else None
  }

  function SubmitSheetVote(t: Tables, token: Token, d: Decision, directory: seq<Person>, now: Millis): Outcome {
    var refusal := VoteRefusal(t, token, d, now);
    if refusal.Some? then Outcome(t, refusal.value)
    else
      var v := t.votes[token];
      var claimed := Claimed(t, token, d);
      if d.Approve? && v.stage == Chro then Outcome(OpenStage(claimed, v.sheet, Board, directory, now), Voted)
      else Outcome(Decided(claimed, v.sheet, d), Voted)
  }

  // ---- Runs ----

  datatype Event =
    | SendForApprovalCall(candidate: CandidateId, actor: UserId, facts: Facts)
    | HrApproveCall(candidate: CandidateId, actor: UserId, file: Option<string>, onboarding: bool)
    | UpdateSheetRowCall(approval: nat, patch: Patch)
    | SendSheetCall(ids: seq<nat>, chro: UserId, boardMembers: seq<UserId>, actor: UserId, roles: Roles,
        directory: seq<Person>, now: Millis)
    | ResendSheetCall(sheet: nat, directory: seq<Person>, undeliverable: set<UserId>, now: Millis)
    | SubmitSheetVoteCall(token: Token, decision: Decision, directory: seq<Person>, now: Millis)

  function Step(t: Tables, e: Event): Outcome {
    match e
    case SendForApprovalCall(c, actor, facts) => SendForApproval(t, c, actor, facts)
    case HrApproveCall(c, actor, file, onboarding) => HrApprove(t, c, actor, file, onboarding)
    case UpdateSheetRowCall(a, patch) => UpdateSheetRow(t, a, patch)
    case SendSheetCall(ids, chro, members, actor, roles, directory, now) =>
      SendSheet(t, ids, chro, members, actor, roles, directory, now)
    case ResendSheetCall(s, directory, undeliverable, now) => ResendSheet(t, s, directory, undeliverable, now)
    case SubmitSheetVoteCall(token, d, directory, now) => SubmitSheetVote(t, token, d, directory, now)
  }

  /** User ids are unique, so a query names nobody twice. */
  ghost predicate Directory(e: Event) {
    (e.SendSheetCall? || e.ResendSheetCall? || e.SubmitSheetVoteCall?) ==> DistinctPeople(e.directory)
  }

  ghost predicate Directories(events: seq<Event>) {
    forall i :: 0 <= i < |events| ==> Directory(events[i])
  }

  function Run(t: Tables, events: seq<Event>): Tables {
    if events == [] then t else Step(Run(t, events[..|events| - 1]), events[|events| - 1]).tables
  }
}
