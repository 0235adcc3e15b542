/** The first-interview hand-over: delegations, the Factory HR Head's sign-off
    and the hold on the recruiter's tab (src/modules/assessment/interview.service.ts,
    first-interview-approval.service.ts and first-interview-hold.ts). */
module FirstInterview {
  import opened Optional
  import opened DelegationProgress
  import IdLists

  type UserId = nat
  type CandidateId = nat

  datatype Candidate = Candidate(stage: CandidateStage, rejectedAt: Option<Millis>)

  datatype HandOff = HandOff(revokedAt: Option<Millis>, completedAt: Option<Millis>, sendCount: nat, lastSentAt: Millis)

  datatype SignOff = Pending | Approved | Returned | Rejected

  /** One hand-off row to a candidate and person, one sign-off row to a candidate. */
  datatype Tables = Tables(candidates: map<CandidateId, Candidate>,
                           handOffs: map<(CandidateId, UserId), HandOff>,
                           signOffs: map<CandidateId, SignOff>)

  const EMPTY := Tables(map[], map[], map[])

  datatype Refusal =
    | NothingSelected | NotFound | NoValidPerson | WithTheHead | NotAtInterview
    | TestsUnmarked | NothingWaiting | OutOfScope | AlreadyDecided | RejectBlocked

  datatype Reply = Refused(why: Refusal) | Done | SentToHead

  datatype Outcome = Outcome(tables: Tables, reply: Reply)

  function Refuse(t: Tables, why: Refusal): Outcome {
    Outcome(t, Refused(why))
  }

  predicate IsOpen(h: HandOff) {
    h.revokedAt.None? && h.completedAt.None?
  }

  ghost predicate HasOpen(t: Tables, c: CandidateId) {
    exists u :: (c, u) in t.handOffs && IsOpen(t.handOffs[(c, u)])
  }

  /** The open hand-offs of a candidate, as the count before an outcome reads them. */
  function OpenHandOffs(t: Tables, c: CandidateId): set<(CandidateId, UserId)> {
    set k | k in t.handOffs && k.0 == c && IsOpen(t.handOffs[k])
  }

  predicate IsPending(t: Tables, c: CandidateId) {
    c in t.signOffs && t.signOffs[c].Pending?
  }

  // ---- Handing over ----

  /** A new hand-off, or one sent again: that restores it but does not reopen a completed one. */
  function HandedOver(t: Tables, k: (CandidateId, UserId), now: Millis): HandOff {
    if k in t.handOffs
    then t.handOffs[k].(revokedAt := None, sendCount := t.handOffs[k].sendCount + 1, lastSentAt := now)
    else HandOff(None, None, 1, now)
  }

  function FoundCandidates(t: Tables, ids: seq<CandidateId>): set<CandidateId> {
    set c | c in ids && c in t.candidates
  }

  function Delegates(users: seq<UserId>, active: set<UserId>): set<UserId> {
    set u | u in users && u in active
  }

  function Delegate(t: Tables, ids: seq<CandidateId>, users: seq<UserId>, active: set<UserId>, now: Millis): Outcome {
    var found, delegates := FoundCandidates(t, ids), Delegates(users, active);
    if ids == [] || users == [] then Refuse(t, NothingSelected)
    else if |found| != |ids| then Refuse(t, NotFound)
    else if delegates == {} then Refuse(t, NoValidPerson)
    else
      Outcome(t.(handOffs := HandedOverAll(t, Pairs(found, delegates), now)), Done)
  }

  function Pairs(candidates: set<CandidateId>, users: set<UserId>): set<(CandidateId, UserId)> {
    set c, u | c in candidates && u in users :: (c, u)
  }

  function HandedOverAll(t: Tables, pairs: set<(CandidateId, UserId)>, now: Millis)
    : map<(CandidateId, UserId), HandOff>
  {
    map k | k in t.handOffs.Keys + pairs :: if k in pairs then HandedOver(t, k, now) else t.handOffs[k]
  }

  lemma OneMoreHandedOver(t: Tables, pairs: set<(CandidateId, UserId)>, k: (CandidateId, UserId), now: Millis)
    requires k !in pairs
    ensures HandedOverAll(t, pairs + {k}, now)
         == HandedOverAll(t, pairs, now)[k := HandedOver(t.(handOffs := HandedOverAll(t, pairs, now)), k, now)]
  {
  }

  function RevokeDelegation(t: Tables, c: CandidateId, u: UserId, now: Millis): Outcome {
    if c !in t.candidates then Refuse(t, NotFound)
    else if IsPending(t, c) then Refuse(t, WithTheHead)
    else if (c, u) in t.handOffs && t.handOffs[(c, u)].revokedAt.None? then
      Outcome(t.(handOffs := t.handOffs[(c, u) := t.handOffs[(c, u)].(revokedAt := Some(now))]), Done)
    else Outcome(t, Done)
  }

  // ---- Verdicts ----

  function Finished(t: Tables, c: CandidateId, now: Millis): map<(CandidateId, UserId), HandOff> {
    map k | k in t.handOffs ::
      if k.0 == c && IsOpen(t.handOffs[k]) then t.handOffs[k].(completedAt := Some(now)) else t.handOffs[k]
  }

  datatype Verdict = ThroughToFinal | TurnedDown

  function AfterVerdict(v: Verdict, now: Millis): Candidate {
    if v.TurnedDown? then Candidate(CandidateStage.Rejected, Some(now)) else Candidate(Final, None)
  }

  /** heads: whether the candidate's unit has a Factory HR Head. */
  function RecordOutcome(t: Tables, c: CandidateId, v: Verdict, heads: bool, testsMarked: bool, now: Millis): Outcome {
    if c !in t.candidates then Refuse(t, NotFound)
    else if t.candidates[c].stage != Interview then Refuse(t, NotAtInterview)
    else if IsPending(t, c) then Refuse(t, WithTheHead)
    else if !testsMarked then Refuse(t, TestsUnmarked)
    else if v.ThroughToFinal? && OpenHandOffs(t, c) != {} && heads then
      Outcome(t.(signOffs := t.signOffs[c := Pending]), SentToHead)
    else
      Outcome(t.(candidates := t.candidates[c := AfterVerdict(v, now)], handOffs := Finished(t, c, now)), Done)
  }

  datatype HeadDecision = Approve | Return | Reject

  function HeadRefusal(t: Tables, c: CandidateId, scope: set<CandidateId>): Option<Refusal> {
    if c !in t.signOffs || c !in t.candidates then Some(NothingWaiting)
    else if c !in scope then Some(OutOfScope)
    else if !t.signOffs[c].Pending? then Some(AlreadyDecided)
    else if t.candidates[c].stage != Interview then Some(NotAtInterview)
    else None
  }

  /** scope: the candidates in units this Head answers for. */
  function DecideOne(t: Tables, c: CandidateId, d: HeadDecision, scope: set<CandidateId>, now: Millis): Outcome {
    var refusal := HeadRefusal(t, c, scope);
    if refusal.Some? then Refuse(t, refusal.value)
    else
      match d
      case Approve =>
        Outcome(Tables(t.candidates[c := AfterVerdict(ThroughToFinal, now)], Finished(t, c, now),
            t.signOffs[c := Approved]), Done)
      case Reject =>
        Outcome(Tables(t.candidates[c := AfterVerdict(TurnedDown, now)], Finished(t, c, now),
            t.signOffs[c := SignOff.Rejected]), Done)
      case Return => Outcome(t.(signOffs := t.signOffs[c := Returned]), Done)
  }

  /** A rejection on the interview screen; it leaves hand-offs and sign-off alone. */
  function RejectAtInterview(t: Tables, c: CandidateId, hireInFlight: bool, now: Millis): Outcome {
    if c !in t.candidates then Refuse(t, NotFound)
    else
      var stage := t.candidates[c].stage;
      if stage == CandidateStage.Rejected || stage == Selected || (stage == Final && hireInFlight) then
        Refuse(t, RejectBlocked)
      else Outcome(t.(candidates := t.candidates[c := AfterVerdict(TurnedDown, now)]), Done)
  }

  // ---- Runs ----

  /** Everything else that happens to a candidate row is one arbitrary write. */
  datatype Event =
    | DelegateCall(ids: seq<CandidateId>, users: seq<UserId>, active: set<UserId>, now: Millis)
    | RevokeCall(c: CandidateId, u: UserId, now: Millis)
    | OutcomeCall(c: CandidateId, verdict: Verdict, heads: bool, testsMarked: bool, now: Millis)
    | HeadCall(c: CandidateId, decision: HeadDecision, scope: set<CandidateId>, now: Millis)
    | RejectCall(c: CandidateId, hireInFlight: bool, now: Millis)
    | CandidateWritten(c: CandidateId, row: Candidate)

  function Step(t: Tables, e: Event): Outcome {
    match e
    case DelegateCall(ids, users, active, now) => Delegate(t, ids, users, active, now)
    case RevokeCall(c, u, now) => RevokeDelegation(t, c, u, now)
    case OutcomeCall(c, v, heads, testsMarked, now) => RecordOutcome(t, c, v, heads, testsMarked, now)
    case HeadCall(c, d, scope, now) => DecideOne(t, c, d, scope, now)
    case RejectCall(c, hireInFlight, now) => RejectAtInterview(t, c, hireInFlight, now)
    case CandidateWritten(c, row) => Outcome(t.(candidates := t.candidates[c := row]), Done)
  }

  function Run(t: Tables, events: seq<Event>): Tables {
    if events == [] then t else Step(Run(t, events[..|events| - 1]), events[|events| - 1]).tables
  }

  // ---- A pending sign-off always has someone holding the candidate ----

  ghost predicate PendingIsHeld(t: Tables) {
    forall c :: IsPending(t, c) ==> HasOpen(t, c)
  }

  lemma DelegateKeepsOpen(t: Tables, ids: seq<CandidateId>, users: seq<UserId>, active: set<UserId>, now: Millis,
                          c: CandidateId)
    requires HasOpen(t, c)
    ensures HasOpen(Delegate(t, ids, users, active, now).tables, c)
  {
  }

  lemma OtherCandidatesKeepOpen(t: Tables, e: Event, c: CandidateId)
    requires HasOpen(t, c) && !e.DelegateCall? && e.c != c
    ensures HasOpen(Step(t, e).tables, c)
  {
  }

  lemma StepKeepsPendingHeld(t: Tables, e: Event)
    requires PendingIsHeld(t)
    ensures PendingIsHeld(Step(t, e).tables)
  {
    var after := Step(t, e).tables;
    forall c | IsPending(after, c) ensures HasOpen(after, c) {
      if e.DelegateCall? {
        DelegateKeepsOpen(t, e.ids, e.users, e.active, e.now, c);
      } else if e.c != c {
        OtherCandidatesKeepOpen(t, e, c);
      } else if e.OutcomeCall? && Step(t, e).reply.SentToHead? {
        var k :| k in OpenHandOffs(t, c);
        assert (c, k.1) in after.handOffs && IsOpen(after.handOffs[(c, k.1)]);
      } else {
        assert IsPending(t, c) && after.handOffs == t.handOffs;
        assert HasOpen(t, c);
        var u :| (c, u) in t.handOffs && IsOpen(t.handOffs[(c, u)]);
        assert (c, u) in after.handOffs && IsOpen(after.handOffs[(c, u)]);
      }
    }
  }

  /** Over any run, a candidate waiting on the Head is still with somebody. */
  lemma {:induction false} PendingAlwaysHeld(events: seq<Event>)
    ensures PendingIsHeld(Run(EMPTY, events))
  {
    if events != [] {
      PendingAlwaysHeld(events[..|events| - 1]);
      StepKeepsPendingHeld(Run(EMPTY, events[..|events| - 1]), events[|events| - 1]);
    }
  }

  // ---- A verdict releases for good ----

  ghost predicate GivesVerdict(t: Tables, e: Event, c: CandidateId) {
    && Step(t, e).reply.Done?
    && ((e.OutcomeCall? && e.c == c) || (e.HeadCall? && e.c == c && !e.decision.Return?))
  }

  /** A revocation of the last hand-off that is still open. */
  ghost predicate RevokesLast(t: Tables, e: Event, c: CandidateId) {
    && e.RevokeCall? && Step(t, e).reply.Done? && e.c == c
    && forall u :: (c, u) in t.handOffs && IsOpen(t.handOffs[(c, u)]) ==> u == e.u
  }

  /** One call releases a candidate somebody holds exactly when it is a verdict,
      direct or the Head's, or takes back the last open hand-off; a verdict also
      leaves the candidate decided. */
  lemma VerdictReleases(t: Tables, e: Event, c: CandidateId)
    ensures HasOpen(t, c) ==> (!HasOpen(Step(t, e).tables, c) <==> GivesVerdict(t, e, c) || RevokesLast(t, e, c))
    ensures GivesVerdict(t, e, c) ==>
              && !HasOpen(Step(t, e).tables, c) && c in Step(t, e).tables.candidates
              && IsDecided(Step(t, e).tables.candidates[c].stage, Step(t, e).tables.candidates[c].rejectedAt)
  {
    var after := Step(t, e).tables;
    if HasOpen(t, c) && !GivesVerdict(t, e, c) && !RevokesLast(t, e, c) {
      var u :| (c, u) in t.handOffs && IsOpen(t.handOffs[(c, u)]) &&
          !(e.RevokeCall? && Step(t, e).reply.Done? && e.c == c && u == e.u);
      assert IsOpen(after.handOffs[(c, u)]);
    }
  }

  /** The one thing that opens a released candidate's hand-over again: being
      handed to somebody whose own part was never completed. */
  ghost predicate Reopens(t: Tables, e: Event, c: CandidateId) {
    && e.DelegateCall? && Step(t, e).reply.Done? && c in e.ids
    && exists u :: u in Delegates(e.users, e.active) && ((c, u) in t.handOffs ==> t.handOffs[(c, u)].completedAt.None?)
  }

  lemma ReleasedUntilReopened(t: Tables, e: Event, c: CandidateId)
    requires !HasOpen(t, c)
    ensures HasOpen(Step(t, e).tables, c) <==> Reopens(t, e, c)
  {
    var after := Step(t, e).tables;
    if Reopens(t, e, c) {
      var u :| u in Delegates(e.users, e.active) && ((c, u) in t.handOffs ==> t.handOffs[(c, u)].completedAt.None?);
      IdLists.AllFound(e.ids, FoundCandidates(t, e.ids));
      assert (c, u) in after.handOffs && IsOpen(after.handOffs[(c, u)]);
    }
    if u :| (c, u) in after.handOffs && IsOpen(after.handOffs[(c, u)]) {
      assert (c, u) !in t.handOffs || !IsOpen(t.handOffs[(c, u)]);
      assert e.DelegateCall? && u in Delegates(e.users, e.active);
    }
  }

  /** A completed part stays completed. */
  lemma {:induction false} CompletedStays(t: Tables, events: seq<Event>, c: CandidateId, u: UserId)
    requires (c, u) in t.handOffs && t.handOffs[(c, u)].completedAt.Some?
    ensures (c, u) in Run(t, events).handOffs
    ensures Run(t, events).handOffs[(c, u)].completedAt == t.handOffs[(c, u)].completedAt
  {
    if events != [] {
      CompletedStays(t, events[..|events| - 1], c, u);
    }
  }

  ghost predicate NeverReopens(t: Tables, events: seq<Event>, c: CandidateId) {
    events == []
    || (NeverReopens(t, events[..|events| - 1], c) && !Reopens(Run(t, events[..|events| - 1]), events[|events| - 1], c))
  }

  ghost predicate AlwaysReleased(t: Tables, events: seq<Event>, c: CandidateId) {
    !HasOpen(Run(t, events), c) && (events == [] || AlwaysReleased(t, events[..|events| - 1], c))
  }

  /** A released candidate is released at every point of a run exactly when no
      call of it reopens the hand-over. */
  lemma {:induction false} ReleasedForGood(t: Tables, events: seq<Event>, c: CandidateId)
    requires !HasOpen(t, c)
    ensures AlwaysReleased(t, events, c) <==> NeverReopens(t, events, c)
  {
    if events != [] {
      var before := events[..|events| - 1];
      ReleasedForGood(t, before, c);
      if AlwaysReleased(t, before, c) {
        assert !HasOpen(Run(t, before), c);
        ReleasedUntilReopened(Run(t, before), events[|events| - 1], c);
      }
    }
  }

  // ---- The hold on the recruiter's tab ----

  datatype Person = Person(id: UserId, name: string)

  datatype HoldRow = HoldRow(person: Person, revokedAt: Option<Millis>, completedAt: Option<Millis>)

  datatype Hold = Hold(delegates: seq<Person>, awaitingApproval: bool)

  predicate OpenRow(r: HoldRow) {
    r.revokedAt.None? && r.completedAt.None?
  }

  function OpenRows(rows: seq<HoldRow>): seq<HoldRow> {
    if rows == [] then []
    else
      var rest := OpenRows(rows[..|rows| - 1]);
      if OpenRow(rows[|rows| - 1]) then rest + [rows[|rows| - 1]] else rest
  }

  lemma {:induction false} OpenRowsMembers(rows: seq<HoldRow>)
    ensures forall r :: r in OpenRows(rows) <==> r in rows && OpenRow(r)
  {
    if rows != [] {
      OpenRowsMembers(rows[..|rows| - 1]);
      assert rows == rows[..|rows| - 1] + [rows[|rows| - 1]];
    }
  }

  function Ids(people: seq<Person>): set<UserId> {
    set p | p in people :: p.id
  }

  /** Everybody on the rows, each named once, where they first appear. */
  function FirstNamed(rows: seq<HoldRow>): seq<Person> {
    if rows == [] then []
    else
      var rest, person := FirstNamed(rows[..|rows| - 1]), rows[|rows| - 1].person;
      if person.id in Ids(rest) then rest else rest + [person]
  }

  lemma {:induction false} FirstNamedNames(rows: seq<HoldRow>)
    ensures var people := FirstNamed(rows);
            && (forall i, j :: 0 <= i < j < |people| ==> people[i].id != people[j].id)
            && (forall p :: p in people ==> exists r :: r in rows && r.person == p)
            && (forall r :: r in rows ==> r.person.id in Ids(people))
  {
    if rows != [] {
      var n := |rows| - 1;
      FirstNamedNames(rows[..n]);
      assert rows == rows[..n] + [rows[n]];
      var rest := FirstNamed(rows[..n]);
      forall i | 0 <= i < |rest| ensures rest[i].id in Ids(rest) { assert rest[i] in rest; }
    }
  }

  function HoldOf(stage: CandidateStage, rejectedAt: Option<Millis>, rows: seq<HoldRow>,
                  signOff: Option<SignOff>): Option<Hold> {
    if OpenRows(rows) == [] || IsDecided(stage, rejectedAt) then None
    else Some(Hold(FirstNamed(OpenRows(rows)), signOff == Some(Pending)))
  }

  method FirstInterviewHold(stage: CandidateStage, rejectedAt: Option<Millis>, rows: seq<HoldRow>,
                            signOff: Option<SignOff>)
    returns (hold: Option<Hold>)
    ensures hold == HoldOf(stage, rejectedAt, rows, signOff)
  {
    var openRows := OpenRows(rows);
    if |openRows| == 0 { return None; }
    if IsDecided(stage, rejectedAt) { return None; }
    var seen: set<UserId> := {};
    var delegates: seq<Person> := [];
    for n := 0 to |openRows|
      invariant seen == Ids(delegates) && delegates == FirstNamed(openRows[..n])
    {
      var person := openRows[n].person;
      assert openRows[..n + 1][..n] == openRows[..n];
      if person.id in seen { continue; }
      seen := seen + {person.id};
      delegates := delegates + [person];
    }
    assert openRows[..|openRows|] == openRows;
    hold := Some(Hold(delegates, signOff == Some(Pending)));
  }

  ghost predicate Matches(r: HoldRow, t: Tables, c: CandidateId) {
    && (c, r.person.id) in t.handOffs
    && r.revokedAt == t.handOffs[(c, r.person.id)].revokedAt
    && r.completedAt == t.handOffs[(c, r.person.id)].completedAt
  }

  /** The rows a query for one candidate returns, in any order. */
  ghost predicate RowsFor(rows: seq<HoldRow>, t: Tables, c: CandidateId) {
    && (forall r :: r in rows ==> Matches(r, t, c))
    && (forall u :: (c, u) in t.handOffs ==> exists r :: r in rows && r.person.id == u)
  }

  ghost predicate Holds(t: Tables, c: CandidateId) {
    c in t.candidates && !IsDecided(t.candidates[c].stage, t.candidates[c].rejectedAt) && HasOpen(t, c)
  }

  /** The hold shown for a candidate: there is one exactly while somebody has it
      open and no verdict is in, and it names everybody who has it open, once. */
  lemma HoldShowsHolders(t: Tables, c: CandidateId, rows: seq<HoldRow>, signOff: Option<SignOff>)
    requires c in t.candidates && RowsFor(rows, t, c)
    requires signOff == if c in t.signOffs then Some(t.signOffs[c]) else None
    ensures var hold := HoldOf(t.candidates[c].stage, t.candidates[c].rejectedAt, rows, signOff);
            && (hold.Some? <==> Holds(t, c))
            && (hold.Some? ==>
                  && (forall u ::
                        u in Ids(hold.value.delegates) <==> (c, u) in t.handOffs && IsOpen(t.handOffs[(c, u)]))
                  && (forall i, j :: 0 <= i < j < |hold.value.delegates| ==>
                      hold.value.delegates[i].id != hold.value.delegates[j].id)
                  && (hold.value.awaitingApproval <==> IsPending(t, c)))
  {
    OpenRowsMembers(rows);
    FirstNamedNames(OpenRows(rows));
    forall u | (c, u) in t.handOffs && IsOpen(t.handOffs[(c, u)])
      ensures u in Ids(FirstNamed(OpenRows(rows))) && OpenRows(rows) != []
    {
      var r :| r in rows && r.person.id == u;
      assert Matches(r, t, c) && r in OpenRows(rows);
    }
    forall u | u in Ids(FirstNamed(OpenRows(rows))) ensures (c, u) in t.handOffs && IsOpen(t.handOffs[(c, u)]) {
      var p :| p in FirstNamed(OpenRows(rows)) && p.id == u;
      var r :| r in OpenRows(rows) && r.person == p;
      assert Matches(r, t, c);
    }
    if OpenRows(rows) != [] {
      var r := OpenRows(rows)[0];
      assert r in OpenRows(rows) && Matches(r, t, c);
    }
  }

  /** After a verdict the hold stays away through every run that does not reopen
      the hand-over, whatever stage the candidate is moved to. */
  lemma HoldStaysReleased(t: Tables, e: Event, events: seq<Event>, c: CandidateId)
    requires GivesVerdict(t, e, c) && NeverReopens(Step(t, e).tables, events, c)
    ensures !Holds(Run(Step(t, e).tables, events), c)
  {
    VerdictReleases(t, e, c);
    ReleasedForGood(Step(t, e).tables, events, c);
    assert AlwaysReleased(Step(t, e).tables, events, c);
  }

  /** One call brings the hold back on a released candidate exactly when it
      reopens the hand-over of one who is not decided. */
  lemma HoldComesBack(t: Tables, e: Event, c: CandidateId)
    requires !HasOpen(t, c)
    ensures Holds(Step(t, e).tables, c)
            <==> Reopens(t, e, c) && c in t.candidates && !IsDecided(t.candidates[c].stage, t.candidates[c].rejectedAt)
  {
    ReleasedUntilReopened(t, e, c);
  }

  /** While the Head is deciding, the candidate is held unless moved on or
      rejected meanwhile. */
  lemma PendingHolds(events: seq<Event>, c: CandidateId)
    requires IsPending(Run(EMPTY, events), c) && c in Run(EMPTY, events).candidates
    ensures var t := Run(EMPTY, events);
            Holds(t, c) <==> !IsDecided(t.candidates[c].stage, t.candidates[c].rejectedAt)
  {
    PendingAlwaysHeld(events);
  }

  // ---- One verdict across a selection ----

  /** The ids once each, where they first appear. */
  function Once(ids: seq<CandidateId>): (distinct: seq<CandidateId>)
    ensures forall c :: c in distinct <==> c in ids
    ensures forall i, j :: 0 <= i < j < |distinct| ==> distinct[i] != distinct[j]
  {
    if ids == [] then []
    else
      var rest := Once(ids[..|ids| - 1]);
      assert ids == ids[..|ids| - 1] + [ids[|ids| - 1]];
      if ids[|ids| - 1] in rest then rest else rest + [ids[|ids| - 1]]
  }

  datatype Result = Result(candidate: CandidateId, reply: Reply)

  datatype Batch = Batch(tables: Tables, results: seq<Result>)

  /** Each candidate of the list in turn, on the tables the ones before left. */
  function DecideEach(t: Tables, ids: seq<CandidateId>, d: HeadDecision, scope: set<CandidateId>,
                      now: Millis): (b: Batch)
    ensures |b.results| == |ids|
  {
    if ids == [] then Batch(t, [])
    else
      var before := DecideEach(t, ids[..|ids| - 1], d, scope, now);
      var outcome := DecideOne(before.tables, ids[|ids| - 1], d, scope, now);
      Batch(outcome.tables, before.results + [Result(ids[|ids| - 1], outcome.reply)])
  }

  ghost predicate SameFor(t: Tables, u: Tables, c: CandidateId) {
    && (c in t.candidates <==> c in u.candidates) && (c in t.candidates ==> t.candidates[c] == u.candidates[c])
    && (c in t.signOffs <==> c in u.signOffs) && (c in t.signOffs ==> t.signOffs[c] == u.signOffs[c])
    && (forall p :: (c, p) in t.handOffs <==> (c, p) in u.handOffs)
    && (forall p :: (c, p) in t.handOffs ==> t.handOffs[(c, p)] == u.handOffs[(c, p)])
  }

  lemma DecideReadsOneCandidate(t: Tables, u: Tables, c: CandidateId, d: HeadDecision, scope: set<CandidateId>,
                                now: Millis)
    requires SameFor(t, u, c)
    ensures DecideOne(t, c, d, scope, now).reply == DecideOne(u, c, d, scope, now).reply
    ensures SameFor(DecideOne(t, c, d, scope, now).tables, DecideOne(u, c, d, scope, now).tables, c)
  {
  }

  lemma DecideLeavesOthers(t: Tables, c: CandidateId, other: CandidateId, d: HeadDecision, scope: set<CandidateId>,
                           now: Millis)
    requires c != other
    ensures SameFor(t, DecideOne(t, c, d, scope, now).tables, other)
  {
  }

  lemma SameForChains(t: Tables, u: Tables, v: Tables, c: CandidateId)
    requires SameFor(t, u, c) && SameFor(u, v, c)
    ensures SameFor(t, v, c)
  {
  }

  /** Deciding a selection gives every candidate the answer and the rows it would
      get if it were decided alone, and leaves everybody else as they were. */
  lemma {:induction false} SelectionDecidesEachAlone(t: Tables, ids: seq<CandidateId>, d: HeadDecision,
                                                     scope: set<CandidateId>, now: Millis, c: CandidateId)
    requires forall i, j :: 0 <= i < j < |ids| ==> ids[i] != ids[j]
    ensures var b := DecideEach(t, ids, d, scope, now);
            && (forall i :: 0 <= i < |ids| && ids[i] == c ==>
                b.results[i] == Result(c, DecideOne(t, c, d, scope, now).reply))
            && SameFor(if c in ids then DecideOne(t, c, d, scope, now).tables else t, b.tables, c)
  {
    if ids != [] {
      var front, last := ids[..|ids| - 1], ids[|ids| - 1];
      SelectionDecidesEachAlone(t, front, d, scope, now, c);
      assert forall i :: 0 <= i < |front| ==> front[i] == ids[i];
      var before := DecideEach(t, front, d, scope, now).tables;
      assert c in ids <==> c in front || c == last;
      if c == last {
        assert c !in front;
        DecideReadsOneCandidate(t, before, c, d, scope, now);
      } else {
        DecideLeavesOthers(before, last, c, d, scope, now);
        var alone := if c in ids then DecideOne(t, c, d, scope, now).tables else t;
        SameForChains(alone, before, DecideOne(before, last, d, scope, now).tables, c);
      }
    }
  }
}
