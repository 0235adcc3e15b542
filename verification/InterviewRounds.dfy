/** Interview rounds, their panels, marking links and marks
    (src/modules/assessment/interview.service.ts). */
module InterviewRounds {
  import opened Optional
  import opened DelegationProgress

  type UserId = nat
  type CandidateId = nat
  type RoundId = nat
  type Millis = int
  type Seat = (RoundId, UserId)

  datatype Kind = First | Second | Final

  datatype Round = Round(candidate: CandidateId, kind: Kind, status: RoundStatus, scheduledAt: Option<Millis>)

  datatype LinkStatus = Issued | Opened | Submitted

  /** A panelist's marking link; value is the secret part of its address. */
  datatype Link = Link(value: nat, status: LinkStatus, expires: Millis)

  datatype Mark = Mark(round: RoundId, evaluator: UserId, total: nat)

  /** One panel row and one link to a seat are unique keys of the database. */
  datatype Tables = Tables(rounds: map<RoundId, Round>, panel: set<Seat>, links: map<Seat, Link>, marks: seq<Mark>,
                           nextRound: RoundId, nextValue: nat)

  const EMPTY := Tables(map[], {}, map[], [], 0, 0)

  const LINK_VALID_MS: Millis := 7 * 24 * 60 * 60 * 1000

  datatype Refusal =
    | NotAllowed | AlreadyArranged | NotFound | RoundIsOver | EveryoneOnPanel | AlreadyMarked
    | ReplacementExists | NoDate | DateNotInFuture | SameDate | NotOnPanel | NobodyToMark
    | ScoresInvalid | LinkInvalid | LinkExpired

  datatype Reply = Refused(why: Refusal) | Done | Booked(round: RoundId)

  datatype Outcome = Outcome(tables: Tables, reply: Reply)

  function Refuse(t: Tables, why: Refusal): Outcome {
    Outcome(t, Refused(why))
  }

  /** A round that was called off or not attended leaves room for another. */
  predicate Stands(r: Round) {
    CanStand(r.status)
  }

  /** The live rounds of a candidate and kind, apart from one. */
  function LiveRounds(t: Tables, candidate: CandidateId, kind: Kind, except: Option<RoundId>): set<RoundId> {
    set r | r in t.rounds && Some(r) != except && t.rounds[r].candidate == candidate && t.rounds[r].kind == kind &&
        Stands(t.rounds[r])
  }

  predicate HasMark(marks: seq<Mark>, seat: Seat) {
    exists i :: 0 <= i < |marks| && marks[i].round == seat.0 && marks[i].evaluator == seat.1
  }

  predicate IsMarked(marks: seq<Mark>, round: RoundId) {
    exists i :: 0 <= i < |marks| && marks[i].round == round
  }

  function ExpiryFor(at: Option<Millis>, now: Millis): Millis {
    (if at.Some? then at.value else now) + LINK_VALID_MS
  }

  /** Links for the panelists who have none; existing ones are left as they are. */
  function Generated(links: map<Seat, Link>, next: nat, round: RoundId, users: seq<UserId>,
                     expires: Millis): (map<Seat, Link>, nat) {
    if users == [] then (links, next)
    else
      var (before, value) := Generated(links, next, round, users[..|users| - 1], expires);
      var seat := (round, users[|users| - 1]);
      if seat in before then (before, value) else (before[seat := Link(value, Issued, expires)], value + 1)
  }

  function Seats(round: RoundId, users: seq<UserId>): set<Seat> {
    set u | u in users :: (round, u)
  }

  function WithLinks(t: Tables, round: RoundId, users: seq<UserId>, expires: Millis): Tables {
    var (links, value) := Generated(t.links, t.nextValue, round, users, expires);
    t.(links := links, nextValue := value)
  }

  // ---- Arranging ----

  function Schedule(t: Tables, candidate: CandidateId, kind: Kind, at: Option<Millis>, users: seq<UserId>,
                    allowed: bool, now: Millis): Outcome {
    if !allowed then Refuse(t, NotAllowed)
    else if LiveRounds(t, candidate, kind, None) != {} then Refuse(t, AlreadyArranged)
    else
      var round := t.nextRound;
      var created := t.(rounds := t.rounds[round := Round(candidate, kind, Scheduled, at)],
                        panel := t.panel + Seats(round, users), nextRound := round + 1);
      Outcome(WithLinks(created, round, users, ExpiryFor(at, now)), Booked(round))
  }

  function Newcomers(t: Tables, round: RoundId, users: seq<UserId>): seq<UserId> {
    if users == [] then []
    else
      var rest, u := Newcomers(t, round, users[..|users| - 1]), users[|users| - 1];
      if (round, u) in t.panel || u in rest then rest else rest + [u]
  }

  function AddPanelists(t: Tables, round: RoundId, users: seq<UserId>, now: Millis): Outcome {
    if round !in t.rounds then Refuse(t, NotFound)
    else if t.rounds[round].status != Scheduled then Refuse(t, RoundIsOver)
    else if Newcomers(t, round, users) == [] then Refuse(t, EveryoneOnPanel)
    else
      var newcomers := Newcomers(t, round, users);
      var added := t.(panel := t.panel + Seats(round, newcomers));
      Outcome(WithLinks(added, round, newcomers, ExpiryFor(t.rounds[round].scheduledAt, now)), Done)
  }

  /** What an edit may carry; a date given as None clears it. */
  datatype Edit = Edit(kind: Option<Kind>, at: Option<Option<Millis>>, status: Option<RoundStatus>,
      users: Option<seq<UserId>>)

  function Edited(r: Round, e: Edit): Round {
    r.(kind := if e.kind.Some? then e.kind.value else r.kind,
       scheduledAt := if e.at.Some? then e.at.value else r.scheduledAt,
       status := if e.status.Some? then e.status.value else r.status)
  }

  function Reseated(t: Tables, round: RoundId, users: seq<UserId>): Tables {
    t.(panel := (set s | s in t.panel && s.0 != round) + Seats(round, users),
       links := map s | s in t.links && (s.0 != round || s.1 in users) :: t.links[s])
  }

  /** Links not yet used are dated from the new time. */
  function Redated(t: Tables, round: RoundId, at: Millis): Tables {
    t.(links := map s | s in t.links ::
      if s.0 == round && t.links[s].status != Submitted then t.links[s].(expires := at + LINK_VALID_MS) else t.links[s])
  }

  function Update(t: Tables, round: RoundId, e: Edit, now: Millis): Outcome {
    if round !in t.rounds then Refuse(t, NotFound)
    else
      var r := t.rounds[round];
      var after := Edited(r, e);
      if e.status == Some(Absent) && IsMarked(t.marks, round) then Refuse(t, AlreadyMarked)
      else if !Stands(r) && e.status.Some? && Stands(after) &&
          LiveRounds(t, r.candidate, r.kind, Some(round)) != {} then
        Refuse(t, ReplacementExists)
      else
        var edited := t.(rounds := t.rounds[round := after]);
        if e.users.Some? then
          Outcome(WithLinks(Reseated(edited, round, e.users.value), round, e.users.value,
              ExpiryFor(after.scheduledAt, now)), Done)
        else if e.at.Some? && e.at.value.Some? then Outcome(Redated(edited, round, e.at.value.value), Done)
        else Outcome(edited, Done)
  }

  function RescheduleRefusal(r: Round, marked: bool, to: Option<Millis>, now: Millis): Option<Refusal> {
    if r.status != Scheduled then Some(RoundIsOver)
    else if marked then Some(AlreadyMarked)
    else if to.None? then Some(NoDate)
    else if to.value <= now then Some(DateNotInFuture)
    else if r.scheduledAt == to then Some(SameDate)
    else None
  }

  function Reschedule(t: Tables, round: RoundId, to: Option<Millis>, now: Millis): Outcome {
    if round !in t.rounds then Refuse(t, NotFound)
    else
      var refusal := RescheduleRefusal(t.rounds[round], IsMarked(t.marks, round), to, now);
      if refusal.Some? || to.None? then Refuse(t, if refusal.Some? then refusal.value else NoDate)
      else Outcome(Redated(t.(rounds := t.rounds[round := t.rounds[round].(scheduledAt := to)]), round, to.value), Done)
  }

  function MarksElsewhere(marks: seq<Mark>, round: RoundId): seq<Mark> {
    if marks == [] then []
    else
      var rest := MarksElsewhere(marks[..|marks| - 1], round);
      if marks[|marks| - 1].round == round then rest else rest + [marks[|marks| - 1]]
  }

  /** Deleting a round deletes its panel, links and marks with it. */
  function Remove(t: Tables, round: RoundId): Outcome {
    if round !in t.rounds then Refuse(t, NotFound)
    else Outcome(t.(rounds := t.rounds - {round},
                    panel := (set s | s in t.panel && s.0 != round),
                    links := (map s | s in t.links && s.0 != round :: t.links[s]),
                    marks := MarksElsewhere(t.marks, round)), Done)
  }

  // ---- Marking ----

  function Used(links: map<Seat, Link>, seat: Seat): map<Seat, Link> {
    if seat in links then links[seat := links[seat].(status := Submitted)] else links
  }

  /** total: the checked sum of the scores, None when they do not validate. */
  function SubmitEvaluation(t: Tables, round: RoundId, user: UserId, total: Option<nat>): Outcome {
    if round !in t.rounds then Refuse(t, NotFound)
    else if (round, user) !in t.panel then Refuse(t, NotOnPanel)
    else if t.rounds[round].status == Absent then Refuse(t, NobodyToMark)
    else if HasMark(t.marks, (round, user)) then Refuse(t, AlreadyMarked)
    else if total.None? then Refuse(t, ScoresInvalid)
    else Outcome(t.(marks := t.marks + [Mark(round, user, total.value)], links := Used(t.links, (round, user))), Done)
  }

  ghost predicate Opens(t: Tables, value: nat, seat: Seat) {
    seat in t.links && t.links[seat].value == value && seat.0 in t.rounds
  }

  /** The seat a link value belongs to. */
  ghost function SeatOf(t: Tables, value: nat): Option<Seat> {
    if exists s :: Opens(t, value, s) then var s :| Opens(t, value, s); Some(s) else None
  }

  /** Opening the form stamps a link on first access. */
  ghost function OpenLink(t: Tables, value: nat, now: Millis): Outcome {
    var seat := SeatOf(t, value);
    if seat.None? then Refuse(t, LinkInvalid)
    else
      var link := t.links[seat.value];
      if link.status != Submitted && link.expires < now then Refuse(t, LinkExpired)
      else if link.status == Issued then Outcome(t.(links := t.links[seat.value := link.(status := Opened)]), Done)
      else Outcome(t, Done)
  }

  ghost function SubmitByLink(t: Tables, value: nat, total: Option<nat>, now: Millis): Outcome {
    var seat := SeatOf(t, value);
    if seat.None? then Refuse(t, LinkInvalid)
    else if t.links[seat.value].expires < now then Refuse(t, LinkExpired)
    else if t.rounds[seat.value.0].status == Absent then Refuse(t, NobodyToMark)
    else if HasMark(t.marks, seat.value) then Outcome(t.(links := Used(t.links, seat.value)), Refused(AlreadyMarked))
    else if total.None? then Refuse(t, ScoresInvalid)
    else Outcome(t.(marks := t.marks + [Mark(seat.value.0, seat.value.1, total.value)],
        links := Used(t.links, seat.value)), Done)
  }

  function ResendLink(t: Tables, round: RoundId, user: UserId, now: Millis): Outcome {
    if round !in t.rounds then Refuse(t, NotFound)
    else if (round, user) !in t.panel then Refuse(t, NotOnPanel)
    else Outcome(t.(links := t.links[(round, user) := Link(t.nextValue, Issued,
        ExpiryFor(t.rounds[round].scheduledAt, now))],
                    nextValue := t.nextValue + 1), Done)
  }

  // ---- Runs ----

  datatype Event =
    | ScheduleCall(candidate: CandidateId, kind: Kind, at: Option<Millis>, users: seq<UserId>, allowed: bool,
        now: Millis)
    | AddPanelistsCall(round: RoundId, users: seq<UserId>, now: Millis)
    | UpdateCall(round: RoundId, edit: Edit, now: Millis)
    | RescheduleCall(round: RoundId, to: Option<Millis>, now: Millis)
    | RemoveCall(round: RoundId)
    | SubmitEvaluationCall(round: RoundId, user: UserId, total: Option<nat>)
    | OpenLinkCall(value: nat, now: Millis)
    | SubmitByLinkCall(value: nat, total: Option<nat>, now: Millis)
    | ResendLinkCall(round: RoundId, user: UserId, now: Millis)

  ghost function Step(t: Tables, e: Event): Outcome {
    match e
    case ScheduleCall(c, kind, at, users, allowed, now) => Schedule(t, c, kind, at, users, allowed, now)
    case AddPanelistsCall(r, users, now) => AddPanelists(t, r, users, now)
    case UpdateCall(r, edit, now) => Update(t, r, edit, now)
    case RescheduleCall(r, to, now) => Reschedule(t, r, to, now)
    case RemoveCall(r) => Remove(t, r)
    case SubmitEvaluationCall(r, u, total) => SubmitEvaluation(t, r, u, total)
    case OpenLinkCall(value, now) => OpenLink(t, value, now)
    case SubmitByLinkCall(value, total, now) => SubmitByLink(t, value, total, now)
    case ResendLinkCall(r, u, now) => ResendLink(t, r, u, now)
  }

  ghost function Run(t: Tables, events: seq<Event>): Tables {
    if events == [] then t else Step(Run(t, events[..|events| - 1]), events[|events| - 1]).tables
  }
}
