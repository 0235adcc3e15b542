/** The interview service as an object over its tables
    (src/modules/assessment/interview.service.ts). */
module RoundService {
  import opened Optional
  import opened DelegationProgress
  import opened InterviewRounds
  import opened RoundSafety

  /** A link value names one seat, so any seat found by it is the seat. */
  lemma SeatIsUnique(t: Tables, value: nat, seat: Seat)
    requires ValuesDistinct(t.links, t.nextValue) && Opens(t, value, seat)
    ensures SeatOf(t, value) == Some(seat)
  {
  }

  class InterviewDesk {
    var rounds: map<RoundId, Round>
    var panel: set<Seat>
    var links: map<Seat, Link>
    var marks: seq<Mark>
    var nextRound: RoundId
    var nextValue: nat

    ghost function Contents(): Tables
      reads this
    {
      Tables(rounds, panel, links, marks, nextRound, nextValue)
    }

    ghost predicate Valid()
      reads this
    {
      Base(Contents())
    }

    constructor ()
      ensures Valid() && Contents() == EMPTY
    {
      rounds, panel, links, marks, nextRound, nextValue := map[], {}, map[], [], 0, 0;
    }

    /** The live rounds of a candidate and kind, apart from one. */
    method FindLive(candidate: CandidateId, kind: Kind, except: Option<RoundId>) returns (live: set<RoundId>)
      ensures live == LiveRounds(Contents(), candidate, kind, except)
    {
      live := set r | r in rounds && Some(r) != except && rounds[r].candidate == candidate &&
          rounds[r].kind == kind && Stands(rounds[r]);
    }

    /** One link per panelist who has none yet. */
    method GenerateEvalTokens(round: RoundId, users: seq<UserId>, at: Option<Millis>, now: Millis)
      modifies this`links, this`nextValue
      ensures Contents() == WithLinks(old(Contents()), round, users, ExpiryFor(at, now))
    {
      var expires := (if at.Some? then at.value else now) + LINK_VALID_MS;
      for n := 0 to |users|
        invariant Contents() == WithLinks(old(Contents()), round, users[..n], expires)
      {
        var seat := (round, users[n]);
        assert users[..n + 1][..n] == users[..n];
        if seat !in links {
          links := links[seat := Link(nextValue, Issued, expires)];
          nextValue := nextValue + 1;
        }
      }
      assert users[..|users|] == users;
    }

    method ScheduleRound(candidate: CandidateId, kind: Kind, at: Option<Millis>, users: seq<UserId>, allowed: bool,
                         now: Millis)
      returns (reply: Reply)
      requires Valid()
      modifies this`rounds, this`panel, this`links, this`nextRound, this`nextValue
      ensures Valid()
      ensures Outcome(Contents(), reply) == Schedule(old(Contents()), candidate, kind, at, users, allowed, now)
    {
      ScheduleKeeps(Contents(), candidate, kind, at, users, allowed, now);
      if !allowed { return Refused(NotAllowed); }
      var existing := FindLive(candidate, kind, None);
      if existing != {} { return Refused(AlreadyArranged); }
      var round := nextRound;
      rounds := rounds[round := Round(candidate, kind, Scheduled, at)];
      panel := panel + Seats(round, users);
      nextRound := nextRound + 1;
      GenerateEvalTokens(round, users, at, now);
      reply := Booked(round);
    }

    /** The people given who are not on the panel, each once. */
    method NewPeople(round: RoundId, users: seq<UserId>) returns (newcomers: seq<UserId>)
      ensures newcomers == Newcomers(Contents(), round, users)
    {
      newcomers := [];
      for n := 0 to |users|
        invariant newcomers == Newcomers(Contents(), round, users[..n])
      {
        assert users[..n + 1][..n] == users[..n];
        if (round, users[n]) !in panel && users[n] !in newcomers {
          newcomers := newcomers + [users[n]];
        }
      }
      assert users[..|users|] == users;
    }

    method AddToPanel(round: RoundId, users: seq<UserId>, now: Millis) returns (reply: Reply)
      requires Valid()
      modifies this`panel, this`links, this`nextValue
      ensures Valid() && Outcome(Contents(), reply) == AddPanelists(old(Contents()), round, users, now)
    {
      AddPanelistsKeeps(Contents(), round, users, now);
      if round !in rounds { return Refused(NotFound); }
      if rounds[round].status != Scheduled { return Refused(RoundIsOver); }
      var newcomers := NewPeople(round, users);
      if newcomers == [] { return Refused(EveryoneOnPanel); }
      panel := panel + Seats(round, newcomers);
      GenerateEvalTokens(round, newcomers, rounds[round].scheduledAt, now);
      reply := Done;
    }

    /** Links not yet used are made to outlive the new time. */
    method RedateLinks(round: RoundId, at: Millis)
      modifies this`links
      ensures Contents() == Redated(old(Contents()), round, at)
    {
      links := map s | s in links ::
        if s.0 == round && links[s].status != Submitted then links[s].(expires := at + LINK_VALID_MS) else links[s];
    }

    /** Only the columns the edit carries. */
    method SetColumns(round: RoundId, e: Edit)
      requires round in rounds
      modifies this`rounds
      ensures rounds == old(rounds)[round := Edited(old(rounds)[round], e)]
    {
      var r := rounds[round];
      if e.kind.Some? { r := r.(kind := e.kind.value); }
      if e.at.Some? { r := r.(scheduledAt := e.at.value); }
      if e.status.Some? { r := r.(status := e.status.value); }
      rounds := rounds[round := r];
    }

    /** The panel becomes the people given; those dropped lose their links. */
    method ReplacePanel(round: RoundId, users: seq<UserId>, at: Option<Millis>, now: Millis)
      modifies this`panel, this`links, this`nextValue
      ensures Contents() == WithLinks(Reseated(old(Contents()), round, users), round, users, ExpiryFor(at, now))
    {
      panel := (set s | s in panel && s.0 != round) + Seats(round, users);
      links := map s | s in links && (s.0 != round || s.1 in users) :: links[s];
      GenerateEvalTokens(round, users, at, now);
    }

    method UpdateRound(round: RoundId, e: Edit, now: Millis) returns (reply: Reply)
      requires Valid()
      modifies this`rounds, this`panel, this`links, this`nextValue
      ensures Valid() && Outcome(Contents(), reply) == Update(old(Contents()), round, e, now)
    {
      UpdateKeepsBase(Contents(), round, e, now);
      if round !in rounds { return Refused(NotFound); }
      var r := rounds[round];
      if e.status == Some(Absent) && IsMarked(marks, round) { return Refused(AlreadyMarked); }
      var reviving := !Stands(r) && e.status.Some? && e.status != Some(Cancelled) && e.status != Some(Absent);
      if reviving {
        var replacement := FindLive(r.candidate, r.kind, Some(round));
        if replacement != {} { return Refused(ReplacementExists); }
      }
      SetColumns(round, e);
      if e.users.Some? {
        ReplacePanel(round, e.users.value, rounds[round].scheduledAt, now);
      } else if e.at.Some? && e.at.value.Some? {
        RedateLinks(round, e.at.value.value);
      }
      reply := Done;
    }

    method MoveRound(round: RoundId, to: Option<Millis>, now: Millis) returns (reply: Reply)
      requires Valid()
      modifies this`rounds, this`links
      ensures Valid() && Outcome(Contents(), reply) == Reschedule(old(Contents()), round, to, now)
    {
      RescheduleKeeps(Contents(), round, to, now);
      if round !in rounds { return Refused(NotFound); }
      var refusal := RescheduleRefusal(rounds[round], IsMarked(marks, round), to, now);
      if refusal.Some? { return Refused(refusal.value); }
      rounds := rounds[round := rounds[round].(scheduledAt := to)];
      RedateLinks(round, to.value);
      reply := Done;
    }

    method RemoveRound(round: RoundId) returns (reply: Reply)
      requires Valid()
      modifies this`rounds, this`panel, this`links, this`marks
      ensures Valid() && Outcome(Contents(), reply) == Remove(old(Contents()), round)
    {
      RemoveKeeps(Contents(), round);
      if round !in rounds { return Refused(NotFound); }
      rounds := rounds - {round};
      panel := set s | s in panel && s.0 != round;
      links := map s | s in links && s.0 != round :: links[s];
      marks := MarksElsewhere(marks, round);
      reply := Done;
    }

    method MarkSignedIn(round: RoundId, user: UserId, total: Option<nat>) returns (reply: Reply)
      requires Valid()
      modifies this`links, this`marks
      ensures Valid() && Outcome(Contents(), reply) == SubmitEvaluation(old(Contents()), round, user, total)
    {
      SubmitEvaluationKeeps(Contents(), round, user, total);
      if round !in rounds { return Refused(NotFound); }
      if (round, user) !in panel { return Refused(NotOnPanel); }
      if rounds[round].status == Absent { return Refused(NobodyToMark); }
      if HasMark(marks, (round, user)) { return Refused(AlreadyMarked); }
      if total.None? { return Refused(ScoresInvalid); }
      marks := marks + [Mark(round, user, total.value)];
      links := Used(links, (round, user));
      reply := Done;
    }

    /** The seat whose link has the value given. */
    method FindSeat(value: nat) returns (seat: Option<Seat>)
      requires Valid()
      ensures seat == SeatOf(Contents(), value)
    {
      if s :| s in links && links[s].value == value {
        assert Opens(Contents(), value, s);
        SeatIsUnique(Contents(), value, s);
        seat := Some(s);
      } else {
        seat := None;
      }
    }

    method OpenForm(value: nat, now: Millis) returns (reply: Reply)
      requires Valid()
      modifies this`links
      ensures Valid() && Outcome(Contents(), reply) == OpenLink(old(Contents()), value, now)
    {
      OpenLinkKeeps(Contents(), value, now);
      var found := FindSeat(value);
      if found.None? { return Refused(LinkInvalid); }
      var link := links[found.value];
      if link.status != Submitted && link.expires < now { return Refused(LinkExpired); }
      if link.status == Issued { links := links[found.value := link.(status := Opened)]; }
      reply := Done;
    }

    method MarkByLink(value: nat, total: Option<nat>, now: Millis) returns (reply: Reply)
      requires Valid()
      modifies this`links, this`marks
      ensures Valid() && Outcome(Contents(), reply) == SubmitByLink(old(Contents()), value, total, now)
    {
      SubmitByLinkKeeps(Contents(), value, total, now);
      var found := FindSeat(value);
      if found.None? { return Refused(LinkInvalid); }
      var seat := found.value;
      if links[seat].expires < now { return Refused(LinkExpired); }
      if rounds[seat.0].status == Absent { return Refused(NobodyToMark); }
      if HasMark(marks, seat) {
        links := Used(links, seat);
        return Refused(AlreadyMarked);
      }
      if total.None? { return Refused(ScoresInvalid); }
      marks := marks + [Mark(seat.0, seat.1, total.value)];
      links := Used(links, seat);
      reply := Done;
    }

    method ResendEvalToken(round: RoundId, user: UserId, now: Millis) returns (reply: Reply)
      requires Valid()
      modifies this`links, this`nextValue
      ensures Valid() && Outcome(Contents(), reply) == ResendLink(old(Contents()), round, user, now)
    {
      ResendLinkKeeps(Contents(), round, user, now);
      if round !in rounds { return Refused(NotFound); }
      if (round, user) !in panel { return Refused(NotOnPanel); }
      links := links[(round, user) := Link(nextValue, Issued, ExpiryFor(rounds[round].scheduledAt, now))];
      nextValue := nextValue + 1;
      reply := Done;
    }
  }
}
