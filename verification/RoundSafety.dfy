/** What every run of the interview-round calls keeps. */
module RoundSafety {
  import opened Optional
  import opened DelegationProgress
  import opened InterviewRounds

  // ---- The invariant ----

  /** Exactly the panelists of existing rounds own links. */
  ghost predicate Seated(t: Tables) {
    && t.links.Keys == t.panel
    && (forall s :: s in t.panel ==> s.0 in t.rounds)
    && (forall r :: r in t.rounds ==> r < t.nextRound)
    && (forall i :: 0 <= i < |t.marks| ==> t.marks[i].round in t.rounds)
  }

  ghost predicate ValuesDistinct(links: map<Seat, Link>, next: nat) {
    && (forall s :: s in links ==> links[s].value < next)
    && (forall s, u :: s in links && u in links && links[s].value == links[u].value ==> s == u)
  }

  ghost predicate MarksOnce(marks: seq<Mark>) {
    forall i, j :: 0 <= i < j < |marks| ==> marks[i].round != marks[j].round || marks[i].evaluator != marks[j].evaluator
  }

  ghost predicate UsedLinksMarked(t: Tables) {
    forall s :: s in t.links && t.links[s].status == Submitted ==> HasMark(t.marks, s)
  }

  ghost predicate AbsentUnmarked(t: Tables) {
    forall r :: r in t.rounds && t.rounds[r].status == Absent ==> !IsMarked(t.marks, r)
  }

  ghost predicate Clash(r: Round, s: Round) {
    Stands(r) && Stands(s) && r.candidate == s.candidate && r.kind == s.kind
  }

  ghost predicate OneLive(rounds: map<RoundId, Round>) {
    forall r, s :: r in rounds && s in rounds && Clash(rounds[r], rounds[s]) ==> r == s
  }

  ghost predicate Base(t: Tables) {
    Seated(t) && ValuesDistinct(t.links, t.nextValue) && MarksOnce(t.marks) && UsedLinksMarked(t) && AbsentUnmarked(t)
  }

  // ---- Issuing links ----

  ghost predicate Extends(links: map<Seat, Link>, after: map<Seat, Link>, next: nat, expires: Millis) {
    && links.Keys <= after.Keys
    && (forall s :: s in links ==> after[s] == links[s])
    && (forall s :: s in after && s !in links ==>
        after[s].status == Issued && after[s].expires == expires && next <= after[s].value)
  }

  lemma {:induction false} GeneratedKeys(links: map<Seat, Link>, next: nat, round: RoundId, users: seq<UserId>,
                                         expires: Millis)
    ensures Generated(links, next, round, users, expires).0.Keys == links.Keys + Seats(round, users)
  {
    if users != [] {
      var n := |users| - 1;
      GeneratedKeys(links, next, round, users[..n], expires);
      assert Seats(round, users) == Seats(round, users[..n]) + {(round, users[n])} by {
        assert users == users[..n] + [users[n]];
      }
    }
  }

  lemma {:induction false} GeneratedExtends(links: map<Seat, Link>, next: nat, round: RoundId, users: seq<UserId>,
                                            expires: Millis)
    ensures var (after, value) := Generated(links, next, round, users, expires);
            next <= value && Extends(links, after, next, expires)
  {
    if users != [] {
      GeneratedExtends(links, next, round, users[..|users| - 1], expires);
    }
  }

  lemma {:induction false} GeneratedDistinct(links: map<Seat, Link>, next: nat, round: RoundId, users: seq<UserId>,
                                             expires: Millis)
    requires ValuesDistinct(links, next)
    ensures var (after, value) := Generated(links, next, round, users, expires);
            ValuesDistinct(after, value)
  {
    if users != [] {
      GeneratedDistinct(links, next, round, users[..|users| - 1], expires);
    }
  }

  lemma WithLinksKeeps(t: Tables, round: RoundId, users: seq<UserId>, expires: Millis)
    requires round in t.rounds && t.panel == t.links.Keys + Seats(round, users)
    requires (forall s :: s in t.panel ==> s.0 in t.rounds) && (forall r :: r in t.rounds ==> r < t.nextRound)
    requires forall i :: 0 <= i < |t.marks| ==> t.marks[i].round in t.rounds
    requires ValuesDistinct(t.links, t.nextValue) && MarksOnce(t.marks) && UsedLinksMarked(t) && AbsentUnmarked(t)
    ensures Base(WithLinks(t, round, users, expires))
  {
    GeneratedKeys(t.links, t.nextValue, round, users, expires);
    GeneratedExtends(t.links, t.nextValue, round, users, expires);
    GeneratedDistinct(t.links, t.nextValue, round, users, expires);
    var after := WithLinks(t, round, users, expires);
    forall s | s in after.links && after.links[s].status == Submitted ensures HasMark(after.marks, s) {
      assert s in t.links;
    }
  }

  // ---- Each call keeps the invariant ----

  lemma ScheduleKeeps(t: Tables, candidate: CandidateId, kind: Kind, at: Option<Millis>, users: seq<UserId>,
                      allowed: bool, now: Millis)
    requires Base(t)
    ensures Base(Schedule(t, candidate, kind, at, users, allowed, now).tables)
  {
    var outcome := Schedule(t, candidate, kind, at, users, allowed, now);
    if outcome.reply.Booked? {
      var round := t.nextRound;
      var created := t.(rounds := t.rounds[round := Round(candidate, kind, Scheduled, at)],
                        panel := t.panel + Seats(round, users), nextRound := round + 1);
      assert !IsMarked(t.marks, round);
      WithLinksKeeps(created, round, users, ExpiryFor(at, now));
    }
  }

  lemma AddPanelistsKeeps(t: Tables, round: RoundId, users: seq<UserId>, now: Millis)
    requires Base(t)
    ensures Base(AddPanelists(t, round, users, now).tables)
  {
    if AddPanelists(t, round, users, now).reply.Done? {
      var newcomers := Newcomers(t, round, users);
      WithLinksKeeps(t.(panel := t.panel + Seats(round, newcomers)), round, newcomers,
          ExpiryFor(t.rounds[round].scheduledAt, now));
    }
  }

  lemma EditedKeeps(t: Tables, round: RoundId, e: Edit, now: Millis)
    requires Base(t) && Update(t, round, e, now).reply.Done?
    ensures var edited := t.(rounds := t.rounds[round := Edited(t.rounds[round], e)]);
            Seated(edited) && UsedLinksMarked(edited) && AbsentUnmarked(edited)
  {
  }

  lemma UpdateKeepsBase(t: Tables, round: RoundId, e: Edit, now: Millis)
    requires Base(t)
    ensures Base(Update(t, round, e, now).tables)
  {
    if Update(t, round, e, now).reply.Done? {
      EditedKeeps(t, round, e, now);
      var edited := t.(rounds := t.rounds[round := Edited(t.rounds[round], e)]);
      if e.users.Some? {
        var reseated := Reseated(edited, round, e.users.value);
        assert reseated.panel == reseated.links.Keys + Seats(round, e.users.value);
        forall s | s in reseated.links && reseated.links[s].status == Submitted ensures HasMark(reseated.marks, s) {
          assert s in t.links;
        }
        WithLinksKeeps(reseated, round, e.users.value, ExpiryFor(edited.rounds[round].scheduledAt, now));
      } else if e.at.Some? && e.at.value.Some? {
        RedatedKeeps(edited, round, e.at.value.value);
      }
    }
  }

  lemma RedatedKeeps(t: Tables, round: RoundId, at: Millis)
    requires Base(t)
    ensures Base(Redated(t, round, at))
  {
  }

  lemma RescheduleKeeps(t: Tables, round: RoundId, to: Option<Millis>, now: Millis)
    requires Base(t)
    ensures Base(Reschedule(t, round, to, now).tables)
  {
  }

  lemma {:induction false} MarksElsewhereAre(marks: seq<Mark>, round: RoundId)
    requires MarksOnce(marks)
    ensures var rest := MarksElsewhere(marks, round);
            MarksOnce(rest) && forall m :: m in rest <==> m in marks && m.round != round
  {
    if marks != [] {
      var n := |marks| - 1;
      MarksElsewhereAre(marks[..n], round);
      assert marks == marks[..n] + [marks[n]];
      var front := MarksElsewhere(marks[..n], round);
      forall i | 0 <= i < |front| ensures front[i].round != marks[n].round || front[i].evaluator != marks[n].evaluator {
        assert front[i] in marks[..n];
        var j :| 0 <= j < n && marks[..n][j] == front[i];
        assert marks[j] == front[i];
      }
    }
  }

  lemma RemoveKeeps(t: Tables, round: RoundId)
    requires Base(t)
    ensures Base(Remove(t, round).tables)
  {
    if round in t.rounds {
      var after := Remove(t, round).tables;
      MarksElsewhereAre(t.marks, round);
      assert after.links.Keys == after.panel;
      forall i | 0 <= i < |after.marks| ensures after.marks[i].round in after.rounds && after.marks[i] in t.marks {
        assert after.marks[i] in after.marks;
      }
      forall s | s in after.links && after.links[s].status == Submitted ensures HasMark(after.marks, s) {
        assert HasMark(t.marks, s);
        var i :| 0 <= i < |t.marks| && t.marks[i].round == s.0 && t.marks[i].evaluator == s.1;
        assert t.marks[i] in after.marks;
        var j :| 0 <= j < |after.marks| && after.marks[j] == t.marks[i];
      }
      forall i | 0 <= i < |after.marks| ensures IsMarked(t.marks, after.marks[i].round) {
        assert after.marks[i] in after.marks;
        var j :| 0 <= j < |t.marks| && t.marks[j] == after.marks[i];
      }
    }
  }

  /** A new mark of a seat that had none, with its link, if any, used up. */
  lemma MarkingKeeps(t: Tables, seat: Seat, total: nat)
    requires Base(t) && seat.0 in t.rounds && t.rounds[seat.0].status != Absent && !HasMark(t.marks, seat)
    ensures Base(t.(marks := t.marks + [Mark(seat.0, seat.1, total)], links := Used(t.links, seat)))
  {
    var after := t.(marks := t.marks + [Mark(seat.0, seat.1, total)], links := Used(t.links, seat));
    var n := |t.marks|;
    assert after.marks[n].round == seat.0 && after.marks[n].evaluator == seat.1;
    assert forall i :: 0 <= i < n ==> after.marks[i] == t.marks[i];
    forall s | s in after.links && after.links[s].status == Submitted ensures HasMark(after.marks, s) {
      if s != seat {
        assert HasMark(t.marks, s);
        var i :| 0 <= i < n && t.marks[i].round == s.0 && t.marks[i].evaluator == s.1;
        assert after.marks[i].round == s.0 && after.marks[i].evaluator == s.1;
      }
    }
    forall r | r in after.rounds && after.rounds[r].status == Absent ensures !IsMarked(after.marks, r) {
      assert !IsMarked(t.marks, r);
    }
  }

  lemma UsingKeeps(t: Tables, seat: Seat)
    requires Base(t) && HasMark(t.marks, seat)
    ensures Base(t.(links := Used(t.links, seat)))
  {
  }

  lemma SubmitEvaluationKeeps(t: Tables, round: RoundId, user: UserId, total: Option<nat>)
    requires Base(t)
    ensures Base(SubmitEvaluation(t, round, user, total).tables)
  {
    if SubmitEvaluation(t, round, user, total).reply.Done? {
      MarkingKeeps(t, (round, user), total.value);
    }
  }

  lemma SubmitByLinkKeeps(t: Tables, value: nat, total: Option<nat>, now: Millis)
    requires Base(t)
    ensures Base(SubmitByLink(t, value, total, now).tables)
  {
    var outcome := SubmitByLink(t, value, total, now);
    if outcome.reply.Done? {
      MarkingKeeps(t, SeatOf(t, value).value, total.value);
    } else if outcome.reply == Refused(AlreadyMarked) {
      UsingKeeps(t, SeatOf(t, value).value);
    }
  }

  lemma OpenLinkKeeps(t: Tables, value: nat, now: Millis)
    requires Base(t)
    ensures Base(OpenLink(t, value, now).tables)
  {
  }

  lemma ResendLinkKeeps(t: Tables, round: RoundId, user: UserId, now: Millis)
    requires Base(t)
    ensures Base(ResendLink(t, round, user, now).tables)
  {
  }

  lemma StepKeepsBase(t: Tables, e: Event)
    requires Base(t)
    ensures Base(Step(t, e).tables)
  {
    match e
    case ScheduleCall(c, kind, at, users, allowed, now) => ScheduleKeeps(t, c, kind, at, users, allowed, now);
    case AddPanelistsCall(r, users, now) => AddPanelistsKeeps(t, r, users, now);
    case UpdateCall(r, edit, now) => UpdateKeepsBase(t, r, edit, now);
    case RescheduleCall(r, to, now) => RescheduleKeeps(t, r, to, now);
    case RemoveCall(r) => RemoveKeeps(t, r);
    case SubmitEvaluationCall(r, u, total) => SubmitEvaluationKeeps(t, r, u, total);
    case SubmitByLinkCall(value, total, now) => SubmitByLinkKeeps(t, value, total, now);
    case OpenLinkCall(value, now) => OpenLinkKeeps(t, value, now);
    case ResendLinkCall(r, u, now) => ResendLinkKeeps(t, r, u, now);
  }

  // ---- At most one live round ----

  /** An accepted edit that gives a round, live afterwards, a kind its candidate
      already has a live round of. update does not look for one. */
  ghost predicate ClashingEdit(t: Tables, e: Event) {
    && e.UpdateCall? && Step(t, e).reply.Done?
    && var r := t.rounds[e.round];
       var edited := Edited(r, e.edit);
       edited.kind != r.kind && Stands(edited) && LiveRounds(t, r.candidate, edited.kind, Some(e.round)) != {}
  }

  lemma LiveIsAlone(t: Tables, round: RoundId)
    requires OneLive(t.rounds) && round in t.rounds && Stands(t.rounds[round])
    ensures LiveRounds(t, t.rounds[round].candidate, t.rounds[round].kind, Some(round)) == {}
  {
  }

  lemma LiveAfterUpdate(t: Tables, round: RoundId, e: Edit, now: Millis)
    requires OneLive(t.rounds) && Update(t, round, e, now).reply.Done?
    ensures OneLive(Update(t, round, e, now).tables.rounds) <==> !ClashingEdit(t, UpdateCall(round, e, now))
  {
    var r := t.rounds[round];
    var edited := Edited(r, e);
    var after := Update(t, round, e, now).tables.rounds;
    assert after == t.rounds[round := edited];
    if s :| s in LiveRounds(t, r.candidate, edited.kind, Some(round)) {
      assert Stands(edited) ==> Clash(after[round], after[s]);
    }
    if Stands(r) { LiveIsAlone(t, round); }
    forall s | s in t.rounds && s != round && t.rounds[s].candidate == r.candidate && Stands(t.rounds[s]) &&
        t.rounds[s].kind == edited.kind
      ensures s in LiveRounds(t, r.candidate, edited.kind, Some(round))
    {}
  }

  lemma LiveAfterSchedule(t: Tables, candidate: CandidateId, kind: Kind, at: Option<Millis>, users: seq<UserId>,
                          allowed: bool, now: Millis)
    requires OneLive(t.rounds)
    ensures OneLive(Schedule(t, candidate, kind, at, users, allowed, now).tables.rounds)
  {
    if Schedule(t, candidate, kind, at, users, allowed, now).reply.Booked? {
      forall r | r in t.rounds && Stands(t.rounds[r]) && t.rounds[r].candidate == candidate
        ensures t.rounds[r].kind != kind {
        assert r !in LiveRounds(t, candidate, kind, None);
      }
    }
  }

  /** One call leaves two live rounds of a candidate and kind exactly when it
      is such an edit. */
  lemma LiveAfterStep(t: Tables, e: Event)
    requires OneLive(t.rounds)
    ensures OneLive(Step(t, e).tables.rounds) <==> !ClashingEdit(t, e)
  {
    match e
    case ScheduleCall(c, kind, at, users, allowed, now) => LiveAfterSchedule(t, c, kind, at, users, allowed, now);
    case UpdateCall(r, edit, now) => if Step(t, e).reply.Done? { LiveAfterUpdate(t, r, edit, now); }
    case RescheduleCall(r, to, now) =>
    case RemoveCall(r) =>
    case AddPanelistsCall(r, users, now) =>
    case SubmitEvaluationCall(r, u, total) =>
    case SubmitByLinkCall(value, total, now) =>
    case OpenLinkCall(value, now) =>
    case ResendLinkCall(r, u, now) =>
  }
}
