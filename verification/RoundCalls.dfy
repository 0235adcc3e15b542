/** What each interview-round call answers and leaves behind, column by column. */
module RoundCalls {
  import opened Optional
  import opened DelegationProgress
  import opened InterviewRounds
  import opened RoundSafety
  import IdLists

  const WEEK_MS: Millis := 604_800_000

  /** Neither cancelled nor unattended. */
  ghost predicate StillOn(r: Round) {
    r.status != Cancelled && r.status != Absent
  }

  ghost predicate AnotherIsOn(t: Tables, candidate: CandidateId, kind: Kind, except: Option<RoundId>) {
    exists s :: s in t.rounds && Some(s) != except && StillOn(t.rounds[s])
                && t.rounds[s].candidate == candidate && t.rounds[s].kind == kind
  }

  lemma LiveRoundsAre(t: Tables, candidate: CandidateId, kind: Kind, except: Option<RoundId>)
    ensures LiveRounds(t, candidate, kind, except) != {} <==> AnotherIsOn(t, candidate, kind, except)
  {
    if s :| s in LiveRounds(t, candidate, kind, except) { assert StillOn(t.rounds[s]); }
    if s :| s in t.rounds && Some(s) != except && StillOn(t.rounds[s])
            && t.rounds[s].candidate == candidate && t.rounds[s].kind == kind
    {
      assert s in LiveRounds(t, candidate, kind, except);
    }
  }

  /** Somebody has marked the round. */
  ghost predicate SomeMark(t: Tables, round: RoundId) {
    exists i :: 0 <= i < |t.marks| && t.marks[i].round == round
  }

  ghost predicate MarkOf(t: Tables, round: RoundId, user: UserId) {
    exists i :: 0 <= i < |t.marks| && t.marks[i].round == round && t.marks[i].evaluator == user
  }

  /** Every link there was is there as it was. */
  ghost predicate LinksKept(t: Tables, after: Tables) {
    forall s :: s in t.links ==> s in after.links && after.links[s] == t.links[s]
  }

  /** The people given hold links not yet used; those who had none got one that
      runs out a week after the time, or after now when there is none. */
  ghost predicate Linked(t: Tables, after: Tables, round: RoundId, users: seq<UserId>, at: Option<Millis>,
                         now: Millis) {
    && (forall u :: u in users ==> (round, u) in after.links)
    && (forall u :: u in users && (round, u) !in t.links ==>
          && after.links[(round, u)].status == Issued
          && after.links[(round, u)].expires == (if at.Some? then at.value else now) + WEEK_MS
          && t.nextValue <= after.links[(round, u)].value)
    && (forall s :: s in after.links && s !in t.links ==> s.0 == round && s.1 in users)
  }

  lemma WithLinksLinks(t: Tables, round: RoundId, users: seq<UserId>, at: Option<Millis>, now: Millis)
    ensures var after := WithLinks(t, round, users, ExpiryFor(at, now));
            LinksKept(t, after) && Linked(t, after, round, users, at, now)
  {
    GeneratedKeys(t.links, t.nextValue, round, users, ExpiryFor(at, now));
    GeneratedExtends(t.links, t.nextValue, round, users, ExpiryFor(at, now));
    var after := WithLinks(t, round, users, ExpiryFor(at, now));
    forall u | u in users ensures (round, u) in after.links { assert (round, u) in Seats(round, users); }
  }

  // ---- Arranging ----

  lemma ScheduleAnswers(t: Tables, candidate: CandidateId, kind: Kind, at: Option<Millis>, users: seq<UserId>,
                        allowed: bool, now: Millis)
    ensures Step(t, ScheduleCall(candidate, kind, at, users, allowed, now)).reply
            == if !allowed then Refused(NotAllowed)
               else if AnotherIsOn(t, candidate, kind, None) then Refused(AlreadyArranged)
               else Booked(t.nextRound)
  {
    LiveRoundsAre(t, candidate, kind, None);
  }

  /** A booked round is a new one, scheduled as asked, with the people given on its panel, each with a link. */
  lemma ScheduleWrites(t: Tables, candidate: CandidateId, kind: Kind, at: Option<Millis>, users: seq<UserId>,
                       allowed: bool, now: Millis)
    requires Base(t)
    ensures var after := Step(t, ScheduleCall(candidate, kind, at, users, allowed, now));
            if after.reply != Booked(t.nextRound) then after.tables == t
            else
              && after.tables.rounds == t.rounds[t.nextRound := Round(candidate, kind, Scheduled, at)]
              && (forall s :: s in after.tables.panel <==> s in t.panel || (s.0 == t.nextRound && s.1 in users))
              && LinksKept(t, after.tables) && Linked(t, after.tables, t.nextRound, users, at, now)
              && (forall u :: u in users ==> (t.nextRound, u) !in t.links)
              && after.tables.marks == t.marks && after.tables.nextRound == t.nextRound + 1
  {
    if Step(t, ScheduleCall(candidate, kind, at, users, allowed, now)).reply == Booked(t.nextRound) {
      var created := t.(rounds := t.rounds[t.nextRound := Round(candidate, kind, Scheduled, at)],
                        panel := t.panel + Seats(t.nextRound, users), nextRound := t.nextRound + 1);
      WithLinksLinks(created, t.nextRound, users, at, now);
    }
  }

  lemma {:induction false} NewcomersAre(t: Tables, round: RoundId, users: seq<UserId>)
    ensures forall u :: u in Newcomers(t, round, users) <==> u in users && (round, u) !in t.panel
    ensures IdLists.Distinct(Newcomers(t, round, users))
  {
    if users != [] {
      NewcomersAre(t, round, users[..|users| - 1]);
      assert users == users[..|users| - 1] + [users[|users| - 1]];
    }
  }

  lemma AddPanelistsAnswers(t: Tables, round: RoundId, users: seq<UserId>, now: Millis)
    ensures Step(t, AddPanelistsCall(round, users, now)).reply
            == if round !in t.rounds then Refused(NotFound)
               else if t.rounds[round].status != Scheduled then Refused(RoundIsOver)
               else if forall u :: u in users ==> (round, u) in t.panel then Refused(EveryoneOnPanel)
               else Done
  {
    NewcomersAre(t, round, users);
    if Newcomers(t, round, users) != [] { assert Newcomers(t, round, users)[0] in Newcomers(t, round, users); }
  }

  /** Everybody given is on the panel afterwards; those who were not get links. */
  lemma AddPanelistsWrites(t: Tables, round: RoundId, users: seq<UserId>, now: Millis)
    requires Base(t)
    ensures var after := Step(t, AddPanelistsCall(round, users, now));
            if after.reply != Done then after.tables == t
            else
              && after.tables.rounds == t.rounds && after.tables.marks == t.marks
              && (forall s :: s in after.tables.panel <==> s in t.panel || (s.0 == round && s.1 in users))
              && LinksKept(t, after.tables) && Linked(t, after.tables, round, users, t.rounds[round].scheduledAt, now)
  {
    if Step(t, AddPanelistsCall(round, users, now)).reply == Done {
      var newcomers := Newcomers(t, round, users);
      NewcomersAre(t, round, users);
      var added := t.(panel := t.panel + Seats(round, newcomers));
      WithLinksLinks(added, round, newcomers, t.rounds[round].scheduledAt, now);
      var after := Step(t, AddPanelistsCall(round, users, now)).tables;
      forall u | u in users ensures (round, u) in after.links && (round, u) in after.panel {
        assert (round, u) in t.panel || u in newcomers;
        assert (round, u) in t.panel ==> (round, u) in t.links;
      }
    }
  }

  // ---- Editing ----

  lemma UpdateAnswers(t: Tables, round: RoundId, e: Edit, now: Millis)
    ensures Step(t, UpdateCall(round, e, now)).reply
            == if round !in t.rounds then Refused(NotFound)
               else if e.status == Some(Absent) && SomeMark(t, round) then Refused(AlreadyMarked)
               else if !StillOn(t.rounds[round]) && e.status.Some?
                       && e.status != Some(Cancelled) && e.status != Some(Absent)
                       && AnotherIsOn(t, t.rounds[round].candidate, t.rounds[round].kind, Some(round))
                    then Refused(ReplacementExists)
               else Done
  {
    if round in t.rounds { LiveRoundsAre(t, t.rounds[round].candidate, t.rounds[round].kind, Some(round)); }
  }

  /** The columns an accepted edit carries are stored, the others stay, and no other round changes. */
  ghost predicate EditStored(t: Tables, after: Tables, round: RoundId, e: Edit) {
    && after.rounds.Keys == t.rounds.Keys && round in t.rounds
    && (forall s :: s in t.rounds && s != round ==> after.rounds[s] == t.rounds[s])
    && after.rounds[round].candidate == t.rounds[round].candidate
    && (if e.kind.Some? then after.rounds[round].kind == e.kind.value
        else after.rounds[round].kind == t.rounds[round].kind)
    && (if e.status.Some? then after.rounds[round].status == e.status.value
        else after.rounds[round].status == t.rounds[round].status)
    && (if e.at.Some? then after.rounds[round].scheduledAt == e.at.value
        else after.rounds[round].scheduledAt == t.rounds[round].scheduledAt)
  }

  lemma UpdateStores(t: Tables, round: RoundId, e: Edit, now: Millis)
    ensures var after := Step(t, UpdateCall(round, e, now));
            if after.reply != Done then after.tables == t
            else EditStored(t, after.tables, round, e) && after.tables.marks == t.marks
  {
  }

  /** An edit that names people makes them the panel: those dropped lose their
      links, those kept keep theirs, those new get one for the time the round now has. */
  lemma UpdateReseats(t: Tables, round: RoundId, e: Edit, now: Millis)
    requires Base(t) && e.users.Some? && Step(t, UpdateCall(round, e, now)).reply == Done
    ensures var after := Step(t, UpdateCall(round, e, now)).tables;
            && (forall s :: s in after.panel <==> if s.0 == round then s.1 in e.users.value else s in t.panel)
            && (forall s :: s in after.links <==> s in after.panel)
            && (forall s :: s in t.links && s in after.links ==> after.links[s] == t.links[s])
            && (forall s :: s in after.links && s !in t.links ==>
                  && after.links[s].status == Issued && t.nextValue <= after.links[s].value
                  && var at := after.rounds[round].scheduledAt;
                     after.links[s].expires == (if at.Some? then at.value else now) + WEEK_MS)
  {
    var users := e.users.value;
    var edited := t.(rounds := t.rounds[round := Edited(t.rounds[round], e)]);
    var reseated := Reseated(edited, round, users);
    WithLinksLinks(reseated, round, users, Edited(t.rounds[round], e).scheduledAt, now);
    UpdateKeepsBase(t, round, e, now);
  }

  /** Links of the round not yet used run out a week after the time; others stay. */
  ghost predicate DatedAnew(t: Tables, after: Tables, round: RoundId, at: Millis) {
    && after.links.Keys == t.links.Keys
    && forall s :: s in t.links ==>
         && after.links[s].value == t.links[s].value && after.links[s].status == t.links[s].status
         && after.links[s].expires
            == if s.0 == round && t.links[s].status != Submitted then at + WEEK_MS else t.links[s].expires
  }

  /** An edit that names no people leaves the panel, and dates the links anew when it gives a time. */
  lemma UpdateDates(t: Tables, round: RoundId, e: Edit, now: Millis)
    requires e.users.None? && Step(t, UpdateCall(round, e, now)).reply == Done
    ensures var after := Step(t, UpdateCall(round, e, now)).tables;
            && after.panel == t.panel
            && (if e.at.Some? && e.at.value.Some? then DatedAnew(t, after, round, e.at.value.value)
                else after.links == t.links)
  {
  }

  lemma RescheduleDoes(t: Tables, round: RoundId, to: Option<Millis>, now: Millis)
    ensures var after := Step(t, RescheduleCall(round, to, now));
            && after.reply == (if round !in t.rounds then Refused(NotFound)
                               else if t.rounds[round].status != Scheduled then Refused(RoundIsOver)
                               else if SomeMark(t, round) then Refused(AlreadyMarked)
                               else if to == None then Refused(NoDate)
                               else if to.value <= now then Refused(DateNotInFuture)
                               else if t.rounds[round].scheduledAt == to then Refused(SameDate)
                               else Done)
            && (if after.reply != Done then after.tables == t
                else
                  && after.tables.rounds == t.rounds[round := t.rounds[round].(scheduledAt := to)]
                  && after.tables.panel == t.panel && after.tables.marks == t.marks
                  && DatedAnew(t, after.tables, round, to.value))
  {
  }

  /** A removed round is gone with its panel, links and marks; the marks of other
      rounds stay in their order. */
  lemma RemoveDoes(t: Tables, round: RoundId)
    requires MarksOnce(t.marks)
    ensures var after := Step(t, RemoveCall(round));
            && after.reply == (if round in t.rounds then Done else Refused(NotFound))
            && (if after.reply != Done then after.tables == t
                else
                  && (forall s :: s in after.tables.rounds <==> s in t.rounds && s != round)
                  && (forall s :: s in after.tables.rounds ==> after.tables.rounds[s] == t.rounds[s])
                  && (forall s :: s in after.tables.panel <==> s in t.panel && s.0 != round)
                  && (forall s :: s in after.tables.links <==> s in t.links && s.0 != round)
                  && (forall s :: s in after.tables.links ==> after.tables.links[s] == t.links[s])
                  && (forall m :: m in after.tables.marks <==> m in t.marks && m.round != round))
  {
    MarksElsewhereAre(t.marks, round);
  }

  // ---- Marking ----

  /** The mark is added at the end, the seat's link, if any, is used, and nothing else changes. */
  ghost predicate Marked(t: Tables, after: Tables, round: RoundId, user: UserId, total: nat) {
    && after.marks == t.marks + [Mark(round, user, total)] && LinkUsed(t, after, round, user)
  }

  ghost predicate LinkUsed(t: Tables, after: Tables, round: RoundId, user: UserId) {
    && after.rounds == t.rounds && after.panel == t.panel && after.links.Keys == t.links.Keys
    && forall s :: s in t.links ==>
         if s == (round, user)
         then && after.links[s].status == Submitted && after.links[s].value == t.links[s].value
              && after.links[s].expires == t.links[s].expires
         else after.links[s] == t.links[s]
  }

  lemma SubmitEvaluationDoes(t: Tables, round: RoundId, user: UserId, total: Option<nat>)
    ensures var after := Step(t, SubmitEvaluationCall(round, user, total));
            && after.reply == (if round !in t.rounds then Refused(NotFound)
                               else if (round, user) !in t.panel then Refused(NotOnPanel)
                               else if t.rounds[round].status == Absent then Refused(NobodyToMark)
                               else if MarkOf(t, round, user) then Refused(AlreadyMarked)
                               else if total == None then Refused(ScoresInvalid)
                               else Done)
            && (if after.reply == Done then Marked(t, after.tables, round, user, total.value) else after.tables == t)
  {
  }

  /** The seat whose link has the value. */
  ghost predicate Names(t: Tables, value: nat, round: RoundId, user: UserId) {
    (round, user) in t.links && t.links[(round, user)].value == value && round in t.rounds
  }

  lemma SeatNamed(t: Tables, value: nat, round: RoundId, user: UserId)
    requires ValuesDistinct(t.links, t.nextValue) && Names(t, value, round, user)
    ensures SeatOf(t, value) == Some((round, user))
  {
    assert Opens(t, value, (round, user));
  }

  lemma SubmitByLinkDoes(t: Tables, value: nat, round: RoundId, user: UserId, total: Option<nat>, now: Millis)
    requires ValuesDistinct(t.links, t.nextValue) && Names(t, value, round, user)
    ensures var after := Step(t, SubmitByLinkCall(value, total, now));
            && after.reply == (if t.links[(round, user)].expires < now then Refused(LinkExpired)
                               else if t.rounds[round].status == Absent then Refused(NobodyToMark)
                               else if MarkOf(t, round, user) then Refused(AlreadyMarked)
                               else if total == None then Refused(ScoresInvalid)
                               else Done)
            && (if after.reply == Done then Marked(t, after.tables, round, user, total.value)
                else if after.reply == Refused(AlreadyMarked)
                then LinkUsed(t, after.tables, round, user) && after.tables.marks == t.marks
                else after.tables == t)
  {
    SeatNamed(t, value, round, user);
  }

  /** An unused link opens until it has run out, a used one always; the first opening is noted on it. */
  lemma OpenLinkDoes(t: Tables, value: nat, round: RoundId, user: UserId, now: Millis)
    requires ValuesDistinct(t.links, t.nextValue) && Names(t, value, round, user)
    ensures var after := Step(t, OpenLinkCall(value, now));
            var link := t.links[(round, user)];
            && after.reply == (if link.status != Submitted && link.expires < now then Refused(LinkExpired) else Done)
            && after.tables.rounds == t.rounds && after.tables.panel == t.panel && after.tables.marks == t.marks
            && after.tables.links.Keys == t.links.Keys
            && (forall s :: s in t.links && s != (round, user) ==> after.tables.links[s] == t.links[s])
            && after.tables.links[(round, user)].value == value
            && after.tables.links[(round, user)].expires == link.expires
            && after.tables.links[(round, user)].status
               == if after.reply == Done && link.status == Issued then Opened else link.status
  {
    SeatNamed(t, value, round, user);
  }

  lemma UnknownLinks(t: Tables, value: nat, total: Option<nat>, now: Millis)
    requires forall s :: s in t.links && s.0 in t.rounds ==> t.links[s].value != value
    ensures Step(t, OpenLinkCall(value, now)) == Outcome(t, Refused(LinkInvalid))
    ensures Step(t, SubmitByLinkCall(value, total, now)) == Outcome(t, Refused(LinkInvalid))
  {
    assert forall s :: !Opens(t, value, s);
  }

  /** A panelist's link is replaced by a new one, unused, for the round's time. */
  lemma ResendLinkDoes(t: Tables, round: RoundId, user: UserId, now: Millis)
    ensures var after := Step(t, ResendLinkCall(round, user, now));
            && after.reply == (if round !in t.rounds then Refused(NotFound)
                               else if (round, user) !in t.panel then Refused(NotOnPanel)
                               else Done)
            && (if after.reply != Done then after.tables == t
                else
                  var at := t.rounds[round].scheduledAt;
                  && after.tables.rounds == t.rounds && after.tables.panel == t.panel && after.tables.marks == t.marks
                  && after.tables.links.Keys == t.links.Keys + {(round, user)}
                  && (forall s :: s in t.links && s != (round, user) ==> after.tables.links[s] == t.links[s])
                  && after.tables.links[(round, user)].status == Issued
                  && t.nextValue <= after.tables.links[(round, user)].value
                  && after.tables.links[(round, user)].expires == (if at.Some? then at.value else now) + WEEK_MS)
  {
  }
}
