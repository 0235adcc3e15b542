/** What holds after any run of the interview-round calls, in the tables' own terms. */
module RoundRuns {
  import opened Optional
  import opened DelegationProgress
  import opened InterviewRounds
  import opened RoundSafety

  lemma {:induction false} RunKeepsBase(t: Tables, events: seq<Event>)
    requires Base(t)
    ensures Base(Run(t, events))
  {
    if events != [] {
      RunKeepsBase(t, events[..|events| - 1]);
      StepKeepsBase(Run(t, events[..|events| - 1]), events[|events| - 1]);
    }
  }

  /** After every run: the owners of links are exactly the panelists, nobody is
      marked twice by one evaluator in a round, a used link has its mark, and an
      unattended round has none. */
  lemma RoundTablesStayInStep(events: seq<Event>)
    ensures var t := Run(EMPTY, events);
            && (forall s :: s in t.links <==> s in t.panel)
            && (forall s :: s in t.panel ==> s.0 in t.rounds)
            && (forall i, j :: 0 <= i < j < |t.marks| ==>
                (t.marks[i].round, t.marks[i].evaluator) != (t.marks[j].round, t.marks[j].evaluator))
            && (forall s :: s in t.links && t.links[s].status == Submitted ==> HasMark(t.marks, s))
            && (forall i :: 0 <= i < |t.marks| ==>
                t.marks[i].round in t.rounds && t.rounds[t.marks[i].round].status != Absent)
  {
    RunKeepsBase(EMPTY, events);
    var t := Run(EMPTY, events);
    assert t.links.Keys == t.panel;
    forall i | 0 <= i < |t.marks| ensures t.rounds[t.marks[i].round].status != Absent {
      assert IsMarked(t.marks, t.marks[i].round);
    }
  }

  // ---- Live rounds ----

  ghost predicate ClashFree(t: Tables, events: seq<Event>) {
    events == []
    || (ClashFree(t, events[..|events| - 1]) && !ClashingEdit(Run(t, events[..|events| - 1]), events[|events| - 1]))
  }

  ghost predicate AlwaysOneLive(t: Tables, events: seq<Event>) {
    OneLive(Run(t, events).rounds) && (events == [] || AlwaysOneLive(t, events[..|events| - 1]))
  }

  /** No candidate has two live rounds of a kind at any point of a run exactly
      when no edit of it gives a live round a kind its candidate already has. */
  lemma {:induction false} OneLiveAtEveryPoint(t: Tables, events: seq<Event>)
    requires OneLive(t.rounds)
    ensures AlwaysOneLive(t, events) <==> ClashFree(t, events)
  {
    if events != [] {
      var before := events[..|events| - 1];
      OneLiveAtEveryPoint(t, before);
      if AlwaysOneLive(t, before) {
        assert OneLive(Run(t, before).rounds);
        LiveAfterStep(Run(t, before), events[|events| - 1]);
      }
    }
  }

  /** Edits keep the kind: each names none, or the round's own. */
  ghost predicate KindsKept(t: Tables, events: seq<Event>) {
    events == []
    || var before, e := events[..|events| - 1], events[|events| - 1];
       && KindsKept(t, before)
       && (e.UpdateCall? && e.round in Run(t, before).rounds && e.edit.kind.Some? ==>
           e.edit.kind.value == Run(t, before).rounds[e.round].kind)
  }

  lemma {:induction false} KeptKindsNeverClash(t: Tables, events: seq<Event>)
    requires KindsKept(t, events)
    ensures ClashFree(t, events)
  {
    if events != [] { KeptKindsNeverClash(t, events[..|events| - 1]); }
  }

  lemma AtMostOne<T>(s: set<T>)
    requires forall x, y :: x in s && y in s ==> x == y
    ensures |s| <= 1
  {
    if x :| x in s { assert s == {x}; }
  }

  /** A run whose edits keep the kind leaves at most one live round per candidate and kind. */
  lemma OneLivePerKind(events: seq<Event>, candidate: CandidateId, kind: Kind)
    requires KindsKept(EMPTY, events)
    ensures |LiveRounds(Run(EMPTY, events), candidate, kind, None)| <= 1
  {
    KeptKindsNeverClash(EMPTY, events);
    OneLiveAtEveryPoint(EMPTY, events);
    var t := Run(EMPTY, events);
    var live := LiveRounds(t, candidate, kind, None);
    forall r, s | r in live && s in live ensures r == s {
      assert Clash(t.rounds[r], t.rounds[s]);
    }
    AtMostOne(live);
  }

  lemma RunOfThree(t: Tables, a: Event, b: Event, c: Event)
    ensures Run(t, [a, b, c]) == Step(Step(Step(t, a).tables, b).tables, c).tables
  {
    assert [a, b, c][..2] == [a, b] && [a, b][..1] == [a] && [a][..0] == [];
    assert Run(t, [a]) == Step(t, a).tables;
    assert Run(t, [a, b]) == Step(Run(t, [a]), b).tables;
  }

  /** Without that, two first interviews of one candidate can both be live. */
  lemma KindEditsMakeTwoLive(candidate: CandidateId, now: Millis)
    ensures exists events :: {0, 1} <= LiveRounds(Run(EMPTY, events), candidate, First, None)
  {
    var first := ScheduleCall(candidate, First, None, [], true, now);
    var second := ScheduleCall(candidate, Second, None, [], true, now);
    var edit := UpdateCall(1, Edit(Some(First), None, None, None), now);
    RunOfThree(EMPTY, first, second, edit);
    BookTwo(candidate, now);
    assert {0, 1} <= LiveRounds(Run(EMPTY, [first, second, edit]), candidate, First, None);
  }

  lemma BookTwo(candidate: CandidateId, now: Millis)
    ensures var one := Schedule(EMPTY, candidate, First, None, [], true, now).tables;
            var two := Schedule(one, candidate, Second, None, [], true, now).tables;
            two.rounds == map[0 := Round(candidate, First, Scheduled, None),
                1 := Round(candidate, Second, Scheduled, None)]
  {
  }

  // ---- Marks are final ----

  lemma MarksElsewhereKeep(marks: seq<Mark>, round: RoundId, m: Mark)
    requires MarksOnce(marks) && m in marks && m.round != round
    ensures m in MarksElsewhere(marks, round)
  {
  }

  lemma StepKeepsMark(t: Tables, e: Event, m: Mark)
    requires Base(t) && m in t.marks && m.round in Step(t, e).tables.rounds
    ensures m in Step(t, e).tables.marks
  {
    if e.RemoveCall? && e.round in t.rounds { MarksElsewhereKeep(t.marks, e.round, m); }
  }

  lemma StepReusesNoRound(t: Tables, e: Event, round: RoundId)
    requires round < t.nextRound && round !in t.rounds
    ensures round !in Step(t, e).tables.rounds && t.nextRound <= Step(t, e).tables.nextRound
  {
  }

  lemma StepNeverRewinds(t: Tables, e: Event)
    ensures t.nextRound <= Step(t, e).tables.nextRound && t.nextValue <= Step(t, e).tables.nextValue
  {
    match e
    case ScheduleCall(c, kind, at, users, allowed, now) =>
      if Step(t, e).reply.Booked? { GeneratedExtends(t.links, t.nextValue, t.nextRound, users, ExpiryFor(at, now)); }
    case AddPanelistsCall(r, users, now) =>
      if Step(t, e).reply.Done? {
        GeneratedExtends(t.links, t.nextValue, r, Newcomers(t, r, users), ExpiryFor(t.rounds[r].scheduledAt, now));
      }
    case UpdateCall(r, edit, now) =>
      if Step(t, e).reply.Done? && edit.users.Some? {
        var edited := t.(rounds := t.rounds[r := Edited(t.rounds[r], edit)]);
        GeneratedExtends(Reseated(edited, r, edit.users.value).links, t.nextValue, r, edit.users.value,
                         ExpiryFor(Edited(t.rounds[r], edit).scheduledAt, now));
      }
    case _ =>
  }

  lemma {:induction false} RunNeverRewinds(t: Tables, events: seq<Event>)
    ensures t.nextRound <= Run(t, events).nextRound && t.nextValue <= Run(t, events).nextValue
  {
    if events != [] {
      RunNeverRewinds(t, events[..|events| - 1]);
      StepNeverRewinds(Run(t, events[..|events| - 1]), events[|events| - 1]);
    }
  }

  /** A submitted mark reads the same for as long as its round exists. */
  lemma {:induction false} MarkStays(t: Tables, events: seq<Event>, m: Mark)
    requires Base(t) && m in t.marks && m.round in Run(t, events).rounds
    ensures m in Run(t, events).marks
  {
    if events != [] {
      var before, e := events[..|events| - 1], events[|events| - 1];
      RunKeepsBase(t, before);
      RunNeverRewinds(t, before);
      if m.round !in Run(t, before).rounds { StepReusesNoRound(Run(t, before), e, m.round); }
      MarkStays(t, before, m);
      StepKeepsMark(Run(t, before), e, m);
    }
  }

  /** Nobody marks a round a second time, signed in or by link, whatever happens in between. */
  lemma MarkedOnceForAll(t: Tables, events: seq<Event>, m: Mark, value: nat, total: Option<nat>, now: Millis)
    requires Base(t) && m in t.marks
    ensures var later := Run(t, events);
            && !SubmitEvaluation(later, m.round, m.evaluator, total).reply.Done?
            && (SubmitByLink(later, value, total, now).reply.Done? ==>
                SeatOf(later, value) != Some((m.round, m.evaluator)))
  {
    var later := Run(t, events);
    if m.round in later.rounds {
      MarkStays(t, events, m);
      assert HasMark(later.marks, (m.round, m.evaluator));
    }
  }

  // ---- Replaced links ----

  ghost predicate Dead(t: Tables, value: nat) {
    value < t.nextValue && forall s :: s in t.links ==> t.links[s].value != value
  }

  /** Sending a link again kills the one it replaces. */
  lemma ResendKillsOldLink(t: Tables, round: RoundId, user: UserId, now: Millis)
    requires Base(t) && ResendLink(t, round, user, now).reply.Done?
    ensures var after := ResendLink(t, round, user, now).tables;
            && Dead(after, t.links[(round, user)].value)
            && SeatOf(after, t.nextValue) == Some((round, user))
  {
    var after := ResendLink(t, round, user, now).tables;
    assert Opens(after, t.nextValue, (round, user));
  }

  lemma StepKeepsDead(t: Tables, e: Event, value: nat)
    requires Dead(t, value)
    ensures Dead(Step(t, e).tables, value)
  {
    StepNeverRewinds(t, e);
    match e
    case ScheduleCall(c, kind, at, users, allowed, now) =>
      if Step(t, e).reply.Booked? { GeneratedExtends(t.links, t.nextValue, t.nextRound, users, ExpiryFor(at, now)); }
    case AddPanelistsCall(r, users, now) =>
      if Step(t, e).reply.Done? {
        GeneratedExtends(t.links, t.nextValue, r, Newcomers(t, r, users), ExpiryFor(t.rounds[r].scheduledAt, now));
      }
    case UpdateCall(r, edit, now) =>
      if Step(t, e).reply.Done? && edit.users.Some? {
        var edited := t.(rounds := t.rounds[r := Edited(t.rounds[r], edit)]);
        GeneratedExtends(Reseated(edited, r, edit.users.value).links, t.nextValue, r, edit.users.value,
                         ExpiryFor(Edited(t.rounds[r], edit).scheduledAt, now));
      }
    case _ =>
  }

  /** A dead link opens no form and submits no marks, whatever is done later. */
  lemma {:induction false} DeadLinkStaysDead(t: Tables, events: seq<Event>, value: nat, total: Option<nat>, now: Millis)
    requires Dead(t, value)
    ensures Dead(Run(t, events), value)
    ensures OpenLink(Run(t, events), value, now) == Refuse(Run(t, events), LinkInvalid)
    ensures SubmitByLink(Run(t, events), value, total, now) == Refuse(Run(t, events), LinkInvalid)
  {
    if events != [] {
      DeadLinkStaysDead(t, events[..|events| - 1], value, total, now);
      StepKeepsDead(Run(t, events[..|events| - 1]), events[|events| - 1], value);
    }
  }

  // ---- Links follow the date ----

  /** Links not yet used run out LINK_VALID_MS after their round's time. */
  ghost predicate Dated(t: Tables) {
    forall s :: s in t.links && s.0 in t.rounds && t.rounds[s.0].scheduledAt.Some? && t.links[s].status != Submitted
      ==> t.links[s].expires == t.rounds[s.0].scheduledAt.value + LINK_VALID_MS
  }

  /** An edit that names a panel and moves the time, while someone on both
      panels holds an unused link dated otherwise. */
  ghost predicate LeavesLinksBehind(t: Tables, e: Event) {
    && e.UpdateCall? && Step(t, e).reply.Done? && e.edit.users.Some?
    && e.edit.at.Some? && e.edit.at.value.Some? && e.edit.at.value != t.rounds[e.round].scheduledAt
    && exists u :: u in e.edit.users.value && (e.round, u) in t.links && t.links[(e.round, u)].status != Submitted
                   && t.links[(e.round, u)].expires != e.edit.at.value.value + LINK_VALID_MS
  }

  lemma WithLinksDated(t: Tables, round: RoundId, users: seq<UserId>, now: Millis)
    requires round in t.rounds
    ensures var after := WithLinks(t, round, users, ExpiryFor(t.rounds[round].scheduledAt, now));
            Dated(after) <==> Dated(t)
  {
    var expires := ExpiryFor(t.rounds[round].scheduledAt, now);
    var after := WithLinks(t, round, users, expires);
    GeneratedExtends(t.links, t.nextValue, round, users, expires);
    GeneratedKeys(t.links, t.nextValue, round, users, expires);
    forall s | s in t.links ensures s in after.links && after.links[s] == t.links[s] {}
  }

  lemma DatedAfterPanelEdit(t: Tables, round: RoundId, e: Edit, now: Millis)
    requires Base(t) && Dated(t) && Update(t, round, e, now).reply.Done? && e.users.Some?
    ensures Dated(Update(t, round, e, now).tables) <==> !LeavesLinksBehind(t, UpdateCall(round, e, now))
  {
    var edited := t.(rounds := t.rounds[round := Edited(t.rounds[round], e)]);
    var reseated := Reseated(edited, round, e.users.value);
    WithLinksDated(reseated, round, e.users.value, now);
    forall u | u in e.users.value && (round, u) in t.links
      ensures (round, u) in reseated.links && reseated.links[(round, u)] == t.links[(round, u)] {}
  }

  lemma RedatedIsDated(t: Tables, round: RoundId, r: Round)
    requires Dated(t) && round in t.rounds && r.scheduledAt.Some?
    ensures Dated(Redated(t.(rounds := t.rounds[round := r]), round, r.scheduledAt.value))
  {
  }

  lemma DatedAfterUpdate(t: Tables, round: RoundId, e: Edit, now: Millis)
    requires Base(t) && Dated(t) && Update(t, round, e, now).reply.Done?
    ensures Dated(Update(t, round, e, now).tables) <==> !LeavesLinksBehind(t, UpdateCall(round, e, now))
  {
    if e.users.Some? {
      DatedAfterPanelEdit(t, round, e, now);
    } else if e.at.Some? && e.at.value.Some? {
      RedatedIsDated(t, round, Edited(t.rounds[round], e));
    }
  }

  lemma DatedAfterAdding(t: Tables, round: RoundId, users: seq<UserId>, now: Millis)
    requires Dated(t)
    ensures Dated(AddPanelists(t, round, users, now).tables)
  {
    if AddPanelists(t, round, users, now).reply.Done? {
      var newcomers := Newcomers(t, round, users);
      WithLinksDated(t.(panel := t.panel + Seats(round, newcomers)), round, newcomers, now);
    }
  }

  lemma DatedAfterOthers(t: Tables, e: Event)
    requires Dated(t)
    requires (e.RemoveCall? || e.SubmitEvaluationCall? || e.OpenLinkCall? || e.SubmitByLinkCall? || e.ResendLinkCall?)
    ensures Dated(Step(t, e).tables)
  {
  }

  lemma DatedAfterSchedule(t: Tables, candidate: CandidateId, kind: Kind, at: Option<Millis>, users: seq<UserId>,
                           allowed: bool, now: Millis)
    requires Base(t) && Dated(t)
    ensures Dated(Schedule(t, candidate, kind, at, users, allowed, now).tables)
  {
    if Schedule(t, candidate, kind, at, users, allowed, now).reply.Booked? {
      var round := t.nextRound;
      var created := t.(rounds := t.rounds[round := Round(candidate, kind, Scheduled, at)],
                        panel := t.panel + Seats(round, users), nextRound := round + 1);
      assert forall s :: s in t.links ==> s.0 != round;
      WithLinksDated(created, round, users, now);
    }
  }

  /** One call leaves an unused link out of date exactly when it is such an edit. */
  lemma DatedAfterStep(t: Tables, e: Event)
    requires Base(t) && Dated(t)
    ensures Dated(Step(t, e).tables) <==> !LeavesLinksBehind(t, e)
  {
    match e
    case ScheduleCall(c, kind, at, users, allowed, now) => DatedAfterSchedule(t, c, kind, at, users, allowed, now);
    case AddPanelistsCall(r, users, now) => DatedAfterAdding(t, r, users, now);
    case UpdateCall(r, edit, now) => if Step(t, e).reply.Done? { DatedAfterUpdate(t, r, edit, now); }
    case RescheduleCall(r, to, now) =>
      if Step(t, e).reply.Done? { RedatedIsDated(t, r, t.rounds[r].(scheduledAt := to)); }
    case _ => DatedAfterOthers(t, e);
  }

  ghost predicate NoneLeftBehind(t: Tables, events: seq<Event>) {
    events == []
    || (NoneLeftBehind(t, events[..|events| - 1]) &&
        !LeavesLinksBehind(Run(t, events[..|events| - 1]), events[|events| - 1]))
  }

  ghost predicate AlwaysDated(t: Tables, events: seq<Event>) {
    Dated(Run(t, events)) && (events == [] || AlwaysDated(t, events[..|events| - 1]))
  }

  /** Over a run, unused links follow their round's time throughout exactly
      when no edit of it leaves one behind. */
  lemma {:induction false} LinksFollowTheDate(t: Tables, events: seq<Event>)
    requires Base(t) && Dated(t)
    ensures AlwaysDated(t, events) <==> NoneLeftBehind(t, events)
  {
    if events != [] {
      var before := events[..|events| - 1];
      LinksFollowTheDate(t, before);
      RunKeepsBase(t, before);
      if AlwaysDated(t, before) {
        assert Dated(Run(t, before));
        DatedAfterStep(Run(t, before), events[|events| - 1]);
      }
    }
  }

  /** Without that, a round moved together with its panel keeps a link of the old time. */
  lemma PanelEditLeavesLink(t: Tables, round: RoundId, u: UserId, to: Millis, now: Millis)
    requires Base(t) && Dated(t) && round in t.rounds && t.rounds[round].scheduledAt !in {None, Some(to)}
    requires (round, u) in t.links && t.links[(round, u)].status != Submitted
    ensures !Dated(Update(t, round, Edit(None, Some(Some(to)), None, Some([u])), now).tables)
  {
    var edit := UpdateCall(round, Edit(None, Some(Some(to)), None, Some([u])), now);
    assert u in edit.edit.users.value;
    DatedAfterStep(t, edit);
  }

  lemma RunOfTwo(t: Tables, a: Event, b: Event)
    ensures Run(t, [a, b]) == Step(Step(t, a).tables, b).tables
  {
    assert [a, b][..1] == [a] && [a][..0] == [];
    assert Run(t, [a]) == Step(t, a).tables;
  }

  lemma Arranged(candidate: CandidateId, u: UserId, at: Millis, now: Millis) returns (t: Tables)
    ensures t == Step(EMPTY, ScheduleCall(candidate, First, Some(at), [u], true, now)).tables
    ensures Base(t) && Dated(t) && 0 in t.rounds && t.rounds[0].scheduledAt == Some(at)
    ensures (0, u) in t.links && t.links[(0, u)].status == Issued
  {
    var arrange := ScheduleCall(candidate, First, Some(at), [u], true, now);
    t := Step(EMPTY, arrange).tables;
    StepKeepsBase(EMPTY, arrange);
    DatedAfterSchedule(EMPTY, candidate, First, Some(at), [u], true, now);
    OneLinked(candidate, u, at, now);
  }

  /** Two calls are enough: arranging a round and moving it with its panel. */
  lemma PanelEditsLeaveLinks(candidate: CandidateId, u: UserId, at: Millis, to: Millis, now: Millis)
    requires at != to
    ensures var arrange := ScheduleCall(candidate, First, Some(at), [u], true, now);
            var edit := UpdateCall(0, Edit(None, Some(Some(to)), None, Some([u])), now);
            !Dated(Run(EMPTY, [arrange, edit]))
  {
    var t := Arranged(candidate, u, at, now);
    PanelEditLeavesLink(t, 0, u, to, now);
    RunOfTwo(EMPTY, ScheduleCall(candidate, First, Some(at), [u], true, now),
             UpdateCall(0, Edit(None, Some(Some(to)), None, Some([u])), now));
  }

  lemma OneLinked(candidate: CandidateId, u: UserId, at: Millis, now: Millis)
    ensures var t := Schedule(EMPTY, candidate, First, Some(at), [u], true, now).tables;
            && 0 in t.rounds && t.rounds[0].scheduledAt == Some(at)
            && (0, u) in t.links && t.links[(0, u)].status == Issued
  {
    assert LiveRounds(EMPTY, candidate, First, None) == {};
    GeneratedKeys(map[], 0, 0, [u], at + LINK_VALID_MS);
    GeneratedExtends(map[], 0, 0, [u], at + LINK_VALID_MS);
    assert (0, u) in Seats(0, [u]);
  }
}
