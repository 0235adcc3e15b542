/** Where a handed-over candidate has got to
    (src/modules/assessment/delegation-progress.ts), and what each interviewer
    is carrying (delegateWorkload in src/modules/assessment/interview.service.ts). */
module DelegationProgress {
  import opened Optional

  type Millis = int

  datatype CandidateStage = Applied | AiShortlisted | Shortlisted | Interview | Final | Selected | Rejected

  datatype RoundStatus = Scheduled | Completed | Cancelled | Absent

  datatype RoundFacts = RoundFacts(status: RoundStatus, scheduledAt: Option<Millis>, evaluations: nat)

  /** In order: each stage is further along than the one before. */
  datatype Progress = Sent | Arranged | Interviewed | Marked | Decided

  function Rank(p: Progress): nat {
    match p
    case Sent => 0
    case Arranged => 1
    case Interviewed => 2
    case Marked => 3
    case Decided => 4
  }

  predicate IsDecided(stage: CandidateStage, rejectedAt: Option<Millis>) {
    rejectedAt.Some? || stage == Final || stage == Selected || stage == Rejected
  }

  /** Neither called off nor missed by the candidate. */
  predicate CanStand(status: RoundStatus) {
    status != Cancelled && status != Absent
  }

  predicate IsLive(r: RoundFacts) {
    CanStand(r.status)
  }

  /** A sitting is held once it is marked so or its time has come. */
  predicate IsHeld(r: RoundFacts, now: Millis) {
    r.status == Completed || (r.scheduledAt.Some? && r.scheduledAt.value <= now)
  }

  function LiveOnly(rounds: seq<RoundFacts>): seq<RoundFacts> {
    if rounds == [] then []
    else if IsLive(rounds[0]) then [rounds[0]] + LiveOnly(rounds[1..])
    else LiveOnly(rounds[1..])
  }

  function FirstMarked(rounds: seq<RoundFacts>): Option<RoundFacts> {
    if rounds == [] then None else if rounds[0].evaluations > 0 then Some(rounds[0]) else FirstMarked(rounds[1..])
  }

  function FirstHeld(rounds: seq<RoundFacts>, now: Millis): Option<RoundFacts> {
    if rounds == [] then None else if IsHeld(rounds[0], now) then Some(rounds[0]) else FirstHeld(rounds[1..], now)
  }

  /** The head of the dated rounds sorted by date. */
  function FirstUpcoming(rounds: seq<RoundFacts>): Option<RoundFacts> {
    if rounds == [] then None
    else
      var later := FirstUpcoming(rounds[1..]);
      if rounds[0].scheduledAt.None? then later
      else if later.Some? && later.value.scheduledAt.Some? &&
          later.value.scheduledAt.value < rounds[0].scheduledAt.value then later
      else Some(rounds[0])
  }

  datatype Report = Report(stage: Progress, scheduledAt: Option<Millis>)

  function ProgressOf(stage: CandidateStage, rejectedAt: Option<Millis>, rounds: seq<RoundFacts>, now: Millis): Report {
    if IsDecided(stage, rejectedAt) then Report(Decided, None)
    else
      var live := LiveOnly(rounds);
      var marked, held, upcoming := FirstMarked(live), FirstHeld(live, now), FirstUpcoming(live);
      if live == [] then Report(Sent, None)
      else if marked.Some? then Report(Marked, marked.value.scheduledAt)
      else if held.Some? then Report(Interviewed, held.value.scheduledAt)
      else if upcoming.Some? then Report(Arranged, upcoming.value.scheduledAt)
      else Report(Sent, None)
  }

  // ---- What the stage means, whatever the order of the rounds ----

  /** The round is on or over: neither called off nor missed. */
  ghost predicate On(r: RoundFacts) {
    r.status == Scheduled || r.status == RoundStatus.Completed
  }

  ghost predicate Over(r: RoundFacts, now: Millis) {
    r.status == RoundStatus.Completed || (r.scheduledAt != None && r.scheduledAt.value <= now)
  }

  ghost predicate VerdictIsIn(stage: CandidateStage, rejectedAt: Option<Millis>) {
    rejectedAt != None || stage in {CandidateStage.Final, CandidateStage.Selected, CandidateStage.Rejected}
  }

  ghost predicate AnyMarked(rounds: seq<RoundFacts>) {
    exists r :: r in rounds && On(r) && r.evaluations >= 1
  }

  ghost predicate AnyHeld(rounds: seq<RoundFacts>, now: Millis) {
    exists r :: r in rounds && On(r) && Over(r, now)
  }

  ghost predicate AnyDated(rounds: seq<RoundFacts>) {
    exists r :: r in rounds && On(r) && r.scheduledAt != None
  }

  lemma {:induction false} LiveOnlyMembers(rounds: seq<RoundFacts>)
    ensures forall r :: r in LiveOnly(rounds) <==> r in rounds && IsLive(r)
  {
    if rounds != [] {
      LiveOnlyMembers(rounds[1..]);
      assert rounds == [rounds[0]] + rounds[1..];
    }
  }

  lemma {:induction false} FirstsExist(rounds: seq<RoundFacts>, now: Millis)
    ensures FirstMarked(rounds).Some? <==> exists r :: r in rounds && r.evaluations > 0
    ensures FirstHeld(rounds, now).Some? <==> exists r :: r in rounds && IsHeld(r, now)
    ensures FirstUpcoming(rounds).Some? <==> exists r :: r in rounds && r.scheduledAt.Some?
    ensures FirstUpcoming(rounds).Some? ==>
              && FirstUpcoming(rounds).value in rounds && FirstUpcoming(rounds).value.scheduledAt.Some?
              && forall r :: r in rounds && r.scheduledAt.Some? ==>
                  FirstUpcoming(rounds).value.scheduledAt.value <= r.scheduledAt.value
  {
    if rounds != [] {
      FirstsExist(rounds[1..], now);
      assert rounds == [rounds[0]] + rounds[1..];
    }
  }

  /** Round i is on and marked, or on and over, and no round before it is. */
  ghost predicate IsFirstMarked(rounds: seq<RoundFacts>, i: nat) {
    && i < |rounds| && On(rounds[i]) && rounds[i].evaluations >= 1
    && forall j :: 0 <= j < i ==> !(On(rounds[j]) && rounds[j].evaluations >= 1)
  }

  ghost predicate IsFirstHeld(rounds: seq<RoundFacts>, i: nat, now: Millis) {
    && i < |rounds| && On(rounds[i]) && Over(rounds[i], now)
    && forall j :: 0 <= j < i ==> !(On(rounds[j]) && Over(rounds[j], now))
  }

  lemma {:induction false} FirstMarkedAt(rounds: seq<RoundFacts>) returns (i: nat)
    requires FirstMarked(LiveOnly(rounds)).Some?
    ensures IsFirstMarked(rounds, i) && FirstMarked(LiveOnly(rounds)) == Some(rounds[i])
  {
    if IsLive(rounds[0]) && rounds[0].evaluations > 0 {
      i := 0;
    } else {
      var k := FirstMarkedAt(rounds[1..]);
      i := k + 1;
    }
  }

  lemma {:induction false} FirstHeldAt(rounds: seq<RoundFacts>, now: Millis) returns (i: nat)
    requires FirstHeld(LiveOnly(rounds), now).Some?
    ensures IsFirstHeld(rounds, i, now) && FirstHeld(LiveOnly(rounds), now) == Some(rounds[i])
  {
    if IsLive(rounds[0]) && IsHeld(rounds[0], now) {
      i := 0;
    } else {
      var k := FirstHeldAt(rounds[1..], now);
      i := k + 1;
    }
  }

  /** The date shown: of the first marked or held round, or nothing when decided or sent. */
  lemma DateShown(stage: CandidateStage, rejectedAt: Option<Millis>, rounds: seq<RoundFacts>, now: Millis)
    ensures var report := ProgressOf(stage, rejectedAt, rounds, now);
            match report.stage
            case Marked => exists i: nat :: IsFirstMarked(rounds, i) && report.scheduledAt == rounds[i].scheduledAt
            case Interviewed =>
              exists i: nat :: IsFirstHeld(rounds, i, now) && report.scheduledAt == rounds[i].scheduledAt
            case Arranged => report.scheduledAt.Some?
            case _ => report.scheduledAt == None
  {
    var report := ProgressOf(stage, rejectedAt, rounds, now);
    ProgressMeans(stage, rejectedAt, rounds, now);
    if report.stage == Marked { var i := FirstMarkedAt(rounds); }
    if report.stage == Interviewed { var i := FirstHeldAt(rounds, now); }
  }

  /** The stage is the furthest thing that has happened in any live round, and
      an arranged sitting is shown by its earliest date. */
  lemma ProgressMeans(stage: CandidateStage, rejectedAt: Option<Millis>, rounds: seq<RoundFacts>, now: Millis)
    ensures var report := ProgressOf(stage, rejectedAt, rounds, now);
            && report.stage == (if VerdictIsIn(stage, rejectedAt) then Decided
                                else if AnyMarked(rounds) then Marked
                                else if AnyHeld(rounds, now) then Interviewed
                                else if AnyDated(rounds) then Arranged
                                else Sent)
            && (report.stage == Arranged ==>
                  && report.scheduledAt.Some?
                  && (exists r :: r in rounds && On(r) && r.scheduledAt == report.scheduledAt)
                  && (forall r :: r in rounds && On(r) && r.scheduledAt != None ==>
                      report.scheduledAt.value <= r.scheduledAt.value))
  {
    LiveOnlyMembers(rounds);
    FirstsExist(LiveOnly(rounds), now);
    var live := LiveOnly(rounds);
    if r :| r in rounds && On(r) && r.evaluations >= 1 { assert r in live; }
    if r :| r in rounds && On(r) && Over(r, now) { assert r in live; }
    if r :| r in rounds && On(r) && r.scheduledAt != None { assert r in live; }
  }

  /** The same rounds in another order give the same stage, and the same date
      while a sitting is only arranged. */
  lemma OrderDoesNotMatter(stage: CandidateStage, rejectedAt: Option<Millis>, rounds: seq<RoundFacts>,
                           others: seq<RoundFacts>, now: Millis)
    requires multiset(rounds) == multiset(others)
    ensures ProgressOf(stage, rejectedAt, rounds, now).stage == ProgressOf(stage, rejectedAt, others, now).stage
    ensures ProgressOf(stage, rejectedAt, rounds, now).stage == Arranged ==>
              ProgressOf(stage, rejectedAt, rounds, now) == ProgressOf(stage, rejectedAt, others, now)
  {
    forall r ensures r in rounds <==> r in others {
      assert r in rounds <==> r in multiset(rounds);
      assert r in others <==> r in multiset(others);
    }
    ProgressMeans(stage, rejectedAt, rounds, now);
    ProgressMeans(stage, rejectedAt, others, now);
  }

  /** Time passing never moves a candidate back. */
  lemma TimeOnlyAdvances(stage: CandidateStage, rejectedAt: Option<Millis>, rounds: seq<RoundFacts>, now: Millis,
                         later: Millis)
    requires now <= later
    ensures Rank(ProgressOf(stage, rejectedAt, rounds, now).stage)
            <= Rank(ProgressOf(stage, rejectedAt, rounds, later).stage)
  {
    ProgressMeans(stage, rejectedAt, rounds, now);
    ProgressMeans(stage, rejectedAt, rounds, later);
    if r :| r in rounds && On(r) && Over(r, now) { assert Over(r, later); }
  }

  /** A mark on a live round moves the candidate to Marked, unless already decided. */
  lemma MarkAdvances(stage: CandidateStage, rejectedAt: Option<Millis>, rounds: seq<RoundFacts>, i: nat, now: Millis)
    requires i < |rounds| && On(rounds[i])
    ensures var after := ProgressOf(stage, rejectedAt,
        rounds[i := rounds[i].(evaluations := rounds[i].evaluations + 1)], now);
            && after.stage == (if VerdictIsIn(stage, rejectedAt) then Decided else Marked)
            && Rank(ProgressOf(stage, rejectedAt, rounds, now).stage) <= Rank(after.stage)
  {
    var marked := rounds[i].(evaluations := rounds[i].evaluations + 1);
    assert marked in rounds[i := marked] by { assert rounds[i := marked][i] == marked; }
    assert On(marked);
    ProgressMeans(stage, rejectedAt, rounds, now);
    ProgressMeans(stage, rejectedAt, rounds[i := marked], now);
  }

  // ---- Workload ----

  datatype HandOffRow = HandOffRow(user: nat, candidate: nat, lastSentAt: Millis, sendCount: nat)

  datatype Workload = Workload(user: nat, holds: nat, waiting: nat, inProgress: nat, done: nat,
                               oldestWaitingDays: nat, resent: nat)

  const DAY_MS: Millis := 86_400_000

  function DaysSince(from: Millis, now: Millis): nat {
    var days := (now - from) / DAY_MS;
    if days > 0 then days else 0
  }

  function Max(x: nat, y: nat): nat {
    if x > y then x else y
  }

  function RowsOf(rows: seq<HandOffRow>, user: nat): seq<HandOffRow> {
    if rows == [] then []
    else
      var rest := RowsOf(rows[..|rows| - 1], user);
      if rows[|rows| - 1].user == user then rest + [rows[|rows| - 1]] else rest
  }

  /** A candidate without a report counts as sent. */
  function StageFor(progress: map<nat, Progress>, candidate: nat): Progress {
    if candidate in progress then progress[candidate] else Sent
  }

  function CountAt(rows: seq<HandOffRow>, progress: map<nat, Progress>, stages: set<Progress>): nat {
    if rows == [] then 0
    else
      var rest := CountAt(rows[..|rows| - 1], progress, stages);
      if StageFor(progress, rows[|rows| - 1].candidate) in stages then rest + 1 else rest
  }

  function OldestWaiting(rows: seq<HandOffRow>, progress: map<nat, Progress>, now: Millis): nat {
    if rows == [] then 0
    else
      var rest, last := OldestWaiting(rows[..|rows| - 1], progress, now), rows[|rows| - 1];
      if StageFor(progress, last.candidate) == Sent then Max(rest, DaysSince(last.lastSentAt, now)) else rest
  }

  function CountResent(rows: seq<HandOffRow>): nat {
    if rows == [] then 0 else CountResent(rows[..|rows| - 1]) + (if rows[|rows| - 1].sendCount > 1 then 1 else 0)
  }

  /** The rows of each holder, as the Map is filled. */
  method ByUser(rows: seq<HandOffRow>) returns (byUser: map<nat, seq<HandOffRow>>)
    ensures forall u :: if u in byUser then byUser[u] == RowsOf(rows, u) else RowsOf(rows, u) == []
  {
    byUser := map[];
    for n := 0 to |rows|
      invariant forall u :: if u in byUser then byUser[u] == RowsOf(rows[..n], u) else RowsOf(rows[..n], u) == []
    {
      var r := rows[n];
      assert rows[..n + 1][..n] == rows[..n];
      var list := if r.user in byUser then byUser[r.user] else [];
      byUser := byUser[r.user := list + [r]];
    }
    assert rows[..|rows|] == rows;
  }

  ghost predicate IsLoad(load: Workload, user: nat, mine: seq<HandOffRow>, progress: map<nat, Progress>, now: Millis) {
    && load.user == user
    && load.holds == |mine|
    && load.waiting == CountAt(mine, progress, {Sent})
    && load.inProgress == CountAt(mine, progress, {Arranged, Interviewed})
    && load.done == CountAt(mine, progress, {Marked, Decided})
    && load.oldestWaitingDays == OldestWaiting(mine, progress, now)
    && load.resent == CountResent(mine)
    && load.waiting + load.inProgress + load.done == load.holds
  }

  method LoadOf(user: nat, mine: seq<HandOffRow>, progress: map<nat, Progress>, now: Millis) returns (load: Workload)
    ensures IsLoad(load, user, mine, progress, now)
  {
    var waiting, inProgress, done, oldest := 0, 0, 0, 0;
    for n := 0 to |mine|
      invariant waiting == CountAt(mine[..n], progress, {Sent})
      invariant inProgress == CountAt(mine[..n], progress, {Arranged, Interviewed})
      invariant done == CountAt(mine[..n], progress, {Marked, Decided})
      invariant oldest == OldestWaiting(mine[..n], progress, now)
      invariant waiting + inProgress + done == n
    {
      assert mine[..n + 1][..n] == mine[..n];
      var stage := StageFor(progress, mine[n].candidate);
      if stage == Sent {
        waiting := waiting + 1;
        oldest := Max(oldest, DaysSince(mine[n].lastSentAt, now));
      } else if stage == Arranged || stage == Interviewed {
        inProgress := inProgress + 1;
      } else {
        done := done + 1;
      }
    }
    assert mine[..|mine|] == mine;
    load := Workload(user, |mine|, waiting, inProgress, done, oldest, CountResent(mine));
  }

  /** Every person asked about, in order, with the rows they hold split three ways. */
  method DelegateWorkload(users: seq<nat>, rows: seq<HandOffRow>, progress: map<nat, Progress>, now: Millis)
    returns (loads: seq<Workload>)
    ensures |loads| == |users|
    ensures forall i :: 0 <= i < |users| ==> IsLoad(loads[i], users[i], RowsOf(rows, users[i]), progress, now)
  {
    loads := [];
    var byUser := ByUser(rows);
    for k := 0 to |users|
      invariant |loads| == k
      invariant forall i :: 0 <= i < k ==> IsLoad(loads[i], users[i], RowsOf(rows, users[i]), progress, now)
    {
      var mine := if users[k] in byUser then byUser[users[k]] else [];
      var load := LoadOf(users[k], mine, progress, now);
      loads := loads + [load];
    }
  }

  /** When no candidate falls back, nobody's waiting pile grows and nobody's done pile shrinks. */
  lemma {:induction false} LoadsOnlyAdvance(mine: seq<HandOffRow>, progress: map<nat, Progress>,
                                            later: map<nat, Progress>)
    requires forall c :: Rank(StageFor(progress, c)) <= Rank(StageFor(later, c))
    ensures CountAt(mine, later, {Sent}) <= CountAt(mine, progress, {Sent})
    ensures CountAt(mine, progress, {Marked, Decided}) <= CountAt(mine, later, {Marked, Decided})
  {
    if mine != [] {
      var n := |mine| - 1;
      LoadsOnlyAdvance(mine[..n], progress, later);
      assert Rank(StageFor(progress, mine[n].candidate)) <= Rank(StageFor(later, mine[n].candidate));
    }
  }

  datatype CandidateFacts = CandidateFacts(stage: CandidateStage, rejectedAt: Option<Millis>, rounds: seq<RoundFacts>)

  /** Where every candidate found has got to. */
  function ProgressFor(candidates: map<nat, CandidateFacts>, now: Millis): map<nat, Progress> {
    map c | c in candidates ::
        ProgressOf(candidates[c].stage, candidates[c].rejectedAt, candidates[c].rounds, now).stage
  }

  /** As time alone passes, what a person holds stays, the part of it that waits
      does not grow and the part that is done does not shrink. */
  lemma LoadAdvancesWithTime(user: nat, mine: seq<HandOffRow>, candidates: map<nat, CandidateFacts>, now: Millis,
                             later: Millis, load: Workload, next: Workload)
    requires now <= later
    requires IsLoad(load, user, mine, ProgressFor(candidates, now), now)
    requires IsLoad(next, user, mine, ProgressFor(candidates, later), later)
    ensures next.holds == load.holds && next.waiting <= load.waiting && load.done <= next.done
  {
    forall c
      ensures Rank(StageFor(ProgressFor(candidates, now), c)) <= Rank(StageFor(ProgressFor(candidates, later), c)) {
      if c in candidates {
        TimeOnlyAdvances(candidates[c].stage, candidates[c].rejectedAt, candidates[c].rounds, now, later);
      }
    }
    LoadsOnlyAdvance(mine, ProgressFor(candidates, now), ProgressFor(candidates, later));
  }

  /** The same when a mark is added to a live round of a candidate. */
  lemma LoadAdvancesWithMark(user: nat, mine: seq<HandOffRow>, candidates: map<nat, CandidateFacts>, c: nat, i: nat,
                             now: Millis, load: Workload, next: Workload)
    requires c in candidates && i < |candidates[c].rounds| && On(candidates[c].rounds[i])
    requires IsLoad(load, user, mine, ProgressFor(candidates, now), now)
    requires var round := candidates[c].rounds[i];
             var rounds := candidates[c].rounds[i := round.(evaluations := round.evaluations + 1)];
             IsLoad(next, user, mine, ProgressFor(candidates[c := candidates[c].(rounds := rounds)], now), now)
    ensures next.holds == load.holds && next.waiting <= load.waiting && load.done <= next.done
  {
    var round := candidates[c].rounds[i];
    var rounds := candidates[c].rounds[i := round.(evaluations := round.evaluations + 1)];
    var marked := candidates[c := candidates[c].(rounds := rounds)];
    MarkAdvances(candidates[c].stage, candidates[c].rejectedAt, candidates[c].rounds, i, now);
    forall d ensures Rank(StageFor(ProgressFor(candidates, now), d)) <= Rank(StageFor(ProgressFor(marked, now), d)) {
      assert d != c && d in candidates ==> marked[d] == candidates[d];
    }
    LoadsOnlyAdvance(mine, ProgressFor(candidates, now), ProgressFor(marked, now));
  }

  // ---- What the figures of a workload are ----

  /** The places of the rows with a property. */
  ghost function Where(rows: seq<HandOffRow>, p: HandOffRow -> bool): set<nat> {
    set i | 0 <= i < |rows| && p(rows[i])
  }

  lemma WhereOneMore(rows: seq<HandOffRow>, p: HandOffRow -> bool)
    requires rows != []
    ensures var n := |rows| - 1; |Where(rows, p)| == |Where(rows[..n], p)| + if p(rows[n]) then 1 else 0
  {
    var n := |rows| - 1;
    assert Where(rows, p) == Where(rows[..n], p) + if p(rows[n]) then {n} else {};
  }

  ghost predicate Waits(progress: map<nat, Progress>, candidate: nat) {
    candidate !in progress || progress[candidate] == Sent
  }

  ghost predicate Moves(progress: map<nat, Progress>, candidate: nat) {
    candidate in progress && (progress[candidate] == Arranged || progress[candidate] == Interviewed)
  }

  ghost predicate IsDone(progress: map<nat, Progress>, candidate: nat) {
    candidate in progress && (progress[candidate] == Marked || progress[candidate] == Decided)
  }

  lemma RowsOneMore(rows: seq<HandOffRow>, user: nat)
    requires rows != []
    ensures var n := |rows| - 1;
            RowsOf(rows, user) == RowsOf(rows[..n], user) + if rows[n].user == user then [rows[n]] else []
  {
  }

  lemma CountOneMore(mine: seq<HandOffRow>, r: HandOffRow, progress: map<nat, Progress>, stages: set<Progress>)
    ensures CountAt(mine + [r], progress, stages)
            == CountAt(mine, progress, stages) + if StageFor(progress, r.candidate) in stages then 1 else 0
    ensures CountResent(mine + [r]) == CountResent(mine) + if r.sendCount > 1 then 1 else 0
  {
    assert (mine + [r])[..|mine|] == mine;
  }

  /** A person's rows with a stage in the set are as many as the places with the property that says so. */
  lemma {:induction false} CountIs(rows: seq<HandOffRow>, user: nat, progress: map<nat, Progress>,
                                   stages: set<Progress>, p: HandOffRow -> bool)
    requires forall r: HandOffRow :: p(r) <==> r.user == user && StageFor(progress, r.candidate) in stages
    ensures CountAt(RowsOf(rows, user), progress, stages) == |Where(rows, p)|
  {
    if rows != [] {
      hide RowsOf, CountAt, Where;
      var n := |rows| - 1;
      CountIs(rows[..n], user, progress, stages, p);
      WhereOneMore(rows, p);
      RowsOneMore(rows, user);
      CountOneMore(RowsOf(rows[..n], user), rows[n], progress, stages);
      assert rows[n].user != user ==> RowsOf(rows, user) == RowsOf(rows[..n], user);
    }
  }

  lemma {:induction false} RowsAndResentAre(rows: seq<HandOffRow>, user: nat)
    ensures |RowsOf(rows, user)| == |Where(rows, (r: HandOffRow) => r.user == user)|
    ensures CountResent(RowsOf(rows, user)) == |Where(rows, (r: HandOffRow) => r.user == user && r.sendCount >= 2)|
  {
    if rows != [] {
      hide RowsOf, CountResent, Where;
      var n := |rows| - 1;
      RowsAndResentAre(rows[..n], user);
      WhereOneMore(rows, (r: HandOffRow) => r.user == user);
      WhereOneMore(rows, (r: HandOffRow) => r.user == user && r.sendCount >= 2);
      RowsOneMore(rows, user);
      CountOneMore(RowsOf(rows[..n], user), rows[n], map[], {});
      assert rows[n].user != user ==> RowsOf(rows, user) == RowsOf(rows[..n], user);
    }
  }

  /** A row of the person's that waits, and the whole days it has waited. */
  ghost predicate WaitsAt(rows: seq<HandOffRow>, i: nat, user: nat, progress: map<nat, Progress>) {
    i < |rows| && rows[i].user == user && Waits(progress, rows[i].candidate)
  }

  lemma {:induction false} OldestIs(rows: seq<HandOffRow>, user: nat, progress: map<nat, Progress>, now: Millis)
    ensures var days := OldestWaiting(RowsOf(rows, user), progress, now);
            && (forall i: nat :: WaitsAt(rows, i, user, progress) ==>
                  now - rows[i].lastSentAt < 86_400_000 * (days + 1))
            && (days > 0 ==>
                  exists i: nat :: WaitsAt(rows, i, user, progress) && 86_400_000 * days <= now - rows[i].lastSentAt)
  {
    if rows != [] {
      var n := |rows| - 1;
      OldestIs(rows[..n], user, progress, now);
      RowsOneMore(rows, user);
      var before := RowsOf(rows[..n], user);
      if rows[n].user == user { assert RowsOf(rows, user)[..|before|] == before; }
      assert forall i: nat :: i < n ==> (WaitsAt(rows, i, user, progress) <==> WaitsAt(rows[..n], i, user, progress));
    }
  }

  /** A person's figures count the rows that are the person's: all, those of
      candidates not yet arranged, arranged or interviewed, marked or decided,
      and those sent twice or more; the days are the whole ones of the longest wait. */
  lemma WorkloadMeans(load: Workload, user: nat, rows: seq<HandOffRow>, progress: map<nat, Progress>, now: Millis)
    requires IsLoad(load, user, RowsOf(rows, user), progress, now)
    ensures load.user == user
    ensures load.holds == |Where(rows, (r: HandOffRow) => r.user == user)|
    ensures load.waiting == |Where(rows, (r: HandOffRow) => r.user == user && Waits(progress, r.candidate))|
    ensures load.inProgress == |Where(rows, (r: HandOffRow) => r.user == user && Moves(progress, r.candidate))|
    ensures load.done == |Where(rows, (r: HandOffRow) => r.user == user && IsDone(progress, r.candidate))|
    ensures load.resent == |Where(rows, (r: HandOffRow) => r.user == user && r.sendCount >= 2)|
    ensures forall i: nat :: WaitsAt(rows, i, user, progress) ==>
              now - rows[i].lastSentAt < 86_400_000 * (load.oldestWaitingDays + 1)
    ensures load.oldestWaitingDays > 0 ==>
              exists i: nat :: WaitsAt(rows, i, user, progress)
                               && 86_400_000 * load.oldestWaitingDays <= now - rows[i].lastSentAt
  {
    RowsAndResentAre(rows, user);
    CountIs(rows, user, progress, {Sent}, (r: HandOffRow) => r.user == user && Waits(progress, r.candidate));
    CountIs(rows, user, progress, {Arranged, Interviewed},
            (r: HandOffRow) => r.user == user && Moves(progress, r.candidate));
    CountIs(rows, user, progress, {Marked, Decided},
            (r: HandOffRow) => r.user == user && IsDone(progress, r.candidate));
    OldestIs(rows, user, progress, now);
  }
}
