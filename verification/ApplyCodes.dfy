/** Codes mailed to an applicant's address: one address's row and the calls on it
    (src/modules/candidates/apply-email-verification.ts and apply-email.service.ts). */
module ApplyCodes {
  import opened Optional

  type Millis = int

  const CODE_TTL_MS: Millis := 10 * 60_000
  const MAX_ATTEMPTS: nat := 5
  const RESEND_COOLDOWN_MS: Millis := 60_000
  const MAX_SENDS_PER_WINDOW: nat := 5
  const SEND_WINDOW_MS: Millis := 60 * 60_000
  const KEEP_MS: Millis := 24 * 60 * 60_000

  /** The last code sent; code stands for its hash, which matches that code alone. */
  datatype CodeState = CodeState(code: Option<string>, expiresAt: Option<Millis>, attempts: nat, sentAt: Option<Millis>,
                                 windowStart: Option<Millis>, windowCount: nat, updatedAt: Millis)

  type Row = Option<CodeState>

  datatype Decision = Send(windowStart: Millis, windowCount: nat) | Wait(seconds: int) | Limit(minutes: int)

  datatype Unusable = NoCode | Expired | Exhausted

  datatype Reply =
    | Sent | Undelivered | AskedTooSoon(seconds: int) | SendLimit(minutes: int)
    | Accepted | Wrong(left: int) | WrongAndCancelled | Unchecked(why: Unusable)
    | Purged(gone: bool)

  datatype Outcome = Outcome(row: Row, reply: Reply)

  /** Rounded up. */
  function Seconds(ms: Millis): int {
    (ms + 999) / 1000
  }

  function Minutes(ms: Millis): int {
    (ms + 59_999) / 60_000
  }

  predicate Cooling(s: CodeState, now: Millis) {
    s.sentAt.Some? && s.code.Some? && s.expiresAt.Some? && s.expiresAt.value > now &&
        now - s.sentAt.value < RESEND_COOLDOWN_MS
  }

  predicate InWindow(s: CodeState, now: Millis) {
    s.windowStart.Some? && now - s.windowStart.value < SEND_WINDOW_MS
  }

  function SendDecision(row: Row, now: Millis): (d: Decision)
    ensures d.Send? ==> 1 <= d.windowCount
  {
    if row.Some? && Cooling(row.value, now) then Wait(Seconds(RESEND_COOLDOWN_MS - (now - row.value.sentAt.value)))
    else if row.Some? && InWindow(row.value, now) then
      var s := row.value;
      if s.windowCount >= MAX_SENDS_PER_WINDOW then
        var minutes := Minutes(SEND_WINDOW_MS - (now - s.windowStart.value));
        Limit(if minutes < 1 then 1 else minutes)
      else Send(s.windowStart.value, s.windowCount + 1)
    else Send(now, 1)
  }

  function CodeUnusable(row: Row, now: Millis): Option<Unusable> {
    if row.None? || row.value.code.None? || row.value.expiresAt.None? then Some(NoCode)
    else if row.value.attempts >= MAX_ATTEMPTS then Some(Exhausted)
    else if row.value.expiresAt.value <= now then Some(Expired)
    else None
  }

  /** drawn: the new code; delivered: whether the mail went out. */
  function SendCode(row: Row, drawn: string, delivered: bool, now: Millis): Outcome {
    match SendDecision(row, now)
    case Wait(seconds) => Outcome(row, AskedTooSoon(seconds))
    case Limit(minutes) => Outcome(row, SendLimit(minutes))
    case Send(start, count) =>
      if delivered then
        Outcome(Some(CodeState(Some(drawn), Some(now + CODE_TTL_MS), 0, Some(now), Some(start), count, now)), Sent)
      else
        Outcome(Some(CodeState(None, None, 0, None, Some(start), count - 1, now)), Undelivered)
  }

  function VerifyCode(row: Row, given: string, now: Millis): Outcome {
    var unusable := CodeUnusable(row, now);
    if unusable.Some? then Outcome(row, Unchecked(unusable.value))
    else
      var s := row.value;
      if Some(given) != s.code then
        var attempts := s.attempts + 1;
        if attempts >= MAX_ATTEMPTS then
          Outcome(Some(s.(code := None, expiresAt := None, attempts := attempts, updatedAt := now)), WrongAndCancelled)
        else
          Outcome(Some(s.(attempts := attempts, updatedAt := now)), Wrong(MAX_ATTEMPTS - attempts))
      else Outcome(Some(s.(code := None, expiresAt := None, attempts := 0, updatedAt := now)), Accepted)
  }

  function PurgeStale(row: Row, now: Millis): Outcome {
    if row.Some? && row.value.updatedAt < now - KEEP_MS then Outcome(None, Purged(true))
    else Outcome(row, Purged(false))
  }

  // ---- Runs ----

  datatype Event =
    | SendCall(drawn: string, delivered: bool, now: Millis)
    | VerifyCall(given: string, now: Millis)
    | PurgeCall(now: Millis)

  function Step(row: Row, e: Event): Outcome {
    match e
    case SendCall(drawn, delivered, now) => SendCode(row, drawn, delivered, now)
    case VerifyCall(given, now) => VerifyCode(row, given, now)
    case PurgeCall(now) => PurgeStale(row, now)
  }

  /** The row after a run that began with none. */
  function Run(events: seq<Event>): Row {
    if events == [] then None else Step(Run(events[..|events| - 1]), events[|events| - 1]).row
  }

  ghost predicate InOrder(events: seq<Event>) {
    forall i, j :: 0 <= i < j < |events| ==> events[i].now <= events[j].now
  }

  /** A code that arrived, and the window it was counted in. */
  datatype Delivery = Delivery(at: Millis, window: Millis)

  function Delivered(row: Row, e: Event): seq<Delivery> {
    var after := Step(row, e);
    if after.reply.Sent? && after.row.Some? && after.row.value.windowStart.Some? then
      [Delivery(e.now, after.row.value.windowStart.value)]
    else []
  }

  function Deliveries(events: seq<Event>): seq<Delivery> {
    if events == [] then []
    else Deliveries(events[..|events| - 1]) + Delivered(Run(events[..|events| - 1]), events[|events| - 1])
  }

  function CountedIn(log: seq<Delivery>, window: Millis): nat {
    if log == [] then 0 else CountedIn(log[..|log| - 1], window) + if log[|log| - 1].window == window then 1 else 0
  }

  const HOUR_MS: Millis := 3_600_000

  /** Deliveries in the hour [from, from + HOUR_MS). */
  function InHour(log: seq<Delivery>, from: Millis): nat {
    if log == [] then 0
    else InHour(log[..|log| - 1], from) + if from <= log[|log| - 1].at < from + HOUR_MS then 1 else 0
  }

  // ---- The invariant ----

  /** What every reachable row says of itself at a time no earlier than its last change. */
  ghost predicate Sound(row: Row, now: Millis) {
    row.Some? ==>
      var s := row.value;
      && s.updatedAt <= now && s.windowCount <= MAX_SENDS_PER_WINDOW
      && s.windowStart.Some? && s.windowStart.value <= s.updatedAt
      && (s.sentAt.Some? ==> s.sentAt.value <= s.updatedAt)
      && (s.code.Some? <==> s.expiresAt.Some?)
      && (s.code.Some? ==>
          s.sentAt.Some? && s.expiresAt.value == s.sentAt.value + CODE_TTL_MS && s.attempts < MAX_ATTEMPTS)
  }

  /** Each delivery fell in its window, and windows are an hour apart or the same. */
  ghost predicate Windowed(log: seq<Delivery>) {
    && (forall i :: 0 <= i < |log| ==> log[i].window <= log[i].at < log[i].window + HOUR_MS)
    && (forall i, j :: 0 <= i < j < |log| ==>
        log[i].window == log[j].window || log[i].window + HOUR_MS <= log[j].window)
  }

  /** The row's window is the last one, and its count is of that window's deliveries;
      with no row, every window is over. */
  ghost predicate Tallied(row: Row, log: seq<Delivery>, now: Millis) {
    && (forall w :: CountedIn(log, w) <= MAX_SENDS_PER_WINDOW)
    && (row.None? ==> forall i :: 0 <= i < |log| ==> log[i].window + HOUR_MS <= now)
    && (row.Some? && row.value.windowStart.Some? ==>
          var start := row.value.windowStart.value;
          && CountedIn(log, start) == row.value.windowCount
          && forall i :: 0 <= i < |log| ==> log[i].window == start || log[i].window + HOUR_MS <= start)
  }

  ghost predicate Inv(row: Row, log: seq<Delivery>, now: Millis) {
    Sound(row, now) && Windowed(log) && Tallied(row, log, now)
  }

  lemma SoundStays(row: Row, e: Event)
    requires Sound(row, e.now)
    ensures Sound(Step(row, e).row, e.now)
  {
  }

  lemma {:induction false} CountOfNone(log: seq<Delivery>, window: Millis)
    requires forall i :: 0 <= i < |log| ==> log[i].window != window
    ensures CountedIn(log, window) == 0
  {
    if log != [] { CountOfNone(log[..|log| - 1], window); }
  }

  lemma CountOneMore(log: seq<Delivery>, d: Delivery)
    ensures forall w :: CountedIn(log + [d], w) == CountedIn(log, w) + if d.window == w then 1 else 0
  {
  }

  ghost predicate LastWindow(log: seq<Delivery>, start: Millis) {
    forall i :: 0 <= i < |log| ==> log[i].window == start || log[i].window + HOUR_MS <= start
  }

  /** The window a send is counted in: the row's own, or a new one. */
  lemma WindowOfSend(row: Row, log: seq<Delivery>, now: Millis)
    requires Inv(row, log, now) && SendDecision(row, now).Send?
    ensures var Send(start, count) := SendDecision(row, now);
            && start <= now < start + HOUR_MS && 1 <= count <= MAX_SENDS_PER_WINDOW
            && CountedIn(log, start) == count - 1 && LastWindow(log, start)
  {
    if row.None? || !InWindow(row.value, now) {
      assert LastWindow(log, now);
      CountOfNone(log, now);
    }
  }

  lemma WindowsOneMore(log: seq<Delivery>, now: Millis, start: Millis)
    requires Windowed(log) && LastWindow(log, start) && start <= now < start + HOUR_MS
    ensures Windowed(log + [Delivery(now, start)]) && LastWindow(log + [Delivery(now, start)], start)
  {
  }

  lemma TalliedBy(s: CodeState, log: seq<Delivery>, now: Millis, start: Millis)
    requires s.windowStart == Some(start) && LastWindow(log, start) && CountedIn(log, start) == s.windowCount
    requires forall w :: CountedIn(log, w) <= MAX_SENDS_PER_WINDOW
    ensures Tallied(Some(s), log, now)
  {
  }

  lemma DeliveredKeeps(row: Row, log: seq<Delivery>, e: Event)
    requires e.SendCall? && e.delivered && Inv(row, log, e.now) && SendDecision(row, e.now).Send?
    ensures Windowed(log + Delivered(row, e)) && Tallied(Step(row, e).row, log + Delivered(row, e), e.now)
  {
    var Send(start, count) := SendDecision(row, e.now);
    WindowOfSend(row, log, e.now);
    WindowsOneMore(log, e.now, start);
    CountOneMore(log, Delivery(e.now, start));
    TalliedBy(Step(row, e).row.value, log + [Delivery(e.now, start)], e.now, start);
  }

  lemma UndeliveredKeeps(row: Row, log: seq<Delivery>, e: Event)
    requires e.SendCall? && !e.delivered && Inv(row, log, e.now) && SendDecision(row, e.now).Send?
    ensures Delivered(row, e) == [] && Tallied(Step(row, e).row, log, e.now)
  {
    WindowOfSend(row, log, e.now);
    TalliedBy(Step(row, e).row.value, log, e.now, SendDecision(row, e.now).windowStart);
  }

  lemma OthersKeep(row: Row, log: seq<Delivery>, e: Event)
    requires Inv(row, log, e.now) && !(e.SendCall? && SendDecision(row, e.now).Send?)
    ensures Delivered(row, e) == [] && Tallied(Step(row, e).row, log, e.now)
  {
  }

  lemma StepKeeps(row: Row, log: seq<Delivery>, e: Event)
    requires Inv(row, log, e.now)
    ensures Inv(Step(row, e).row, log + Delivered(row, e), e.now)
  {
    SoundStays(row, e);
    if e.SendCall? && e.delivered && SendDecision(row, e.now).Send? {
      DeliveredKeeps(row, log, e);
    } else {
      if e.SendCall? && SendDecision(row, e.now).Send? {
        UndeliveredKeeps(row, log, e);
      } else {
        OthersKeep(row, log, e);
      }
      assert log + Delivered(row, e) == log;
    }
  }

  lemma LaterStillHolds(row: Row, log: seq<Delivery>, now: Millis, later: Millis)
    requires Inv(row, log, now) && now <= later
    ensures Inv(row, log, later)
  {
  }

  lemma {:induction false} RunKeeps(events: seq<Event>, now: Millis)
    requires InOrder(events) && (events != [] ==> events[|events| - 1].now <= now)
    ensures Inv(Run(events), Deliveries(events), now)
  {
    if events != [] {
      var before, e := events[..|events| - 1], events[|events| - 1];
      RunKeeps(before, e.now);
      StepKeeps(Run(before), Deliveries(before), e);
      LaterStillHolds(Run(events), Deliveries(events), e.now, now);
    }
  }

  // ---- The rate limit ----

  /** At most five codes arrive in any anchored window. */
  lemma FivePerWindow(events: seq<Event>, window: Millis)
    requires InOrder(events)
    ensures CountedIn(Deliveries(events), window) <= 5
  {
    RunKeeps(events, if events == [] then 0 else events[|events| - 1].now);
  }

  lemma {:induction false} TwoWindowsCover(log: seq<Delivery>, from: Millis, a: Millis, b: Millis)
    requires forall i :: 0 <= i < |log| && from <= log[i].at < from + HOUR_MS ==>
        log[i].window == a || log[i].window == b
    ensures InHour(log, from) <= CountedIn(log, a) + CountedIn(log, b)
  {
    if log != [] { TwoWindowsCover(log[..|log| - 1], from, a, b); }
  }

  lemma AnHourMeetsTwoWindows(log: seq<Delivery>, from: Millis) returns (a: Millis, b: Millis)
    requires Windowed(log)
    ensures forall i :: 0 <= i < |log| && from <= log[i].at < from + HOUR_MS ==>
        log[i].window == a || log[i].window == b
  {
    a, b := 0, 0;
    if i :| 0 <= i < |log| && from <= log[i].at < from + HOUR_MS {
      a, b := log[i].window, log[i].window;
      if j :| 0 <= j < |log| && from <= log[j].at < from + HOUR_MS && log[j].window != a {
        b := log[j].window;
      }
    }
  }

  /** At most ten codes arrive in any hour at all. */
  lemma TenPerHour(events: seq<Event>, from: Millis)
    requires InOrder(events)
    ensures InHour(Deliveries(events), from) <= 10
  {
    var log := Deliveries(events);
    RunKeeps(events, if events == [] then 0 else events[|events| - 1].now);
    var a, b := AnHourMeetsTwoWindows(log, from);
    TwoWindowsCover(log, from, a, b);
  }
}
