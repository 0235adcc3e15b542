/** What an applicant sees over a whole run of the code calls. */
module ApplyCodeRuns {
  import opened Optional
  import opened ApplyCodes

  ghost predicate After(events: seq<Event>, now: Millis) {
    InOrder(events) && (events != [] ==> events[|events| - 1].now <= now)
  }

  // ---- The send limit ----

  /** A mail that did not go out leaves the same send open at once, with the same quota. */
  lemma FailedSendCostsNothing(row: Row, drawn: string, now: Millis)
    requires Sound(row, now) && SendDecision(row, now).Send?
    ensures SendDecision(SendCode(row, drawn, false, now).row, now) == SendDecision(row, now)
  {
  }

  /** The seconds and minutes told are the least whole ones that are enough. */
  lemma AdviceIsExact(row: Row, now: Millis)
    requires Sound(row, now)
    ensures var d := SendDecision(row, now);
            && (d.Wait? ==> 1 <= d.seconds <= 60 && !SendDecision(row, now + 1000 * d.seconds).Wait?
                            && SendDecision(row, now + 1000 * (d.seconds - 1)).Wait?)
            && (d.Limit? ==> 1 <= d.minutes <= 60 && SendDecision(row, now + 60_000 * d.minutes).Send?
                             && SendDecision(row, now + 60_000 * (d.minutes - 1)).Limit?)
  {
  }

  // ---- Nine or ten in an hour ----

  /** A mail at minute 0, which goes out or fails, then ten calls a minute apart
      from minute 55. */
  function Minute(k: nat): Millis {
    60_000 * if k == 0 then 0 else 54 + k
  }

  function Call(drawn: string, works: bool, k: nat): Event {
    SendCall(drawn, k != 0 || works, Minute(k))
  }

  function Calls(drawn: string, works: bool, n: nat): (events: seq<Event>)
    ensures |events| == n && forall k :: 0 <= k < n ==> events[k] == Call(drawn, works, k)
  {
    if n == 0 then [] else Calls(drawn, works, n - 1) + [Call(drawn, works, n - 1)]
  }

  /** When the first mail goes out its window is full one call earlier. */
  predicate Refused(works: bool, k: nat) {
    works && k == 5
  }

  function RowSent(drawn: string, at: Millis, window: Millis, count: nat): Row {
    Some(CodeState(Some(drawn), Some(at + CODE_TTL_MS), 0, Some(at), Some(window), count, at))
  }

  /** The row after n of the calls. */
  function RowAfter(drawn: string, works: bool, n: nat): Row {
    if n == 0 then None
    else if n == 1 && !works then Some(CodeState(None, None, 0, None, Some(0), 0, 0))
    else if Refused(works, n - 1) then RowSent(drawn, Minute(4), Minute(0), 5)
    else if n <= 6 then RowSent(drawn, Minute(n - 1), Minute(0), if works then n else n - 1)
    else RowSent(drawn, Minute(n - 1), Minute(6), n - 6)
  }

  function LogAfter(works: bool, n: nat): seq<Delivery> {
    if n == 0 then []
    else if Refused(works, n - 1) || (n == 1 && !works) then LogAfter(works, n - 1)
    else LogAfter(works, n - 1) + [Delivery(Minute(n - 1), if n <= 6 then Minute(0) else Minute(6))]
  }

  lemma CallStep(drawn: string, works: bool, n: nat)
    requires n <= 10
    ensures Step(RowAfter(drawn, works, n), Call(drawn, works, n)).row == RowAfter(drawn, works, n + 1)
    ensures LogAfter(works, n) + Delivered(RowAfter(drawn, works, n), Call(drawn, works, n)) == LogAfter(works, n + 1)
  {
  }

  lemma OneMore(events: seq<Event>, e: Event)
    ensures Run(events + [e]) == Step(Run(events), e).row
    ensures Deliveries(events + [e]) == Deliveries(events) + Delivered(Run(events), e)
  {
    assert (events + [e])[..|events|] == events;
  }

  lemma {:induction false} CallsRun(drawn: string, works: bool, n: nat)
    requires n <= 11
    ensures Run(Calls(drawn, works, n)) == RowAfter(drawn, works, n)
    ensures Deliveries(Calls(drawn, works, n)) == LogAfter(works, n)
  {
    if n > 0 {
      CallsRun(drawn, works, n - 1);
      OneMore(Calls(drawn, works, n - 1), Call(drawn, works, n - 1));
      CallStep(drawn, works, n - 1);
    }
  }

  lemma {:induction false} AllInHour(works: bool, n: nat)
    requires n <= 11
    ensures InHour(LogAfter(works, n), Minute(1)) == if n == 0 then 0 else if works && n >= 6 then n - 2 else n - 1
  {
    if n > 0 {
      AllInHour(works, n - 1);
      var log := LogAfter(works, n);
      if log != LogAfter(works, n - 1) { assert log[..|log| - 1] == LogAfter(works, n - 1); }
    }
  }

  lemma HourOfCalls(works: bool) returns (events: seq<Event>)
    ensures InOrder(events) && (works ==> MailWorks(events))
    ensures InHour(Deliveries(events), Minute(1)) == if works then 9 else 10
  {
    var drawn, n: nat := "000000", 11;
    CallsRun(drawn, works, n);
    AllInHour(works, n);
    events := Calls(drawn, works, n);
  }

  /** A failed mail opens a window; five codes arrive in its last minutes and five
      more at the start of the next. */
  lemma TenCanArriveInAnHour()
    ensures exists events, from :: InOrder(events) && InHour(Deliveries(events), from) == 10
  {
    var events := HourOfCalls(false);
    assert InHour(Deliveries(events), Minute(1)) == 10;
  }

  /** With no mail failing, four codes arrive at the end of a window and five in the next. */
  lemma NineCanArriveWhenMailWorks()
    ensures exists events, from ::
        InOrder(events) && MailWorks(events) && InHour(Deliveries(events), from) == 9
  {
    var events := HourOfCalls(true);
    assert InHour(Deliveries(events), Minute(1)) == 9;
  }

  ghost predicate MailWorks(events: seq<Event>) {
    forall i :: 0 <= i < |events| && events[i].SendCall? ==> events[i].delivered
  }

  /** The first code of every window arrived as it opened. */
  ghost predicate Anchored(log: seq<Delivery>) {
    forall i :: 0 <= i < |log| ==> Delivery(log[i].window, log[i].window) in log
  }

  ghost predicate RowAnchored(row: Row, log: seq<Delivery>) {
    row.Some? && row.value.windowStart.Some? ==>
        Delivery(row.value.windowStart.value, row.value.windowStart.value) in log
  }

  lemma {:induction false} WorkingMailAnchors(events: seq<Event>)
    requires MailWorks(events)
    ensures Anchored(Deliveries(events)) && RowAnchored(Run(events), Deliveries(events))
  {
    if events != [] {
      var before, e := events[..|events| - 1], events[|events| - 1];
      WorkingMailAnchors(before);
      var log := Deliveries(before);
      assert Deliveries(events) == log + Delivered(Run(before), e);
      assert forall d :: d in log ==> d in Deliveries(events);
      if e.SendCall? && SendDecision(Run(before), e.now).Send? {
        var d := Delivery(e.now, SendDecision(Run(before), e.now).windowStart);
        assert Delivered(Run(before), e) == [d] && d in Deliveries(events);
      }
    }
  }

  lemma {:induction false} TwoWindowsAndOneOutside(log: seq<Delivery>, from: Millis, a: Millis, b: Millis,
                                                   out: Delivery)
    requires forall i :: 0 <= i < |log| && from <= log[i].at < from + HOUR_MS ==>
        log[i].window == a || log[i].window == b
    requires out in log && out.window == a && out.at < from
    ensures InHour(log, from) + 1 <= CountedIn(log, a) + CountedIn(log, b)
  {
    var front := log[..|log| - 1];
    if log[|log| - 1] == out {
      TwoWindowsCover(front, from, a, b);
    } else {
      assert out in front;
      TwoWindowsAndOneOutside(front, from, a, b, out);
    }
  }

  /** While every mail goes out, at most nine codes arrive in any hour. */
  lemma NinePerHourWhenMailWorks(events: seq<Event>, from: Millis)
    requires InOrder(events) && MailWorks(events)
    ensures InHour(Deliveries(events), from) <= 9
  {
    RunKeeps(events, if events == [] then 0 else events[|events| - 1].now);
    WorkingMailAnchors(events);
    NineInHour(Deliveries(events), from);
  }

  ghost predicate Within(d: Delivery, from: Millis) {
    from <= d.at < from + HOUR_MS
  }

  /** The earlier of two windows met by an hour opened before the hour did. */
  lemma EarlierOpenedBefore(log: seq<Delivery>, from: Millis, i: nat, j: nat)
    requires Windowed(log) && Anchored(log) && i < |log| && j < |log|
    requires Within(log[i], from) && Within(log[j], from) && log[i].window < log[j].window
    ensures InHour(log, from) + 1 <= CountedIn(log, log[i].window) + CountedIn(log, log[j].window)
  {
    var early, late := log[i].window, log[j].window;
    assert early + HOUR_MS <= late;
    forall k | 0 <= k < |log| && Within(log[k], from) ensures log[k].window == early || log[k].window == late {
      assert k < i || i < k || k == i;
      assert k < j || j < k || k == j;
    }
    TwoWindowsAndOneOutside(log, from, early, late, Delivery(early, early));
  }

  lemma {:induction false} OneWindowCovers(log: seq<Delivery>, from: Millis, a: Millis)
    requires forall i :: 0 <= i < |log| && Within(log[i], from) ==> log[i].window == a
    ensures InHour(log, from) <= CountedIn(log, a)
  {
    if log != [] { OneWindowCovers(log[..|log| - 1], from, a); }
  }

  lemma NineInHour(log: seq<Delivery>, from: Millis)
    requires Windowed(log) && Anchored(log) && forall w :: CountedIn(log, w) <= MAX_SENDS_PER_WINDOW
    ensures InHour(log, from) < 2 * MAX_SENDS_PER_WINDOW
  {
    if i, j :|
      0 <= i < |log| && 0 <= j < |log| && Within(log[i], from) && Within(log[j], from) && log[i].window < log[j].window
    {
      EarlierOpenedBefore(log, from, i, j);
    } else if i :| 0 <= i < |log| && Within(log[i], from) {
      OneWindowCovers(log, from, log[i].window);
    } else {
      OneWindowCovers(log, from, 0);
    }
  }

  // ---- Guesses ----

  datatype Issue = Issue(code: string, at: Millis)

  /** The last code that arrived. */
  function LastIssue(events: seq<Event>): Option<Issue> {
    if events == [] then None
    else
      var before, e := events[..|events| - 1], events[|events| - 1];
      if e.SendCall? && Step(Run(before), e).reply.Sent? then Some(Issue(e.drawn, e.now)) else LastIssue(before)
  }

  /** Wrong guesses compared with a code since the last one arrived. */
  function WrongGuesses(events: seq<Event>): nat {
    if events == [] then 0
    else
      var before, reply := events[..|events| - 1], Step(Run(events[..|events| - 1]), events[|events| - 1]).reply;
      if reply.Sent? then 0
      else WrongGuesses(before) + if reply.Wrong? || reply.WrongAndCancelled? then 1 else 0
  }

  /** Times a code was accepted since the last one arrived. */
  function Acceptances(events: seq<Event>): nat {
    if events == [] then 0
    else
      var before, reply := events[..|events| - 1], Step(Run(events[..|events| - 1]), events[|events| - 1]).reply;
      if reply.Sent? then 0 else Acceptances(before) + if reply.Accepted? then 1 else 0
  }

  lemma {:induction false} StandingCode(events: seq<Event>)
    ensures var row := Run(events);
            && WrongGuesses(events) <= MAX_ATTEMPTS && Acceptances(events) <= 1
            && (row.Some? && row.value.code.Some? ==>
                  && row.value.sentAt.Some? && row.value.expiresAt == Some(row.value.sentAt.value + CODE_TTL_MS)
                  && LastIssue(events) == Some(Issue(row.value.code.value, row.value.sentAt.value))
                  && WrongGuesses(events) == row.value.attempts < MAX_ATTEMPTS && Acceptances(events) == 0)
  {
    if events != [] { StandingCode(events[..|events| - 1]); }
  }

  /** No code is compared with more than five wrong guesses, and none is accepted twice. */
  lemma FiveGuessesOneUse(events: seq<Event>)
    ensures WrongGuesses(events) <= 5 && Acceptances(events) <= 1
  {
    StandingCode(events);
  }

  /** Whether a mail has failed since the last code arrived. */
  predicate FailedSince(events: seq<Event>) {
    events != []
    && var before, reply := events[..|events| - 1], Step(Run(events[..|events| - 1]), events[|events| - 1]).reply;
       !reply.Sent? && (reply.Undelivered? || FailedSince(before))
  }

  /** The last code that arrived was not used, no later mail failed, and fewer
      than five wrong guesses were made of it. */
  predicate Unspent(events: seq<Event>) {
    LastIssue(events).Some? && Acceptances(events) == 0 && !FailedSince(events) && WrongGuesses(events) < 5
  }

  const TEN_MINUTES_MS: Millis := 600_000

  /** An unspent code that arrived less than ten minutes ago. */
  predicate Usable(events: seq<Event>, now: Millis) {
    Unspent(events) && now < LastIssue(events).value.at + TEN_MINUTES_MS
  }

  ghost predicate Stands(row: Row, issue: Issue) {
    row.Some? && row.value.code == Some(issue.code) && row.value.sentAt == Some(issue.at)
  }

  lemma {:induction false} UsableStands(events: seq<Event>, now: Millis)
    requires After(events, now) && Usable(events, now)
    ensures Stands(Run(events), LastIssue(events).value)
  {
    var before, e := events[..|events| - 1], events[|events| - 1];
    if !(e.SendCall? && Step(Run(before), e).reply.Sent?) {
      assert Usable(before, e.now);
      UsableStands(before, e.now);
      StandingCode(before);
      RunKeeps(before, e.now);
    }
  }

  /** A guess is accepted exactly when it is the last code that arrived and that is usable. */
  lemma {:induction false} AcceptedIsTheLastCode(events: seq<Event>, given: string, now: Millis)
    requires After(events, now)
    ensures VerifyCode(Run(events), given, now).reply.Accepted?
            <==> Usable(events, now) && LastIssue(events).value.code == given
  {
    StandingCode(events);
    StandingNotFailed(events);
    if Usable(events, now) { UsableStands(events, now); }
  }

  lemma {:induction false} StandingNotFailed(events: seq<Event>)
    ensures Run(events).Some? && Run(events).value.code.Some? ==> !FailedSince(events)
  {
    if events != [] { StandingNotFailed(events[..|events| - 1]); }
  }

  /** Without a purge an unspent code stays in the row, however old. */
  lemma {:induction false} UnspentStands(events: seq<Event>)
    requires Unspent(events) && forall i :: 0 <= i < |events| ==> !events[i].PurgeCall?
    ensures Stands(Run(events), LastIssue(events).value)
  {
    var before, e := events[..|events| - 1], events[|events| - 1];
    if !(e.SendCall? && Step(Run(before), e).reply.Sent?) {
      UnspentStands(before);
      StandingCode(before);
    }
  }

  /** Every answer to a guess: a usable code is accepted or the guesses left are
      told; with five wrong ones it is cancelled; a code that is there but ten
      minutes old has expired. */
  lemma {:induction false} GuessAnswers(events: seq<Event>, given: string, now: Millis)
    requires After(events, now)
    ensures var reply := Step(Run(events), VerifyCall(given, now)).reply;
            if Usable(events, now)
            then reply == if given == LastIssue(events).value.code then Accepted
                          else if WrongGuesses(events) == 4 then WrongAndCancelled
                          else Wrong(4 - WrongGuesses(events))
            else
              && (reply == Unchecked(NoCode) || (reply == Unchecked(Expired) && Unspent(events)))
              && (Unspent(events) && (forall i :: 0 <= i < |events| ==> !events[i].PurgeCall?) ==>
                    reply == Unchecked(Expired))
  {
    StandingCode(events);
    StandingNotFailed(events);
    if Usable(events, now) {
      UsableStands(events, now);
    } else if Unspent(events) && forall i :: 0 <= i < |events| ==> !events[i].PurgeCall? {
      UnspentStands(events);
    }
  }

  // ---- Every answer to a request for a code ----

  /** A usable code arrived less than a minute ago. */
  predicate JustArrived(events: seq<Event>, now: Millis) {
    Usable(events, now) && now < LastIssue(events).value.at + 60_000
  }

  /** Five codes arrived in a window that is not over. */
  ghost predicate FiveArrived(events: seq<Event>, window: Millis, now: Millis) {
    now < window + HOUR_MS && CountedIn(Deliveries(events), window) == 5
  }

  lemma CoolingIs(events: seq<Event>, now: Millis)
    requires After(events, now)
    ensures Run(events).Some? && Cooling(Run(events).value, now) <==> JustArrived(events, now)
    ensures JustArrived(events, now) ==> Run(events).value.sentAt == Some(LastIssue(events).value.at)
  {
    StandingCode(events);
    StandingNotFailed(events);
    RunKeeps(events, now);
    if Usable(events, now) { UsableStands(events, now); }
  }

  lemma LimitIs(events: seq<Event>, now: Millis)
    requires After(events, now)
    ensures var row := Run(events);
            (exists w :: FiveArrived(events, w, now))
            <==> row.Some? && InWindow(row.value, now) && row.value.windowCount == 5
    ensures forall w :: FiveArrived(events, w, now) ==> Run(events).Some? && Run(events).value.windowStart == Some(w)
  {
    var row, log := Run(events), Deliveries(events);
    RunKeeps(events, now);
    forall w | FiveArrived(events, w, now) ensures row.Some? && row.value.windowStart == Some(w) {
      if forall i :: 0 <= i < |log| ==> log[i].window != w { CountOfNone(log, w); }
    }
    if row.Some? && InWindow(row.value, now) && row.value.windowCount == 5 {
      assert FiveArrived(events, row.value.windowStart.value, now);
    }
  }

  /** A request is told to wait exactly while the last code is usable and less than
      a minute old, and is refused otherwise exactly while five codes have arrived
      in a window not over; any other is mailed. The seconds and minutes told are
      the least whole ones. */
  lemma RequestAnswers(events: seq<Event>, drawn: string, delivered: bool, now: Millis)
    requires After(events, now)
    ensures var reply := Step(Run(events), SendCall(drawn, delivered, now)).reply;
            if JustArrived(events, now)
            then && reply.AskedTooSoon?
                 && var left := LastIssue(events).value.at + 60_000 - now;
                    1000 * (reply.seconds - 1) < left <= 1000 * reply.seconds
            else if exists w :: FiveArrived(events, w, now)
            then && reply.SendLimit?
                 && forall w :: FiveArrived(events, w, now) ==>
                      60_000 * (reply.minutes - 1) < w + HOUR_MS - now <= 60_000 * reply.minutes
            else reply == if delivered then Sent else Undelivered
  {
    CoolingIs(events, now);
    LimitIs(events, now);
    RunKeeps(events, now);
  }

  /** A send is refused for the limit exactly when no usable code arrived less
      than a minute ago and five codes have arrived in a window not yet over. */
  lemma {:induction false} LimitMeansFive(events: seq<Event>, now: Millis)
    requires After(events, now)
    ensures SendDecision(Run(events), now).Limit?
            <==> !JustArrived(events, now) && exists w :: FiveArrived(events, w, now)
  {
    CoolingIs(events, now);
    LimitIs(events, now);
    RunKeeps(events, now);
  }

  /** Two codes less than a minute apart do not both arrive while the first is usable. */
  lemma {:induction false} NoSecondCodeSoon(events: seq<Event>, drawn: string, now: Millis)
    requires After(events, now) && Usable(events, now)
    requires Step(Run(events), SendCall(drawn, true, now)).reply == Sent
    ensures LastIssue(events).value.at + 60_000 <= now
  {
    RequestAnswers(events, drawn, true, now);
  }

  // ---- The row ----

  /** A mailed code is stored with ten minutes to run and no guesses made; a mail
      that failed leaves no code; a code accepted or cancelled is gone. */
  lemma CallsWrite(row: Row, e: Event)
    ensures var after := Step(row, e);
            match after.reply
            case Sent =>
              && e.SendCall? && after.row.Some? && after.row.value.code == Some(e.drawn)
              && after.row.value.expiresAt == Some(e.now + TEN_MINUTES_MS) && after.row.value.attempts == 0
              && after.row.value.sentAt == Some(e.now)
            case Undelivered =>
              && after.row.Some? && after.row.value.code == None && after.row.value.expiresAt == None
              && after.row.value.attempts == 0 && after.row.value.sentAt == None
            case Accepted =>
              && row.Some? && after.row == Some(row.value.(code := None, expiresAt := None, attempts := 0,
                   updatedAt := e.now))
            case WrongAndCancelled =>
              && row.Some? && after.row == Some(row.value.(code := None, expiresAt := None,
                   attempts := row.value.attempts + 1, updatedAt := e.now))
            case Wrong(_) =>
              row.Some? && after.row == Some(row.value.(attempts := row.value.attempts + 1, updatedAt := e.now))
            case Purged(_) => e.PurgeCall?
            case _ => after.row == row
  {
  }

  /** A row is forgotten exactly a day after its last change; a change is dated. */
  lemma RowsAreDated(row: Row, e: Event)
    ensures var after := Step(row, e).row;
            && (e.PurgeCall? ==> after == if row.Some? && row.value.updatedAt + 86_400_000 < e.now then None else row)
            && (!e.PurgeCall? && after != row ==> after.Some? && after.value.updatedAt == e.now)
            && (Step(row, e).reply in {Sent, Undelivered} ==> after.Some? && after.value.updatedAt == e.now)
  {
  }

  // ---- The purge ----

  function WithoutPurges(events: seq<Event>): seq<Event> {
    if events == [] then []
    else
      var before := WithoutPurges(events[..|events| - 1]);
      if events[|events| - 1].PurgeCall? then before else before + [events[|events| - 1]]
  }

  function Replies(events: seq<Event>): seq<Reply> {
    if events == [] then []
    else
      var before, e := events[..|events| - 1], events[|events| - 1];
      Replies(before) + if e.PurgeCall? then [] else [Step(Run(before), e).reply]
  }

  /** The same reply, but that a code said to have expired may be said not to be there. */
  predicate Same(reply: Reply, unpurged: Reply) {
    reply == unpurged || (reply == Unchecked(NoCode) && unpurged == Unchecked(Expired))
  }

  ghost predicate AllSame(replies: seq<Reply>, unpurged: seq<Reply>) {
    |replies| == |unpurged| && forall i :: 0 <= i < |replies| ==> Same(replies[i], unpurged[i])
  }

  /** The same row, or none for one untouched for a day. */
  ghost predicate Alike(row: Row, kept: Row, now: Millis) {
    Sound(kept, now) && (row == kept || (row.None? && kept.Some? && kept.value.updatedAt < now - KEEP_MS))
  }

  /** Purging changes no later decision to send, and no check of a code but for
      which of the two ways it says there is none to check. */
  lemma PurgedRowActsTheSame(row: Row, kept: Row, e: Event)
    requires Alike(row, kept, e.now) && !e.PurgeCall?
    ensures Same(Step(row, e).reply, Step(kept, e).reply) && Alike(Step(row, e).row, Step(kept, e).row, e.now)
    ensures SendDecision(row, e.now) == SendDecision(kept, e.now)
  {
    SoundStays(kept, e);
  }

  lemma PurgeKeepsAlike(row: Row, kept: Row, e: Event)
    requires Alike(row, kept, e.now) && e.PurgeCall?
    ensures Alike(Step(row, e).row, kept, e.now)
  {
  }

  lemma {:induction false} PurgeIsInvisibleAt(events: seq<Event>, now: Millis)
    requires After(events, now)
    ensures Alike(Run(events), Run(WithoutPurges(events)), now)
    ensures AllSame(Replies(events), Replies(WithoutPurges(events)))
  {
    if events != [] {
      var before, e := events[..|events| - 1], events[|events| - 1];
      PurgeIsInvisibleAt(before, e.now);
      var kept := WithoutPurges(before);
      if e.PurgeCall? {
        PurgeKeepsAlike(Run(before), Run(kept), e);
      } else {
        assert (kept + [e])[..|kept|] == kept;
        PurgedRowActsTheSame(Run(before), Run(kept), e);
      }
    }
  }

  /** Over any run, applicants get the replies they would get were nothing ever
      purged, but that a code may be said not to be there that would be said to
      have expired. */
  lemma PurgeIsInvisible(events: seq<Event>)
    requires InOrder(events)
    ensures AllSame(Replies(events), Replies(WithoutPurges(events)))
  {
    PurgeIsInvisibleAt(events, if events == [] then 0 else events[|events| - 1].now);
  }
}
