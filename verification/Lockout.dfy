/** Wrong passwords counted against an account, and its lock
    (src/modules/auth/auth.service.ts). */
module Lockout {
  import opened Optional

  type Millis = int

  datatype Account = Account(active: bool, failures: nat, lockedUntil: Option<Millis>)

  /** MAX_FAILED_LOGINS and LOCKOUT_MINUTES, both read from the environment. */
  datatype Policy = Policy(max: nat, lockMs: nat)

  datatype Reply = Locked(minutes: int) | Invalid | Counted(locks: bool) | SignedIn | Cleared | StatusSet

  datatype Outcome = Outcome(account: Account, reply: Reply)

  predicate IsLocked(a: Account, now: Millis) {
    a.lockedUntil.Some? && a.lockedUntil.value > now
  }

  /** The lock's minutes left, rounded up. */
  function MinutesLeft(until: Millis, now: Millis): int {
    var m := (until - now + 59_999) / 60_000;
    if m < 1 then 1 else m
  }

  function Failed(a: Account, p: Policy, now: Millis): Account {
    if a.failures + 1 >= p.max then a.(failures := 0, lockedUntil := Some(now + p.lockMs))
    else a.(failures := a.failures + 1)
  }

  /** valid: the password matches; stored: the database takes the write, without
      which the row keeps its values and the reply is the same. */
  function Login(a: Account, p: Policy, valid: bool, stored: bool, now: Millis): Outcome {
    if IsLocked(a, now) then Outcome(a, Locked(MinutesLeft(a.lockedUntil.value, now)))
    else if !a.active then Outcome(a, Invalid)
    else if !valid then
      if stored then Outcome(Failed(a, p, now), Counted(a.failures + 1 >= p.max)) else Outcome(a, Invalid)
    else Outcome(if stored then a.(failures := 0, lockedUntil := None) else a, SignedIn)
  }

  datatype Event =
    | LoginCall(valid: bool, stored: bool, now: Millis)
    | ResetCall(now: Millis)
    | StatusCall(active: bool, now: Millis)

  function Step(a: Account, p: Policy, e: Event): Outcome {
    match e
    case LoginCall(valid, stored, now) => Login(a, p, valid, stored, now)
    case ResetCall(now) => Outcome(a.(failures := 0, lockedUntil := None), Cleared)
    case StatusCall(active, now) => Outcome(a.(active := active), StatusSet)
  }

  const NEW_ACCOUNT := Account(true, 0, None)

  function Run(p: Policy, events: seq<Event>): Account {
    if events == [] then NEW_ACCOUNT else Step(Run(p, events[..|events| - 1]), p, events[|events| - 1]).account
  }

  function LastReply(p: Policy, events: seq<Event>): Reply
    requires events != []
  {
    Step(Run(p, events[..|events| - 1]), p, events[|events| - 1]).reply
  }

  ghost predicate InOrder(events: seq<Event>) {
    forall i, j :: 0 <= i < j < |events| ==> events[i].now <= events[j].now
  }

  /** A lock refuses before anything else and an inactive account is refused like
      a wrong password, both without a trace; an active account's wrong password
      counts and at the limit locks, and its right one signs in and clears both.
      Without the write the row stays. */
  lemma LoginDoes(a: Account, p: Policy, valid: bool, stored: bool, now: Millis)
    ensures var after := Step(a, p, LoginCall(valid, stored, now));
            && after.account.active == a.active
            && (after.reply.Locked? <==> a.lockedUntil.Some? && now < a.lockedUntil.value)
            && (after.reply.Locked? ==>
                  var left := a.lockedUntil.value - now;
                  60_000 * (after.reply.minutes - 1) < left <= 60_000 * after.reply.minutes)
            && (after.reply == SignedIn <==> !after.reply.Locked? && a.active && valid)
            && (after.reply.Counted? <==> !after.reply.Locked? && a.active && !valid && stored)
            && (after.reply.Counted? ==> (after.reply.locks <==> p.max <= a.failures + 1))
            && (!after.reply.Locked? && !after.reply.SignedIn? && !after.reply.Counted? ==> after.reply == Invalid)
            && after.account.failures
               == (if after.reply == SignedIn && stored then 0
                   else if after.reply == Counted(true) then 0
                   else if after.reply == Counted(false) then a.failures + 1
                   else a.failures)
            && after.account.lockedUntil
               == (if after.reply == SignedIn && stored then None
                   else if after.reply == Counted(true) then Some(now + p.lockMs)
                   else a.lockedUntil)
  {
  }

  /** A reset clears counter and lock and no more; a change of status changes only that. */
  lemma OtherCallsDo(a: Account, p: Policy, active: bool, now: Millis)
    ensures var reset, status := Step(a, p, ResetCall(now)).account, Step(a, p, StatusCall(active, now)).account;
            && reset.active == a.active && reset.failures == 0 && reset.lockedUntil == None
            && status.active == active && status.failures == a.failures && status.lockedUntil == a.lockedUntil
  {
  }

  // ---- The counting bound ----

  /** The counter never reaches the limit: reaching it locks and starts again. */
  lemma {:induction false} CounterStaysBelow(p: Policy, events: seq<Event>)
    requires p.max >= 1
    ensures Run(p, events).failures < p.max
  {
    if events != [] { CounterStaysBelow(p, events[..|events| - 1]); }
  }

  predicate Within(e: Event, p: Policy, from: Millis) {
    from <= e.now < from + p.lockMs
  }

  /** Wrong passwords counted in [from, from + lockMs). */
  function CountedWithin(p: Policy, events: seq<Event>, from: Millis): nat {
    if events == [] then 0
    else
      CountedWithin(p, events[..|events| - 1], from)
      + if Within(events[|events| - 1], p, from) && LastReply(p, events).Counted? then 1 else 0
  }

  /** No sign-in and no reset in [from, from + lockMs). */
  predicate QuietWithin(p: Policy, events: seq<Event>, from: Millis) {
    events == []
    || (QuietWithin(p, events[..|events| - 1], from)
        && (Within(events[|events| - 1], p, from) ==>
            !LastReply(p, events).SignedIn? && !LastReply(p, events).Cleared?))
  }

  /** So far in the interval: no lock set, and all counted are in the counter; or
      locked beyond its end. */
  ghost predicate WithinLimit(p: Policy, a: Account, counted: nat, from: Millis) {
    counted <= a.failures || (counted <= p.max && a.lockedUntil.Some? && from + p.lockMs <= a.lockedUntil.value)
  }

  lemma StepStaysWithin(p: Policy, a: Account, e: Event, counted: nat, from: Millis)
    requires p.max >= 1 && a.failures < p.max && Within(e, p, from) && WithinLimit(p, a, counted, from)
    requires !Step(a, p, e).reply.SignedIn? && !Step(a, p, e).reply.Cleared?
    ensures WithinLimit(p, Step(a, p, e).account, counted + if Step(a, p, e).reply.Counted? then 1 else 0, from)
  {
  }

  lemma {:induction false} NoneCountedBefore(p: Policy, events: seq<Event>, from: Millis)
    requires forall i :: 0 <= i < |events| ==> !Within(events[i], p, from)
    ensures CountedWithin(p, events, from) == 0
  {
    if events != [] { NoneCountedBefore(p, events[..|events| - 1], from); }
  }

  lemma {:induction false} LimitHolds(p: Policy, events: seq<Event>, from: Millis)
    requires p.max >= 1 && InOrder(events) && QuietWithin(p, events, from)
    ensures CountedWithin(p, events, from) <= p.max
    ensures events != [] && events[|events| - 1].now < from + p.lockMs
            ==> WithinLimit(p, Run(p, events), CountedWithin(p, events, from), from)
  {
    if events != [] {
      var before, e := events[..|events| - 1], events[|events| - 1];
      LimitHolds(p, before, from);
      CounterStaysBelow(p, before);
      CounterStaysBelow(p, events);
      if e.now < from {
        NoneCountedBefore(p, events, from);
      } else if Within(e, p, from) {
        StepStaysWithin(p, Run(p, before), e, CountedWithin(p, before, from), from);
      }
    }
  }

  /** In any lock's length of time without a sign-in or reset, at most the limit
      of wrong passwords are counted. */
  lemma AtMostTheLimit(p: Policy, events: seq<Event>, from: Millis)
    requires p.max >= 1 && InOrder(events) && QuietWithin(p, events, from)
    ensures CountedWithin(p, events, from) <= p.max
  {
    LimitHolds(p, events, from);
  }

  // ---- The lock ----

  /** While locked, a right password is refused like a wrong one and nothing
      changes; the minutes told are the least whole ones that are enough. */
  lemma LockedChangesNothing(a: Account, p: Policy, valid: bool, stored: bool, now: Millis)
    requires IsLocked(a, now)
    ensures var minutes := MinutesLeft(a.lockedUntil.value, now);
            && Login(a, p, valid, stored, now) == Outcome(a, Locked(minutes))
            && !IsLocked(a, now + 60_000 * minutes) && IsLocked(a, now + 60_000 * (minutes - 1))
  {
  }

  function Wrongs(n: nat, now: Millis): seq<Event> {
    if n == 0 then [] else Wrongs(n - 1, now) + [LoginCall(false, true, now)]
  }

  lemma {:induction false} WrongsCount(p: Policy, n: nat, now: Millis)
    requires n < p.max
    ensures Run(p, Wrongs(n, now)) == NEW_ACCOUNT.(failures := n)
    ensures p.lockMs > 0 ==> CountedWithin(p, Wrongs(n, now), now) == n
  {
    if n > 0 { WrongsCount(p, n - 1, now); }
  }

  /** The limit is reached: that many wrong passwords in a row are counted, and
      lock the account against the right one for the lock's whole length. */
  lemma TheLimitLocks(p: Policy, now: Millis, later: Millis)
    requires p.max >= 1 && p.lockMs > 0 && now <= later < now + p.lockMs
    ensures var events := Wrongs(p.max, now);
            CountedWithin(p, events, now) == p.max && Login(Run(p, events), p, true, true, later).reply.Locked?
  {
    WrongsCount(p, p.max - 1, now);
  }

  // ---- Conservation ----

  function CountedIn(p: Policy, events: seq<Event>): nat {
    if events == [] then 0 else CountedIn(p, events[..|events| - 1]) + if LastReply(p, events).Counted? then 1 else 0
  }

  function LocksIn(p: Policy, events: seq<Event>): nat {
    if events == [] then 0
    else LocksIn(p, events[..|events| - 1]) + if LastReply(p, events) == Counted(true) then 1 else 0
  }

  predicate NeverCleared(p: Policy, events: seq<Event>) {
    events == []
    || (NeverCleared(p, events[..|events| - 1]) && !LastReply(p, events).SignedIn? && !LastReply(p, events).Cleared?)
  }

  lemma OneMoreLock(max: nat, locks: nat)
    ensures max * (locks + 1) == max * locks + max
  {
  }

  /** Until something clears it, every counted password is in the counter or was
      spent, the limit of them at a time, on a lock. */
  lemma {:induction false} CountsAreConserved(p: Policy, events: seq<Event>)
    requires p.max >= 1 && NeverCleared(p, events)
    ensures CountedIn(p, events) == p.max * LocksIn(p, events) + Run(p, events).failures
  {
    if events != [] {
      var before := events[..|events| - 1];
      CountsAreConserved(p, before);
      CounterStaysBelow(p, before);
      OneMoreLock(p.max, LocksIn(p, before));
    }
  }

  // ---- The service ----

  class AccountRow {
    const policy: Policy
    var active: bool
    var failures: nat
    var lockedUntil: Option<Millis>

    ghost function Contents(): Account
      reads this
    {
      Account(active, failures, lockedUntil)
    }

    ghost predicate Valid()
      reads this
    {
      failures < policy.max
    }

    constructor (policy: Policy)
      requires policy.max >= 1
      ensures this.policy == policy && Contents() == NEW_ACCOUNT && Valid()
    {
      this.policy := policy;
      active, failures, lockedUntil := true, 0, None;
    }

    method RecordFailedLogin(stored: bool, now: Millis)
      requires Valid()
      modifies this`failures, this`lockedUntil
      ensures Valid() && Contents() == if stored then Failed(old(Contents()), policy, now) else old(Contents())
    {
      var attempts := failures + 1;
      var locks := attempts >= policy.max;
      if stored {
        failures := if locks then 0 else attempts;
        lockedUntil := if locks then Some(now + policy.lockMs) else lockedUntil;
      }
    }

    method ClearFailedLogins(stored: bool)
      requires Valid()
      modifies this`failures, this`lockedUntil
      ensures Valid() && Contents() == if stored then old(Contents()).(failures := 0, lockedUntil := None)
                                          else old(Contents())
    {
      if failures == 0 && lockedUntil.None? { return; }
      if stored { failures, lockedUntil := 0, None; }
    }

    method TryPassword(valid: bool, stored: bool, now: Millis) returns (reply: Reply)
      requires Valid()
      modifies this`failures, this`lockedUntil
      ensures Valid() && Outcome(Contents(), reply) == Login(old(Contents()), policy, valid, stored, now)
    {
      if lockedUntil.Some? && lockedUntil.value > now { return Locked(MinutesLeft(lockedUntil.value, now)); }
      if !active || !valid {
        if active {
          reply := if stored then Counted(failures + 1 >= policy.max) else Invalid;
          RecordFailedLogin(stored, now);
          return;
        }
        return Invalid;
      }
      ClearFailedLogins(stored);
      reply := SignedIn;
    }

    method ResetPassword()
      requires Valid()
      modifies this`failures, this`lockedUntil
      ensures Valid() && Contents() == old(Contents()).(failures := 0, lockedUntil := None)
    {
      failures, lockedUntil := 0, None;
    }
  }
}
