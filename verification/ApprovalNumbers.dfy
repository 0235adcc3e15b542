/** How the sheets of a run are numbered. */
module ApprovalNumbers {
  import opened Optional
  import opened ApprovalSheets
  import opened Decimal
  import opened SheetReferences

  lemma AnsweringKeepsReferences(t: Tables, token: Token, d: Decision, directory: seq<Person>, now: Millis)
    ensures var after := SubmitSheetVote(t, token, d, directory, now);
            References(after.tables.sheets) == References(t.sheets) && !after.reply.SheetSent?
  {
  }

  lemma {:induction false} NewSheetTakesNext(t: Tables, e: Event)
    ensures var after := Step(t, e);
            References(after.tables.sheets) ==
              if after.reply.SheetSent? && e.SendSheetCall?
              then References(t.sheets) + [Next(Prefix(e.roles.year), References(t.sheets))]
              else References(t.sheets)
    ensures Step(t, e).reply.SheetSent? ==>
              && e.SendSheetCall? && Step(t, e).reply.reference == Next(Prefix(e.roles.year), References(t.sheets))
              && Step(t, e).reply.reference !in References(t.sheets)
  {
    hide SubmitSheetVote;
    if e.SubmitSheetVoteCall? { AnsweringKeepsReferences(t, e.token, e.decision, e.directory, e.now); }
  }

  /** After every run each year's sheets are numbered 1, 2, 3 and so on in the
      order they were sent, whatever other years' sheets came between. */
  lemma {:induction false} YearsAreNumbered(events: seq<Event>)
    ensures Sequential(References(Run(EMPTY, events).sheets))
  {
    if events == [] {
      assert References(EMPTY.sheets) == [];
    } else {
      var before, e := events[..|events| - 1], events[|events| - 1];
      YearsAreNumbered(before);
      NewSheetTakesNext(Run(EMPTY, before), e);
      if Step(Run(EMPTY, before), e).reply.SheetSent? {
        AddingKeepsSequential(e.roles.year, References(Run(EMPTY, before).sheets));
      }
    }
  }

  /** The references of one year, of which there are at most ten thousand, are
      pairwise different by their numbers. */
  lemma {:induction false} YearsReferencesDiffer(events: seq<Event>, year: nat)
    ensures var mine := OfYear(Prefix(year), References(Run(EMPTY, events).sheets));
            |mine| <= PER_YEAR && forall i, j :: 0 <= i < j < |mine| ==> mine[i] != mine[j]
  {
    var mine := OfYear(Prefix(year), References(Run(EMPTY, events).sheets));
    YearsAreNumbered(events);
    assert InSequence(year, References(Run(EMPTY, events).sheets));
    forall i, j | 0 <= i < j < |mine| ensures mine[i] != mine[j] {
      NumbersDiffer(Prefix(year), i + 1, j + 1);
    }
  }

  /** Whatever is refused before a reference is looked for. */
  ghost predicate Sendable(t: Tables, e: Event) {
    && e.SendSheetCall? && e.ids != [] && e.boardMembers != [] && |Found(t.approvals, e.ids)| == |e.ids|
    && e.chro in e.roles.chroHolders
    && !(exists i :: i in e.ids && i < |t.approvals| && t.approvals[i].candidate !in e.roles.salaryFixed)
  }

  /** After every run a sheet that could be sent is refused exactly when ten
      thousand of its year have been sent; until then it gets the next number. */
  lemma {:induction false} SendingFailsAfterTenThousand(events: seq<Event>, e: Event)
    requires Sendable(Run(EMPTY, events), e)
    ensures var t := Run(EMPTY, events);
            var count := |OfYear(Prefix(e.roles.year), References(t.sheets))|;
            var reply := Step(t, e).reply;
            && (reply == Refused(ReferenceTaken) <==> count == PER_YEAR)
            && (count < PER_YEAR ==> reply.SheetSent? && reply.reference == Prefix(e.roles.year) + Padded(count + 1, 4))
  {
    YearsAreNumbered(events);
    var references := References(Run(EMPTY, events).sheets);
    assert InSequence(e.roles.year, references);
    NextIsTaken(e.roles.year, references);
    NextOfYear(e.roles.year, references);
  }

  // ---- A full year ----

  /** n sheets of one year, one candidate on each, and no candidate numbered n or above. */
  ghost predicate Holds(t: Tables, year: nat, n: nat) {
    && |OfYear(Prefix(year), References(t.sheets))| == n && |t.approvals| == n
    && forall i :: 0 <= i < n ==> t.approvals[i].candidate < n
  }

  /** The call that sends the one approval of row n for candidate n. */
  function Sending(year: nat, n: nat): Event {
    SendSheetCall([n], 0, [0], 0, Roles({0}, {n}, year), [], 0)
  }

  function Asking(n: nat): Event {
    SendForApprovalCall(n, 0, Facts(true, true, true))
  }

  /** Asking for one more candidate leaves a row that could be sent. */
  lemma AskingMakesSendable(t: Tables, year: nat, n: nat)
    requires Holds(t, year, n)
    ensures var asked := Step(t, Asking(n)).tables;
            && asked.sheets == t.sheets && Sendable(asked, Sending(year, n))
            && |asked.approvals| == n + 1 && forall i :: 0 <= i <= n ==> asked.approvals[i].candidate <= n
  {
    var asked := Step(t, Asking(n)).tables;
    assert Latest(t.approvals, n) == None;
    assert Waiting(asked.approvals, n);
    assert Found(asked.approvals, [n]) == {n};
  }

  lemma SendingKeepsCandidates(t: Tables, e: Event)
    requires e.SendSheetCall?
    ensures var after := Step(t, e).tables;
            |after.approvals| == |t.approvals|
            && forall i :: 0 <= i < |t.approvals| ==> after.approvals[i].candidate == t.approvals[i].candidate
  {
  }

  lemma OneMore(events: seq<Event>, e: Event)
    ensures Run(EMPTY, events + [e]) == Step(Run(EMPTY, events), e).tables
  {
    assert (events + [e])[..|events|] == events;
  }

  lemma OneMoreOfYear(prefix: string, references: seq<string>, r: string)
    requires prefix <= r
    ensures |OfYear(prefix, references + [r])| == |OfYear(prefix, references)| + 1
  {
    assert (references + [r])[..|references|] == references;
  }

  lemma {:induction false} SendingAddsOne(events: seq<Event>, year: nat, n: nat)
    requires n < PER_YEAR && Sendable(Run(EMPTY, events), Sending(year, n))
    requires |OfYear(Prefix(year), References(Run(EMPTY, events).sheets))| == n
    ensures |OfYear(Prefix(year), References(Step(Run(EMPTY, events), Sending(year, n)).tables.sheets))| == n + 1
  {
    var t, e := Run(EMPTY, events), Sending(year, n);
    SendingFailsAfterTenThousand(events, e);
    NewSheetTakesNext(t, e);
    OneMoreOfYear(Prefix(year), References(t.sheets), Next(Prefix(year), References(t.sheets)));
  }

  /** Every number of sheets up to ten thousand is reached in a year. */
  lemma {:induction false} YearFills(year: nat, n: nat) returns (events: seq<Event>)
    requires n <= PER_YEAR
    ensures Directories(events) && Holds(Run(EMPTY, events), year, n)
  {
    if n == 0 {
      events := [];
      assert References(EMPTY.sheets) == [];
    } else {
      var before := YearFills(year, n - 1);
      var asked := before + [Asking(n - 1)];
      events := asked + [Sending(year, n - 1)];
      OneMore(before, Asking(n - 1));
      OneMore(asked, Sending(year, n - 1));
      AskingMakesSendable(Run(EMPTY, before), year, n - 1);
      SendingAddsOne(asked, year, n - 1);
      SendingKeepsCandidates(Run(EMPTY, asked), Sending(year, n - 1));
    }
  }

  /** From empty tables: after ten thousand sheets of a year one more, which
      nothing else stands against, is refused. */
  lemma {:induction false} YearRunsOut(year: nat) returns (events: seq<Event>, e: Event)
    ensures Directories(events) && Sendable(Run(EMPTY, events), e) && e.roles.year == year
    ensures |OfYear(Prefix(year), References(Run(EMPTY, events).sheets))| == PER_YEAR
    ensures Step(Run(EMPTY, events), e).reply == Refused(ReferenceTaken)
  {
    var n := PER_YEAR;
    var full := YearFills(year, n);
    events, e := full + [Asking(n)], Sending(year, n);
    OneMore(full, Asking(n));
    AskingMakesSendable(Run(EMPTY, full), year, n);
    SendingFailsAfterTenThousand(events, e);
  }
}
