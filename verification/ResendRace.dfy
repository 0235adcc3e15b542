/** A resend whose read and write have other people's answers between them
    (resendSheet in src/modules/board/board.service.ts). */
module ResendRace {
  import opened Optional
  import opened ApprovalSheets
  import opened ApprovalSafety
  import opened ApprovalRuns
  import opened VoteRace

  /** The expected people a resend that reads these votes finds without an answer. */
  function Targets(votes: map<Token, Vote>, s: Sheet, sheet: nat): set<UserId> {
    Expected(s) - Settled(votes, sheet, s.stage)
  }

  /** Those of them it can mail, and so will ask. */
  ghost function Asked(votes: map<Token, Vote>, s: Sheet, sheet: nat, directory: seq<Person>): set<UserId> {
    set u | u in Targets(votes, s, sheet) && CanBeMailed(directory, u)
  }

  /** The votes once the resend has written for the people it found earlier. */
  function Written(votes: map<Token, Vote>, next: Token, s: Sheet, sheet: nat, directory: seq<Person>,
                   targets: set<UserId>, expires: Millis): map<Token, Vote> {
    Issued(WithoutPending(votes, sheet, s.stage), next, sheet, s.stage, Recipients(directory, targets), expires)
  }

  /** In between: submissions of any links, the openings of other stages their
      approvals carry out, and resends of other sheets. */
  ghost predicate Elsewhere(m: Move, sheet: nat, stage: Stage) {
    m.DeletePending? || m.CreateVote? ==> m.sheet != sheet || m.stage != stage
  }

  ghost predicate AllElsewhere(moves: seq<Move>, sheet: nat, stage: Stage) {
    forall i :: 0 <= i < |moves| ==> Elsewhere(moves[i], sheet, stage)
  }

  ghost predicate AtStage(votes: map<Token, Vote>, x: Token, sheet: nat, stage: Stage) {
    x in votes && votes[x].sheet == sheet && votes[x].stage == stage
  }

  /** Nobody has two votes, pending or answered, for the sheet at the stage. */
  ghost predicate OneVoteAt(votes: map<Token, Vote>, sheet: nat, stage: Stage) {
    forall x: Token, y: Token :: AtStage(votes, x, sheet, stage) && AtStage(votes, y, sheet, stage) ==>
      votes[x].user == votes[y].user ==> x == y
  }

  /** The move is a claim that succeeds, on a vote of the stage and of one of these people. */
  ghost predicate Claims(r: Race, m: Move, sheet: nat, stage: Stage, users: set<UserId>) {
    && m.Claim? && m.submission in r.submissions && r.submissions[m.submission].HasRead?
    && var x := r.submissions[m.submission].token;
       x in r.votes && IsPending(r.votes[x], sheet, stage) && r.votes[x].user in users
  }

  ghost predicate ClaimedBetween(r: Race, moves: seq<Move>, sheet: nat, stage: Stage, users: set<UserId>) {
    moves != []
    && (ClaimedBetween(r, moves[..|moves| - 1], sheet, stage, users)
        || Claims(Play(r, moves[..|moves| - 1]), moves[|moves| - 1], sheet, stage, users))
  }

  /** The same seats of the stage are taken by the same tokens. */
  ghost predicate SameStage(votes: map<Token, Vote>, after: map<Token, Vote>, sheet: nat, stage: Stage) {
    forall x: Token :: (AtStage(votes, x, sheet, stage) <==> AtStage(after, x, sheet, stage))
                && (AtStage(votes, x, sheet, stage) ==> votes[x].user == after[x].user)
  }

  ghost predicate Answered(votes: map<Token, Vote>, x: Token, sheet: nat, stage: Stage, u: UserId) {
    AtStage(votes, x, sheet, stage) && !votes[x].status.Pending? && votes[x].user == u
  }

  lemma SettledIs(votes: map<Token, Vote>, sheet: nat, stage: Stage, u: UserId)
    ensures u in Settled(votes, sheet, stage) <==> exists x: Token :: Answered(votes, x, sheet, stage, u)
  {
    if x: Token :| Answered(votes, x, sheet, stage, u) { assert votes[x].user in Settled(votes, sheet, stage); }
    if u in Settled(votes, sheet, stage) {
      var x :|
        x in votes && votes[x].sheet == sheet && votes[x].stage == stage && !votes[x].status.Pending?
        && votes[x].user == u;
      assert Answered(votes, x, sheet, stage, u);
    }
  }

  lemma ClaimAnswers(r: Race, p: nat, sheet: nat, stage: Stage, u: UserId, x: Token)
    ensures AtStage(Next(r, Claim(p)).votes, x, sheet, stage) <==> AtStage(r.votes, x, sheet, stage)
    ensures AtStage(r.votes, x, sheet, stage) ==> Next(r, Claim(p)).votes[x].user == r.votes[x].user
    ensures Answered(Next(r, Claim(p)).votes, x, sheet, stage, u)
            <==> Answered(r.votes, x, sheet, stage, u)
                 || (Claims(r, Claim(p), sheet, stage, {u}) && x == r.submissions[p].token)
  {
  }

  lemma OthersAnswerNothing(r: Race, m: Move, sheet: nat, stage: Stage, u: UserId, x: Token)
    requires !m.Claim? && Elsewhere(m, sheet, stage) && Below(r.votes, r.nextToken)
    ensures AtStage(Next(r, m).votes, x, sheet, stage) <==> AtStage(r.votes, x, sheet, stage)
    ensures AtStage(r.votes, x, sheet, stage) ==> Next(r, m).votes[x] == r.votes[x]
  {
  }

  lemma NextStaysBelow(r: Race, m: Move)
    requires Below(r.votes, r.nextToken)
    ensures Below(Next(r, m).votes, Next(r, m).nextToken)
  {
  }

  /** A move elsewhere changes no vote of the stage but to settle the one it claims. */
  lemma MoveSettles(r: Race, m: Move, sheet: nat, stage: Stage, u: UserId)
    requires Elsewhere(m, sheet, stage) && Below(r.votes, r.nextToken)
    ensures Below(Next(r, m).votes, Next(r, m).nextToken) && SameStage(r.votes, Next(r, m).votes, sheet, stage)
    ensures u in Settled(Next(r, m).votes, sheet, stage)
            <==> u in Settled(r.votes, sheet, stage) || Claims(r, m, sheet, stage, {u})
  {
    hide Next;
    NextStaysBelow(r, m);
    SettledIs(r.votes, sheet, stage, u);
    SettledIs(Next(r, m).votes, sheet, stage, u);
    forall x: Token
      ensures AtStage(Next(r, m).votes, x, sheet, stage) <==> AtStage(r.votes, x, sheet, stage)
      ensures AtStage(r.votes, x, sheet, stage) ==> Next(r, m).votes[x].user == r.votes[x].user
      ensures Answered(Next(r, m).votes, x, sheet, stage, u)
              <==> Answered(r.votes, x, sheet, stage, u)
                   || (Claims(r, m, sheet, stage, {u}) && x == r.submissions[m.submission].token)
    {
      if m.Claim? {
        ClaimAnswers(r, m.submission, sheet, stage, u, x);
      } else {
        OthersAnswerNothing(r, m, sheet, stage, u, x);
      }
    }
    if Claims(r, m, sheet, stage, {u}) {
      assert Answered(Next(r, m).votes, r.submissions[m.submission].token, sheet, stage, u);
    }
    if x: Token :| Answered(r.votes, x, sheet, stage, u) { assert Answered(Next(r, m).votes, x, sheet, stage, u); }
  }

  lemma {:induction false} MovesSettle(r: Race, moves: seq<Move>, sheet: nat, stage: Stage, u: UserId)
    requires AllElsewhere(moves, sheet, stage) && Below(r.votes, r.nextToken)
    ensures Below(Play(r, moves).votes, Play(r, moves).nextToken)
    ensures SameStage(r.votes, Play(r, moves).votes, sheet, stage)
    ensures u in Settled(Play(r, moves).votes, sheet, stage)
            <==> u in Settled(r.votes, sheet, stage) || ClaimedBetween(r, moves, sheet, stage, {u})
  {
    if moves != [] {
      MovesSettle(r, moves[..|moves| - 1], sheet, stage, u);
      MoveSettles(Play(r, moves[..|moves| - 1]), moves[|moves| - 1], sheet, stage, u);
    }
  }

  lemma {:induction false} ClaimedBySomeone(r: Race, moves: seq<Move>, sheet: nat, stage: Stage, users: set<UserId>)
    ensures ClaimedBetween(r, moves, sheet, stage, users)
            <==> exists u :: u in users && ClaimedBetween(r, moves, sheet, stage, {u})
  {
    if moves != [] {
      var before, m := moves[..|moves| - 1], moves[|moves| - 1];
      ClaimedBySomeone(r, before, sheet, stage, users);
      if Claims(Play(r, before), m, sheet, stage, users) {
        var u := Play(r, before).votes[Play(r, before).submissions[m.submission].token].user;
        assert ClaimedBetween(r, moves, sheet, stage, {u});
      }
      forall u | u in users && ClaimedBetween(r, before, sheet, stage, {u})
        ensures ClaimedBetween(r, moves, sheet, stage, {u})
      {}
    }
  }

  lemma WrittenIsReissue(votes: map<Token, Vote>, next: Token, s: Sheet, sheet: nat, directory: seq<Person>,
                         targets: set<UserId>, expires: Millis, asked: set<UserId>)
    requires Below(votes, next) && DistinctPeople(directory)
    requires asked == set u | u in targets && CanBeMailed(directory, u)
    ensures var after := Written(votes, next, s, sheet, directory, targets, expires);
            && Reissue(votes, after, next, sheet, s.stage, asked)
            && (forall u :: u in asked ==> exists x :: Fresh(after, x, next) && after[x].user == u)
  {
    Reissued(votes, next, sheet, s.stage, directory, targets, expires);
    IssuingReaches(votes, next, sheet, s.stage, directory, targets, expires);
    var after := Written(votes, next, s, sheet, directory, targets, expires);
    forall x | Fresh(after, x, next) ensures after[x].user in asked {
      assert Live(after, x, sheet, s.stage);
    }
    forall u | u in asked ensures exists x :: Fresh(after, x, next) && after[x].user == u {
      var x :| Live(after, x, sheet, s.stage) && after[x].user == u;
    }
  }

  lemma AskedAgain(votes: map<Token, Vote>, after: map<Token, Vote>, next: Token, sheet: nat, stage: Stage,
                   asked: set<UserId>, u: UserId)
    requires Below(votes, next) && Reissue(votes, after, next, sheet, stage, asked)
    requires u in Settled(votes, sheet, stage) && exists x :: Fresh(after, x, next) && after[x].user == u
    ensures !OneVoteAt(after, sheet, stage)
  {
    SettledIs(votes, sheet, stage, u);
    var x :| Fresh(after, x, next) && after[x].user == u;
    var y: Token :| Answered(votes, y, sheet, stage, u);
    assert y in after && after[y] == votes[y] && x != y;
    assert AtStage(after, x, sheet, stage) && AtStage(after, y, sheet, stage);
  }

  lemma AskedOnce(votes: map<Token, Vote>, after: map<Token, Vote>, next: Token, sheet: nat, stage: Stage,
                  asked: set<UserId>)
    requires OneVoteAt(votes, sheet, stage) && Reissue(votes, after, next, sheet, stage, asked)
    requires asked !! Settled(votes, sheet, stage)
    ensures OneVoteAt(after, sheet, stage)
  {
    forall x: Token | AtStage(after, x, sheet, stage)
      ensures if x < next then AtStage(votes, x, sheet, stage) && after[x].user in Settled(votes, sheet, stage)
              else Fresh(after, x, next) && after[x].user in asked
    {}
  }

  lemma StageStays(votes: map<Token, Vote>, after: map<Token, Vote>, sheet: nat, stage: Stage)
    requires OneVoteAt(votes, sheet, stage) && SameStage(votes, after, sheet, stage)
    ensures OneVoteAt(after, sheet, stage)
  {
    forall x: Token, y: Token | AtStage(after, x, sheet, stage) && AtStage(after, y, sheet, stage)
      ensures after[x].user == after[y].user ==> x == y
    {
      assert AtStage(votes, x, sheet, stage) && AtStage(votes, y, sheet, stage);
    }
  }

  /** A resend that reads, lets others answer and then writes leaves one vote to
      a person exactly when none of those it asks answered in between. */
  lemma {:induction false} ResendAsksTwice(r: Race, moves: seq<Move>, s: Sheet, sheet: nat, directory: seq<Person>,
                                           expires: Millis)
    requires OneVoteAt(r.votes, sheet, s.stage) && Below(r.votes, r.nextToken) && DistinctPeople(directory)
    requires AllElsewhere(moves, sheet, s.stage)
    ensures var asked, end := Asked(r.votes, s, sheet, directory), Play(r, moves);
            var after := Written(end.votes, end.nextToken, s, sheet, directory, Targets(r.votes, s, sheet), expires);
            OneVoteAt(after, sheet, s.stage) <==> !ClaimedBetween(r, moves, sheet, s.stage, asked)
  {
    var targets, asked := Targets(r.votes, s, sheet), Asked(r.votes, s, sheet, directory);
    var end := Play(r, moves);
    forall u
      ensures u in Settled(end.votes, sheet, s.stage)
              <==> u in Settled(r.votes, sheet, s.stage) || ClaimedBetween(r, moves, sheet, s.stage, {u})
    {
      MovesSettle(r, moves, sheet, s.stage, u);
    }
    MovesSettle(r, moves, sheet, s.stage, 0);
    ClaimedBySomeone(r, moves, sheet, s.stage, asked);
    WrittenIsReissue(end.votes, end.nextToken, s, sheet, directory, targets, expires, asked);
    var after := Written(end.votes, end.nextToken, s, sheet, directory, targets, expires);
    if ClaimedBetween(r, moves, sheet, s.stage, asked) {
      var u :| u in asked && ClaimedBetween(r, moves, sheet, s.stage, {u});
      AskedAgain(end.votes, after, end.nextToken, sheet, s.stage, asked, u);
    } else {
      StageStays(r.votes, end.votes, sheet, s.stage);
      AskedOnce(end.votes, after, end.nextToken, sheet, s.stage, asked);
    }
  }

  /** The run: a person whose link is live answers between a resend's read and
      its write, and holds an answered vote and a live link for the same seat. */
  lemma {:induction false} AnswerThenAskedAgain(v: Vote, p: Person, s: Sheet, now: Millis, expires: Millis)
    requires v.status == Pending && now <= v.expires && v.stage == s.stage && v.user in Expected(s)
    requires p.id == v.user && p.hasEmail
    ensures var r := Race(map[0 := v], 1, map[], []);
            var moves := [Read(0, 0, Approve, now), Claim(0)];
            var end := Play(r, moves);
            var after := Written(end.votes, end.nextToken, s, v.sheet, [p], Targets(r.votes, s, v.sheet), expires);
            OneVoteAt(r.votes, v.sheet, s.stage) && !OneVoteAt(after, v.sheet, s.stage)
  {
    var r := Race(map[0 := v], 1, map[], []);
    var read, claim := Read(0, 0, Approve, now), Claim(0);
    var moves := [read, claim];
    assert moves[..1] == [read] && [read][..0] == [];
    assert Play(r, [read]) == Next(r, read);
    var asked := Asked(r.votes, s, v.sheet, [p]);
    assert p in [p] && v.user in asked;
    assert Claims(Play(r, moves[..1]), claim, v.sheet, s.stage, asked);
    ResendAsksTwice(r, moves, s, v.sheet, [p], expires);
  }

  // ---- What the second link can do ----

  /** The tables when a resend that had read earlier writes its links. */
  function WrittenLate(t: Tables, sheet: nat, stage: Stage, directory: seq<Person>, targets: set<UserId>,
                       expires: Millis): Tables {
    t.(votes := Issued(WithoutPending(t.votes, sheet, stage), t.nextToken, sheet, stage,
                       Recipients(directory, targets), expires),
       nextToken := t.nextToken + Mailed(Recipients(directory, targets)))
  }

  lemma ChroIsAskedAgain(t: Tables, sheet: nat, chro: UserId, directory: seq<Person>, expires: Millis)
    returns (y: Token)
    requires Below(t.votes, t.nextToken) && DistinctPeople(directory) && CanBeMailed(directory, chro)
    ensures var votes := WrittenLate(t, sheet, Chro, directory, {chro}, expires).votes;
            && Live(votes, y, sheet, Chro) && votes[y].user == chro && t.nextToken <= y
            && forall x :: x in t.votes && !IsPending(t.votes[x], sheet, Chro) ==> x in votes && votes[x] == t.votes[x]
  {
    Reissued(t.votes, t.nextToken, sheet, Chro, directory, {chro}, expires);
    var targets := {chro};
    IssuingReaches(t.votes, t.nextToken, sheet, Chro, directory, targets, expires);
    var votes := WrittenLate(t, sheet, Chro, directory, {chro}, expires).votes;
    var users := iset u | u in targets && CanBeMailed(directory, u);
    assert LinksAre(votes, t.nextToken, sheet, Chro, users) && chro in users;
    y :| Live(votes, y, sheet, Chro) && votes[y].user == chro;
  }

  /** A CHRO who approves while a resend is between its read and its write can
      reject by the second link afterwards: the sheet, already with the board,
      is rejected, and the CHRO has both approved and rejected it. */
  lemma ChroApprovesAndRejects(t: Tables, x: Token, directory: seq<Person>, reason: string, now: Millis,
                               expires: Millis)
    returns (y: Token)
    requires VoteRefusal(t, x, Approve, now) == None && t.votes[x].stage == Chro && reason != ""
    requires Inv(t) && DistinctPeople(directory) && CanBeMailed(directory, t.votes[x].user)
    ensures var v := t.votes[x];
            var approved := SubmitSheetVote(t, x, Approve, directory, now).tables;
            var targets := Targets(t.votes, t.sheets[v.sheet], v.sheet);
            var late := WrittenLate(approved, v.sheet, Chro, directory, targets, expires);
            var end := SubmitSheetVote(late, y, Reject(reason), directory, expires);
            && end.reply == Voted
            && end.tables.sheets[v.sheet].status == Rejected && end.tables.sheets[v.sheet].stage == Board
            && CastBy(end.tables, x, v.sheet, Chro, Approved, v.user)
            && CastBy(end.tables, y, v.sheet, Chro, Rejected, v.user)
  {
    var v := t.votes[x];
    var sheet := v.sheet;
    ChroVoteIsAlone(t, x);
    assert Placed(v, t.sheets);
    ChroTargets(t, x);
    var approved := SubmitSheetVote(t, x, Approve, directory, now).tables;
    ChroApprovalKeeps(t, x, directory, now);
    ApprovedVoteStays(t, x, directory, now);
    y := ChroIsAskedAgain(approved, sheet, v.user, directory, expires);
    var late := WrittenLate(approved, sheet, Chro, directory, {v.user}, expires);
    AnswersAtExpiry(approved, sheet, directory, v.user, expires, y);
    assert CastBy(late, x, sheet, Chro, Approved, v.user);
  }

  /** The CHRO's live link being the only vote of its stage, the CHRO is who a resend asks. */
  lemma ChroTargets(t: Tables, x: Token)
    requires Inv(t) && x in t.votes && t.votes[x].stage == Chro && t.votes[x].status == Pending
    ensures Targets(t.votes, t.sheets[t.votes[x].sheet], t.votes[x].sheet) == {t.votes[x].user}
  {
    var v := t.votes[x];
    ChroVoteIsAlone(t, x);
    assert Placed(v, t.sheets);
    forall y | AtStage(t.votes, y, v.sheet, Chro) ensures t.votes[y].status == Pending {
      assert IsVote(t.votes[y], v.sheet, Chro, t.votes[y].status);
      assert Has(t.votes, v.sheet, Chro, t.votes[y].status);
    }
  }

  lemma ApprovedVoteStays(t: Tables, x: Token, directory: seq<Person>, now: Millis)
    requires Inv(t) && DistinctPeople(directory)
    requires VoteRefusal(t, x, Approve, now) == None && t.votes[x].stage == Chro
    ensures var after := SubmitSheetVote(t, x, Approve, directory, now).tables;
            && x in after.votes && after.votes[x] == t.votes[x].(status := Approved) && x < after.nextToken
            && after.sheets[t.votes[x].sheet].stage == Board
  {
    var claimed := Claimed(t, x, Approve);
    OpeningKeepsAnswers(claimed, t.votes[x].sheet, Board, directory, now);
    assert claimed.votes[x].status == Approved;
  }

  /** A link just written answers up to the moment it runs out. */
  lemma AnswersAtExpiry(t: Tables, sheet: nat, directory: seq<Person>, u: UserId, expires: Millis, y: Token)
    requires Below(t.votes, t.nextToken) && t.nextToken <= y
    requires Live(WrittenLate(t, sheet, Chro, directory, {u}, expires).votes, y, sheet, Chro)
    ensures WrittenLate(t, sheet, Chro, directory, {u}, expires).votes[y].expires == expires
  {
    var people := Recipients(directory, {u});
    var kept := WithoutPending(t.votes, sheet, Chro);
    var k := IssuedOwner(kept, t.nextToken, sheet, Chro, people, expires, y);
    IssuedFor(kept, t.nextToken, sheet, Chro, people, expires, k);
  }

  /** A resend with nothing between its read and its write is the one call. */
  lemma UndisturbedResend(t: Tables, sheet: nat, directory: seq<Person>, undeliverable: set<UserId>, now: Millis)
    requires Step(t, ResendSheetCall(sheet, directory, undeliverable, now)).reply.Resent?
    ensures sheet < |t.sheets|
    ensures var s := t.sheets[sheet];
            Step(t, ResendSheetCall(sheet, directory, undeliverable, now)).tables
            == WrittenLate(t, sheet, s.stage, directory, Targets(t.votes, s, sheet), now + 5_184_000_000)
  {
  }
}
