/** Several submissions of vote links at once: the read, the conditional claim
    and the effect of submitSheetVote as separate steps, with the deletions and
    creations of a resend or a stage opening in between
    (src/modules/board/board.service.ts). */
module VoteRace {
  import opened ApprovalSheets

  /** How far one submission has got. */
  datatype Progress =
    | HasRead(token: Token, decision: Decision)   // saw the vote pending
    | HasWon(token: Token, decision: Decision)    // its claim changed one row
    | Finished

  /** A decision carried out on the sheet a vote belongs to. */
  datatype Effect = Effect(token: Token, decision: Decision)

  datatype Race = Race(votes: map<Token, Vote>, nextToken: Token, submissions: map<nat, Progress>, effects: seq<Effect>)

  datatype Move =
    | Read(submission: nat, token: Token, decision: Decision, now: Millis)
    | Claim(submission: nat)
    | Apply(submission: nat)
    | DeletePending(sheet: nat, stage: Stage)
    | CreateVote(sheet: nat, stage: Stage, user: UserId, expires: Millis)

  predicate Readable(r: Race, token: Token, d: Decision, now: Millis) {
    && token in r.votes && now <= r.votes[token].expires && r.votes[token].status.Pending?
    && (d.Reject? ==> d.reason != "")
  }

  function Next(r: Race, m: Move): Race {
    match m
    case Read(p, token, d, now) =>
      if p in r.submissions then r
      else if Readable(r, token, d, now) then r.(submissions := r.submissions[p := HasRead(token, d)])
      else r.(submissions := r.submissions[p := Finished])
    case Claim(p) =>
      if p !in r.submissions || !r.submissions[p].HasRead? then r
      else
        var HasRead(token, d) := r.submissions[p];
        if token in r.votes && r.votes[token].status.Pending? then
          r.(votes := r.votes[token := r.votes[token].(status := StatusOf(d))],
             submissions := r.submissions[p := HasWon(token, d)])
        else r.(submissions := r.submissions[p := Finished])
    case Apply(p) =>
      if p !in r.submissions || !r.submissions[p].HasWon? then r
      else
        var HasWon(token, d) := r.submissions[p];
        r.(effects := r.effects + [Effect(token, d)], submissions := r.submissions[p := Finished])
    case DeletePending(sheet, stage) => r.(votes := WithoutPending(r.votes, sheet, stage))
    case CreateVote(sheet, stage, user, expires) =>
      r.(votes := r.votes[r.nextToken := Vote(sheet, user, stage, Pending, expires)], nextToken := r.nextToken + 1)
  }

  function Play(r: Race, moves: seq<Move>): Race {
    if moves == [] then r else Next(Play(r, moves[..|moves| - 1]), moves[|moves| - 1])
  }

  /** Nobody has begun to submit and nothing is answered yet. */
  ghost predicate Fair(r: Race) {
    && r.submissions == map[] && r.effects == []
    && forall x :: x in r.votes ==> x < r.nextToken && r.votes[x].status == Pending
  }

  ghost predicate Won(r: Race, p: nat, token: Token) {
    p in r.submissions && r.submissions[p].HasWon? && r.submissions[p].token == token
  }

  ghost predicate AppliedIn(effects: seq<Effect>, token: Token) {
    exists i :: 0 <= i < |effects| && effects[i].token == token
  }

  ghost predicate Answer(r: Race, token: Token, d: Decision) {
    token in r.votes && r.votes[token].status == StatusOf(d)
  }

  ghost predicate TokensBelow(r: Race) {
    && (forall x :: x in r.votes ==> x < r.nextToken)
    && (forall p :: p in r.submissions && !r.submissions[p].Finished? ==> r.submissions[p].token < r.nextToken)
  }

  ghost predicate WinnersAlone(r: Race) {
    && (forall p :: p in r.submissions && r.submissions[p].HasWon? ==>
          Answer(r, r.submissions[p].token, r.submissions[p].decision) && !AppliedIn(r.effects, r.submissions[p].token))
    && (forall p, q, x :: Won(r, p, x) && Won(r, q, x) ==> p == q)
  }

  ghost predicate EffectsOnce(r: Race) {
    && (forall i, j :: 0 <= i < j < |r.effects| ==> r.effects[i].token != r.effects[j].token)
    && (forall i :: 0 <= i < |r.effects| ==> Answer(r, r.effects[i].token, r.effects[i].decision))
  }

  /** Every answered vote has its winner, at work or done. */
  ghost predicate NoAnswerLost(r: Race) {
    forall x :: x in r.votes && r.votes[x].status != Pending ==> AppliedIn(r.effects, x) || exists p :: Won(r, p, x)
  }

  ghost predicate RaceInv(r: Race) {
    TokensBelow(r) && WinnersAlone(r) && EffectsOnce(r) && NoAnswerLost(r)
  }

  lemma ClaimKeeps(r: Race, p: nat)
    requires RaceInv(r)
    ensures RaceInv(Next(r, Claim(p)))
  {
    var after := Next(r, Claim(p));
    if p in r.submissions && r.submissions[p].HasRead? {
      var HasRead(token, d) := r.submissions[p];
      if token in r.votes && r.votes[token].status.Pending? {
        assert Won(after, p, token);
        assert !AppliedIn(r.effects, token) by {
          forall i | 0 <= i < |r.effects| ensures r.effects[i].token != token {
            assert Answer(r, r.effects[i].token, r.effects[i].decision);
          }
        }
        forall q, x | Won(after, q, x) && q != p ensures x != token && Won(r, q, x) {
          assert Won(r, q, x) && Answer(r, x, r.submissions[q].decision);
        }
        forall q, s, x | Won(after, q, x) && Won(after, s, x) ensures q == s {
          assert q != p ==> Won(r, q, x);
          assert s != p ==> Won(r, s, x);
        }
      } else {
        forall q, x | Won(after, q, x) ensures Won(r, q, x) {}
      }
      forall x | x in after.votes && after.votes[x].status != Pending
        ensures AppliedIn(after.effects, x) || exists q :: Won(after, q, x)
      {
        if x in r.votes && r.votes[x].status != Pending && !AppliedIn(r.effects, x) {
          var q :| Won(r, q, x);
          assert Won(after, q, x);
        }
      }
    }
  }

  lemma ApplyKeeps(r: Race, p: nat)
    requires RaceInv(r)
    ensures RaceInv(Next(r, Apply(p)))
  {
    var after := Next(r, Apply(p));
    if p in r.submissions && r.submissions[p].HasWon? {
      var HasWon(token, d) := r.submissions[p];
      assert Won(r, p, token);
      AppliedOneMore(r.effects, Effect(token, d));
      forall i | 0 <= i < |r.effects| ensures r.effects[i].token != token {
        assert !AppliedIn(r.effects, token);
      }
      forall q, x | Won(after, q, x) ensures q != p && Won(r, q, x) && x != token {
        assert Won(r, q, x);
      }
      forall q | q in after.submissions && after.submissions[q].HasWon?
        ensures !AppliedIn(after.effects, after.submissions[q].token)
      {
        assert Won(after, q, after.submissions[q].token);
      }
      forall x | x in after.votes && after.votes[x].status != Pending
        ensures AppliedIn(after.effects, x) || exists q :: Won(after, q, x)
      {
        if x != token && !AppliedIn(r.effects, x) {
          var q :| Won(r, q, x);
          assert Won(after, q, x);
        }
      }
    }
  }

  lemma AppliedOneMore(effects: seq<Effect>, e: Effect)
    ensures forall x :: AppliedIn(effects + [e], x) <==> AppliedIn(effects, x) || x == e.token
  {
    var more := effects + [e];
    assert more[|effects|].token == e.token;
    forall x | AppliedIn(effects, x) ensures AppliedIn(more, x) {
      var i :| 0 <= i < |effects| && effects[i].token == x;
      assert more[i].token == x;
    }
  }

  lemma OtherMovesKeep(r: Race, m: Move)
    requires RaceInv(r) && !m.Claim? && !m.Apply?
    ensures RaceInv(Next(r, m))
  {
    var after := Next(r, m);
    assert after.effects == r.effects;
    forall q, x ensures Won(after, q, x) <==> Won(r, q, x) {}
    forall x, d | Answer(r, x, d) ensures Answer(after, x, d) {}
    forall x | x in after.votes && after.votes[x].status != Pending
      ensures x in r.votes && r.votes[x].status != Pending {}
    forall x | x in r.votes && r.votes[x].status != Pending && !AppliedIn(r.effects, x)
      ensures exists p :: Won(after, p, x) {
      var q :| Won(r, q, x);
      assert Won(after, q, x);
    }
  }

  lemma {:induction false} PlayKeeps(r: Race, moves: seq<Move>)
    requires Fair(r)
    ensures RaceInv(Play(r, moves))
  {
    if moves != [] {
      var n := |moves| - 1;
      PlayKeeps(r, moves[..n]);
      match moves[n]
      case Claim(p) => ClaimKeeps(Play(r, moves[..n]), p);
      case Apply(p) => ApplyKeeps(Play(r, moves[..n]), p);
      case _ => OtherMovesKeep(Play(r, moves[..n]), moves[n]);
    }
  }

  /** Under any interleaving a vote is won by at most one submission, its
      decision is carried out at most once, and it is the decision on record. */
  lemma EachVoteDecidesOnce(r: Race, moves: seq<Move>)
    requires Fair(r)
    ensures var end := Play(r, moves);
            && (forall i, j :: 0 <= i < j < |end.effects| ==> end.effects[i].token != end.effects[j].token)
            && (forall i :: 0 <= i < |end.effects| ==> Answer(end, end.effects[i].token, end.effects[i].decision))
            && (forall p, q, x :: Won(end, p, x) && Won(end, q, x) ==> p == q)
            && (forall p, x :: Won(end, p, x) ==> !AppliedIn(end.effects, x))
  {
    PlayKeeps(r, moves);
  }

  /** When no submission is between claim and effect, the answered votes are
      exactly those whose decision has been carried out: none is lost. */
  lemma SettledRaceLosesNothing(r: Race, moves: seq<Move>)
    requires Fair(r)
    requires forall p :: p in Play(r, moves).submissions ==> !Play(r, moves).submissions[p].HasWon?
    ensures var end := Play(r, moves);
            forall x :: x in end.votes && end.votes[x].status != Pending <==> AppliedIn(end.effects, x)
  {
    PlayKeeps(r, moves);
    var end := Play(r, moves);
    forall x ensures x in end.votes && end.votes[x].status != Pending <==> AppliedIn(end.effects, x) {
      if i :| 0 <= i < |end.effects| && end.effects[i].token == x {
        assert Answer(end, x, end.effects[i].decision);
      }
      assert forall p :: !Won(end, p, x);
    }
  }

  // ---- Each step, and a submission nobody disturbs ----

  /** A creation adds one pending vote on the next token; a deletion drops
      exactly the pending votes of its stage; both leave submissions and effects. */
  lemma VotesComeAndGo(r: Race, sheet: nat, stage: Stage, user: UserId, expires: Millis)
    ensures var made := Next(r, CreateVote(sheet, stage, user, expires));
            && made.submissions == r.submissions && made.effects == r.effects && made.nextToken == r.nextToken + 1
            && made.votes == r.votes[r.nextToken := Vote(sheet, user, stage, Pending, expires)]
    ensures var left := Next(r, DeletePending(sheet, stage));
            && left.submissions == r.submissions && left.effects == r.effects && left.nextToken == r.nextToken
            && forall x: Token ::
                 && (x in left.votes <==> x in r.votes && !(r.votes[x].sheet == sheet && r.votes[x].stage == stage
                                                            && r.votes[x].status == Pending))
                 && (x in left.votes ==> left.votes[x] == r.votes[x])
  {
  }

  /** A claim answers the vote it read with its decision if that is still pending,
      and is finished without a trace otherwise. */
  lemma ClaimDoes(r: Race, p: nat, token: Token, d: Decision)
    requires p in r.submissions && r.submissions[p] == HasRead(token, d)
    ensures var after := Next(r, Claim(p));
            && after.effects == r.effects && after.nextToken == r.nextToken
            && if token in r.votes && r.votes[token].status == Pending
               then && after.submissions == r.submissions[p := HasWon(token, d)]
                    && after.votes == r.votes[token := r.votes[token].(status :=
                         if d == Approve then Approved else Rejected)]
               else after.submissions == r.submissions[p := Finished] && after.votes == r.votes
  {
  }

  /** Read, claim and effect with nothing in between come to what the one call
      answers: an accepted answer is recorded and carried out once, a refused one
      leaves no trace. */
  lemma {:induction false} AloneIsTheCall(r: Race, t: Tables, p: nat, token: Token, d: Decision,
                                          directory: seq<Person>, now: Millis)
    requires p !in r.submissions && t.votes == r.votes
    requires token in t.votes ==> t.votes[token].sheet < |t.sheets|
    ensures var end := Play(r, [Read(p, token, d, now), Claim(p), Apply(p)]);
            var accepted := Step(t, SubmitSheetVoteCall(token, d, directory, now)).reply == Voted;
            && end.effects == r.effects + (if accepted then [Effect(token, d)] else [])
            && end.nextToken == r.nextToken && end.submissions == r.submissions[p := Finished]
            && (!accepted ==> end.votes == r.votes)
            && (accepted ==> token in r.votes && end.votes == r.votes[token :=
                  r.votes[token].(status := if d == Approve then Approved else Rejected)])
  {
    var moves := [Read(p, token, d, now), Claim(p), Apply(p)];
    var one, two := Next(r, moves[0]), Next(Next(r, moves[0]), moves[1]);
    assert moves[..2][..1][..0] == [] && moves[..2][..1][0] == moves[0];
    assert Play(r, moves[..2][..1]) == one;
    assert Play(r, moves[..2]) == two;
    assert Play(r, moves) == Next(two, moves[2]);
  }
}
