/** The hand-over tables as the services change them. */
module FirstInterviewService {
  import opened Optional
  import opened DelegationProgress
  import opened FirstInterview
  import IdLists

  lemma PairsAdd(candidates: set<CandidateId>, c: CandidateId, users: set<UserId>)
    ensures Pairs(candidates + {c}, users) == Pairs(candidates, users) + Pairs({c}, users)
  {
  }

  lemma DelegateStaysHeld(t: Tables, ids: seq<CandidateId>, users: seq<UserId>, active: set<UserId>, now: Millis)
    requires PendingIsHeld(t)
    ensures PendingIsHeld(Delegate(t, ids, users, active, now).tables)
  {
    StepKeepsPendingHeld(t, DelegateCall(ids, users, active, now));
  }

  /** With every candidate found and somebody active, each of the ids goes to each of the people. */
  lemma {:induction false} HandOverIs(t: Tables, ids: seq<CandidateId>, users: seq<UserId>,
                                      active: set<UserId>, people: seq<UserId>, now: Millis)
    requires ids != [] && users != [] && people != [] && |FoundCandidates(t, ids)| == |ids|
    requires forall u :: u in people <==> u in users && u in active
    ensures var pairs := Pairs(IdLists.IdSet(ids), IdLists.IdSet(people));
            Delegate(t, ids, users, active, now) == Outcome(t.(handOffs := HandedOverAll(t, pairs, now)), Done)
  {
    assert people[0] in Delegates(users, active);
    IdLists.AllFound(ids, FoundCandidates(t, ids));
    assert IdLists.IdSet(ids) == FoundCandidates(t, ids) && IdLists.IdSet(people) == Delegates(users, active);
  }

  class HandOverDesk {
    var candidates: map<CandidateId, Candidate>
    var handOffs: map<(CandidateId, UserId), HandOff>
    var signOffs: map<CandidateId, SignOff>

    ghost function Contents(): Tables
      reads this
    {
      Tables(candidates, handOffs, signOffs)
    }

    ghost predicate Valid()
      reads this
    {
      PendingIsHeld(Contents())
    }

    constructor ()
      ensures Valid() && Contents() == EMPTY
    {
      candidates, handOffs, signOffs := map[], map[], map[];
    }

    method Upsert(k: (CandidateId, UserId), now: Millis)
      modifies this`handOffs
      ensures handOffs == old(handOffs)[k := HandedOver(old(Contents()), k, now)]
    {
      if k in handOffs {
        handOffs := handOffs[k := handOffs[k].(revokedAt := None, sendCount := handOffs[k].sendCount + 1,
            lastSentAt := now)];
      } else {
        handOffs := handOffs[k := HandOff(None, None, 1, now)];
      }
    }

    /** One candidate to every person; earlier lists the pairs already handed over. */
    method HandOverTo(c: CandidateId, people: seq<UserId>, now: Millis, ghost t: Tables,
                      ghost earlier: set<(CandidateId, UserId)>)
      requires IdLists.Distinct(people) && forall k :: k in earlier ==> k.0 != c
      requires Contents() == t.(handOffs := HandedOverAll(t, earlier, now))
      modifies this`handOffs
      ensures handOffs == HandedOverAll(t, earlier + Pairs({c}, IdLists.IdSet(people)), now)
    {
      ghost var pairs := earlier;
      for j := 0 to |people|
        invariant Contents() == t.(handOffs := HandedOverAll(t, pairs, now))
        invariant forall k :: k in pairs <==> k in earlier || (k.0 == c && k.1 in people[..j])
      {
        OneMoreHandedOver(t, pairs, (c, people[j]), now);
        Upsert((c, people[j]), now);
        pairs := pairs + {(c, people[j])};
      }
      assert pairs == earlier + Pairs({c}, IdLists.IdSet(people));
    }

    /** One upsert for every candidate and every person. */
    method HandOverEach(ids: seq<CandidateId>, people: seq<UserId>, now: Millis)
      requires IdLists.Distinct(ids) && IdLists.Distinct(people)
      modifies this`handOffs
      ensures handOffs == HandedOverAll(old(Contents()), Pairs(IdLists.IdSet(ids), IdLists.IdSet(people)), now)
    {
      ghost var t := Contents();
      ghost var pairs: set<(CandidateId, UserId)> := {};
      for i := 0 to |ids|
        invariant Contents() == t.(handOffs := HandedOverAll(t, pairs, now))
        invariant pairs == Pairs(IdLists.IdSet(ids[..i]), IdLists.IdSet(people))
      {
        var c := ids[i];
        assert forall k :: k in pairs ==> k.0 != c by {
          assert c !in ids[..i];
        }
        HandOverTo(c, people, now, t, pairs);
        PairsAdd(IdLists.IdSet(ids[..i]), c, IdLists.IdSet(people));
        assert ids[..i + 1][..i] == ids[..i];
        pairs := pairs + Pairs({c}, IdLists.IdSet(people));
      }
      assert ids[..|ids|] == ids;
    }

    method HandOver(ids: seq<CandidateId>, users: seq<UserId>, active: set<UserId>, now: Millis) returns (reply: Reply)
      requires Valid()
      modifies this`handOffs
      ensures Valid() && Outcome(Contents(), reply) == Delegate(old(Contents()), ids, users, active, now)
    {
      DelegateStaysHeld(Contents(), ids, users, active, now);
      ghost var t := Contents();
      if |ids| == 0 || |users| == 0 { return Refused(NothingSelected); }
      var found := set c | c in ids && c in candidates;
      if |found| != |ids| { return Refused(NotFound); }
      var people := ActiveOnes(users, active);
      if people == [] { return Refused(NoValidPerson); }
      IdLists.AllFound(ids, found);
      HandOverIs(t, ids, users, active, people, now);
      HandOverEach(ids, people, now);
      reply := Done;
    }

    /** The people of the list the user query returns, each once. */
    static method ActiveOnes(users: seq<UserId>, active: set<UserId>) returns (people: seq<UserId>)
      ensures IdLists.Distinct(people) && forall u :: u in people <==> u in users && u in active
    {
      people := [];
      for n := 0 to |users|
        invariant IdLists.Distinct(people) && forall u :: u in people <==> u in users[..n] && u in active
      {
        if users[n] in active && users[n] !in people { people := people + [users[n]]; }
      }
    }

    method Revoke(c: CandidateId, u: UserId, now: Millis) returns (reply: Reply)
      requires Valid()
      modifies this`handOffs
      ensures Valid() && Outcome(Contents(), reply) == RevokeDelegation(old(Contents()), c, u, now)
    {
      StepKeepsPendingHeld(Contents(), RevokeCall(c, u, now));
      if c !in candidates { return Refused(NotFound); }
      if c in signOffs && signOffs[c].Pending? { return Refused(WithTheHead); }
      if (c, u) in handOffs && handOffs[(c, u)].revokedAt.None? {
        handOffs := handOffs[(c, u) := handOffs[(c, u)].(revokedAt := Some(now))];
      }
      reply := Done;
    }

    /** Mark every open hand-off of a candidate completed. */
    method FinishHandOffs(c: CandidateId, now: Millis)
      modifies this`handOffs
      ensures handOffs == Finished(old(Contents()), c, now)
    {
      handOffs := map k | k in handOffs ::
          if k.0 == c && IsOpen(handOffs[k]) then handOffs[k].(completedAt := Some(now)) else handOffs[k];
    }

    method Record(c: CandidateId, v: Verdict, heads: bool, testsMarked: bool, now: Millis) returns (reply: Reply)
      requires Valid()
      modifies this
      ensures Valid() && Outcome(Contents(), reply) == RecordOutcome(old(Contents()), c, v, heads, testsMarked, now)
    {
      StepKeepsPendingHeld(Contents(), OutcomeCall(c, v, heads, testsMarked, now));
      if c !in candidates { return Refused(NotFound); }
      if candidates[c].stage != Interview { return Refused(NotAtInterview); }
      if c in signOffs && signOffs[c].Pending? { return Refused(WithTheHead); }
      if !testsMarked { return Refused(TestsUnmarked); }
      var openHandOffs := set k | k in handOffs && k.0 == c && IsOpen(handOffs[k]);
      if v.ThroughToFinal? && openHandOffs != {} && heads {
        signOffs := signOffs[c := Pending];
        return SentToHead;
      }
      match v {
        case TurnedDown => candidates := candidates[c := Candidate(CandidateStage.Rejected, Some(now))];
        case ThroughToFinal => candidates := candidates[c := Candidate(Final, None)];
      }
      FinishHandOffs(c, now);
      reply := Done;
    }

    method Decide(c: CandidateId, d: HeadDecision, scope: set<CandidateId>, now: Millis) returns (reply: Reply)
      requires Valid()
      modifies this
      ensures Valid() && Outcome(Contents(), reply) == DecideOne(old(Contents()), c, d, scope, now)
    {
      StepKeepsPendingHeld(Contents(), HeadCall(c, d, scope, now));
      if c !in signOffs || c !in candidates { return Refused(NothingWaiting); }
      if c !in scope { return Refused(OutOfScope); }
      if signOffs[c] != Pending { return Refused(AlreadyDecided); }
      if candidates[c].stage != Interview { return Refused(NotAtInterview); }
      match d {
        case Approve =>
          signOffs := signOffs[c := Approved];
          candidates := candidates[c := Candidate(Final, None)];
          FinishHandOffs(c, now);
        case Reject =>
          signOffs := signOffs[c := SignOff.Rejected];
          candidates := candidates[c := Candidate(CandidateStage.Rejected, Some(now))];
          FinishHandOffs(c, now);
        case Return =>
          signOffs := signOffs[c := Returned];
      }
      reply := Done;
    }

    /** One verdict across a selection, each id once, with a result for each. */
    method DecideMany(ids: seq<CandidateId>, d: HeadDecision, scope: set<CandidateId>, now: Millis)
      returns (results: seq<Result>)
      requires Valid()
      modifies this
      ensures Valid() && Batch(Contents(), results) == DecideEach(old(Contents()), Once(ids), d, scope, now)
    {
      var distinct := Once(ids);
      results := [];
      for n := 0 to |distinct|
        invariant Valid() && Batch(Contents(), results) == DecideEach(old(Contents()), distinct[..n], d, scope, now)
      {
        var reply := Decide(distinct[n], d, scope, now);
        results := results + [Result(distinct[n], reply)];
        assert distinct[..n + 1][..n] == distinct[..n];
      }
      assert distinct[..|distinct|] == distinct;
    }

    method RejectOnScreen(c: CandidateId, hireInFlight: bool, now: Millis) returns (reply: Reply)
      requires Valid()
      modifies this`candidates
      ensures Valid() && Outcome(Contents(), reply) == RejectAtInterview(old(Contents()), c, hireInFlight, now)
    {
      StepKeepsPendingHeld(Contents(), RejectCall(c, hireInFlight, now));
      if c !in candidates { return Refused(NotFound); }
      var stage := candidates[c].stage;
      if stage == CandidateStage.Rejected || stage == Selected { return Refused(RejectBlocked); }
      if stage == Final && hireInFlight { return Refused(RejectBlocked); }
      candidates := candidates[c := Candidate(CandidateStage.Rejected, Some(now))];
      reply := Done;
    }
  }
}
