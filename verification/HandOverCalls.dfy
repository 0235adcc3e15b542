/** What each hand-over call answers and leaves behind, column by column. */
module HandOverCalls {
  import opened Optional
  import opened DelegationProgress
  import opened FirstInterview
  import IdLists

  // ---- Handing over ----

  ghost predicate AllFoundOnce(t: Tables, ids: seq<CandidateId>) {
    && (forall i :: 0 <= i < |ids| ==> ids[i] in t.candidates)
    && (forall i, j :: 0 <= i < j < |ids| ==> ids[i] != ids[j])
  }

  lemma FoundOnce(t: Tables, ids: seq<CandidateId>)
    ensures |FoundCandidates(t, ids)| == |ids| <==> AllFoundOnce(t, ids)
  {
    var found := FoundCandidates(t, ids);
    if |found| == |ids| {
      IdLists.AllFound(ids, found);
      assert forall i :: 0 <= i < |ids| ==> ids[i] in ids;
    } else if AllFoundOnce(t, ids) {
      assert found == IdLists.IdSet(ids);
      IdLists.DistinctSize(ids);
    }
  }

  lemma DelegateAnswers(t: Tables, ids: seq<CandidateId>, users: seq<UserId>, active: set<UserId>, now: Millis)
    ensures Step(t, DelegateCall(ids, users, active, now)).reply
            == if ids == [] || users == [] then Refused(NothingSelected)
               else if !AllFoundOnce(t, ids) then Refused(NotFound)
               else if forall i :: 0 <= i < |users| ==> users[i] !in active then Refused(NoValidPerson)
               else Done
  {
    FoundOnce(t, ids);
    if i :| 0 <= i < |users| && users[i] in active { assert users[i] in Delegates(users, active); }
  }

  /** Each pair of a selected candidate and an active person is made, or restored
      with one more send and its completion kept; no other row changes. */
  lemma DelegateWrites(t: Tables, ids: seq<CandidateId>, users: seq<UserId>, active: set<UserId>, now: Millis)
    requires Step(t, DelegateCall(ids, users, active, now)).reply == Done
    ensures var after := Step(t, DelegateCall(ids, users, active, now)).tables;
            && after.candidates == t.candidates && after.signOffs == t.signOffs
            && (forall c, u :: c in ids && u in users && u in active ==>
                  && (c, u) in after.handOffs && after.handOffs[(c, u)].revokedAt == None
                  && after.handOffs[(c, u)].lastSentAt == now
                  && (if (c, u) in t.handOffs
                      then && after.handOffs[(c, u)].completedAt == t.handOffs[(c, u)].completedAt
                           && after.handOffs[(c, u)].sendCount == t.handOffs[(c, u)].sendCount + 1
                      else after.handOffs[(c, u)].completedAt == None && after.handOffs[(c, u)].sendCount == 1))
            && (forall c, u :: !(c in ids && u in users && u in active) ==>
                  && ((c, u) in after.handOffs <==> (c, u) in t.handOffs)
                  && ((c, u) in t.handOffs ==> after.handOffs[(c, u)] == t.handOffs[(c, u)]))
  {
    FoundOnce(t, ids);
    assert forall c :: c in ids ==> c in FoundCandidates(t, ids);
  }

  lemma RevokeDoes(t: Tables, c: CandidateId, u: UserId, now: Millis)
    ensures var after := Step(t, RevokeCall(c, u, now));
            && after.reply == (if c !in t.candidates then Refused(NotFound)
                               else if c in t.signOffs && t.signOffs[c] == Pending then Refused(WithTheHead)
                               else Done)
            && after.tables.candidates == t.candidates && after.tables.signOffs == t.signOffs
            && after.tables.handOffs.Keys == t.handOffs.Keys
            && forall k :: k in t.handOffs ==>
                 var row := after.tables.handOffs[k];
                 if after.reply == Done && k == (c, u) && t.handOffs[k].revokedAt == None
                 then row.revokedAt == Some(now) && row.completedAt == t.handOffs[k].completedAt
                      && row.sendCount == t.handOffs[k].sendCount && row.lastSentAt == t.handOffs[k].lastSentAt
                 else row == t.handOffs[k]
  {
  }

  // ---- Verdicts ----

  ghost predicate HeldBySomebody(t: Tables, c: CandidateId) {
    exists u :: (c, u) in t.handOffs && t.handOffs[(c, u)].revokedAt == None && t.handOffs[(c, u)].completedAt == None
  }

  /** Every open hand-off of the candidate is completed now; other rows stay. */
  ghost predicate Completed(t: Tables, after: Tables, c: CandidateId, now: Millis) {
    && after.handOffs.Keys == t.handOffs.Keys
    && forall k :: k in t.handOffs ==>
         if k.0 == c && t.handOffs[k].revokedAt == None && t.handOffs[k].completedAt == None
         then && after.handOffs[k].completedAt == Some(now) && after.handOffs[k].revokedAt == None
              && after.handOffs[k].sendCount == t.handOffs[k].sendCount
              && after.handOffs[k].lastSentAt == t.handOffs[k].lastSentAt
         else after.handOffs[k] == t.handOffs[k]
  }

  /** Only the one candidate's row differs, and shows the final stage, or a rejection made now. */
  ghost predicate MovedTo(t: Tables, after: Tables, c: CandidateId, through: bool, now: Millis) {
    && after.candidates.Keys == t.candidates.Keys + {c}
    && (forall d :: d in t.candidates && d != c ==> after.candidates[d] == t.candidates[d])
    && (through ==> after.candidates[c].stage == Final && after.candidates[c].rejectedAt == None)
    && (!through ==>
          after.candidates[c].stage == CandidateStage.Rejected && after.candidates[c].rejectedAt == Some(now))
  }

  lemma OutcomeAnswers(t: Tables, c: CandidateId, v: Verdict, heads: bool, testsMarked: bool, now: Millis)
    ensures Step(t, OutcomeCall(c, v, heads, testsMarked, now)).reply
            == if c !in t.candidates then Refused(NotFound)
               else if t.candidates[c].stage != Interview then Refused(NotAtInterview)
               else if c in t.signOffs && t.signOffs[c] == Pending then Refused(WithTheHead)
               else if !testsMarked then Refused(TestsUnmarked)
               else if v == ThroughToFinal && heads && HeldBySomebody(t, c) then SentToHead
               else Done
  {
    if u :| (c, u) in t.handOffs && t.handOffs[(c, u)].revokedAt == None && t.handOffs[(c, u)].completedAt == None {
      assert (c, u) in OpenHandOffs(t, c);
    }
    if k :| k in OpenHandOffs(t, c) { assert k == (c, k.1); }
  }

  /** An outcome sent to the Head only opens the sign-off; one given outright
      moves the candidate and completes what is open; a refused one does nothing. */
  lemma OutcomeWrites(t: Tables, c: CandidateId, v: Verdict, heads: bool, testsMarked: bool, now: Millis)
    ensures var after := Step(t, OutcomeCall(c, v, heads, testsMarked, now));
            match after.reply
            case Refused(_) => after.tables == t
            case SentToHead =>
              after.tables.candidates == t.candidates && after.tables.handOffs == t.handOffs
              && after.tables.signOffs == t.signOffs[c := Pending]
            case Done =>
              after.tables.signOffs == t.signOffs && Completed(t, after.tables, c, now)
              && MovedTo(t, after.tables, c, v == ThroughToFinal, now)
  {
  }

  lemma HeadAnswers(t: Tables, c: CandidateId, d: HeadDecision, scope: set<CandidateId>, now: Millis)
    ensures Step(t, HeadCall(c, d, scope, now)).reply
            == if c !in t.signOffs || c !in t.candidates then Refused(NothingWaiting)
               else if c !in scope then Refused(OutOfScope)
               else if t.signOffs[c] != Pending then Refused(AlreadyDecided)
               else if t.candidates[c].stage != Interview then Refused(NotAtInterview)
               else Done
  {
  }

  /** The Head's approval sends the candidate to the final stage, a rejection
      rejects, both completing what is open; a return leaves both alone. */
  lemma HeadWrites(t: Tables, c: CandidateId, d: HeadDecision, scope: set<CandidateId>, now: Millis)
    ensures var after := Step(t, HeadCall(c, d, scope, now));
            if after.reply != Done then after.tables == t
            else match d
                 case Return =>
                   after.tables.candidates == t.candidates && after.tables.handOffs == t.handOffs
                   && after.tables.signOffs == t.signOffs[c := Returned]
                 case Approve =>
                   after.tables.signOffs == t.signOffs[c := Approved] && Completed(t, after.tables, c, now)
                   && MovedTo(t, after.tables, c, true, now)
                 case Reject =>
                   after.tables.signOffs == t.signOffs[c := SignOff.Rejected] && Completed(t, after.tables, c, now)
                   && MovedTo(t, after.tables, c, false, now)
  {
  }

  /** A rejection on the screen rejects and leaves hand-offs and sign-off alone. */
  lemma RejectDoes(t: Tables, c: CandidateId, hireInFlight: bool, now: Millis)
    ensures var after := Step(t, RejectCall(c, hireInFlight, now));
            && after.reply == (if c !in t.candidates then Refused(NotFound)
                               else if t.candidates[c].stage == CandidateStage.Rejected then Refused(RejectBlocked)
                               else if t.candidates[c].stage == Selected then Refused(RejectBlocked)
                               else if t.candidates[c].stage == Final && hireInFlight then Refused(RejectBlocked)
                               else Done)
            && (if after.reply == Done
                then after.tables.handOffs == t.handOffs && after.tables.signOffs == t.signOffs
                     && MovedTo(t, after.tables, c, false, now)
                else after.tables == t)
  {
  }

  /** Any other write to a candidate changes that row alone. */
  lemma WritingDoes(t: Tables, c: CandidateId, row: Candidate)
    ensures Step(t, CandidateWritten(c, row)).tables == t.(candidates := t.candidates[c := row])
  {
  }

  // ---- A selection ----

  /** A selection is decided id by id, repeats left out, each on what the ones
      before left; the results name the ids in the order they first appear. */
  lemma {:induction false} SelectionInOrder(t: Tables, ids: seq<CandidateId>, d: HeadDecision,
                                            scope: set<CandidateId>, now: Millis)
    ensures var b := DecideEach(t, ids, d, scope, now);
            && |b.results| == |ids| && forall i :: 0 <= i < |ids| ==> b.results[i].candidate == ids[i]
  {
    if ids != [] { SelectionInOrder(t, ids[..|ids| - 1], d, scope, now); }
  }

  // ---- Lists in the order of first appearance ----

  /** The ids decided come in the order they first appear in the selection. */
  lemma {:induction false} OnceInOrder(ids: seq<CandidateId>, more: seq<CandidateId>)
    ensures Once(ids) <= Once(ids + more)
  {
    if more == [] {
      assert ids + more == ids;
    } else {
      var n := |more| - 1;
      OnceInOrder(ids, more[..n]);
      assert (ids + more)[..|ids| + n] == ids + more[..n];
    }
  }

  /** The people named come in the order of their first rows. */
  lemma {:induction false} NamedInOrder(rows: seq<HoldRow>, more: seq<HoldRow>)
    ensures FirstNamed(rows) <= FirstNamed(rows + more)
  {
    if more == [] {
      assert rows + more == rows;
    } else {
      var n := |more| - 1;
      NamedInOrder(rows, more[..n]);
      assert (rows + more)[..|rows| + n] == rows + more[..n];
    }
  }

  lemma {:induction false} OneMoreOpen(rows: seq<HoldRow>, r: HoldRow)
    ensures OpenRows(rows + [r])
            == OpenRows(rows) + if r.revokedAt == None && r.completedAt == None then [r] else []
  {
    assert (rows + [r])[..|rows|] == rows;
  }

  /** The open rows are those neither revoked nor completed, in the rows' order. */
  lemma {:induction false} OpenInOrder(rows: seq<HoldRow>, more: seq<HoldRow>)
    ensures OpenRows(rows + more) == OpenRows(rows) + OpenRows(more)
    ensures forall r: HoldRow :: OpenRows([r]) == if r.revokedAt == None && r.completedAt == None then [r] else []
  {
    hide OpenRows;
    forall r: HoldRow ensures OpenRows([r]) == if r.revokedAt == None && r.completedAt == None then [r] else [] {
      OneMoreOpen([], r);
      assert [] + [r] == [r];
      NoneOpen();
    }
    if more == [] {
      assert rows + more == rows;
      NoneOpen();
    } else {
      var n := |more| - 1;
      OpenInOrder(rows, more[..n]);
      OneMoreOpen(more[..n], more[n]);
      OneMoreOpen(rows + more[..n], more[n]);
      assert more[..n] + [more[n]] == more;
      assert rows + more[..n] + [more[n]] == rows + more;
    }
  }

  lemma NoneOpen()
    ensures OpenRows([]) == []
  {
  }
}
