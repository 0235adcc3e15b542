/** The email check on an application, over the rows of all addresses
    (src/modules/candidates/apply-email.service.ts). */
module ApplyEmailService {
  import opened Optional
  import opened EmailAddress
  import opened ApplyCodes
  import VerificationToken

  type Rows = map<Text, CodeState>

  function RowOf(rows: Rows, address: Text): Row {
    if address in rows then Some(rows[address]) else None
  }

  /** Only the one address's row differs. */
  ghost predicate OnlyRow(before: Rows, after: Rows, address: Text, row: Row) {
    RowOf(after, address) == row && forall a :: a != address ==> RowOf(after, a) == RowOf(before, a)
  }

  class EmailDesk {
    var rows: Rows

    constructor ()
      ensures rows == map[]
    {
      rows := map[];
    }

    /** Stores a new code, mails it, and takes it back when the mail does not go. */
    method SendCodeTo(email: Text, drawn: string, delivered: bool, now: Millis) returns (reply: Reply)
      modifies this
      ensures var outcome := SendCode(RowOf(old(rows), Normalise(email)), drawn, delivered, now);
              OnlyRow(old(rows), rows, Normalise(email), outcome.row) && reply == outcome.reply
    {
      var address := Normalise(email);
      match SendDecision(RowOf(rows, address), now)
      case Wait(seconds) => reply := AskedTooSoon(seconds);
      case Limit(minutes) => reply := SendLimit(minutes);
      case Send(start, count) =>
        rows := rows[address := CodeState(Some(drawn), Some(now + CODE_TTL_MS), 0, Some(now), Some(start), count, now)];
        reply := Sent;
        if !delivered {
          rows := rows[address := rows[address].(code := None, expiresAt := None, sentAt := None,
              windowCount := count - 1)];
          reply := Undelivered;
        }
    }

    /** A right code is spent and its address's note handed back. */
    method VerifyCodeFor(mac: VerificationToken.Mac, email: Text, given: string, now: Millis)
      returns (reply: Reply, note: string)
      modifies this
      ensures var outcome := VerifyCode(RowOf(old(rows), Normalise(email)), given, now);
              OnlyRow(old(rows), rows, Normalise(email), outcome.row) && reply == outcome.reply
      ensures reply.Accepted? ==> forall later ::
                VerificationToken.ReadVerification(mac, note, later)
                == if later < now + 3_600_000 then Some(Normalise(email)) else None
    {
      note := [];
      var address := Normalise(email);
      var row := RowOf(rows, address);
      var unusable := CodeUnusable(row, now);
      if unusable.Some? { return Unchecked(unusable.value), note; }
      if Some(given) != row.value.code {
        rows := rows[address := rows[address].(attempts := rows[address].attempts + 1, updatedAt := now)];
        var left := MAX_ATTEMPTS - rows[address].attempts;
        if left <= 0 {
          rows := rows[address := rows[address].(code := None, expiresAt := None)];
          return WrongAndCancelled, note;
        }
        return Wrong(left), note;
      }
      rows := rows[address := rows[address].(code := None, expiresAt := None, attempts := 0, updatedAt := now)];
      note := VerificationToken.SignVerification(mac, address, now);
      reply := Accepted;
      NormaliseTwice(email);
      forall later ensures VerificationToken.ReadVerification(mac, note, later)
                           == if later < now + 3_600_000 then Some(Normalise(email)) else None {
        VerificationToken.SignedReadsBack(mac, address, now, later);
      }
    }

    /** Forgets every address untouched for a day. */
    method ForgetStale(now: Millis) returns (count: nat)
      modifies this
      ensures forall a :: RowOf(rows, a) == PurgeStale(RowOf(old(rows), a), now).row
      ensures count == |old(rows)| - |rows|
    {
      var stale := set a | a in rows && rows[a].updatedAt < now - KEEP_MS;
      count := |stale|;
      assert rows.Keys - stale == (rows - stale).Keys;
      rows := rows - stale;
    }
  }
}
