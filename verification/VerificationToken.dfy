/** The signed note that an address was proved (signVerification and
    readVerification in src/modules/candidates/apply-email-verification.ts, and
    assertVerified in apply-email.service.ts). The keyed hash is a parameter. */
module VerificationToken {
  import opened Optional
  import opened EmailAddress
  import Base64Url
  import Decimal

  type Millis = int

  /** The keyed hash of a text, under the one server key. */
  type Mac = string -> Text

  const VERIFIED_TTL_MS: Millis := 60 * 60_000

  function PrintMillis(t: Millis): string {
    if t < 0 then "-" + Decimal.Digits(-t) else Decimal.Digits(t)
  }

  /** A decimal number with an optional minus, or None. */
  function ReadMillis(s: string): Option<Millis> {
    if s != [] && Decimal.AllDigits(s) then Some(Decimal.Value(s))
    else if |s| > 1 && s[0] == '-' && Decimal.AllDigits(s[1..]) then Some(0 - Decimal.Value(s[1..]) as int)
    else None
  }

  /** The parts of a text between dots. */
  function Parts(s: string): (parts: seq<string>)
    ensures parts != []
  {
    if s == [] then [[]]
    else
      var rest := Parts(s[1..]);
      if s[0] == '.' then [[]] + rest else [[s[0]] + rest[0]] + rest[1..]
  }

  /** Parts put together with dots between them. */
  function Joined(parts: seq<string>): string
    requires parts != []
  {
    if |parts| == 1 then parts[0] else parts[0] + "." + Joined(parts[1..])
  }

  function Body(address: string, expires: string): string {
    Joined(["v1", address, expires])
  }

  function Signature(mac: Mac, body: string): string {
    Base64Url.Encode(mac(body))
  }

  function SignVerification(mac: Mac, email: Text, now: Millis): string {
    var body := Body(Base64Url.Encode(Normalise(email)), PrintMillis(now + VERIFIED_TTL_MS));
    body + "." + Signature(mac, body)
  }

  /** The address proved, or None for a note forged, mangled or spent. */
  function ReadVerification(mac: Mac, token: string, now: Millis): Option<Text> {
    var parts := Parts(token);
    if token == [] || |parts| != 4 || parts[0] != "v1" then None
    else if parts[3] != Signature(mac, Body(parts[1], parts[2])) then None
    else
      var expires := ReadMillis(parts[2]);
      if expires.None? || expires.value <= now then None else Some(Base64Url.Decode(parts[1]))
  }

  datatype Verdict = Passed | NotVerified | AddressChanged | VerificationExpired

  function AssertVerified(mac: Mac, required: bool, email: Text, token: string, now: Millis): Verdict {
    if !required then Passed
    else
      var proved := ReadVerification(mac, token, now);
      if proved == Some(Normalise(email)) then Passed
      else if token == [] then NotVerified
      else if proved.Some? then AddressChanged
      else VerificationExpired
  }

  // ---- Parts ----

  lemma {:induction false} PartsOfJoined(p: string, rest: string)
    requires '.' !in p
    ensures Parts(p + "." + rest) == [p] + Parts(rest)
  {
    var s := p + "." + rest;
    if p == [] {
      assert s[1..] == rest;
    } else {
      assert p[0] in p;
      assert s[1..] == p[1..] + "." + rest;
      PartsOfJoined(p[1..], rest);
      assert [p[0]] + p[1..] == p;
    }
  }

  lemma {:induction false} PartsOfOne(p: string)
    requires '.' !in p
    ensures Parts(p) == [p]
  {
    if p != [] {
      assert p[0] in p;
      PartsOfOne(p[1..]);
      assert [p[0]] + p[1..] == p;
    }
  }

  lemma {:induction false} JoinedSplits(parts: seq<string>)
    requires parts != [] && forall p :: p in parts ==> '.' !in p
    ensures Parts(Joined(parts)) == parts
  {
    if |parts| == 1 {
      PartsOfOne(parts[0]);
    } else {
      JoinedSplits(parts[1..]);
      PartsOfJoined(parts[0], Joined(parts[1..]));
      assert [parts[0]] + parts[1..] == parts;
    }
  }

  lemma {:induction false} JoinedOneMore(parts: seq<string>, p: string)
    requires parts != []
    ensures Joined(parts + [p]) == Joined(parts) + "." + p
  {
    if |parts| == 1 {
      assert (parts + [p])[1..] == [p];
    } else {
      assert (parts + [p])[1..] == parts[1..] + [p];
      JoinedOneMore(parts[1..], p);
      assert parts[0] + "." + (Joined(parts[1..]) + "." + p) == parts[0] + "." + Joined(parts[1..]) + "." + p;
    }
  }

  lemma {:induction false} JoinedFirst(c: char, rest: seq<string>)
    requires rest != []
    ensures Joined([[c] + rest[0]] + rest[1..]) == [c] + Joined(rest)
  {
  }

  lemma {:induction false} PartsJoin(s: string)
    ensures Joined(Parts(s)) == s
  {
    if s != [] {
      var rest := Parts(s[1..]);
      PartsJoin(s[1..]);
      assert s == [s[0]] + s[1..];
      if s[0] == '.' {
        assert Parts(s)[1..] == rest;
      } else {
        JoinedFirst(s[0], rest);
      }
    }
  }

  lemma PrintedReadsBack(t: Millis)
    ensures ReadMillis(PrintMillis(t)) == Some(t) && '.' !in PrintMillis(t)
  {
    var n: nat := if t < 0 then -t else t;
    Decimal.DigitsReadBack(n);
    if t < 0 {
      var s := PrintMillis(t);
      assert s[1..] == Decimal.Digits(n) && s[0] == '-';
    }
  }

  // ---- What a note proves ----

  lemma NoteSplits(mac: Mac, address: string, expires: string)
    requires '.' !in address && '.' !in expires
    ensures var signature := Signature(mac, Body(address, expires));
            Parts(Body(address, expires) + "." + signature) == ["v1", address, expires, signature]
  {
    var signature := Signature(mac, Body(address, expires));
    Base64Url.EncodedReadsBack(mac(Body(address, expires)));
    JoinedOneMore(["v1", address, expires], signature);
    JoinedSplits(["v1", address, expires, signature]);
    assert ["v1", address, expires] + [signature] == ["v1", address, expires, signature];
  }

  /** The parts of a note as signed. */
  lemma SignedParts(mac: Mac, email: Text, now: Millis)
    ensures var address, expires := Base64Url.Encode(Normalise(email)), PrintMillis(now + VERIFIED_TTL_MS);
            Parts(SignVerification(mac, email, now)) == ["v1", address, expires, Signature(mac, Body(address, expires))]
  {
    var address, expires := Base64Url.Encode(Normalise(email)), PrintMillis(now + VERIFIED_TTL_MS);
    Base64Url.EncodedReadsBack(Normalise(email));
    PrintedReadsBack(now + VERIFIED_TTL_MS);
    NoteSplits(mac, address, expires);
  }

  /** A note signed for an address reads as that address, normalised, for
      exactly an hour. */
  lemma SignedReadsBack(mac: Mac, email: Text, at: Millis, now: Millis)
    ensures ReadVerification(mac, SignVerification(mac, email, at), now)
            == if now < at + 3_600_000 then Some(Normalise(email)) else None
  {
    SignedParts(mac, email, at);
    Base64Url.EncodedReadsBack(Normalise(email));
    PrintedReadsBack(at + VERIFIED_TTL_MS);
  }

  /** While proof is required, a signed note admits exactly the spellings of its
      address and exactly for its hour; what is wrong otherwise is told apart. */
  lemma AdmitsItsSpellings(mac: Mac, email: Text, at: Millis, given: Text, now: Millis)
    ensures var verdict := AssertVerified(mac, true, given, SignVerification(mac, email, at), now);
            && (verdict.Passed? <==> now < at + 3_600_000
                                     && exists left, core, right :: Spells(given, left, core, right, Normalise(email)))
            && (verdict.VerificationExpired? <==> at + 3_600_000 <= now)
            && !verdict.NotVerified?
  {
    SignedReadsBack(mac, email, at, now);
    var left, core, right := NormalForm(email);
    SpellingsOf(given, Normalise(email));
  }

  /** Notes that are the same text prove the same address at the same time. */
  lemma NotesDiffer(mac: Mac, email: Text, at: Millis, other: Text, again: Millis)
    requires SignVerification(mac, email, at) == SignVerification(mac, other, again)
    ensures Normalise(email) == Normalise(other) && at == again
  {
    SignedParts(mac, email, at);
    SignedParts(mac, other, again);
    Base64Url.EncodedReadsBack(Normalise(email));
    Base64Url.EncodedReadsBack(Normalise(other));
    PrintedReadsBack(at + VERIFIED_TTL_MS);
    PrintedReadsBack(again + VERIFIED_TTL_MS);
  }

  /** Three parts and the keyed hash of them, with dots between. */
  ghost predicate IsNote(mac: Mac, token: string, address: string, expires: string) {
    && token == "v1" + "." + address + "." + expires + "."
                + Base64Url.Encode(mac("v1" + "." + address + "." + expires))
    && '.' !in address && '.' !in expires
  }

  /** The text is a decimal number, with an optional minus. */
  ghost predicate IsTime(s: string, t: Millis) {
    || (|s| > 0 && Decimal.AllDigits(s) && t == Decimal.Value(s))
    || (|s| > 1 && s[0] == '-' && Decimal.AllDigits(s[1..]) && t + Decimal.Value(s[1..]) == 0)
  }

  lemma BodyText(address: string, expires: string)
    ensures Body(address, expires) == "v1" + "." + address + "." + expires
  {
    JoinedOneMore(["v1"], address);
    JoinedOneMore(["v1", address], expires);
    assert ["v1"] + [address] == ["v1", address] && ["v1", address] + [expires] == ["v1", address, expires];
  }

  lemma {:induction false} PartsHaveNoDot(s: string)
    ensures forall p :: p in Parts(s) ==> '.' !in p
  {
    if s != [] { PartsHaveNoDot(s[1..]); }
  }

  /** Exactly the texts read as proof of an address are those that name it and a
      time still to come, and carry the keyed hash of their own first three parts. */
  lemma OnlyItsOwnHashReads(mac: Mac, token: string, now: Millis, proved: Text)
    ensures ReadVerification(mac, token, now) == Some(proved)
            <==> exists address, expires, t :: IsNote(mac, token, address, expires) && IsTime(expires, t) && now < t
                                               && Base64Url.Decode(address) == proved
  {
    if ReadVerification(mac, token, now) == Some(proved) { ReadIsNote(mac, token, now, proved); }
    if address, expires, t :|
      IsNote(mac, token, address, expires) && IsTime(expires, t) && now < t && Base64Url.Decode(address) == proved
    {
      BodyText(address, expires);
      NoteSplits(mac, address, expires);
    }
  }

  lemma ReadIsNote(mac: Mac, token: string, now: Millis, proved: Text)
    requires ReadVerification(mac, token, now) == Some(proved)
    ensures exists address, expires, t :: IsNote(mac, token, address, expires) && IsTime(expires, t) && now < t
                                          && Base64Url.Decode(address) == proved
  {
    var parts := Parts(token);
    PartsJoin(token);
    PartsHaveNoDot(token);
    assert parts == ["v1", parts[1], parts[2]] + [parts[3]];
    JoinedOneMore(["v1", parts[1], parts[2]], parts[3]);
    BodyText(parts[1], parts[2]);
    assert IsNote(mac, token, parts[1], parts[2]);
    assert IsTime(parts[2], ReadMillis(parts[2]).value);
  }

  /** The text is a note, still good, that proves the address. */
  ghost predicate Proves(mac: Mac, token: string, proved: Text, now: Millis) {
    exists address, expires, t :: IsNote(mac, token, address, expires) && IsTime(expires, t) && now < t
                                  && Base64Url.Decode(address) == proved
  }

  /** What is answered for every text: passed when proof is not asked for or the
      text proves the address, changed when it proves another one. */
  lemma AnswersForAnyText(mac: Mac, required: bool, email: Text, token: string, now: Millis)
    ensures var verdict := AssertVerified(mac, required, email, token, now);
            && (verdict.Passed? <==> !required || Proves(mac, token, Normalise(email), now))
            && (verdict.AddressChanged? <==>
                  required && exists proved :: proved != Normalise(email) && Proves(mac, token, proved, now))
            && (verdict.NotVerified? <==> required && |token| == 0)
  {
    forall proved ensures Proves(mac, token, proved, now) <==> ReadVerification(mac, token, now) == Some(proved) {
      OnlyItsOwnHashReads(mac, token, now, proved);
    }
    if ReadVerification(mac, token, now).Some? {
      assert Proves(mac, token, ReadVerification(mac, token, now).value, now);
    }
  }
}
