/** Unpadded base64url text (section 5 of RFC 4648), and the reading of it back. */
module Base64Url {
  import opened EmailAddress

  type Sextet = v: nat | v < 64

  /** Letters, digits, minus and underscore. */
  function CharOf(v: Sextet): char {
    if v < 26 then ('A' as int + v) as char
    else if v < 52 then ('a' as int + v - 26) as char
    else if v < 62 then ('0' as int + v - 52) as char
    else if v == 62 then '-'
    else '_'
  }

  predicate InAlphabet(c: char) {
    'A' <= c <= 'Z' || 'a' <= c <= 'z' || '0' <= c <= '9' || c == '-' || c == '_'
  }

  function SextetOf(c: char): Sextet
    requires InAlphabet(c)
  {
    if 'A' <= c <= 'Z' then c as int - 'A' as int
    else if 'a' <= c <= 'z' then c as int - 'a' as int + 26
    else if '0' <= c <= '9' then c as int - '0' as int + 52
    else if c == '-' then 62
    else 63
  }

  function Chars(vs: seq<Sextet>): string {
    if vs == [] then [] else [CharOf(vs[0])] + Chars(vs[1..])
  }

  /** Characters outside the alphabet are passed over. */
  function Sextets(s: string): seq<Sextet> {
    if s == [] then []
    else if InAlphabet(s[0]) then [SextetOf(s[0])] + Sextets(s[1..])
    else Sextets(s[1..])
  }

  /** Three bytes to four sextets; a rest of one or two to two or three. */
  function Split(bs: Text): seq<Sextet> {
    if bs == [] then []
    else if |bs| == 1 then [bs[0] / 4, bs[0] % 4 * 16]
    else if |bs| == 2 then [bs[0] / 4, bs[0] % 4 * 16 + bs[1] / 16, bs[1] % 16 * 4]
    else [bs[0] / 4, bs[0] % 4 * 16 + bs[1] / 16, bs[1] % 16 * 4 + bs[2] / 64, bs[2] % 64] + Split(bs[3..])
  }

  /** A byte from its upper and lower bits. */
  function ByteOf(upper: nat, lower: nat): Byte
    requires upper + lower < 256
  {
    upper + lower
  }

  function Join(vs: seq<Sextet>): Text {
    if |vs| < 2 then []
    else
      var first := ByteOf(vs[0] as int * 4, vs[1] / 16);
      if |vs| == 2 then [first]
      else
        var second := ByteOf(vs[1] as int % 16 * 16, vs[2] / 4);
        if |vs| == 3 then [first, second]
        else [first, second, ByteOf(vs[2] as int % 4 * 64, vs[3])] + Join(vs[4..])
  }

  function Encode(bs: Text): string {
    Chars(Split(bs))
  }

  function Decode(s: string): Text {
    Join(Sextets(s))
  }

  lemma {:induction false} CharsReadBack(vs: seq<Sextet>)
    ensures Sextets(Chars(vs)) == vs && forall c :: c in Chars(vs) ==> InAlphabet(c)
  {
    if vs != [] {
      CharsReadBack(vs[1..]);
      assert Chars(vs)[1..] == Chars(vs[1..]);
    }
  }

  lemma {:induction false} SplitJoins(bs: Text)
    ensures Join(Split(bs)) == bs
  {
    if |bs| >= 3 {
      var four, rest := Split(bs)[..4], Split(bs[3..]);
      SplitJoins(bs[3..]);
      assert Split(bs) == four + rest && Split(bs)[4..] == rest;
      assert bs == bs[..3] + bs[3..];
    }
  }

  /** Every byte string comes back from its text, which holds no dot. */
  lemma EncodedReadsBack(bs: Text)
    ensures Decode(Encode(bs)) == bs && '.' !in Encode(bs)
  {
    CharsReadBack(Split(bs));
    SplitJoins(bs);
  }

  // ---- What the text is ----

  /** The six bits a character stands for, by its code; -1 outside the alphabet. */
  ghost function Bits(c: char): (v: int)
    ensures -1 <= v < 64
  {
    var code := c as int;
    if 65 <= code <= 90 then code - 65
    else if 97 <= code <= 122 then code - 71
    else if 48 <= code <= 57 then code + 4
    else if code == 45 then 62
    else if code == 95 then 63
    else -1
  }

  /** What a text stands for, most significant character first. */
  ghost function BitsOf(s: string): int {
    if s == [] then 0 else BitsOf(s[..|s| - 1]) * 64 + Bits(s[|s| - 1])
  }

  lemma {:induction false} CharsStand(vs: seq<Sextet>)
    ensures |Chars(vs)| == |vs| && forall i :: 0 <= i < |vs| ==> Bits(Chars(vs)[i]) == vs[i]
  {
    if vs != [] { CharsStand(vs[1..]); }
  }

  lemma {:induction false} Four(s: string)
    ensures |s| == 2 ==> BitsOf(s) == Bits(s[0]) * 64 + Bits(s[1])
    ensures |s| == 3 ==> BitsOf(s) == (Bits(s[0]) * 64 + Bits(s[1])) * 64 + Bits(s[2])
    ensures |s| == 4 ==> BitsOf(s) == ((Bits(s[0]) * 64 + Bits(s[1])) * 64 + Bits(s[2])) * 64 + Bits(s[3])
  {
    if |s| == 3 {
      Four(s[..2]);
    } else if |s| == 4 {
      Four(s[..3]);
    } else if |s| == 2 {
      assert BitsOf(s[..1]) == Bits(s[0]) by { assert s[..1][..0] == []; }
    }
  }

  /** Three bytes print as four characters of their 24 bits; one or two left over
      print as two or three, their bits filled up with zeros. */
  lemma {:induction false} EncodesBits(a: Byte, b: Byte, c: Byte)
    ensures |Encode([a, b, c])| == 4 && BitsOf(Encode([a, b, c])) == (a * 256 + b) * 256 + c
    ensures |Encode([a, b])| == 3 && BitsOf(Encode([a, b])) == (a * 256 + b) * 4
    ensures |Encode([a])| == 2 && BitsOf(Encode([a])) == a * 16
  {
    assert Split([a, b, c][3..]) == [];
    CharsStand(Split([a, b, c]));
    CharsStand(Split([a, b]));
    CharsStand(Split([a]));
    Four(Encode([a, b, c]));
    Four(Encode([a, b]));
    Four(Encode([a]));
  }

  lemma {:induction false} CharsJoin(vs: seq<Sextet>, more: seq<Sextet>)
    ensures Chars(vs + more) == Chars(vs) + Chars(more)
  {
    if vs == [] {
      assert vs + more == more;
    } else {
      assert (vs + more)[1..] == vs[1..] + more;
      CharsJoin(vs[1..], more);
    }
  }

  /** After whole threes of bytes the text goes on with that of the rest. */
  lemma {:induction false} EncodesInThrees(bs: Text, more: Text)
    requires |bs| % 3 == 0
    ensures Encode(bs + more) == Encode(bs) + Encode(more)
  {
    SplitsInThrees(bs, more);
    CharsJoin(Split(bs), Split(more));
  }

  lemma {:induction false} SplitsInThrees(bs: Text, more: Text)
    requires |bs| % 3 == 0
    ensures Split(bs + more) == Split(bs) + Split(more)
  {
    if bs == [] {
      assert bs + more == more;
    } else {
      assert (bs + more)[3..] == bs[3..] + more;
      SplitsInThrees(bs[3..], more);
    }
  }
}
