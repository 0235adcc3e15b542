/** One spelling per mailbox (normaliseEmail in
    src/modules/candidates/apply-email-verification.ts), on the bytes of the text. */
module EmailAddress {
  type Byte = b: nat | b < 256

  type Text = seq<Byte>

  /** The ASCII white space: tab to carriage return, and the space. */
  predicate IsSpace(b: Byte) {
    9 <= b <= 13 || b == 32
  }

  predicate AllSpace(s: Text) {
    forall b :: b in s ==> IsSpace(b)
  }

  function TrimStart(s: Text): Text {
    if s != [] && IsSpace(s[0]) then TrimStart(s[1..]) else s
  }

  function TrimEnd(s: Text): Text {
    if s != [] && IsSpace(s[|s| - 1]) then TrimEnd(s[..|s| - 1]) else s
  }

  function LowerByte(b: Byte): Byte {
    if 65 <= b <= 90 then b + 32 else b
  }

  function Lower(s: Text): Text {
    if s == [] then [] else Lower(s[..|s| - 1]) + [LowerByte(s[|s| - 1])]
  }

  function Normalise(s: Text): Text {
    Lower(TrimEnd(TrimStart(s)))
  }

  /** Neither begins nor ends with white space. */
  predicate Trimmed(s: Text) {
    s != [] ==> s[0] !in {9, 10, 11, 12, 13, 32} && s[|s| - 1] !in {9, 10, 11, 12, 13, 32}
  }

  lemma {:induction false} LowerAt(s: Text)
    ensures |Lower(s)| == |s| && forall i :: 0 <= i < |s| ==> Lower(s)[i] == LowerByte(s[i])
  {
    if s != [] { LowerAt(s[..|s| - 1]); }
  }

  lemma {:induction false} TrimStartSplits(s: Text) returns (left: Text)
    ensures AllSpace(left) && s == left + TrimStart(s) && (TrimStart(s) != [] ==> !IsSpace(TrimStart(s)[0]))
  {
    left := [];
    if s != [] && IsSpace(s[0]) {
      var rest := TrimStartSplits(s[1..]);
      left := [s[0]] + rest;
    }
  }

  lemma {:induction false} TrimEndSplits(s: Text) returns (right: Text)
    ensures AllSpace(right) && s == TrimEnd(s) + right && (TrimEnd(s) != [] ==> !IsSpace(TrimEnd(s)[|TrimEnd(s)| - 1]))
  {
    right := [];
    if s != [] && IsSpace(s[|s| - 1]) {
      var rest := TrimEndSplits(s[..|s| - 1]);
      right := rest + [s[|s| - 1]];
    }
  }

  lemma {:induction false} TrimStartOf(left: Text, s: Text)
    requires AllSpace(left) && (s != [] ==> !IsSpace(s[0]))
    ensures TrimStart(left + s) == s
  {
    if left == [] {
      assert left + s == s;
    } else {
      assert (left + s)[1..] == left[1..] + s;
      TrimStartOf(left[1..], s);
    }
  }

  lemma {:induction false} TrimEndOf(s: Text, right: Text)
    requires AllSpace(right) && (s != [] ==> !IsSpace(s[|s| - 1]))
    ensures TrimEnd(s + right) == s
  {
    if right == [] {
      assert s + right == s;
    } else {
      assert (s + right)[..|s + right| - 1] == s + right[..|right| - 1];
      TrimEndOf(s, right[..|right| - 1]);
    }
  }

  lemma TrimOf(left: Text, s: Text, right: Text)
    requires AllSpace(left) && AllSpace(right) && Trimmed(s)
    ensures TrimEnd(TrimStart(left + s + right)) == s
  {
    if s == [] {
      assert left + s + right == (left + right) + [];
      TrimStartOf(left + right, []);
    } else {
      assert left + s + right == left + (s + right);
      TrimStartOf(left, s + right);
      TrimEndOf(s, right);
    }
  }

  /** The address with white space around it, capitals (65 to 90) standing for small letters 32 on. */
  ghost predicate Spells(raw: Text, left: Text, core: Text, right: Text, address: Text) {
    && raw == left + core + right && |core| == |address|
    && (forall b :: b in left + right ==> b in {9, 10, 11, 12, 13, 32})
    && forall i :: 0 <= i < |core| ==> address[i] == if 65 <= core[i] <= 90 then core[i] + 32 else core[i]
  }

  lemma NormalForm(raw: Text) returns (left: Text, core: Text, right: Text)
    ensures Spells(raw, left, core, right, Normalise(raw)) && Trimmed(core) && Trimmed(Normalise(raw))
  {
    left := TrimStartSplits(raw);
    right := TrimEndSplits(TrimStart(raw));
    core := TrimEnd(TrimStart(raw));
    LowerAt(core);
    assert raw == left + core + right;
    if core != [] { assert TrimStart(raw)[0] == core[0]; }
  }

  /** A text normalises to a trimmed address exactly when it is that address in
      some case of letters with white space around it. */
  lemma SpellingsOf(raw: Text, address: Text)
    requires Trimmed(address)
    ensures Normalise(raw) == address <==> exists left, core, right :: Spells(raw, left, core, right, address)
  {
    var l, c, r := NormalForm(raw);
    if left, core, right :| Spells(raw, left, core, right, address) {
      LowerAt(core);
      forall b | b in left || b in right ensures IsSpace(b) { assert b in left + right; }
      TrimOf(left, core, right);
    }
  }

  /** A normalised address is its own one spelling. */
  lemma NormaliseTwice(raw: Text)
    ensures Normalise(Normalise(raw)) == Normalise(raw)
  {
    var left, core, right := NormalForm(raw);
    var address := Normalise(raw);
    LowerAt(core);
    LowerAt(address);
    assert Lower(address) == address;
    assert Spells(address, [], address, [], address);
    SpellingsOf(address, address);
  }
}
