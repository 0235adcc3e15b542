/** The running number on an approval sheet (nextSheetReference in
    src/modules/board/board.service.ts). */
module SheetReferences {
  import opened Optional
  import opened Decimal

  /** Character order, as the database sorts references of one year. */
  predicate Before(x: string, y: string) {
    if x == [] then y != []
    else if y == [] then false
    else x[0] < y[0] || (x[0] == y[0] && Before(x[1..], y[1..]))
  }

  function Prefix(year: nat): string {
    "HAS-" + Digits(year) + "-"
  }

  /** The first of the year's references in descending order. */
  function Last(prefix: string, references: seq<string>): Option<string> {
    if references == [] then None
    else
      var rest := Last(prefix, references[..|references| - 1]);
      var r := references[|references| - 1];
      if !(prefix <= r) then rest
      else if rest.Some? && !Before(rest.value, r) then rest
      else Some(r)
  }

  /** Only references this numbering wrote have a number after the prefix. */
  function NumberOf(prefix: string, reference: string): nat {
    var tail := if prefix <= reference then reference[|prefix|..] else "";
    if AllDigits(tail) then Value(tail) else 0
  }

  function Next(prefix: string, references: seq<string>): string {
    var last := Last(prefix, references);
    prefix + Padded(if last.Some? then NumberOf(prefix, last.value) + 1 else 1, 4)
  }

  lemma {:induction false} BeforeIsNumeric(x: string, y: string)
    requires AllDigits(x) && AllDigits(y) && |x| == |y|
    ensures Before(x, y) <==> Value(x) < Value(y)
    ensures Value(x) == Value(y) ==> x == y
  {
    if x != [] {
      SplitFirst(x);
      SplitFirst(y);
      BeforeIsNumeric(x[1..], y[1..]);
      ValueBound(x[1..]);
      ValueBound(y[1..]);
      FirstDigitRules(DigitOf(x[0]), Value(x[1..]), DigitOf(y[0]), Value(y[1..]), Pow10(|x| - 1));
      assert x == [x[0]] + x[1..] && y == [y[0]] + y[1..];
    }
  }

  lemma {:induction false} FirstDigitRules(a: nat, u: nat, b: nat, v: nat, p: nat)
    requires u < p && v < p
    ensures a * p + u < b * p + v <==> a < b || (a == b && u < v)
    ensures a * p + u == b * p + v ==> a == b && u == v
  {
    if a < b {
      StepUp(a, b, p);
    } else if b < a {
      StepUp(b, a, p);
    }
  }

  lemma {:induction false} StepUp(a: nat, b: nat, p: nat)
    requires a < b
    ensures a * p + p <= b * p
  {
    var d := b - a - 1;
    assert b * p == a * p + p + d * p;
  }

  lemma {:induction false} SplitFirst(s: string)
    requires s != [] && AllDigits(s)
    ensures Value(s) == DigitOf(s[0]) * Pow10(|s| - 1) + Value(s[1..])
  {
    var n := |s| - 1;
    if n > 0 {
      SplitFirst(s[..n]);
      assert s[..n][1..] == s[1..][..n - 1];
      assert s[1..][n - 1] == s[n];
      assert Value(s[1..]) == Value(s[1..][..n - 1]) * 10 + DigitOf(s[n]);
      TenTimes(DigitOf(s[0]), Pow10(n - 1));
    }
  }

  lemma TenTimes(d: nat, p: nat)
    ensures d * (10 * p) == d * p * 10
  {
  }

  lemma {:induction false} BeforePrefixed(prefix: string, x: string, y: string)
    ensures Before(prefix + x, prefix + y) <==> Before(x, y)
  {
    if prefix == [] {
      assert prefix + x == x && prefix + y == y;
    } else {
      assert (prefix + x)[1..] == prefix[1..] + x && (prefix + y)[1..] == prefix[1..] + y;
      BeforePrefixed(prefix[1..], x, y);
    }
  }

  lemma NumberReadsBack(prefix: string, n: nat)
    ensures NumberOf(prefix, prefix + Padded(n, 4)) == n
  {
    assert (prefix + Padded(n, 4))[|prefix|..] == Padded(n, 4);
    PaddedReadsBack(n, 4);
  }

  /** On four places the order of the text is the order of the numbers. */
  lemma FourPlacesInOrder(prefix: string, m: nat, n: nat)
    requires m < 10000 && n < 10000
    ensures Before(prefix + Padded(m, 4), prefix + Padded(n, 4)) <==> m < n
  {
    FourPlaces(m);
    FourPlaces(n);
    PaddedReadsBack(m, 4);
    PaddedReadsBack(n, 4);
    BeforeIsNumeric(Padded(m, 4), Padded(n, 4));
    BeforePrefixed(prefix, Padded(m, 4), Padded(n, 4));
  }

  lemma FourPlaces(n: nat)
    ensures n < 10000 ==> |Padded(n, 4)| == 4
  {
    PaddedLength(n, 4);
    assert Pow10(4) == 10 * Pow10(3) == 10000;
  }

  /** The references the first count numbers print as. */
  function Numbered(prefix: string, count: nat): (references: seq<string>)
    ensures |references| == count
    ensures forall k :: 0 <= k < count ==> references[k] == prefix + Padded(k + 1, 4)
  {
    if count == 0 then [] else Numbered(prefix, count - 1) + [prefix + Padded(count, 4)]
  }

  lemma {:induction false} LastNumbered(prefix: string, count: nat)
    requires 0 < count < 10000
    ensures Last(prefix, Numbered(prefix, count)) == Some(prefix + Padded(count, 4))
  {
    var all := Numbered(prefix, count);
    assert all[..count - 1] == Numbered(prefix, count - 1);
    if count > 1 {
      LastNumbered(prefix, count - 1);
      FourPlacesInOrder(prefix, count - 1, count);
    }
  }

  lemma NumbersDiffer(prefix: string, m: nat, n: nat)
    ensures prefix + Padded(m, 4) == prefix + Padded(n, 4) <==> m == n
  {
    NumberReadsBack(prefix, m);
    NumberReadsBack(prefix, n);
  }

  lemma {:induction false} PowersBegin(k: nat)
    ensures Digits(Pow10(k))[0] == '1' && |Digits(Pow10(k))| == k + 1
  {
    if k > 0 {
      PowersBegin(k - 1);
      assert Pow10(k) / 10 == Pow10(k - 1) && Pow10(k) >= 10;
    }
  }

  lemma {:induction false} NinesBegin(k: nat)
    requires k > 0
    ensures Digits(Pow10(k) - 1)[0] == '9' && |Digits(Pow10(k) - 1)| == k
  {
    var n := Pow10(k) - 1;
    if k == 1 {
      assert Pow10(1) == 10;
    } else {
      NinesBegin(k - 1);
      SomePower(k - 1);
      assert n / 10 == Pow10(k - 1) - 1;
    }
  }

  /** From ten thousand on, a power of ten sorts before the number one less. */
  lemma PowersSortFirst(prefix: string, k: nat)
    requires k >= 4
    ensures !Before(prefix + Padded(Pow10(k) - 1, 4), prefix + Padded(Pow10(k), 4))
  {
    PowersBegin(k);
    NinesBegin(k);
    BeforePrefixed(prefix, Padded(Pow10(k) - 1, 4), Padded(Pow10(k), 4));
  }

  // ---- The table of all years ----

  /** The numbers of one year that print on four places. */
  const PER_YEAR: nat := 10_000

  /** The references of the table that belong to a year, in order. */
  function OfYear(prefix: string, references: seq<string>): seq<string> {
    if references == [] then []
    else
      var rest := OfYear(prefix, references[..|references| - 1]);
      if prefix <= references[|references| - 1] then rest + [references[|references| - 1]] else rest
  }

  lemma {:induction false} OfYearMembers(prefix: string, references: seq<string>)
    ensures forall r :: r in OfYear(prefix, references) <==> r in references && prefix <= r
  {
    if references != [] {
      OfYearMembers(prefix, references[..|references| - 1]);
      assert references == references[..|references| - 1] + [references[|references| - 1]];
    }
  }

  lemma {:induction false} BeforeChains(x: string, y: string, z: string)
    requires Before(x, y) && Before(y, z)
    ensures Before(x, z)
  {
    if x != [] && x[0] == y[0] && y[0] == z[0] { BeforeChains(x[1..], y[1..], z[1..]); }
  }

  /** The last of a year is one that begins like its references and that no other
      such comes after in text order; there is none only when none begins so. */
  lemma {:induction false} LastIsGreatest(prefix: string, references: seq<string>)
    ensures var last := Last(prefix, references);
            && (last.Some? ==> last.value in references && prefix <= last.value)
            && (forall r :: r in references && prefix <= r ==> last.Some? && !Before(last.value, r))
  {
    if references != [] {
      var n := |references| - 1;
      LastIsGreatest(prefix, references[..n]);
      assert references == references[..n] + [references[n]];
      var rest, r := Last(prefix, references[..n]), references[n];
      BeforeItself(r);
      if rest.Some? && Before(rest.value, r) {
        forall x | x in references[..n] && prefix <= x ensures !Before(r, x) {
          if Before(r, x) { BeforeChains(rest.value, r, x); }
        }
      }
    }
  }

  lemma {:induction false} BeforeItself(x: string)
    ensures !Before(x, x)
  {
    if x != [] { BeforeItself(x[1..]); }
  }

  /** The references of other years do not take part in finding the last. */
  lemma {:induction false} LastIsOfYear(prefix: string, references: seq<string>)
    ensures Last(prefix, references) == Last(prefix, OfYear(prefix, references))
  {
    if references != [] {
      var n := |references| - 1;
      LastIsOfYear(prefix, references[..n]);
      if prefix <= references[n] {
        var rest := OfYear(prefix, references[..n]);
        assert OfYear(prefix, references)[..|rest|] == rest;
      }
    }
  }

  /** No year's references begin like another year's. */
  lemma PrefixesApart(y: nat, z: nat, tail: string)
    requires Prefix(y) <= Prefix(z) + tail
    ensures y == z
  {
    var p, q := Digits(y), Digits(z);
    var whole := Prefix(z) + tail;
    assert Prefix(y)[4 + |p|] == '-' && whole[4 + |q|] == '-';
    assert forall i :: 0 <= i < |p| ==> Prefix(y)[4 + i] == p[i];
    assert forall i :: 0 <= i < |q| ==> whole[4 + i] == q[i];
    assert |p| == |q|;
    assert p == q;
    DigitsReadBack(y);
    DigitsReadBack(z);
  }

  /** Every year's references are its first so many numbers, in order. */
  ghost predicate Sequential(references: seq<string>) {
    forall y: nat :: InSequence(y, references)
  }

  ghost predicate InSequence(y: nat, references: seq<string>) {
    var mine := OfYear(Prefix(y), references);
    |mine| <= PER_YEAR && mine == Numbered(Prefix(y), |mine|)
  }

  /** Whatever other years the table holds, a year's next reference is the next
      number of that year, until there are ten thousand; then it is the ten
      thousandth again. */
  lemma NextOfYear(y: nat, references: seq<string>)
    requires InSequence(y, references)
    ensures var count := |OfYear(Prefix(y), references)|;
            Next(Prefix(y), references) == Prefix(y) + Padded(if count < PER_YEAR then count + 1 else count, 4)
  {
    var prefix, mine := Prefix(y), OfYear(Prefix(y), references);
    LastIsOfYear(prefix, references);
    if 0 < |mine| < PER_YEAR {
      LastNumbered(prefix, |mine|);
      NumberReadsBack(prefix, |mine|);
    } else if |mine| == PER_YEAR {
      LastOfFullYear(prefix, mine);
      NumberReadsBack(prefix, |mine| - 1);
    }
  }

  /** Of a full year the last but one sorts last. */
  lemma LastOfFullYear(prefix: string, mine: seq<string>)
    requires |mine| == PER_YEAR && mine == Numbered(prefix, |mine|)
    ensures Last(prefix, mine) == Some(prefix + Padded(|mine| - 1, 4))
  {
    assert mine[..|mine| - 1] == Numbered(prefix, |mine| - 1);
    LastNumbered(prefix, |mine| - 1);
    TenToTheFourth();
    PowersSortFirst(prefix, 4);
  }

  lemma TenToTheFourth()
    ensures Pow10(4) == PER_YEAR
  {
    assert Pow10(3) == 1000;
  }

  /** On a table of any years the next reference of a year is taken exactly when
      the table holds ten thousand of that year. */
  lemma NextIsTaken(y: nat, references: seq<string>)
    requires InSequence(y, references)
    ensures Next(Prefix(y), references) in references <==> |OfYear(Prefix(y), references)| == PER_YEAR
  {
    var prefix, mine := Prefix(y), OfYear(Prefix(y), references);
    var next := Next(prefix, references);
    NextOfYear(y, references);
    OfYearMembers(prefix, references);
    if |mine| == PER_YEAR {
      assert mine[|mine| - 1] == next;
    } else {
      forall k | 0 <= k < |mine| ensures mine[k] != next { NumbersDiffer(prefix, k + 1, |mine| + 1); }
      assert prefix <= next;
    }
  }

  /** Adding the next reference of one year keeps every year in sequence. */
  lemma AddingKeepsSequential(y: nat, references: seq<string>)
    requires Sequential(references) && Next(Prefix(y), references) !in references
    ensures Sequential(references + [Next(Prefix(y), references)])
  {
    var next := Next(Prefix(y), references);
    var after := references + [next];
    assert after[..|references|] == references;
    assert InSequence(y, references);
    NextIsTaken(y, references);
    NextOfYear(y, references);
    forall z: nat ensures InSequence(z, after) {
      assert InSequence(z, references);
      if z != y { OtherYear(z, y, next); }
    }
  }

  lemma OtherYear(z: nat, y: nat, next: string)
    requires Prefix(y) <= next && z != y
    ensures !(Prefix(z) <= next)
  {
    if Prefix(z) <= next {
      assert next == Prefix(y) + next[|Prefix(y)|..];
      PrefixesApart(z, y, next[|Prefix(y)|..]);
    }
  }

  /** A reference's text: HAS, a dash, the year's digits, a dash and its number on
      four places or more. */
  lemma {:induction false} ReferenceText(y: nat, references: seq<string>)
    ensures var r, d := Next(Prefix(y), references), |Digits(y)|;
            && |r| >= d + 9 && r[0] as int == 72 && r[1] as int == 65 && r[2] as int == 83 && r[3] as int == 45
            && r[4..4 + d] == Digits(y) && r[4 + d] as int == 45 && AllDigits(r[5 + d..])
  {
    hide Digits, Last, NumberOf;
    var last := Last(Prefix(y), references);
    var n := if last.Some? then NumberOf(Prefix(y), last.value) + 1 else 1;
    PaddedLength(n, 4);
    hide Padded;
    assert Next(Prefix(y), references) == "HAS-" + (Digits(y) + ("-" + Padded(n, 4)));
    ReferenceParts("HAS-", Digits(y), Padded(n, 4));
  }
}
