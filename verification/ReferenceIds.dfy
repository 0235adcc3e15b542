/** Printed application IDs and the search term that quotes one
    (src/modules/candidates/reference-ids.ts). */
module ReferenceIds {
  import opened Optional
  import opened Decimal

  const MAX_INT: nat := 2_147_483_647

  /** year: the Dhaka calendar year the application was made in. */
  function ApplicationId(no: nat, year: int): string {
    "APP" + (Dashes(year) + (Digits(Magnitude(year)) + ("-" + Padded(no, 5))))
  }

  /** The dash before the year, and the minus sign of a year before the common era. */
  function Dashes(year: int): string {
    if year < 0 then "--" else "-"
  }

  function Magnitude(year: int): nat {
    if year < 0 then -year else year
  }

  /** White space as a regular expression's \s has it. */
  predicate IsSpace(c: char) {
    var k := c as int;
    || 9 <= k <= 13 || k == 32 || k == 0xA0 || k == 0x1680 || 0x2000 <= k <= 0x200A
    || k == 0x2028 || k == 0x2029 || k == 0x202F || k == 0x205F || k == 0x3000 || k == 0xFEFF
  }

  datatype Kind = Space | Separator | Digit | Zero

  predicate Is(c: char, k: Kind) {
    match k
    case Space => IsSpace(c)
    case Separator => IsSpace(c) || c == '-'
    case Digit => IsDigit(c)
    case Zero => c == '0'
  }

  predicate IsApp(s: string) {
    |s| == 3 && (s[0] == 'A' || s[0] == 'a') && (s[1] == 'P' || s[1] == 'p') && (s[2] == 'P' || s[2] == 'p')
  }

  predicate All(s: string, k: Kind) {
    forall i :: 0 <= i < |s| ==> Is(s[i], k)
  }

  // ---- The pattern ----

  /** Four digits and at least one separator. */
  predicate IsYearPart(s: string) {
    |s| >= 5 && All(s[..4], Digit) && All(s[4..], Separator)
  }

  /** The pieces the pattern divides a term into, digits being the part captured. */
  datatype Pieces = Pieces(lead: string, app: string, sep: string, year: string, zeros: string, digits: string,
      tail: string)

  function Text(p: Pieces): string {
    p.lead + (p.app + (p.sep + (p.year + (p.zeros + (p.digits + p.tail)))))
  }

  predicate Fits(p: Pieces) {
    && All(p.lead, Space) && IsApp(p.app) && All(p.sep, Separator)
    && (p.year == [] || IsYearPart(p.year))
    && All(p.zeros, Zero) && AllDigits(p.digits) && 1 <= |p.digits| <= 9
    && All(p.tail, Space)
  }

  // ---- Reading a term from left to right ----

  /** How many characters from the left are of a kind. */
  function Span(s: string, k: Kind): (n: nat)
    ensures n <= |s| && All(s[..n], k) && (n < |s| ==> !Is(s[n], k))
  {
    if s == [] || !Is(s[0], k) then 0 else 1 + Span(s[1..], k)
  }

  /** The number of a digit run with spaces after it, if it is of one to nine
      places without its leading zeros. */
  function Number(run: string, tail: string): Option<nat>
    requires AllDigits(run)
  {
    var significant := run[Span(run, Zero)..];
    if Span(tail, Space) < |tail| || |significant| > 9 || Value(significant) == 0 then None
    else Some(Value(significant))
  }

  /** A run of digits is the year if it is four long and separators and digits follow. */
  function YearOrNumber(run: string, rest: string): Option<nat>
    requires AllDigits(run)
  {
    var next := rest[Span(rest, Separator)..];
    var n := Span(next, Digit);
    if |run| == 4 && |next| < |rest| && n > 0 then Number(next[..n], next[n..]) else Number(run, rest)
  }

  function AfterSeparators(s: string): Option<nat> {
    YearOrNumber(s[..Span(s, Digit)], s[Span(s, Digit)..])
  }

  function AfterApp(s: string): Option<nat> {
    AfterSeparators(s[Span(s, Separator)..])
  }

  function ApplicationNoFromSearch(term: string): Option<nat> {
    var body := term[Span(term, Space)..];
    if |body| >= 3 && IsApp(body[..3]) then AfterApp(body[3..]) else None
  }

  // ---- Spans ----

  lemma Cut(s: string, n: nat)
    requires n <= |s|
    ensures s == s[..n] + s[n..]
  {
  }

  lemma Regroup(a: string, b: string, c: string)
    ensures (a + b) + c == a + (b + c)
  {
  }

  lemma {:induction false} SpanOf(s: string, rest: string, k: Kind)
    requires All(s, k) && (rest == [] || !Is(rest[0], k))
    ensures Span(s + rest, k) == |s| && (s + rest)[..|s|] == s && (s + rest)[|s|..] == rest
  {
  }

  lemma SignificantValue(run: string)
    requires AllDigits(run)
    ensures Value(run) == Value(run[Span(run, Zero)..])
  {
    var k := Span(run, Zero);
    assert run == Zeros(k) + run[k..];
    LeadingZeros(k, run[k..]);
  }

  /** Leading zeros take no part in the number. */
  lemma {:induction false} NumberIs(zeros: string, digits: string, tail: string)
    requires All(zeros, Zero) && AllDigits(digits) && 1 <= |digits| <= 9 && All(tail, Space)
    ensures Number(zeros + digits, tail) == if Value(digits) == 0 then None else Some(Value(digits))
  {
    var run := zeros + digits;
    SpanOf(tail, [], Space);
    assert tail + [] == tail;
    assert zeros == Zeros(|zeros|);
    LeadingZeros(|zeros|, digits);
    SignificantValue(run);
    assert Span(run, Zero) >= |zeros| by {
      assert forall i :: 0 <= i < |zeros| ==> run[i] == '0';
    }
  }

  // ---- Every term that fits is read ----

  lemma ReadsNumber(run: string, tail: string)
    requires AllDigits(run) && All(tail, Space)
    ensures YearOrNumber(run, tail) == Number(run, tail)
  {
  }

  lemma ReadsYear(year: string, gap: string, run: string, tail: string)
    requires AllDigits(year) && |year| == 4 && gap != [] && All(gap, Separator)
    requires AllDigits(run) && run != [] && (tail == [] || !IsDigit(tail[0]))
    ensures YearOrNumber(year, gap + (run + tail)) == Number(run, tail)
  {
    assert !Is(run[0], Separator);
    SpanOf(gap, run + tail, Separator);
    SpanOf(run, tail, Digit);
  }

  lemma ReadsRun(sep: string, run: string, rest: string)
    requires All(sep, Separator) && AllDigits(run) && run != [] && (rest == [] || !IsDigit(rest[0]))
    ensures AfterApp(sep + (run + rest)) == YearOrNumber(run, rest)
  {
    assert !Is(run[0], Separator);
    SpanOf(sep, run + rest, Separator);
    SpanOf(run, rest, Digit);
  }

  lemma ReadsWithYear(sep: string, year: string, run: string, tail: string)
    requires All(sep, Separator) && IsYearPart(year) && AllDigits(run) && run != [] && All(tail, Space)
    ensures AfterApp(sep + (year + (run + tail))) == Number(run, tail)
  {
    var four, gap := year[..4], year[4..];
    Cut(year, 4);
    Regroup(four, gap, run + tail);
    ReadsRun(sep, four, gap + (run + tail));
    ReadsYear(four, gap, run, tail);
  }

  lemma ReadsAfterApp(p: Pieces)
    requires Fits(p)
    ensures AfterApp(p.sep + (p.year + (p.zeros + (p.digits + p.tail)))) == Number(p.zeros + p.digits, p.tail)
  {
    var run := p.zeros + p.digits;
    Regroup(p.zeros, p.digits, p.tail);
    if p.year == [] {
      assert p.year + (run + p.tail) == run + p.tail;
      ReadsRun(p.sep, run, p.tail);
      ReadsNumber(run, p.tail);
    } else {
      ReadsWithYear(p.sep, p.year, run, p.tail);
    }
  }

  lemma AppIsRead(lead: string, app: string, rest: string)
    requires All(lead, Space) && IsApp(app)
    ensures ApplicationNoFromSearch(lead + (app + rest)) == AfterApp(rest)
  {
    assert !Is(app[0], Space);
    SpanOf(lead, app + rest, Space);
    assert (app + rest)[..3] == app && (app + rest)[3..] == rest;
  }

  lemma {:induction false} FittingIsRead(p: Pieces)
    requires Fits(p)
    ensures ApplicationNoFromSearch(Text(p)) == if Value(p.digits) == 0 then None else Some(Value(p.digits))
  {
    var rest := p.sep + (p.year + (p.zeros + (p.digits + p.tail)));
    AppIsRead(p.lead, p.app, rest);
    ReadsAfterApp(p);
    NumberIs(p.zeros, p.digits, p.tail);
  }

  // ---- Every term read fits ----

  lemma {:induction false} NumberFits(run: string, tail: string) returns (zeros: string, digits: string)
    requires AllDigits(run) && Number(run, tail).Some?
    ensures run == zeros + digits && All(zeros, Zero) && AllDigits(digits) && 1 <= |digits| <= 9 && All(tail, Space)
    ensures Number(run, tail) == Some(Value(digits))
  {
    zeros, digits := run[..Span(run, Zero)], run[Span(run, Zero)..];
    assert tail[..|tail|] == tail;
  }

  lemma {:induction false} YearOrNumberFits(run: string, rest: string)
    returns (year: string, zeros: string, digits: string, tail: string)
    requires AllDigits(run) && YearOrNumber(run, rest).Some?
    ensures run + rest == year + (zeros + (digits + tail)) && (year == [] || IsYearPart(year))
    ensures All(zeros, Zero) && AllDigits(digits) && 1 <= |digits| <= 9 && All(tail, Space)
    ensures YearOrNumber(run, rest) == Some(Value(digits))
  {
    var d := Span(rest, Separator);
    var next := rest[d..];
    var e := Span(next, Digit);
    if |run| == 4 && |next| < |rest| && e > 0 {
      zeros, digits := NumberFits(next[..e], next[e..]);
      year, tail := run + rest[..d], next[e..];
      YearPart(run, rest[..d]);
      Cut(rest, d);
      Cut(next, e);
      Regroup(run, rest[..d], next);
      Regroup(zeros, digits, tail);
    } else {
      zeros, digits := NumberFits(run, rest);
      year, tail := [], rest;
      Regroup(zeros, digits, rest);
      assert year + (zeros + (digits + tail)) == zeros + (digits + tail);
    }
  }

  lemma YearPart(year: string, gap: string)
    requires |year| == 4 && AllDigits(year) && gap != [] && All(gap, Separator)
    ensures IsYearPart(year + gap)
  {
  }

  lemma AfterAppFits(s: string) returns (p: Pieces)
    requires AfterApp(s).Some?
    ensures Fits(p.(lead := [], app := "APP")) && s == p.sep + (p.year + (p.zeros + (p.digits + p.tail)))
    ensures AfterApp(s) == Some(Value(p.digits))
  {
    var b := Span(s, Separator);
    var numbers := s[b..];
    var c := Span(numbers, Digit);
    var year, zeros, digits, tail := YearOrNumberFits(numbers[..c], numbers[c..]);
    Cut(s, b);
    Cut(numbers, c);
    p := Pieces([], "APP", s[..b], year, zeros, digits, tail);
  }

  lemma {:induction false} ReadFits(term: string) returns (p: Pieces)
    requires ApplicationNoFromSearch(term).Some?
    ensures Fits(p) && Text(p) == term && ApplicationNoFromSearch(term) == Some(Value(p.digits))
  {
    var a := Span(term, Space);
    var body := term[a..];
    var q := AfterAppFits(body[3..]);
    Cut(term, a);
    Cut(body, 3);
    p := Pieces(term[..a], body[..3], q.sep, q.year, q.zeros, q.digits, q.tail);
  }

  // ---- What a search finds ----

  /** A term is read as a number exactly when the pattern divides it so as to
      capture that number, however it divides it; the number is positive and fits
      thirty-two bits. */
  lemma {:induction false} SearchIsThePattern(term: string, no: nat)
    ensures ApplicationNoFromSearch(term) == Some(no)
        <==> no > 0 && exists p :: Fits(p) && Text(p) == term && Value(p.digits) == no
    ensures ApplicationNoFromSearch(term) == Some(no) ==> 1 <= no <= MAX_INT
  {
    if ApplicationNoFromSearch(term).Some? {
      var p := ReadFits(term);
      SearchIsBounded(term, Value(p.digits));
    }
    if p :| Fits(p) && Text(p) == term && Value(p.digits) == no { FittingIsRead(p); }
  }

  lemma SearchIsBounded(term: string, no: nat)
    requires ApplicationNoFromSearch(term) == Some(no)
    ensures 1 <= no < 1_000_000_000
  {
    var p := ReadFits(term);
    BelowABillion(p.digits);
    FittingIsRead(p);
  }

  lemma BelowABillion(digits: string)
    requires AllDigits(digits) && 1 <= |digits| <= 9
    ensures Value(digits) < 1_000_000_000
  {
    ValueBound(digits);
    PowersGrow(|digits|, 9);
    NinePlaces();
  }

  lemma NinePlaces()
    ensures Pow10(9) == 1_000_000_000
  {
  }

  lemma {:induction false} PowersGrow(a: nat, b: nat)
    requires a <= b
    ensures Pow10(a) <= Pow10(b)
  {
    if a < b { PowersGrow(a, b - 1); }
  }

  /** All ways of dividing a term capture the same number. */
  lemma OneNumberPerTerm(p: Pieces, q: Pieces)
    requires Fits(p) && Fits(q) && Text(p) == Text(q)
    ensures Value(p.digits) == Value(q.digits)
  {
    FittingIsRead(p);
    FittingIsRead(q);
  }

  /** Any spelling of a number from 1 to 999,999,999: white space around it, any
      case, any separators, with a four-digit year or without, any leading zeros. */
  lemma AnySpellingIsRead(no: nat, lead: string, app: string, sep: string, year: string, zeros: string, tail: string)
    requires 1 <= no < 1_000_000_000 && Fits(Pieces(lead, app, sep, year, zeros, "0", tail))
    ensures ApplicationNoFromSearch(Text(Pieces(lead, app, sep, year, zeros, Digits(no), tail))) == Some(no)
  {
    DigitsReadBack(no);
    NinePlaces();
    DigitsLength(no, 9);
    FittingIsRead(Pieces(lead, app, sep, year, zeros, Digits(no), tail));
  }

  /** A printed ID is found by its number exactly when the year has four digits,
      with or without a minus sign, and the number has at most nine and is not zero. */
  lemma {:induction false} PrintedIdIsRead(no: nat, year: int)
    ensures ApplicationNoFromSearch(ApplicationId(no, year)) == Some(no)
            <==> 1 <= no < 1_000_000_000 && 1000 <= Magnitude(year) < 10_000
  {
    if 1 <= no < 1_000_000_000 && 1000 <= Magnitude(year) < 10_000 {
      PrintedFits(no, year);
    } else if ApplicationNoFromSearch(ApplicationId(no, year)) == Some(no) {
      SearchIsBounded(ApplicationId(no, year), no);
      PrintedYearHasFour(no, year);
    }
  }

  lemma {:induction false} PrintedIsYearOrNumber(no: nat, year: int)
    ensures ApplicationNoFromSearch(ApplicationId(no, year))
            == YearOrNumber(Digits(Magnitude(year)), "-" + Padded(no, 5))
  {
    DashesSeparate(year);
    RunIsRead("APP", Dashes(year), Digits(Magnitude(year)), "-" + Padded(no, 5));
  }

  lemma DashesSeparate(year: int)
    ensures All(Dashes(year), Separator)
  {
  }

  lemma {:induction false} RunIsRead(app: string, sep: string, run: string, rest: string)
    requires IsApp(app) && All(sep, Separator) && AllDigits(run) && run != [] && rest != [] && !IsDigit(rest[0])
    ensures ApplicationNoFromSearch(app + (sep + (run + rest))) == YearOrNumber(run, rest)
  {
    AppIsRead([], app, sep + (run + rest));
    assert [] + (app + (sep + (run + rest))) == app + (sep + (run + rest));
    ReadsRun(sep, run, rest);
  }

  lemma FourDigits(year: nat)
    ensures |Digits(year)| == 4 <==> 1000 <= year < 10_000
  {
    assert Pow10(3) == 1000 && Pow10(4) == 10 * Pow10(3);
    DigitsLength(year, 3);
    DigitsLength(year, 4);
  }

  /** Digits followed by a dash are a year of four or nothing. */
  lemma OnlyAYearBeforeADash(run: string, rest: string)
    requires AllDigits(run) && rest != [] && rest[0] == '-' && YearOrNumber(run, rest).Some?
    ensures |run| == 4
  {
  }

  lemma PaddedIsNumber(no: nat)
    requires 1 <= no < 1_000_000_000
    ensures Number(Padded(no, 5), []) == Some(no)
  {
    var d := Digits(no);
    DigitsReadBack(no);
    NinePlaces();
    DigitsLength(no, 9);
    if |d| < 5 {
      NumberIs(Zeros(5 - |d|), d, []);
    } else {
      NumberIs([], d, []);
      assert [] + d == d;
    }
  }

  lemma {:induction false} PrintedFits(no: nat, year: int)
    requires 1 <= no < 1_000_000_000 && 1000 <= Magnitude(year) < 10_000
    ensures ApplicationNoFromSearch(ApplicationId(no, year)) == Some(no)
  {
    PrintedIsYearOrNumber(no, year);
    FourDigits(Magnitude(year));
    PaddedIsNumber(no);
    YearThenNumber(Digits(Magnitude(year)), Padded(no, 5));
  }

  lemma YearThenNumber(year: string, run: string)
    requires AllDigits(year) && |year| == 4 && AllDigits(run) && run != []
    ensures YearOrNumber(year, "-" + run) == Number(run, [])
  {
    ReadsYear(year, "-", run, []);
    assert run + [] == run;
  }

  lemma {:induction false} PrintedYearHasFour(no: nat, year: int)
    ensures ApplicationNoFromSearch(ApplicationId(no, year)).Some? ==> 1000 <= Magnitude(year) < 10_000
  {
    PrintedIsYearOrNumber(no, year);
    FourDigits(Magnitude(year));
    var run, rest := Digits(Magnitude(year)), "-" + Padded(no, 5);
    if YearOrNumber(run, rest).Some? { OnlyAYearBeforeADash(run, rest); }
  }

  // ---- The characters and the printed text, by their codes ----

  /** Which characters the pattern takes for what. */
  lemma KindsAre(c: char)
    ensures var k := c as int;
            && (Is(c, Space) <==>
                  || k in {9, 10, 11, 12, 13, 32, 0xA0, 0x1680, 0x2028, 0x2029, 0x202F, 0x205F, 0x3000, 0xFEFF}
                  || 0x2000 <= k <= 0x200A)
            && (Is(c, Separator) <==> Is(c, Space) || k == 45)
            && (Is(c, Digit) <==> 48 <= k <= 57) && (Is(c, Zero) <==> k == 48)
  {
  }

  /** The pattern's fixed letters in either case, and its year of four digits and separators. */
  lemma PartsAre(s: string)
    ensures IsApp(s) <==> |s| == 3 && s[0] as int in {65, 97} && s[1] as int in {80, 112} && s[2] as int in {80, 112}
    ensures IsYearPart(s) <==>
              && |s| >= 5 && (forall i :: 0 <= i < 4 ==> 48 <= s[i] as int <= 57)
              && (forall i :: 4 <= i < |s| ==> Is(s[i], Space) || s[i] as int == 45)
  {
    if IsYearPart(s) {
      assert forall i :: 0 <= i < 4 ==> s[..4][i] == s[i];
      assert forall i :: 4 <= i < |s| ==> s[4..][i - 4] == s[i];
    }
  }

  /** A printed ID: APP, a dash, the year's digits, before the common era after a
      second dash, a dash and the number on five places or, from a hundred thousand,
      on as many as it has. */
  lemma {:induction false} PrintedText(no: nat, year: int)
    ensures var id, digits := ApplicationId(no, year), Digits(if year < 0 then 0 - year else year);
            var k, d := if year < 0 then 5 else 4, |digits|;
            && |id| >= k + d + 6 && id[0] as int == 65 && id[1] as int == 80 && id[2] as int == 80 && id[3] as int == 45
            && id[k - 1] as int == 45 && id[k..k + d] == digits && id[k + d] as int == 45
            && IsFivePlaces(id[k + d + 1..], no)
  {
    hide Digits, Padded, IsFivePlaces;
    FivePlaces(no);
    LeadAndRest(Dashes(year), Digits(Magnitude(year)) + ("-" + Padded(no, 5)));
    ReferenceParts("APP" + Dashes(year), Digits(Magnitude(year)), Padded(no, 5));
  }

  lemma LeadAndRest(dashes: string, rest: string)
    ensures "APP" + (dashes + rest) == ("APP" + dashes) + rest
  {
  }

  /** A number's digits, with zeros in front of it up to five places and not beyond. */
  ghost predicate IsFivePlaces(s: string, no: nat) {
    && AllDigits(s) && Value(s) == no && |s| >= 5
    && (|s| == 5 <==> no < 100_000) && (no >= 100_000 ==> s[0] != '0')
  }

  lemma FivePlaces(no: nat)
    ensures IsFivePlaces(Padded(no, 5), no)
  {
    DigitsReadBack(no);
    PaddedReadsBack(no, 5);
    PaddedLength(no, 5);
    HundredThousand();
  }

  lemma HundredThousand()
    ensures Pow10(5) == 100_000
  {
  }
}
