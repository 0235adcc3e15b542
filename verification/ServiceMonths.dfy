/** Months of service on a candidate brief (src/modules/assessment/candidate-brief.ts):
    employment spans are filtered, clamped to now, sorted, merged and summed. */
module ServiceMonths {
  import opened Optional

  /** An instant as the calendar reads it: a running month number and the
      milliseconds since that month began. Instants are ordered like the clock. */
  datatype Instant = Instant(month: int, ms: nat)

  predicate AtOrBefore(x: Instant, y: Instant) {
    x.month < y.month || (x.month == y.month && x.ms <= y.ms)
  }

  /** A date column: absent, present but not a date, or a date. */
  datatype When = Missing | Unreadable | At(instant: Instant)

  datatype Span = Span(from: When, to: When)

  datatype Range = Range(a: Instant, b: Instant)

  function MonthsBetween(a: Instant, b: Instant): int {
    b.month - a.month
  }

  // ---- The specification: a set of month numbers ----

  /** The end of a span, with a missing end read as now. */
  function EndOf(s: Span, now: Instant): When {
    if s.to.Missing? then At(now) else s.to
  }

  /** Spans that count: both ends are dates, and in order. */
  predicate Counts(s: Span, now: Instant) {
    && s.from.At?
    && EndOf(s, now).At?
    && AtOrBefore(s.from.instant, EndOf(s, now).instant)
  }

  function Earlier(x: Instant, y: Instant): Instant {
    if AtOrBefore(x, y) then x else y
  }

  /** Month k was entered during the part of the span that lies before now. */
  predicate Serves(s: Span, now: Instant, k: int) {
    Counts(s, now) && s.from.instant.month < k <= Earlier(EndOf(s, now).instant, now).month
  }

  predicate Served(spans: seq<Span>, now: Instant, k: int) {
    exists i :: 0 <= i < |spans| && Serves(spans[i], now, k)
  }

  /** Every month number some span serves. */
  ghost function MonthsServed(spans: seq<Span>, now: Instant): (months: set<int>)
    ensures forall k :: k in months <==> Served(spans, now, k)
  {
    if spans == [] then {}
    else
      var rest := MonthsServed(spans[1..], now);
      assert forall k :: Served(spans, now, k) <==> Serves(spans[0], now, k) || Served(spans[1..], now, k) by {
        assert forall i :: 0 <= i < |spans| - 1 ==> spans[1..][i] == spans[i + 1];
        assert forall k, i :: 1 <= i < |spans| && Serves(spans[i], now, k) ==> Serves(spans[1..][i - 1], now, k);
      }
      rest + if Counts(spans[0], now)
             then MonthsIn(Range(spans[0].from.instant, Earlier(EndOf(spans[0], now).instant, now)))
             else {}
  }

  /** A month counts once somebody was in service in it: after the month a span
      starts in, no later than this month nor than the month the span ends in. */
  lemma {:induction false} MonthsServedAre(spans: seq<Span>, now: Instant)
    ensures forall k :: k in MonthsServed(spans, now) <==> exists i ::
      && 0 <= i < |spans| && spans[i].from.At? && spans[i].from.instant.month < k <= now.month
      && (spans[i].to.Missing? || (spans[i].to.At? && k <= spans[i].to.instant.month))
  {
    forall k ensures k in MonthsServed(spans, now) <==> exists i ::
      && 0 <= i < |spans| && spans[i].from.At? && spans[i].from.instant.month < k <= now.month
      && (spans[i].to.Missing? || (spans[i].to.At? && k <= spans[i].to.instant.month))
    {
      assert forall i :: 0 <= i < |spans| ==> (Serves(spans[i], now, k) <==>
        && spans[i].from.At? && spans[i].from.instant.month < k <= now.month
        && (spans[i].to.Missing? || (spans[i].to.At? && k <= spans[i].to.instant.month)));
    }
  }

  function Positive(n: int): nat {
    if n > 0 then n else 0
  }

  /** The month numbers after lo, up to and including hi. */
  function MonthsAfter(lo: int, hi: int): (months: set<int>)
    ensures forall k :: k in months <==> lo < k <= hi
    decreases Positive(hi - lo)
  {
    if lo < hi then MonthsAfter(lo, hi - 1) + {hi} else {}
  }

  lemma {:induction false} SizeOfInterval(lo: int, hi: int)
    ensures |MonthsAfter(lo, hi)| == Positive(hi - lo)
    decreases Positive(hi - lo)
  {
    if lo < hi {
      SizeOfInterval(lo, hi - 1);
    }
  }

  function MonthsIn(r: Range): set<int> {
    MonthsAfter(r.a.month, r.b.month)
  }

  ghost function MonthsInAll(ranges: seq<Range>): (months: set<int>) {
    if ranges == [] then {} else MonthsInAll(ranges[..|ranges| - 1]) + MonthsIn(ranges[|ranges| - 1])
  }

  // ---- The pipeline ----

  /** Drop the spans that do not count and clamp the rest to now. A span that
      starts after now comes out reversed. */
  function Clamped(spans: seq<Span>, now: Instant): seq<Range> {
    if spans == [] then []
    else
      var s := spans[|spans| - 1];
      var rest := Clamped(spans[..|spans| - 1], now);
      if Counts(s, now) then rest + [Range(s.from.instant, Earlier(EndOf(s, now).instant, now))] else rest
  }

  function Inserted(r: Range, sorted: seq<Range>): seq<Range> {
    if sorted == [] || !AtOrBefore(sorted[|sorted| - 1].a, r.a)
    then if sorted == [] then [r] else Inserted(r, sorted[..|sorted| - 1]) + [sorted[|sorted| - 1]]
    else sorted + [r]
  }

  function SortedByStart(ranges: seq<Range>): seq<Range> {
    if ranges == [] then []
    else Inserted(ranges[|ranges| - 1], SortedByStart(ranges[..|ranges| - 1]))
  }

  ghost predicate InStartOrder(ranges: seq<Range>) {
    forall i, j :: 0 <= i < j < |ranges| ==> AtOrBefore(ranges[i].a, ranges[j].a)
  }

  /** Ranges that share no instant, each wholly before the next. */
  ghost predicate Separated(ranges: seq<Range>) {
    && InStartOrder(ranges)
    && forall i, j :: 0 <= i < j < |ranges| ==> !AtOrBefore(ranges[j].a, ranges[i].b)
  }

  lemma ServedOneMore(spans: seq<Span>, now: Instant, k: int)
    requires spans != []
    ensures Served(spans, now, k) <==> Served(spans[..|spans| - 1], now, k) || Serves(spans[|spans| - 1], now, k)
  {
    var n := |spans| - 1;
    if i :| 0 <= i < n && Serves(spans[..n][i], now, k) { assert Serves(spans[i], now, k); }
    if i :| 0 <= i < |spans| && Serves(spans[i], now, k) && i < n { assert Serves(spans[..n][i], now, k); }
  }

  lemma ClampOneMore(spans: seq<Span>, now: Instant, k: int)
    requires spans != []
    ensures k in MonthsInAll(Clamped(spans, now))
            <==> k in MonthsInAll(Clamped(spans[..|spans| - 1], now)) || Serves(spans[|spans| - 1], now, k)
  {
    var rest := Clamped(spans[..|spans| - 1], now);
    if Counts(spans[|spans| - 1], now) { assert Clamped(spans, now)[..|rest|] == rest; }
  }

  lemma {:induction false} ClampServes(spans: seq<Span>, now: Instant, k: int)
    ensures k in MonthsInAll(Clamped(spans, now)) <==> Served(spans, now, k)
  {
    if spans != [] {
      ClampServes(spans[..|spans| - 1], now, k);
      ClampOneMore(spans, now, k);
      ServedOneMore(spans, now, k);
    }
  }

  lemma ClampKeepsMonths(spans: seq<Span>, now: Instant)
    ensures MonthsInAll(Clamped(spans, now)) == MonthsServed(spans, now)
  {
    forall k ensures k in MonthsInAll(Clamped(spans, now)) <==> k in MonthsServed(spans, now) {
      ClampServes(spans, now, k);
    }
  }

  lemma {:induction false} InsertedHolds(r: Range, sorted: seq<Range>)
    ensures multiset(Inserted(r, sorted)) == multiset(sorted) + multiset{r}
  {
    if sorted != [] && !AtOrBefore(sorted[|sorted| - 1].a, r.a) {
      var n := |sorted| - 1;
      InsertedHolds(r, sorted[..n]);
      assert sorted == sorted[..n] + [sorted[n]];
    }
  }

  lemma InsertedMembers(r: Range, sorted: seq<Range>, i: nat)
    requires i < |Inserted(r, sorted)|
    ensures Inserted(r, sorted)[i] == r || Inserted(r, sorted)[i] in sorted
  {
    InsertedHolds(r, sorted);
    assert Inserted(r, sorted)[i] in multiset(Inserted(r, sorted));
  }

  lemma LastStaysLast(front: seq<Range>, last: Range)
    requires InStartOrder(front) && forall i :: 0 <= i < |front| ==> AtOrBefore(front[i].a, last.a)
    ensures InStartOrder(front + [last])
  {
  }

  lemma {:induction false} InsertKeepsOrder(r: Range, sorted: seq<Range>)
    requires InStartOrder(sorted)
    ensures InStartOrder(Inserted(r, sorted))
  {
    if sorted != [] && !AtOrBefore(sorted[|sorted| - 1].a, r.a) {
      var n := |sorted| - 1;
      var front := Inserted(r, sorted[..n]);
      InsertKeepsOrder(r, sorted[..n]);
      forall i | 0 <= i < |front| ensures AtOrBefore(front[i].a, sorted[n].a) { InsertedMembers(r, sorted[..n], i); }
      LastStaysLast(front, sorted[n]);
    } else if sorted != [] {
      LastStaysLast(sorted, r);
    }
  }

  lemma {:induction false} SortSorts(ranges: seq<Range>)
    ensures InStartOrder(SortedByStart(ranges))
    ensures multiset(SortedByStart(ranges)) == multiset(ranges)
  {
    if ranges != [] {
      var n := |ranges| - 1;
      SortSorts(ranges[..n]);
      assert ranges == ranges[..n] + [ranges[n]];
      InsertKeepsOrder(ranges[n], SortedByStart(ranges[..n]));
      InsertedHolds(ranges[n], SortedByStart(ranges[..n]));
    }
  }

  lemma {:induction false} MonthsInAllMembers(ranges: seq<Range>, k: int)
    ensures k in MonthsInAll(ranges) <==> exists r :: r in multiset(ranges) && k in MonthsIn(r)
  {
    if ranges != [] {
      var n := |ranges| - 1;
      MonthsInAllMembers(ranges[..n], k);
      assert ranges == ranges[..n] + [ranges[n]];
    }
  }

  lemma SortKeepsMonths(ranges: seq<Range>)
    ensures MonthsInAll(SortedByStart(ranges)) == MonthsInAll(ranges)
  {
    SortSorts(ranges);
    forall k ensures k in MonthsInAll(SortedByStart(ranges)) <==> k in MonthsInAll(ranges) {
      MonthsInAllMembers(ranges, k);
      MonthsInAllMembers(SortedByStart(ranges), k);
    }
  }

  function Sum(ns: seq<nat>): nat {
    if ns == [] then 0 else Sum(ns[..|ns| - 1]) + ns[|ns| - 1]
  }

  lemma LastRangeIsApart(ranges: seq<Range>)
    requires ranges != [] && Separated(ranges)
    ensures MonthsInAll(ranges[..|ranges| - 1]) !! MonthsIn(ranges[|ranges| - 1])
  {
    var n := |ranges| - 1;
    forall k | k in MonthsInAll(ranges[..n]) ensures k !in MonthsIn(ranges[n]) {
      MonthsInAllMembers(ranges[..n], k);
      var r :| r in multiset(ranges[..n]) && k in MonthsIn(r);
      var i :| 0 <= i < n && ranges[..n][i] == r;
      assert !AtOrBefore(ranges[n].a, ranges[i].b);
    }
  }

  /** Adding the lengths of separated ranges counts every month once. */
  lemma {:induction false} SeparatedMonthsAdd(ranges: seq<Range>)
    requires Separated(ranges)
    ensures |MonthsInAll(ranges)| == Sum(seq(|ranges|,
        i requires 0 <= i < |ranges| => Positive(MonthsBetween(ranges[i].a, ranges[i].b))))
  {
    if ranges != [] {
      var n := |ranges| - 1;
      var lengths := seq(|ranges|, i requires 0 <= i < |ranges| => Positive(MonthsBetween(ranges[i].a, ranges[i].b)));
      SeparatedMonthsAdd(ranges[..n]);
      assert lengths[..n] == seq(n,
          i requires 0 <= i < n => Positive(MonthsBetween(ranges[..n][i].a, ranges[..n][i].b)));
      SizeOfInterval(ranges[n].a.month, ranges[n].b.month);
      LastRangeIsApart(ranges);
    }
  }

  function Later(x: Instant, y: Instant): Instant {
    if AtOrBefore(y, x) then x else y
  }

  /** Extending the last merged range over an overlapping one loses and adds no month. */
  lemma ExtendKeepsMonths(merged: seq<Range>, r: Range)
    requires merged != []
    requires AtOrBefore(merged[|merged| - 1].a, r.a) && AtOrBefore(r.a, merged[|merged| - 1].b)
    ensures var top := |merged| - 1;
            MonthsInAll(merged[top := Range(merged[top].a, Later(merged[top].b, r.b))])
            == MonthsInAll(merged) + MonthsIn(r)
  {
  }

  lemma ExtendStaysSeparated(merged: seq<Range>, b: Instant)
    requires merged != [] && Separated(merged)
    ensures var top := |merged| - 1; Separated(merged[top := Range(merged[top].a, b)])
  {
  }

  lemma AppendKeepsMonths(merged: seq<Range>, r: Range)
    ensures MonthsInAll(merged + [r]) == MonthsInAll(merged) + MonthsIn(r)
  {
  }

  lemma AppendStaysSeparated(merged: seq<Range>, r: Range)
    requires Separated(merged)
    requires merged != [] ==> AtOrBefore(merged[|merged| - 1].a, r.a) && !AtOrBefore(r.a, merged[|merged| - 1].b)
    ensures Separated(merged + [r])
  {
  }

  /** One sweep over ranges in start order, extending the last merged range or
      opening a new one. */
  method Merge(ranges: seq<Range>) returns (merged: seq<Range>)
    requires InStartOrder(ranges)
    ensures Separated(merged)
    ensures MonthsInAll(merged) == MonthsInAll(ranges)
  {
    merged := [];
    for n := 0 to |ranges|
      invariant Separated(merged)
      invariant merged != [] ==> forall m :: n <= m < |ranges| ==> AtOrBefore(merged[|merged| - 1].a, ranges[m].a)
      invariant MonthsInAll(merged) == MonthsInAll(ranges[..n])
    {
      var r := ranges[n];
      assert ranges[..n + 1] == ranges[..n] + [r];
      AppendKeepsMonths(ranges[..n], r);
      if merged != [] && AtOrBefore(r.a, merged[|merged| - 1].b) {
        var top := |merged| - 1;
        ExtendKeepsMonths(merged, r);
        ExtendStaysSeparated(merged, Later(merged[top].b, r.b));
        assert merged[top := merged[top]] == merged;
        if !AtOrBefore(r.b, merged[top].b) {
          merged := merged[top := Range(merged[top].a, r.b)];
        }
      } else {
        AppendKeepsMonths(merged, r);
        AppendStaysSeparated(merged, r);
        merged := merged + [r];
      }
    }
    assert ranges[..|ranges|] == ranges;
  }

  /** How many different months somebody was in service, by sorting, merging and adding. */
  method MergedMonths(spans: seq<Span>, now: Instant) returns (months: nat)
    ensures months == |MonthsServed(spans, now)|
  {
    hide MonthsServed, MonthsInAll, Clamped, SortedByStart, MonthsAfter, Separated, InStartOrder;
    var ranges := SortedByStart(Clamped(spans, now));
    SortSorts(Clamped(spans, now));
    var merged := Merge(ranges);
    months := 0;
    ghost var lengths := seq(|merged|,
        i requires 0 <= i < |merged| => Positive(MonthsBetween(merged[i].a, merged[i].b)));
    for n := 0 to |merged|
      invariant months == Sum(lengths[..n])
    {
      months := months + Positive(MonthsBetween(merged[n].a, merged[n].b));
      assert lengths[..n + 1][..n] == lengths[..n];
    }
    assert lengths[..|merged|] == lengths;
    SeparatedMonthsAdd(merged);
    SortKeepsMonths(Clamped(spans, now));
    ClampKeepsMonths(spans, now);
  }

  /** The total depends on which spans there are, not on their order or on repeats. */
  lemma OrderDoesNotMatter(spans: seq<Span>, others: seq<Span>, now: Instant)
    requires forall s :: s in spans <==> s in others
    ensures MonthsServed(spans, now) == MonthsServed(others, now)
  {
    forall k ensures k in MonthsServed(spans, now) <==> k in MonthsServed(others, now) {
      if Served(spans, now, k) {
        var i :| 0 <= i < |spans| && Serves(spans[i], now, k);
        assert spans[i] in others;
      }
      if Served(others, now, k) {
        var i :| 0 <= i < |others| && Serves(others[i], now, k);
        assert others[i] in spans;
      }
    }
  }

  // ---- Totals by company ----

  /** One employment row: the company name reduced to its matching key. */
  datatype Job = Job(company: string, from: When, to: When, current: bool)

  function SpanOf(j: Job): Span {
    Span(j.from, if j.current then Missing else j.to)
  }

  function SpansOf(jobs: seq<Job>): seq<Span> {
    seq(|jobs|, i requires 0 <= i < |jobs| => SpanOf(jobs[i]))
  }

  function AtCompany(jobs: seq<Job>, company: string): seq<Job> {
    if jobs == [] then []
    else
      var rest := AtCompany(jobs[..|jobs| - 1], company);
      if jobs[|jobs| - 1].company == company then rest + [jobs[|jobs| - 1]] else rest
  }

  /** The companies named, each once, in the order they first appear. */
  function Companies(jobs: seq<Job>): seq<string> {
    if jobs == [] then []
    else
      var rest := Companies(jobs[..|jobs| - 1]);
      if jobs[|jobs| - 1].company in rest then rest else rest + [jobs[|jobs| - 1].company]
  }

  /** Group jobs under their company, keeping the listed order in and between groups. */
  method GroupByCompany(jobs: seq<Job>) returns (order: seq<string>, groups: map<string, seq<Job>>)
    ensures order == Companies(jobs)
    ensures forall c :: c in groups <==> c in order
    ensures forall c :: c in groups ==> groups[c] == AtCompany(jobs, c)
  {
    order, groups := [], map[];
    for n := 0 to |jobs|
      invariant order == Companies(jobs[..n])
      invariant forall c :: c in groups <==> c in order
      invariant forall c :: c in groups ==> groups[c] == AtCompany(jobs[..n], c)
      invariant forall c :: c !in groups ==> AtCompany(jobs[..n], c) == []
    {
      var j := jobs[n];
      assert jobs[..n + 1][..n] == jobs[..n];
      if j.company in groups {
        groups := groups[j.company := groups[j.company] + [j]];
      } else {
        groups := groups[j.company := [j]];
        order := order + [j.company];
      }
    }
    assert jobs[..|jobs|] == jobs;
  }

  lemma {:induction false} AtCompanyMembers(jobs: seq<Job>, company: string, j: Job)
    ensures j in AtCompany(jobs, company) <==> j in jobs && j.company == company
  {
    if jobs != [] {
      AtCompanyMembers(jobs[..|jobs| - 1], company, j);
      assert jobs == jobs[..|jobs| - 1] + [jobs[|jobs| - 1]];
    }
  }

  lemma {:induction false} CompaniesMembers(jobs: seq<Job>)
    ensures forall j :: j in jobs ==> j.company in Companies(jobs)
    ensures forall i, k :: 0 <= i < k < |Companies(jobs)| ==> Companies(jobs)[i] != Companies(jobs)[k]
  {
    if jobs != [] {
      CompaniesMembers(jobs[..|jobs| - 1]);
      assert jobs == jobs[..|jobs| - 1] + [jobs[|jobs| - 1]];
    }
  }

  lemma {:induction false} OneMoreRow(jobs: seq<Job>, j: Job, company: string)
    ensures AtCompany(jobs + [j], company) == AtCompany(jobs, company) + if j.company == company then [j] else []
  {
    assert (jobs + [j])[..|jobs|] == jobs;
  }

  /** A company's rows keep their listed order: those of two lists in a row are
      those of the first, then those of the second. */
  lemma {:induction false} RowsInListedOrder(jobs: seq<Job>, more: seq<Job>, company: string)
    ensures AtCompany(jobs + more, company) == AtCompany(jobs, company) + AtCompany(more, company)
    ensures forall j: Job :: j.company == company ==> AtCompany([j], company) == [j]
    ensures forall j: Job :: j.company != company ==> AtCompany([j], company) == []
  {
    forall j: Job ensures AtCompany([j], company) == if j.company == company then [j] else [] {
      OneMoreRow([], j, company);
      assert [] + [j] == [j];
    }
    RowsJoin(jobs, more, company);
  }

  lemma Regroup<T>(a: seq<T>, b: seq<T>, c: seq<T>)
    ensures (a + b) + c == a + (b + c)
  {
  }

  lemma {:induction false} RowsJoin(jobs: seq<Job>, more: seq<Job>, company: string)
    ensures AtCompany(jobs + more, company) == AtCompany(jobs, company) + AtCompany(more, company)
  {
    assert AtCompany([], company) == [];
    hide AtCompany;
    if more == [] {
      assert jobs + more == jobs;
    } else {
      var front, j := more[..|more| - 1], more[|more| - 1];
      assert more == front + [j];
      RowsJoin(jobs, front, company);
      OneMoreRow(front, j, company);
      OneMoreRow(jobs + front, j, company);
      Regroup(jobs, front, [j]);
      Regroup(AtCompany(jobs, company), AtCompany(front, company), if j.company == company then [j] else []);
    }
  }

  /** Companies come in the order they are first named: each once, and one named
      only later in the list comes after those named before. */
  lemma {:induction false} CompaniesInFirstOrder(jobs: seq<Job>, more: seq<Job>)
    ensures Companies(jobs) <= Companies(jobs + more)
    ensures forall c :: c in Companies(jobs) <==> exists i :: 0 <= i < |jobs| && jobs[i].company == c
    ensures forall i, k :: 0 <= i < k < |Companies(jobs)| ==> Companies(jobs)[i] != Companies(jobs)[k]
  {
    CompaniesMembers(jobs);
    CompaniesAreNamed(jobs);
    if more == [] {
      assert jobs + more == jobs;
    } else {
      var n := |more| - 1;
      CompaniesInFirstOrder(jobs, more[..n]);
      assert (jobs + more)[..|jobs| + n] == jobs + more[..n];
    }
  }

  lemma {:induction false} CompaniesAreNamed(jobs: seq<Job>)
    ensures forall c :: c in Companies(jobs) ==> exists i :: 0 <= i < |jobs| && jobs[i].company == c
  {
    if jobs != [] {
      var n := |jobs| - 1;
      CompaniesAreNamed(jobs[..n]);
      forall c | c in Companies(jobs) ensures exists i :: 0 <= i < |jobs| && jobs[i].company == c {
        if c in Companies(jobs[..n]) {
          var i :| 0 <= i < n && jobs[..n][i].company == c;
          assert jobs[i].company == c;
        } else {
          assert jobs[n].company == c;
        }
      }
    }
  }

  /** A job counts up to now while it is current, whatever end it carries. */
  lemma {:induction false} JobMonthsAre(jobs: seq<Job>, now: Instant)
    ensures forall k :: k in MonthsServed(SpansOf(jobs), now) <==> exists i ::
      && 0 <= i < |jobs| && jobs[i].from.At? && jobs[i].from.instant.month < k <= now.month
      && (jobs[i].current || jobs[i].to.Missing? || (jobs[i].to.At? && k <= jobs[i].to.instant.month))
  {
    var spans := SpansOf(jobs);
    MonthsServedAre(spans, now);
    assert forall i :: 0 <= i < |jobs| ==> spans[i].from == jobs[i].from
                                           && spans[i].to == if jobs[i].current then Missing else jobs[i].to;
  }

  lemma ServedByJob(jobs: seq<Job>, now: Instant, k: int)
    ensures Served(SpansOf(jobs), now, k) <==> exists j :: j in jobs && Serves(SpanOf(j), now, k)
  {
    if Served(SpansOf(jobs), now, k) {
      var i :| 0 <= i < |jobs| && Serves(SpansOf(jobs)[i], now, k);
      assert jobs[i] in jobs;
    }
    if j :| j in jobs && Serves(SpanOf(j), now, k) {
      var i :| 0 <= i < |jobs| && jobs[i] == j;
      assert Serves(SpansOf(jobs)[i], now, k);
    }
  }

  ghost function CompanyMonths(jobs: seq<Job>, company: string, now: Instant): set<int> {
    MonthsServed(SpansOf(AtCompany(jobs, company)), now)
  }

  lemma CompanyWithinTotal(jobs: seq<Job>, company: string, now: Instant)
    ensures CompanyMonths(jobs, company, now) <= MonthsServed(SpansOf(jobs), now)
  {
    forall k | k in CompanyMonths(jobs, company, now) ensures k in MonthsServed(SpansOf(jobs), now) {
      ServedByJob(AtCompany(jobs, company), now, k);
      var j :| j in AtCompany(jobs, company) && Serves(SpanOf(j), now, k);
      AtCompanyMembers(jobs, company, j);
      ServedByJob(jobs, now, k);
    }
  }

  ghost function UnionUpTo(jobs: seq<Job>, companies: seq<string>, now: Instant): set<int> {
    if companies == [] then {}
    else UnionUpTo(jobs, companies[..|companies| - 1], now) + CompanyMonths(jobs, companies[|companies| - 1], now)
  }

  ghost function CompanyTotals(jobs: seq<Job>, companies: seq<string>, now: Instant): (totals: seq<nat>)
    ensures |totals| == |companies|
    ensures forall i :: 0 <= i < |companies| ==> totals[i] == |CompanyMonths(jobs, companies[i], now)|
  {
    if companies == [] then []
    else
      var last := CompanyMonths(jobs, companies[|companies| - 1], now);
      CompanyTotals(jobs, companies[..|companies| - 1], now) + [|last|]
  }

  lemma {:induction false} TotalsAre(jobs: seq<Job>, companies: seq<string>, now: Instant, totals: seq<nat>)
    requires |totals| == |companies|
    requires forall i :: 0 <= i < |companies| ==> totals[i] == |CompanyMonths(jobs, companies[i], now)|
    ensures totals == CompanyTotals(jobs, companies, now)
  {
  }

  lemma SizeOfUnion<T>(x: set<T>, y: set<T>)
    ensures |x + y| <= |x| + |y|
  {
  }

  lemma {:induction false} UnionAtMostSum(jobs: seq<Job>, companies: seq<string>, now: Instant)
    ensures |UnionUpTo(jobs, companies, now)| <= Sum(CompanyTotals(jobs, companies, now))
  {
    if companies != [] {
      var n := |companies| - 1;
      UnionAtMostSum(jobs, companies[..n], now);
      var front, last := UnionUpTo(jobs, companies[..n], now), CompanyMonths(jobs, companies[n], now);
      SizeOfUnion(front, last);
      assert CompanyTotals(jobs, companies, now)[..n] == CompanyTotals(jobs, companies[..n], now);
    }
  }

  lemma {:induction false} UnionHolds(jobs: seq<Job>, companies: seq<string>, company: string, now: Instant)
    requires company in companies
    ensures CompanyMonths(jobs, company, now) <= UnionUpTo(jobs, companies, now)
  {
    var n := |companies| - 1;
    if companies[n] != company {
      assert company in companies[..n];
      UnionHolds(jobs, companies[..n], company, now);
    }
  }

  lemma SubsetSize<T>(small: set<T>, big: set<T>)
    requires small <= big
    ensures |small| <= |big|
  {
    assert big == small + (big - small);
  }

  /** Total service is at least every company's total and at most their sum. */
  lemma {:induction false} TotalsAgree(jobs: seq<Job>, now: Instant)
    ensures var total := |MonthsServed(SpansOf(jobs), now)|;
            var byCompany := CompanyTotals(jobs, Companies(jobs), now);
            && total <= Sum(byCompany)
            && forall i :: 0 <= i < |byCompany| ==> byCompany[i] <= total
  {
    var all := MonthsServed(SpansOf(jobs), now);
    var companies := Companies(jobs);
    forall i | 0 <= i < |companies| ensures |CompanyMonths(jobs, companies[i], now)| <= |all| {
      CompanyWithinTotal(jobs, companies[i], now);
      SubsetSize(CompanyMonths(jobs, companies[i], now), all);
    }
    forall k | k in all ensures k in UnionUpTo(jobs, companies, now) {
      ServedByJob(jobs, now, k);
      var j :| j in jobs && Serves(SpanOf(j), now, k);
      CompaniesMembers(jobs);
      AtCompanyMembers(jobs, j.company, j);
      ServedByJob(AtCompany(jobs, j.company), now, k);
      UnionHolds(jobs, companies, j.company, now);
      assert k in CompanyMonths(jobs, j.company, now);
    }
    SubsetSize(all, UnionUpTo(jobs, companies, now));
    UnionAtMostSum(jobs, companies, now);
  }

  /** The brief's figures: a total for each company and the overall one. */
  method BriefTotals(jobs: seq<Job>, now: Instant)
    returns (order: seq<string>, byCompany: seq<nat>, total: nat)
    ensures order == Companies(jobs)
    ensures byCompany == CompanyTotals(jobs, order, now)
    ensures total == |MonthsServed(SpansOf(jobs), now)|
    ensures total <= Sum(byCompany)
    ensures forall i :: 0 <= i < |byCompany| ==> byCompany[i] <= total
  {
    hide MonthsServed, SpansOf, AtCompany, Companies, CompanyTotals;
    var groups;
    order, groups := GroupByCompany(jobs);
    byCompany := [];
    for n := 0 to |order|
      invariant |byCompany| == n
      invariant forall i :: 0 <= i < n ==> byCompany[i] == |CompanyMonths(jobs, order[i], now)|
    {
      assert order[n] in groups;
      var months := MergedMonths(SpansOf(groups[order[n]]), now);
      byCompany := byCompany + [months];
    }
    total := MergedMonths(SpansOf(jobs), now);
    TotalsAre(jobs, order, now, byCompany);
    TotalsAgree(jobs, now);
  }
}
