/** The two dashboard queries. The summary is one SQL aggregate over the
    user's active subscriptions in a creation-date window: the SUM and the AVG
    of each row's monthly equivalent (the amount for a monthly cycle, a twelfth
    of it for a yearly one) and a COUNT of active rows. `created_at` is a
    timestamp, compared with the bounds as instants. An aggregate without
    GROUP BY always yields exactly one row; over no rows its SUM and AVG are
    NULL, modelled as None. The upcoming query lists pending charges in a
    date range whose subscription is active and belongs to the user. */
module DashboardRepository {
  import opened CivilDate
  import opened Tables
  import opened Records

  /** CASE billing_cycle WHEN 'monthly' THEN amount WHEN 'yearly' THEN
      amount / 12.0 ELSE NULL END, in cents. */
  function MonthlyEquivalent(s: Subscription): Option<real> {
    match s.billingCycle
    case Monthly => Some(s.amount as real)
    case Yearly => Some(s.amount as real / 12.0)
    case OtherCycle(_) => None
  }

  /** The same CASE with ELSE 0, as the SUM column writes it. */
  function MonthlyOrZero(s: Subscription): real {
    match MonthlyEquivalent(s)
    case Some(v) => v
    case None => 0.0
  }

  /** The sum of the rows' monthly equivalents, a row of another cycle adding 0. */
  function Total(rows: seq<Subscription>): real {
    if rows == [] then 0.0 else MonthlyOrZero(rows[0]) + Total(rows[1..])
  }

  /** The number of rows whose monthly equivalent is not NULL: the divisor of AVG. */
  function Priced(rows: seq<Subscription>): nat {
    if rows == [] then 0
    else (if MonthlyEquivalent(rows[0]).Some? then 1 else 0) + Priced(rows[1..])
  }

  /** COUNT(CASE WHEN status = 'active' THEN 1 END). */
  function ActiveCount(rows: seq<Subscription>): nat {
    if rows == [] then 0
    else (if rows[0].status == Active then 1 else 0) + ActiveCount(rows[1..])
  }

  /** The divisor of AVG is the number of rows with a monthly equivalent. */
  lemma {:induction false} PricedCountsPricedRows(rows: seq<Subscription>)
    ensures Priced(rows) == |Filter(rows, (s: Subscription) => MonthlyEquivalent(s).Some?)|
  {
    if rows != [] {
      PricedCountsPricedRows(rows[1..]);
    }
  }

  /** The COUNT column is the number of active rows. */
  lemma {:induction false} ActiveCountCountsActiveRows(rows: seq<Subscription>)
    ensures ActiveCount(rows) == |Filter(rows, (s: Subscription) => s.status == Active)|
  {
    if rows != [] {
      ActiveCountCountsActiveRows(rows[1..]);
    }
  }

  datatype Summary = Summary(totalMonthly: Option<real>, actives: nat, avgAmount: Option<real>)

  /** The upper bound of the creation window. A bound the caller gives as a
      date string is midnight at the start of that day, so a subscription
      created during that day lies after it. The default bound is the
      current instant, which no existing subscription was created after. */
  datatype UpperBound = Midnight(day: CivilDate) | Instant(day: CivilDate)

  /** created_at <= bound, for a subscription created on day `created`. */
  predicate CreatedBy(created: CivilDate, bound: UpperBound) {
    match bound
    case Midnight(d) => Before(created, d)
    case Instant(d) => NotAfter(created, d)
  }

  /** The creation-date filter: >= the lower bound (midnight of its day) when
      given, <= the upper bound when given; both together are the BETWEEN. */
  predicate InWindow(created: CivilDate, initial: Option<CivilDate>, final: Option<UpperBound>) {
    && (initial.Some? ==> NotAfter(initial.value, created))
    && (final.Some? ==> CreatedBy(created, final.value))
  }

  /** The WHERE clause of the summary: the user's active subscriptions created
      inside the optional window. */
  predicate Counted(s: Subscription, userId: Id, initial: Option<CivilDate>, final: Option<UpperBound>) {
    s.userId == userId && s.status == Active && InWindow(s.createdAt, initial, final)
  }

  function Matching(subscriptions: seq<Subscription>, userId: Id,
                    initial: Option<CivilDate>, final: Option<UpperBound>)
    : (r: seq<Subscription>)
    ensures forall s :: s in r <==> s in subscriptions && Counted(s, userId, initial, final)
  {
    Filter(subscriptions, s => Counted(s, userId, initial, final))
  }

  /** The aggregate row over the selected subscriptions. */
  function Aggregate(rows: seq<Subscription>): (r: Summary)
    ensures r.totalMonthly.None? <==> rows == []
    ensures r.avgAmount.None? <==> Priced(rows) == 0
    ensures r.totalMonthly.Some? ==> r.totalMonthly.value == Total(rows)
    ensures r.actives == ActiveCount(rows)
    ensures r.avgAmount.Some? ==> r.avgAmount.value * (Priced(rows) as real) == r.totalMonthly.value
  {
    var total := Total(rows);
    var priced := Priced(rows);
    Summary(
      if rows == [] then None else Some(total),
      ActiveCount(rows),
      if priced == 0 then None else Some(total / (priced as real)))
  }

  /** The summary query. The repository's fallback to an all-zero summary
      applies only when the query yields no row, which an aggregate without
      GROUP BY never does; the row itself is returned. */
  function GetSummary(subscriptions: seq<Subscription>, userId: Id,
                      initial: Option<CivilDate>, final: Option<UpperBound>)
    : (r: Summary)
    ensures r.totalMonthly.Some? <==> exists s :: s in subscriptions && Counted(s, userId, initial, final)
  {
    var rows := Matching(subscriptions, userId, initial, final);
    assert rows != [] ==> rows[0] in rows;
    Aggregate(rows)
  }

  /** The rows' totals add up across a split of the rows. */
  lemma {:induction false} TotalsAdd(a: seq<Subscription>, b: seq<Subscription>)
    ensures Total(a + b) == Total(a) + Total(b)
    ensures Priced(a + b) == Priced(a) + Priced(b)
    ensures ActiveCount(a + b) == ActiveCount(a) + ActiveCount(b)
  {
    if a == [] {
      assert a + b == b;
    } else {
      assert (a + b)[1..] == a[1..] + b;
      TotalsAdd(a[1..], b);
    }
  }

  /** The COUNT of active rows counts every selected row, because the WHERE
      clause already keeps only active subscriptions. */
  lemma {:induction false} ActivesCountsEveryRow(rows: seq<Subscription>)
    requires forall s :: s in rows ==> s.status == Active
    ensures ActiveCount(rows) == |rows|
  {
    if rows != [] {
      assert rows[0] in rows;
      assert forall s :: s in rows[1..] ==> s in rows;
      ActivesCountsEveryRow(rows[1..]);
    }
  }

  /** When every row is monthly or yearly (the only values the store's enum
      admits), AVG divides by the number of active rows. */
  lemma {:induction false} KnownCyclesArePriced(rows: seq<Subscription>)
    requires forall s :: s in rows ==> s.billingCycle == Monthly || s.billingCycle == Yearly
    ensures Priced(rows) == |rows|
  {
    if rows != [] {
      assert rows[0] in rows;
      assert forall s :: s in rows[1..] ==> s in rows;
      KnownCyclesArePriced(rows[1..]);
    }
  }

  /** What the summary reports: actives is the number of subscriptions the
      WHERE clause selects, and when all of them have a known cycle the
      average is the total divided by that number. */
  lemma SummaryOfSelection(subscriptions: seq<Subscription>, userId: Id,
                           initial: Option<CivilDate>, final: Option<UpperBound>)
    ensures var rows := Matching(subscriptions, userId, initial, final);
      var r := GetSummary(subscriptions, userId, initial, final);
      && r.actives == |rows|
      && ((forall s :: s in rows ==> s.billingCycle == Monthly || s.billingCycle == Yearly) && rows != [] ==>
            r.avgAmount == Some(r.totalMonthly.value / (|rows| as real)))
  {
    var rows := Matching(subscriptions, userId, initial, final);
    ActivesCountsEveryRow(rows);
    if (forall s :: s in rows ==> s.billingCycle == Monthly || s.billingCycle == Yearly) && rows != [] {
      KnownCyclesArePriced(rows);
    }
  }

  /** With nothing selected the row holds NULL sum and average and a zero
      count; it is not the all-zero fallback. */
  lemma EmptySelection(subscriptions: seq<Subscription>, userId: Id,
                       initial: Option<CivilDate>, final: Option<UpperBound>)
    requires forall s :: s in subscriptions ==> !Counted(s, userId, initial, final)
    ensures GetSummary(subscriptions, userId, initial, final) == Summary(None, 0, None)
  {
  }

  /** A yearly subscription of 120.00 and a monthly one of 29.90 give a
      monthly total of 39.90 over 2 actives and an average of 19.95. */
  lemma MixedCyclesExample(userId: Id)
    ensures var day := Date(2025, 1, 10);
      var yearly := Subscription(1, userId, 7, "cloud", 12000, Yearly, Date(2025, 6, 1), Active, day);
      var monthly := Subscription(2, userId, 7, "music", 2990, Monthly, Date(2025, 2, 1), Active, day);
      GetSummary([yearly, monthly], userId, None, None) == Summary(Some(3990.0), 2, Some(1995.0))
  {
    var day := Date(2025, 1, 10);
    var yearly := Subscription(1, userId, 7, "cloud", 12000, Yearly, Date(2025, 6, 1), Active, day);
    var monthly := Subscription(2, userId, 7, "music", 2990, Monthly, Date(2025, 2, 1), Active, day);
    var rows := Matching([yearly, monthly], userId, None, None);
    assert rows == [yearly, monthly];
    assert Total(rows) == 3990.0 by {
      assert rows[1..] == [monthly];
      assert Total([monthly]) == 2990.0;
    }
    assert [monthly][1..] == [];
    assert Priced([monthly]) == 1;
    assert ActiveCount([monthly]) == 1;
    assert rows[1..] == [monthly];
    assert Priced(rows) == 2;
    assert ActiveCount(rows) == 2;
  }

  // ---------------------------------------------------------------------
  // Upcoming charges
  // ---------------------------------------------------------------------

  /** The include of the upcoming query: the charge's subscription is active
      and belongs to userId. */
  predicate ActiveSubscriptionOf(subscriptions: seq<Subscription>, c: Charge, userId: Id) {
    exists s :: s in subscriptions && s.id == c.subscriptionId && s.status == Active && s.userId == userId
  }

  predicate Upcoming(subscriptions: seq<Subscription>, c: Charge, userId: Id, initial: CivilDate, final: CivilDate) {
    && c.status == Pending
    && NotAfter(initial, c.chargeDate) && NotAfter(c.chargeDate, final)
    && ActiveSubscriptionOf(subscriptions, c, userId)
  }

  /** Pending charges dated inside [initial, final] of the user's active
      subscriptions. Both bounds go through `new Date(...)` and into a
      BETWEEN; a missing bound becomes an invalid date, which the store
      rejects, modelled as a generic fault. */
  function GetUpcoming(subscriptions: seq<Subscription>, charges: seq<Charge>, userId: Id,
                       initial: Option<CivilDate>, final: Option<CivilDate>)
    : (r: Result<seq<Charge>>)
    ensures r.Success? <==> initial.Some? && final.Some?
    ensures r.Success? ==> forall c :: c in r.value <==>
      c in charges && Upcoming(subscriptions, c, userId, initial.value, final.value)
  {
    if initial.None? || final.None? then Failure(Fault)
    else Success(Filter(charges, c => Upcoming(subscriptions, c, userId, initial.value, final.value)))
  }
}
