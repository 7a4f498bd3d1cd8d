/** The dashboard service: a summary over a creation-date window that
    defaults to the current month, and the upcoming-charges list. The clock
    is the parameter `now`, today's date. */
module DashboardService {
  import opened CivilDate
  import opened Tables
  import opened Records
  import DashboardRepository

  /** The first day of now's month. */
  function FirstOfMonth(now: CivilDate): (r: CivilDate)
    ensures r.year == now.year && r.month == now.month && r.day == 1
    ensures NotAfter(r, now)
  {
    Date(now.year, now.month, 1)
  }

  /** The window the summary query receives. Only when neither bound is
      given does it become [first of this month, now]; a single bound is
      passed on alone and gives a one-sided filter. A bound the caller gives
      is a date string, read as midnight at the start of its day. */
  function SummaryWindow(initial: Option<CivilDate>, final: Option<CivilDate>, now: CivilDate)
    : (w: (Option<CivilDate>, Option<DashboardRepository.UpperBound>))
    ensures initial.Some? || final.Some? ==>
      && w.0 == initial
      && (final.None? ==> w.1.None?)
      && (final.Some? ==> w.1 == Some(DashboardRepository.Midnight(final.value)))
    ensures initial.None? && final.None? ==>
      && w.0.Some? && w.1 == Some(DashboardRepository.Instant(now))
      && w.0.value.year == now.year && w.0.value.month == now.month && w.0.value.day == 1
      && NotAfter(w.0.value, now)
  {
    if initial.None? && final.None? then (Some(FirstOfMonth(now)), Some(DashboardRepository.Instant(now)))
    else (initial, if final.None? then None else Some(DashboardRepository.Midnight(final.value)))
  }

  /** The default window holds exactly the days of the current month up to
      and including today. */
  lemma DefaultWindowIsMonthToDate(d: CivilDate, now: CivilDate)
    ensures var w := SummaryWindow(None, None, now);
      DashboardRepository.InWindow(d, w.0, w.1) <==> d.year == now.year && d.month == now.month && NotAfter(d, now)
  {
  }

  /** A window the caller closes with a final date holds the days before
      that date and not the date itself: every subscription created on the
      final day is after its midnight. */
  lemma CallerFinalDayIsExcluded(d: CivilDate, initial: Option<CivilDate>, final: CivilDate, now: CivilDate)
    ensures var w := SummaryWindow(initial, Some(final), now);
      DashboardRepository.InWindow(d, w.0, w.1) <==>
        Before(d, final) && (initial.Some? ==> NotAfter(initial.value, d))
  {
  }

  /** The service's summary. Its NotFound branch needs a missing summary,
      and the repository always yields one, so the result is always a
      summary of the subscriptions counted in the window. */
  function GetSummary(subscriptions: seq<Subscription>, userId: Id,
                      initial: Option<CivilDate>, final: Option<CivilDate>, now: CivilDate)
    : (r: Result<DashboardRepository.Summary>)
    ensures r.Success?
    ensures var w := SummaryWindow(initial, final, now);
      r.value.actives == |DashboardRepository.Matching(subscriptions, userId, w.0, w.1)|
    ensures var w := SummaryWindow(initial, final, now);
      r.value.totalMonthly.Some? <==>
        exists s :: s in subscriptions && DashboardRepository.Counted(s, userId, w.0, w.1)
  {
    var w := SummaryWindow(initial, final, now);
    DashboardRepository.SummaryOfSelection(subscriptions, userId, w.0, w.1);
    Success(DashboardRepository.GetSummary(subscriptions, userId, w.0, w.1))
  }

  /** With no bounds given, the summary counts the user's active
      subscriptions created this month, up to today. */
  lemma DefaultSummaryCountsThisMonth(subscriptions: seq<Subscription>, userId: Id, now: CivilDate, s: Subscription)
    ensures var w := SummaryWindow(None, None, now);
      s in DashboardRepository.Matching(subscriptions, userId, w.0, w.1) <==>
        && s in subscriptions && s.userId == userId && s.status == Active
        && s.createdAt.year == now.year && s.createdAt.month == now.month
        && NotAfter(s.createdAt, now)
  {
    DefaultWindowIsMonthToDate(s.createdAt, now);
  }

  /** The upcoming list as the service calls it: only the user id is passed
      on, so both bounds of the repository's BETWEEN are missing and the
      query is refused whatever the caller asked for. */
  function GetUpcoming(subscriptions: seq<Subscription>, charges: seq<Charge>, userId: Id,
                       initial: Option<CivilDate>, final: Option<CivilDate>)
    : (r: Result<seq<Charge>>)
    ensures r == Failure(Fault)
  {
    DashboardRepository.GetUpcoming(subscriptions, charges, userId, None, None)
  }

  /** The upcoming list with the caller's bounds passed on: given both, it
      is exactly the user's pending charges of active subscriptions dated
      inside them. */
  function GetUpcomingInWindow(subscriptions: seq<Subscription>, charges: seq<Charge>, userId: Id,
                               initial: Option<CivilDate>, final: Option<CivilDate>)
    : (r: Result<seq<Charge>>)
    ensures r.Success? <==> initial.Some? && final.Some?
    ensures r.Success? ==> forall c :: c in r.value <==>
      && c in charges && c.status == Pending
      && NotAfter(initial.value, c.chargeDate) && NotAfter(c.chargeDate, final.value)
      && exists s :: s in subscriptions && s.id == c.subscriptionId && s.status == Active && s.userId == userId
  {
    DashboardRepository.GetUpcoming(subscriptions, charges, userId, initial, final)
  }
}
