/** The guards of the charge service and the billing-date step it applies
    after registering a charge. The store carries out the table updates. */
module ChargeService {
  import opened CivilDate
  import opened Tables
  import opened Records
  import SubscriptionRepository
  import ChargeRepository

  /** The subscription a new charge is registered for: it must exist under
      (userId, subscriptionId), and it must not be canceled. */
  function CreateCheck(subscriptions: seq<Subscription>, userId: Id, subscriptionId: Id)
    : (r: Result<Subscription>)
    ensures r == Failure(NotFound) <==>
      forall s :: s in subscriptions ==> !(s.id == subscriptionId && s.userId == userId)
    ensures r == Failure(Unprocessable) <==>
      SubscriptionRepository.ListByID(subscriptions, userId, subscriptionId).Some? &&
      SubscriptionRepository.ListByID(subscriptions, userId, subscriptionId).value.status == Canceled
    ensures r.Success? ==>
      && r.value in subscriptions && r.value.id == subscriptionId && r.value.userId == userId
      && r.value.status == Active
    ensures r.Success? <==>
      SubscriptionRepository.ListByID(subscriptions, userId, subscriptionId).Some? &&
      SubscriptionRepository.ListByID(subscriptions, userId, subscriptionId).value.status == Active
    ensures r.Success? || r == Failure(NotFound) || r == Failure(Unprocessable)
  {
    match SubscriptionRepository.ListByID(subscriptions, userId, subscriptionId)
    case None => Failure(NotFound)
    case Some(s) =>
      match s.status
      case Canceled => Failure(Unprocessable)
      case Active => Success(s)
  }

  /** The next billing date after a charge: one calendar month on for a
      monthly subscription, one calendar year on for any other cycle, counted
      from the stored date and not from the day of the charge. */
  function NextBillingDate(s: Subscription): (r: CivilDate)
    ensures Before(s.nextBillingDate, r)
    ensures s.billingCycle == Monthly ==>
      DayNumber(r) == DayNumber(s.nextBillingDate) + DaysInMonth(s.nextBillingDate.year, s.nextBillingDate.month)
    ensures s.billingCycle != Monthly ==>
      DayNumber(r) == DayNumber(Date(s.nextBillingDate.year + 1, s.nextBillingDate.month, 1)) + s.nextBillingDate.day - 1
  {
    if s.billingCycle == Monthly then AddOneMonth(s.nextBillingDate)
    else AddOneYear(s.nextBillingDate)
  }

  /** The day-of-month survives the step unless the target month is too
      short: a monthly date up to the 28th keeps its day in the next month,
      and a yearly date other than 29 February keeps month and day. */
  lemma StepKeepsDay(s: Subscription)
    ensures s.billingCycle == Monthly && s.nextBillingDate.day <= 28 ==>
      var r := NextBillingDate(s);
      r.day == s.nextBillingDate.day && r == AddOneMonth(s.nextBillingDate) &&
      (if s.nextBillingDate.month == 12
       then r.year == s.nextBillingDate.year + 1 && r.month == 1
       else r.year == s.nextBillingDate.year && r.month == s.nextBillingDate.month + 1)
    ensures s.billingCycle != Monthly && !(s.nextBillingDate.month == 2 && s.nextBillingDate.day == 29) ==>
      NextBillingDate(s) == Date(s.nextBillingDate.year + 1, s.nextBillingDate.month, s.nextBillingDate.day)
  {
    var d := s.nextBillingDate;
    if s.billingCycle == Monthly && d.day <= 28 {
      var t := MonthAfter(d.year, d.month);
      assert d.day <= DaysInMonth(t.year, t.month);
    }
  }

  /** Paying needs an existing charge that is not paid yet. */
  function PayCheck(charges: seq<Charge>, id: Id): (r: Outcome)
    ensures r == Failed(NotFound) <==> forall c :: c in charges ==> c.id != id
    ensures r == Failed(BadRequest) <==>
      ChargeRepository.ListByID(charges, id).Some? && ChargeRepository.ListByID(charges, id).value.status == Paid
    ensures r == Done ==> exists c :: c in charges && c.id == id && c.status == Pending
    ensures r == Done <==>
      ChargeRepository.ListByID(charges, id).Some? && ChargeRepository.ListByID(charges, id).value.status == Pending
    ensures r == Done || r == Failed(NotFound) || r == Failed(BadRequest)
  {
    match ChargeRepository.ListByID(charges, id)
    case None => Failed(NotFound)
    case Some(c) =>
      match c.status
      case Paid => Failed(BadRequest)
      case Pending => assert c in charges && c.id == id && c.status == Pending; Done
  }

  /** Paying twice is rejected: once the charge table has been paid for id,
      the check refuses a second payment. The check takes no user id, so the
      charge of any user passes it. */
  lemma PayingTwiceIsRejected(charges: seq<Charge>, id: Id)
    requires PayCheck(charges, id) == Done
    ensures PayCheck(ChargeRepository.PayCharge(charges, id), id) == Failed(BadRequest)
  {
    var c :| c in charges && c.id == id && c.status == Pending;
    ChargeRepository.PaidChargeIsFoundPaid(charges, id);
  }
}
