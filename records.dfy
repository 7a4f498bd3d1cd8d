/** The rows of the five tables (users, categories, subscriptions, charges,
    alerts) as the ORM models declare them, the typed errors the services
    raise, and the period filter shared by the charge and dashboard queries.
    Primary keys are numbers handed out in increasing order, so a smaller key
    means an earlier row. Money is integer cents. */
module Records {
  import opened CivilDate
  import opened Tables

  type Id = nat

  /** An amount of money in cents (the columns are DECIMAL(10, 2)). */
  type Cents = int

  /** The typed errors of the services, plus a generic fault for a
      JavaScript exception that no service catches. */
  datatype ApiError = BadRequest | NotFound | Conflict | Unprocessable | Fault

  /** The outcome of a service method that returns nothing on success. */
  datatype Outcome = Done | Failed(error: ApiError)

  datatype Result<T> = Success(value: T) | Failure(error: ApiError)

  /** `billing_cycle`. The services store whatever non-empty text they are
      given; only the store's enum restricts it to monthly and yearly. */
  datatype BillingCycle = Monthly | Yearly | OtherCycle(name: string)

  datatype SubscriptionStatus = Active | Canceled

  datatype ChargeStatus = Pending | Paid

  datatype User = User(
    id: Id, name: string, email: string, currency: string, notificationsEnabled: bool)

  datatype Category = Category(id: Id, userId: Id, name: string, color: Option<string>)

  datatype Subscription = Subscription(
    id: Id, userId: Id, categoryId: Id, serviceName: string, amount: Cents,
    billingCycle: BillingCycle, nextBillingDate: CivilDate,
    status: SubscriptionStatus, createdAt: CivilDate)

  datatype Charge = Charge(
    id: Id, subscriptionId: Id, chargeDate: CivilDate, amount: Cents, status: ChargeStatus)

  /** The two alert texts the services write. */
  datatype AlertMessage =
    | ChargeRegistered(serviceName: string, amount: Cents)
    | SubscriptionCanceled(serviceName: string)

  datatype Alert = Alert(id: Id, userId: Id, message: AlertMessage, isRead: bool)

  /** The billing cycle named by a request's `billing_cycle` text. */
  function CycleOf(text: string): (c: BillingCycle)
    ensures c == Monthly <==> text == "monthly"
    ensures c == Yearly <==> text == "yearly"
  {
    if text == "monthly" then Monthly
    else if text == "yearly" then Yearly
    else OtherCycle(text)
  }

  /** The date filter built from optional period bounds: BETWEEN (inclusive)
      when both are given, >= or <= when only one is, no filter when neither. */
  predicate InPeriod(d: CivilDate, initial: Option<CivilDate>, final: Option<CivilDate>) {
    match (initial, final)
    case (Some(i), Some(f)) => NotAfter(i, d) && NotAfter(d, f)
    case (Some(i), None) => NotAfter(i, d)
    case (None, Some(f)) => NotAfter(d, f)
    case (None, None) => true
  }

  // Relations between an earlier and a later row of one table, used to state
  // the store's invariants with Tables.Pairwise.

  predicate UserKeysAscend(a: User, b: User) { a.id < b.id }

  predicate CategoryKeysAscend(a: Category, b: Category) { a.id < b.id }

  predicate SubscriptionKeysAscend(a: Subscription, b: Subscription) { a.id < b.id }

  predicate ChargeKeysAscend(a: Charge, b: Charge) { a.id < b.id }

  predicate AlertKeysAscend(a: Alert, b: Alert) { a.id < b.id }

  /** Two categories do not share a name within one user. */
  predicate CategoryNamesDiffer(a: Category, b: Category) {
    !(a.userId == b.userId && a.name == b.name)
  }

  /** Two subscriptions do not share a service name within one user. */
  predicate ServiceNamesDiffer(a: Subscription, b: Subscription) {
    !(a.userId == b.userId && a.serviceName == b.serviceName)
  }
}
