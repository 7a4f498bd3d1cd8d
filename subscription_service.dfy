/** The checks of the subscription service: the shared validation of a
    service name, an amount and a next billing date; the required-field test
    of Create; the status test of List; and the fallbacks and revalidation of
    Edit. Request values are modelled with their falsy form: an empty string
    for a missing text, 0 for a missing amount, None for a missing id, and
    `Absent` for a missing date. `today` is the clock. */
module SubscriptionService {
  import opened CivilDate
  import opened Tables
  import opened Records
  import SubscriptionRepository

  /** A `next_billing_date` request value: missing, a value that is not a
      string or does not parse as a date, or a calendar day. */
  datatype DateArg = Absent | Malformed | OnDay(date: CivilDate)

  /** A date value that passes the parse check and lies after today. A
      date-only string is midnight at the start of its day, so it is later
      than the current instant exactly when its day is after today. */
  predicate InFuture(date: DateArg, today: CivilDate) {
    date.OnDay? && Before(today, date.date)
  }

  /** ValidateSubscriptionData: a same-named subscription of the user is a
      Conflict; otherwise a negative amount, then a missing or unparsable
      date, then a date that is not in the future is a BadRequest. */
  function ValidateSubscriptionData(subscriptions: seq<Subscription>, serviceName: string, amount: Cents,
                                    date: DateArg, userId: Id, today: CivilDate)
    : (r: Outcome)
    ensures r == Failed(Conflict) <==>
      exists s :: s in subscriptions && s.serviceName == serviceName && s.userId == userId
    ensures r == Done <==>
      && (forall s :: s in subscriptions ==> !(s.serviceName == serviceName && s.userId == userId))
      && amount >= 0 && InFuture(date, today)
    ensures r == Done || r == Failed(Conflict) || r == Failed(BadRequest)
  {
    if SubscriptionRepository.FindByName(subscriptions, serviceName, userId).Some? then Failed(Conflict)
    else if amount < 0 then Failed(BadRequest)
    else if !date.OnDay? then Failed(BadRequest)
    else if !Before(today, date.date) then Failed(BadRequest)
    else Done
  }

  /** The checks of Create: every field must be truthy (an amount of 0 counts
      as missing), then the shared validation applies. */
  function CreateCheck(subscriptions: seq<Subscription>, userId: Id, categoryId: Option<Id>,
                       serviceName: string, amount: Cents, billingCycle: string,
                       date: DateArg, today: CivilDate)
    : (r: Outcome)
    ensures r == Done <==>
      && categoryId.Some? && serviceName != "" && amount > 0 && billingCycle != ""
      && InFuture(date, today)
      && forall s :: s in subscriptions ==> !(s.serviceName == serviceName && s.userId == userId)
    ensures r == Failed(Conflict) <==>
      && categoryId.Some? && serviceName != "" && amount != 0 && billingCycle != "" && !date.Absent?
      && exists s :: s in subscriptions && s.serviceName == serviceName && s.userId == userId
    ensures r == Done || r == Failed(Conflict) || r == Failed(BadRequest)
  {
    if categoryId.None? || serviceName == "" || amount == 0 || billingCycle == "" || date.Absent?
    then Failed(BadRequest)
    else ValidateSubscriptionData(subscriptions, serviceName, amount, date, userId, today)
  }

  /** The duplicate lookup is keyed by the user: a name that only other
      users hold never makes Create conflict. */
  lemma OtherUsersNamesDoNotConflict(subscriptions: seq<Subscription>, userId: Id, categoryId: Option<Id>,
                                     serviceName: string, amount: Cents, billingCycle: string,
                                     date: DateArg, today: CivilDate)
    requires forall s :: s in subscriptions && s.serviceName == serviceName ==> s.userId != userId
    ensures CreateCheck(subscriptions, userId, categoryId, serviceName, amount, billingCycle, date, today)
            != Failed(Conflict)
  {
  }

  /** The subscription Create inserts: status active, created today. */
  function NewSubscription(id: Id, userId: Id, categoryId: Id, serviceName: string, amount: Cents,
                           billingCycle: string, date: CivilDate, today: CivilDate)
    : (s: Subscription)
    ensures s.id == id && s.userId == userId && s.categoryId == categoryId
    ensures s.serviceName == serviceName && s.amount == amount && s.nextBillingDate == date
    ensures s.billingCycle == CycleOf(billingCycle)
    ensures s.status == Active && s.createdAt == today
  {
    Subscription(id, userId, categoryId, serviceName, amount, CycleOf(billingCycle), date, Active, today)
  }

  /** The status filter of List: an empty status means no filter, "active"
      and "canceled" select that status, and any other text is refused. */
  function ListCheck(status: string): (r: Result<Option<SubscriptionStatus>>)
    ensures r.Failure? <==> status != "" && status != "active" && status != "canceled"
    ensures r.Failure? ==> r.error == BadRequest
    ensures r == Success(None) <==> status == ""
    ensures r == Success(Some(Active)) <==> status == "active"
    ensures r == Success(Some(Canceled)) <==> status == "canceled"
  {
    if status == "" then Success(None)
    else if status == "active" then Success(Some(Active))
    else if status == "canceled" then Success(Some(Canceled))
    else Failure(BadRequest)
  }

  /** The service's List: the user's subscriptions, filtered by a valid
      status and by a category id when one is given. */
  function List(subscriptions: seq<Subscription>, userId: Id, status: string, categoryId: Option<Id>)
    : (r: Result<seq<Subscription>>)
    ensures r.Failure? <==> ListCheck(status).Failure?
    ensures r.Success? ==> forall s :: s in r.value <==>
      && s in subscriptions && s.userId == userId
      && (status == "active" ==> s.status == Active)
      && (status == "canceled" ==> s.status == Canceled)
      && (categoryId.Some? ==> s.categoryId == categoryId.value)
  {
    match ListCheck(status)
    case Failure(e) => Failure(e)
    case Success(filter) => Success(SubscriptionRepository.List(subscriptions, userId, filter, categoryId))
  }

  /** The values Edit writes, after each missing argument has been replaced
      by the subscription's current value. */
  datatype Edited = Edited(serviceName: string, amount: Cents, billingCycle: BillingCycle,
                           nextBillingDate: DateArg, categoryId: Id)

  /** The fallbacks of Edit. The stored date is read back as a date-only
      string, which always parses. */
  function Fallbacks(current: Subscription, serviceName: string, amount: Cents, billingCycle: string,
                     date: DateArg, categoryId: Option<Id>)
    : (e: Edited)
    ensures serviceName != "" ==> e.serviceName == serviceName
    ensures serviceName == "" ==> e.serviceName == current.serviceName
    ensures amount != 0 ==> e.amount == amount
    ensures amount == 0 ==> e.amount == current.amount
    ensures billingCycle != "" ==> e.billingCycle == CycleOf(billingCycle)
    ensures billingCycle == "" ==> e.billingCycle == current.billingCycle
    ensures !date.Absent? ==> e.nextBillingDate == date
    ensures date.Absent? ==> e.nextBillingDate == OnDay(current.nextBillingDate)
    ensures categoryId.Some? ==> e.categoryId == categoryId.value
    ensures categoryId.None? ==> e.categoryId == current.categoryId
  {
    Edited(
      if serviceName == "" then current.serviceName else serviceName,
      if amount == 0 then current.amount else amount,
      if billingCycle == "" then current.billingCycle else CycleOf(billingCycle),
      if date.Absent? then OnDay(current.nextBillingDate) else date,
      if categoryId.None? then current.categoryId else categoryId.value)
  }

  /** Edit as written: NotFound for a subscription the user does not have;
      otherwise the values after the fallbacks, revalidated with the same
      duplicate-name lookup as Create, which does not skip the edited
      subscription itself. */
  function EditCheck(subscriptions: seq<Subscription>, userId: Id, id: Id, serviceName: string,
                     amount: Cents, billingCycle: string, date: DateArg, categoryId: Option<Id>,
                     today: CivilDate)
    : (r: Result<Edited>)
    ensures r == Failure(NotFound) <==>
      forall s :: s in subscriptions ==> !(s.id == id && s.userId == userId)
    ensures r.Success? ==>
      && SubscriptionRepository.ListByID(subscriptions, userId, id).Some?
      && r.value == Fallbacks(SubscriptionRepository.ListByID(subscriptions, userId, id).value,
                              serviceName, amount, billingCycle, date, categoryId)
      && (forall s :: s in subscriptions ==> !(s.serviceName == r.value.serviceName && s.userId == userId))
      && r.value.amount >= 0 && InFuture(r.value.nextBillingDate, today)
    ensures SubscriptionRepository.ListByID(subscriptions, userId, id).Some? ==>
      var e := Fallbacks(SubscriptionRepository.ListByID(subscriptions, userId, id).value,
                         serviceName, amount, billingCycle, date, categoryId);
      && (r == Failure(Conflict) <==>
            exists s :: s in subscriptions && s.serviceName == e.serviceName && s.userId == userId)
      && (r == Failure(BadRequest) <==>
            && (forall s :: s in subscriptions ==> !(s.serviceName == e.serviceName && s.userId == userId))
            && (e.amount < 0 || !InFuture(e.nextBillingDate, today)))
      && (r.Success? <==>
            && (forall s :: s in subscriptions ==> !(s.serviceName == e.serviceName && s.userId == userId))
            && e.amount >= 0 && InFuture(e.nextBillingDate, today))
    ensures r.Success? || r == Failure(NotFound) || r == Failure(Conflict) || r == Failure(BadRequest)
  {
    match SubscriptionRepository.ListByID(subscriptions, userId, id)
    case None => Failure(NotFound)
    case Some(current) =>
      var e := Fallbacks(current, serviceName, amount, billingCycle, date, categoryId);
      match ValidateSubscriptionData(subscriptions, e.serviceName, e.amount, e.nextBillingDate, userId, today)
      case Failed(err) => Failure(err)
      case Done => Success(e)
  }

  /** An Edit that keeps or omits the current service name always fails with
      Conflict, because the lookup finds the edited subscription itself. */
  lemma EditKeepingNameConflicts(subscriptions: seq<Subscription>, userId: Id, id: Id, serviceName: string,
                                 amount: Cents, billingCycle: string, date: DateArg, categoryId: Option<Id>,
                                 today: CivilDate)
    requires SubscriptionRepository.ListByID(subscriptions, userId, id).Some?
    requires serviceName == "" ||
             serviceName == SubscriptionRepository.ListByID(subscriptions, userId, id).value.serviceName
    ensures EditCheck(subscriptions, userId, id, serviceName, amount, billingCycle, date, categoryId, today)
            == Failure(Conflict)
  {
    var current := SubscriptionRepository.ListByID(subscriptions, userId, id).value;
    var e := Fallbacks(current, serviceName, amount, billingCycle, date, categoryId);
    assert current in subscriptions && current.serviceName == e.serviceName && current.userId == userId;
  }

  /** A same-named subscription of the user other than subscription id. */
  function FindOtherByName(subscriptions: seq<Subscription>, serviceName: string, userId: Id, id: Id)
    : (r: Option<Subscription>)
    ensures r.Some? ==>
      r.value in subscriptions && r.value.serviceName == serviceName && r.value.userId == userId && r.value.id != id
    ensures r.None? <==>
      forall s :: s in subscriptions ==> !(s.serviceName == serviceName && s.userId == userId && s.id != id)
  {
    Find(subscriptions, (s: Subscription) => s.serviceName == serviceName && s.userId == userId && s.id != id)
  }

  /** Edit with the duplicate-name lookup skipping the edited subscription,
      as the category service does; the other checks are those of Edit. */
  function EditCheckExcludingSelf(subscriptions: seq<Subscription>, userId: Id, id: Id, serviceName: string,
                                  amount: Cents, billingCycle: string, date: DateArg, categoryId: Option<Id>,
                                  today: CivilDate)
    : (r: Result<Edited>)
    ensures r == Failure(NotFound) <==>
      forall s :: s in subscriptions ==> !(s.id == id && s.userId == userId)
    ensures r.Success? ==>
      && SubscriptionRepository.ListByID(subscriptions, userId, id).Some?
      && r.value == Fallbacks(SubscriptionRepository.ListByID(subscriptions, userId, id).value,
                              serviceName, amount, billingCycle, date, categoryId)
      && (forall s :: s in subscriptions && s.id != id ==>
            !(s.serviceName == r.value.serviceName && s.userId == userId))
      && r.value.amount >= 0 && InFuture(r.value.nextBillingDate, today)
    ensures SubscriptionRepository.ListByID(subscriptions, userId, id).Some? ==>
      var e := Fallbacks(SubscriptionRepository.ListByID(subscriptions, userId, id).value,
                         serviceName, amount, billingCycle, date, categoryId);
      && (r == Failure(Conflict) <==>
            exists s :: s in subscriptions && s.id != id && s.serviceName == e.serviceName && s.userId == userId)
      && (r == Failure(BadRequest) <==>
            && (forall s :: s in subscriptions && s.id != id ==>
                  !(s.serviceName == e.serviceName && s.userId == userId))
            && (e.amount < 0 || !InFuture(e.nextBillingDate, today)))
      && (r.Success? <==>
            && (forall s :: s in subscriptions && s.id != id ==>
                  !(s.serviceName == e.serviceName && s.userId == userId))
            && e.amount >= 0 && InFuture(e.nextBillingDate, today))
    ensures r.Success? || r == Failure(NotFound) || r == Failure(Conflict) || r == Failure(BadRequest)
  {
    match SubscriptionRepository.ListByID(subscriptions, userId, id)
    case None => Failure(NotFound)
    case Some(current) =>
      var e := Fallbacks(current, serviceName, amount, billingCycle, date, categoryId);
      if FindOtherByName(subscriptions, e.serviceName, userId, id).Some? then Failure(Conflict)
      else if e.amount < 0 || !InFuture(e.nextBillingDate, today) then Failure(BadRequest)
      else Success(e)
  }

  /** When service names are unique per user, an Edit that keeps or omits
      the current name, and whose amount and date after the fallbacks are
      non-negative and in the future, is
      accepted by the corrected check. */
  lemma KeepingNameIsAccepted(subscriptions: seq<Subscription>, userId: Id, id: Id, serviceName: string,
                              amount: Cents, billingCycle: string, date: DateArg, categoryId: Option<Id>,
                              today: CivilDate)
    requires Pairwise(subscriptions, ServiceNamesDiffer)
    requires SubscriptionRepository.ListByID(subscriptions, userId, id).Some?
    requires serviceName == "" ||
             serviceName == SubscriptionRepository.ListByID(subscriptions, userId, id).value.serviceName
    requires var e := Fallbacks(SubscriptionRepository.ListByID(subscriptions, userId, id).value,
                                serviceName, amount, billingCycle, date, categoryId);
      e.amount >= 0 && InFuture(e.nextBillingDate, today)
    ensures EditCheckExcludingSelf(subscriptions, userId, id, serviceName, amount, billingCycle, date,
                                   categoryId, today).Success?
  {
    var current := SubscriptionRepository.ListByID(subscriptions, userId, id).value;
    var e := Fallbacks(current, serviceName, amount, billingCycle, date, categoryId);
    var other := FindOtherByName(subscriptions, e.serviceName, userId, id);
    if other.Some? {
      assert false;
    }
  }

  /** An Edit that omits the date revalidates the stored one: once that date
      is no longer after today, the corrected check refuses the Edit with
      BadRequest exactly when no other subscription of the user holds the
      new name, and with Conflict otherwise. */
  lemma StaleStoredDateIsRejected(subscriptions: seq<Subscription>, userId: Id, id: Id, serviceName: string,
                                  amount: Cents, billingCycle: string, categoryId: Option<Id>, today: CivilDate)
    requires SubscriptionRepository.ListByID(subscriptions, userId, id).Some?
    requires !Before(today, SubscriptionRepository.ListByID(subscriptions, userId, id).value.nextBillingDate)
    ensures var r := EditCheckExcludingSelf(subscriptions, userId, id, serviceName, amount, billingCycle, Absent,
                                            categoryId, today);
      var e := Fallbacks(SubscriptionRepository.ListByID(subscriptions, userId, id).value,
                         serviceName, amount, billingCycle, Absent, categoryId);
      && (r == Failure(BadRequest) <==>
            forall s :: s in subscriptions && s.id != id ==> !(s.serviceName == e.serviceName && s.userId == userId))
      && (r == Failure(BadRequest) || r == Failure(Conflict))
  {
  }
}
