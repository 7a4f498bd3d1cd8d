/** The operations the services call on the subscription table. Apart from an
    insert, the repository file does not define them; they are modelled here
    as queries and updates scoped the way their callers use them: by
    (user id, id) for a single subscription and by (service name, user id)
    for the duplicate-name lookup. */
module SubscriptionRepository {
  import opened CivilDate
  import opened Tables
  import opened Records

  /** A subscription of userId named serviceName, if any. */
  function FindByName(subscriptions: seq<Subscription>, serviceName: string, userId: Id)
    : (r: Option<Subscription>)
    ensures r.Some? ==> r.value in subscriptions && r.value.serviceName == serviceName && r.value.userId == userId
    ensures r.None? <==> forall s :: s in subscriptions ==> !(s.serviceName == serviceName && s.userId == userId)
  {
    Find(subscriptions, (s: Subscription) => s.serviceName == serviceName && s.userId == userId)
  }

  /** The subscription with this id, provided it belongs to userId. */
  function ListByID(subscriptions: seq<Subscription>, userId: Id, id: Id): (r: Option<Subscription>)
    ensures r.Some? ==> r.value in subscriptions && r.value.id == id && r.value.userId == userId
    ensures r.None? <==> forall s :: s in subscriptions ==> !(s.id == id && s.userId == userId)
  {
    Find(subscriptions, (s: Subscription) => s.id == id && s.userId == userId)
  }

  /** The user's subscriptions, with a status and a category filter applied
      only when given. */
  function List(subscriptions: seq<Subscription>, userId: Id,
                status: Option<SubscriptionStatus>, categoryId: Option<Id>)
    : (r: seq<Subscription>)
    ensures forall s :: s in r <==>
      && s in subscriptions
      && s.userId == userId
      && (status.Some? ==> s.status == status.value)
      && (categoryId.Some? ==> s.categoryId == categoryId.value)
  {
    Filter(subscriptions, (s: Subscription) =>
      && s.userId == userId
      && (status.Some? ==> s.status == status.value)
      && (categoryId.Some? ==> s.categoryId == categoryId.value))
  }

  /** UPDATE ... SET status = 'canceled' WHERE id = id AND user_id = userId. */
  function Cancel(subscriptions: seq<Subscription>, id: Id, userId: Id): (r: seq<Subscription>)
    ensures |r| == |subscriptions|
    ensures forall i :: 0 <= i < |subscriptions| ==>
      if subscriptions[i].id == id && subscriptions[i].userId == userId
      then r[i] == subscriptions[i].(status := Canceled)
      else r[i] == subscriptions[i]
  {
    MapRows(subscriptions, (s: Subscription) =>
      if s.id == id && s.userId == userId then s.(status := Canceled) else s)
  }

  /** UPDATE ... SET next_billing_date = date WHERE id = id AND user_id = userId. */
  function UpdateNextBillingDate(subscriptions: seq<Subscription>, id: Id, userId: Id, date: CivilDate)
    : (r: seq<Subscription>)
    ensures |r| == |subscriptions|
    ensures forall i :: 0 <= i < |subscriptions| ==>
      if subscriptions[i].id == id && subscriptions[i].userId == userId
      then r[i] == subscriptions[i].(nextBillingDate := date)
      else r[i] == subscriptions[i]
  {
    MapRows(subscriptions, (s: Subscription) =>
      if s.id == id && s.userId == userId then s.(nextBillingDate := date) else s)
  }

  /** UPDATE of the five editable columns WHERE id = id AND user_id = userId. */
  function Edit(subscriptions: seq<Subscription>, serviceName: string, amount: Cents,
                billingCycle: BillingCycle, nextBillingDate: CivilDate, categoryId: Id,
                id: Id, userId: Id)
    : (r: seq<Subscription>)
    ensures |r| == |subscriptions|
    ensures forall i :: 0 <= i < |subscriptions| ==>
      if subscriptions[i].id == id && subscriptions[i].userId == userId
      then r[i] == subscriptions[i].(serviceName := serviceName, amount := amount,
                                     billingCycle := billingCycle,
                                     nextBillingDate := nextBillingDate, categoryId := categoryId)
      else r[i] == subscriptions[i]
  {
    MapRows(subscriptions, (s: Subscription) =>
      if s.id == id && s.userId == userId
      then s.(serviceName := serviceName, amount := amount, billingCycle := billingCycle,
              nextBillingDate := nextBillingDate, categoryId := categoryId)
      else s)
  }

  /** Cancelling is one-way and repeatable: a second cancel leaves the table
      as the first left it, and every row of the user with that id is
      canceled afterwards while all other rows are untouched. */
  lemma CancelIsIdempotent(subscriptions: seq<Subscription>, id: Id, userId: Id)
    ensures Cancel(Cancel(subscriptions, id, userId), id, userId) == Cancel(subscriptions, id, userId)
    ensures forall s :: s in Cancel(subscriptions, id, userId) && s.id == id && s.userId == userId
                        ==> s.status == Canceled
  {
    var once := Cancel(subscriptions, id, userId);
    var twice := Cancel(once, id, userId);
    assert |twice| == |once|;
    forall s | s in once && s.id == id && s.userId == userId
      ensures s.status == Canceled
    {
      var i :| 0 <= i < |once| && once[i] == s;
    }
  }
}
