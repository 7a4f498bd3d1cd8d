/** The application's store: the five tables and the service operations
    that change them. Every operation either fails with a typed error and
    leaves every table as it was, or performs its fixed sequence of table
    updates. New rows take their key from one counter, so keys ascend in
    creation order in every table. */
module PaytrackStore {
  import opened CivilDate
  import opened Tables
  import opened Records
  import ChargeRepository
  import SubscriptionRepository
  import CategoryRepository
  import AlertRepository
  import UserRepository
  import ChargeService
  import SubscriptionService
  import CategoryService
  import UserService

  // The invariant of each table, stated for a table and the next free key.

  ghost predicate UsersValid(users: seq<User>, nextId: nat) {
    && Pairwise(users, UserKeysAscend)
    && forall u :: u in users ==> u.id < nextId
  }

  ghost predicate CategoriesValid(categories: seq<Category>, nextId: nat) {
    && Pairwise(categories, CategoryKeysAscend)
    && Pairwise(categories, CategoryNamesDiffer)
    && forall c :: c in categories ==> c.id < nextId
  }

  /** Keys ascend, service names are unique per user, and every amount is
      positive, as the store's minimum of 0.01 demands. */
  ghost predicate SubscriptionsValid(subscriptions: seq<Subscription>, nextId: nat) {
    && Pairwise(subscriptions, SubscriptionKeysAscend)
    && Pairwise(subscriptions, ServiceNamesDiffer)
    && forall s :: s in subscriptions ==> s.id < nextId && s.amount > 0
  }

  ghost predicate ChargesValid(charges: seq<Charge>, nextId: nat) {
    && Pairwise(charges, ChargeKeysAscend)
    && forall c :: c in charges ==> c.id < nextId
  }

  ghost predicate AlertsValid(alerts: seq<Alert>, nextId: nat) {
    && Pairwise(alerts, AlertKeysAscend)
    && forall a :: a in alerts ==> a.id < nextId
  }

  /** An update of the subscription table that keeps each row's key, owner,
      service name and amount keeps the table valid. */
  lemma SubscriptionRowsKept(a: seq<Subscription>, b: seq<Subscription>, nextId: nat)
    requires SubscriptionsValid(a, nextId)
    requires |b| == |a|
    requires forall i :: 0 <= i < |a| ==>
      b[i].id == a[i].id && b[i].userId == a[i].userId && b[i].serviceName == a[i].serviceName &&
      b[i].amount == a[i].amount
    ensures SubscriptionsValid(b, nextId)
  {
    forall s | s in b
      ensures s.id < nextId && s.amount > 0
    {
      var i :| 0 <= i < |b| && b[i] == s;
      assert a[i] in a;
    }
    forall i, j | 0 <= i < j < |b|
      ensures SubscriptionKeysAscend(b[i], b[j]) && ServiceNamesDiffer(b[i], b[j])
    {
      assert SubscriptionKeysAscend(a[i], a[j]) && ServiceNamesDiffer(a[i], a[j]);
    }
  }

  /** An edit of subscription (id, userId) to a name no other subscription
      of the user holds, and to a positive amount, keeps the table valid. */
  lemma SubscriptionEditKept(a: seq<Subscription>, nextId: nat, serviceName: string, amount: Cents,
                             billingCycle: BillingCycle, nextBillingDate: CivilDate, categoryId: Id,
                             id: Id, userId: Id)
    requires SubscriptionsValid(a, nextId)
    requires forall s :: s in a && s.id != id ==> !(s.serviceName == serviceName && s.userId == userId)
    requires amount > 0
    ensures SubscriptionsValid(
      SubscriptionRepository.Edit(a, serviceName, amount, billingCycle, nextBillingDate, categoryId, id, userId),
      nextId)
  {
    var b := SubscriptionRepository.Edit(a, serviceName, amount, billingCycle, nextBillingDate, categoryId, id, userId);
    forall s | s in b
      ensures s.id < nextId && s.amount > 0
    {
      var i :| 0 <= i < |b| && b[i] == s;
      assert a[i] in a;
    }
    forall i, j | 0 <= i < j < |b|
      ensures SubscriptionKeysAscend(b[i], b[j]) && ServiceNamesDiffer(b[i], b[j])
    {
      assert SubscriptionKeysAscend(a[i], a[j]) && ServiceNamesDiffer(a[i], a[j]);
      assert a[i] in a && a[j] in a;
    }
  }

  /** Updates that keep every row's key keep the other tables valid. */
  lemma ChargeRowsKept(a: seq<Charge>, b: seq<Charge>, nextId: nat)
    requires ChargesValid(a, nextId)
    requires |b| == |a| && forall i :: 0 <= i < |a| ==> b[i].id == a[i].id
    ensures ChargesValid(b, nextId)
  {
    forall c | c in b
      ensures c.id < nextId
    {
      var i :| 0 <= i < |b| && b[i] == c;
      assert a[i] in a;
    }
    forall i, j | 0 <= i < j < |b|
      ensures ChargeKeysAscend(b[i], b[j])
    {
      assert ChargeKeysAscend(a[i], a[j]);
    }
  }

  lemma AlertRowsKept(a: seq<Alert>, b: seq<Alert>, nextId: nat)
    requires AlertsValid(a, nextId)
    requires |b| == |a| && forall i :: 0 <= i < |a| ==> b[i].id == a[i].id
    ensures AlertsValid(b, nextId)
  {
    forall x | x in b
      ensures x.id < nextId
    {
      var i :| 0 <= i < |b| && b[i] == x;
      assert a[i] in a;
    }
    forall i, j | 0 <= i < j < |b|
      ensures AlertKeysAscend(b[i], b[j])
    {
      assert AlertKeysAscend(a[i], a[j]);
    }
  }

  lemma UserRowsKept(a: seq<User>, b: seq<User>, nextId: nat)
    requires UsersValid(a, nextId)
    requires |b| == |a| && forall i :: 0 <= i < |a| ==> b[i].id == a[i].id
    ensures UsersValid(b, nextId)
  {
    forall x | x in b
      ensures x.id < nextId
    {
      var i :| 0 <= i < |b| && b[i] == x;
      assert a[i] in a;
    }
    forall i, j | 0 <= i < j < |b|
      ensures UserKeysAscend(b[i], b[j])
    {
      assert UserKeysAscend(a[i], a[j]);
    }
  }

  /** A rename whose new name is free for the user, or already the renamed
      category's own, keeps the table valid. */
  lemma CategoryRenameKept(a: seq<Category>, nextId: nat, id: Id, userId: Id, name: string)
    requires CategoriesValid(a, nextId)
    requires CategoryRepository.FindByName(a, name, userId).None? ||
             CategoryRepository.FindByName(a, name, userId).value.id == id
    ensures CategoriesValid(CategoryRepository.Edit(a, id, userId, name), nextId)
  {
    var b := CategoryRepository.Edit(a, id, userId, name);
    CategoryRepository.RenameKeepsNamesUnique(a, id, userId, name);
    forall x | x in b
      ensures x.id < nextId
    {
      var i :| 0 <= i < |b| && b[i] == x;
      assert a[i] in a;
    }
    forall i, j | 0 <= i < j < |b|
      ensures CategoryKeysAscend(b[i], b[j])
    {
      assert CategoryKeysAscend(a[i], a[j]);
    }
  }

  // The rows that the cascades of a user deletion leave: the user's
  // categories, subscriptions and alerts go, and so do the charges of the
  // user's subscriptions.

  function CascadeCategories(categories: seq<Category>, userId: Id): (r: seq<Category>)
    ensures forall c :: c in r <==> c in categories && c.userId != userId
  {
    Filter(categories, (c: Category) => c.userId != userId)
  }

  function CascadeSubscriptions(subscriptions: seq<Subscription>, userId: Id): (r: seq<Subscription>)
    ensures forall s :: s in r <==> s in subscriptions && s.userId != userId
  {
    Filter(subscriptions, (s: Subscription) => s.userId != userId)
  }

  function CascadeCharges(charges: seq<Charge>, subscriptions: seq<Subscription>, userId: Id): (r: seq<Charge>)
    ensures forall c :: c in r <==> c in charges && !ChargeRepository.OwnedBy(subscriptions, c, userId)
  {
    Filter(charges, (c: Charge) => !ChargeRepository.OwnedBy(subscriptions, c, userId))
  }

  function CascadeAlerts(alerts: seq<Alert>, userId: Id): (r: seq<Alert>)
    ensures forall a :: a in r <==> a in alerts && a.userId != userId
  {
    Filter(alerts, (a: Alert) => a.userId != userId)
  }

  // Each cascade keeps its table valid.

  lemma AccountRemovalKept(users: seq<User>, nextId: nat, userId: Id)
    requires UsersValid(users, nextId)
    ensures UsersValid(UserRepository.Delete(users, userId), nextId)
  {
    FilterKeepsPairwise(users, (u: User) => u.id != userId, UserKeysAscend);
  }

  lemma CascadeCategoriesKept(categories: seq<Category>, nextId: nat, userId: Id)
    requires CategoriesValid(categories, nextId)
    ensures CategoriesValid(CascadeCategories(categories, userId), nextId)
  {
    FilterKeepsPairwise(categories, (c: Category) => c.userId != userId, CategoryKeysAscend);
    FilterKeepsPairwise(categories, (c: Category) => c.userId != userId, CategoryNamesDiffer);
  }

  lemma CascadeSubscriptionsKept(subscriptions: seq<Subscription>, nextId: nat, userId: Id)
    requires SubscriptionsValid(subscriptions, nextId)
    ensures SubscriptionsValid(CascadeSubscriptions(subscriptions, userId), nextId)
  {
    FilterKeepsPairwise(subscriptions, (s: Subscription) => s.userId != userId, SubscriptionKeysAscend);
    FilterKeepsPairwise(subscriptions, (s: Subscription) => s.userId != userId, ServiceNamesDiffer);
  }

  lemma CascadeChargesKept(charges: seq<Charge>, subscriptions: seq<Subscription>, nextId: nat, userId: Id)
    requires ChargesValid(charges, nextId)
    ensures ChargesValid(CascadeCharges(charges, subscriptions, userId), nextId)
  {
    FilterKeepsPairwise(charges, (c: Charge) => !ChargeRepository.OwnedBy(subscriptions, c, userId), ChargeKeysAscend);
  }

  lemma CascadeAlertsKept(alerts: seq<Alert>, nextId: nat, userId: Id)
    requires AlertsValid(alerts, nextId)
    ensures AlertsValid(CascadeAlerts(alerts, userId), nextId)
  {
    FilterKeepsPairwise(alerts, (a: Alert) => a.userId != userId, AlertKeysAscend);
  }

  class Store {
    var users: seq<User>
    var categories: seq<Category>
    var subscriptions: seq<Subscription>
    var charges: seq<Charge>
    var alerts: seq<Alert>
    /** The key the next inserted row receives. */
    var nextId: nat

    ghost predicate Valid()
      reads this
    {
      && UsersValid(users, nextId)
      && CategoriesValid(categories, nextId)
      && SubscriptionsValid(subscriptions, nextId)
      && ChargesValid(charges, nextId)
      && AlertsValid(alerts, nextId)
    }

    /** A store holding the given accounts and nothing else. Accounts come
        from registration, which is not part of this model. */
    constructor (accounts: seq<User>)
      requires Pairwise(accounts, UserKeysAscend)
      ensures Valid()
      ensures users == accounts && categories == [] && subscriptions == [] && charges == [] && alerts == []
    {
      users := accounts;
      categories, subscriptions, charges, alerts := [], [], [], [];
      if accounts == [] {
        nextId := 0;
      } else {
        var last := accounts[|accounts| - 1];
        nextId := last.id + 1;
        forall u | u in accounts
          ensures u.id < last.id + 1
        {
          var i :| 0 <= i < |accounts| && accounts[i] == u;
          if i < |accounts| - 1 {
            assert UserKeysAscend(accounts[i], last);
          }
        }
      }
    }

    /** ChargeRepository.Create: one pending charge appended. */
    method AddCharge(subscriptionId: Id, chargeDate: CivilDate, amount: Cents)
      requires Valid()
      modifies this
      ensures Valid()
      ensures charges == old(charges) + [Charge(old(nextId), subscriptionId, chargeDate, amount, Pending)]
      ensures nextId == old(nextId) + 1
      ensures users == old(users) && categories == old(categories)
      ensures subscriptions == old(subscriptions) && alerts == old(alerts)
    {
      var c := Charge(nextId, subscriptionId, chargeDate, amount, Pending);
      assert forall i :: 0 <= i < |charges| ==> charges[i] in charges;
      AppendKeepsPairwise(charges, c, ChargeKeysAscend);
      charges := charges + [c];
      nextId := nextId + 1;
    }

    /** AlertRepository.Create: one unread alert appended for the user. */
    method AddAlert(userId: Id, message: AlertMessage)
      requires Valid()
      modifies this
      ensures Valid()
      ensures alerts == old(alerts) + [Alert(old(nextId), userId, message, false)]
      ensures nextId == old(nextId) + 1
      ensures users == old(users) && categories == old(categories)
      ensures subscriptions == old(subscriptions) && charges == old(charges)
    {
      var a := Alert(nextId, userId, message, false);
      assert forall i :: 0 <= i < |alerts| ==> alerts[i] in alerts;
      AppendKeepsPairwise(alerts, a, AlertKeysAscend);
      alerts := alerts + [a];
      nextId := nextId + 1;
    }

    /** ChargeService.Create: registers a charge for an active subscription
        of the user, snapshotting its amount and dating it today, moves the
        subscription's next billing date one cycle on, and alerts the user. */
    method CreateCharge(userId: Id, subscriptionId: Id, today: CivilDate) returns (r: Outcome)
      requires Valid()
      modifies this
      ensures Valid()
      ensures r == Failed(NotFound) <==>
        forall s :: s in old(subscriptions) ==> !(s.id == subscriptionId && s.userId == userId)
      ensures r == Failed(Unprocessable) <==>
        ChargeService.CreateCheck(old(subscriptions), userId, subscriptionId) == Failure(Unprocessable)
      ensures r.Failed? ==>
        && users == old(users) && categories == old(categories) && subscriptions == old(subscriptions)
        && charges == old(charges) && alerts == old(alerts) && nextId == old(nextId)
      ensures r == Done ==>
        var s := ChargeService.CreateCheck(old(subscriptions), userId, subscriptionId).value;
        && s.status == Active
        && charges == old(charges) + [Charge(old(nextId), subscriptionId, today, s.amount, Pending)]
        && subscriptions == SubscriptionRepository.UpdateNextBillingDate(
             old(subscriptions), subscriptionId, userId, ChargeService.NextBillingDate(s))
        && alerts == old(alerts) + [Alert(old(nextId) + 1, userId, ChargeRegistered(s.serviceName, s.amount), false)]
        && nextId == old(nextId) + 2
        && users == old(users) && categories == old(categories)
      ensures r == Failed(NotFound) || r == Failed(Unprocessable) || r == Done
    {
      var check := ChargeService.CreateCheck(subscriptions, userId, subscriptionId);
      if check.Failure? {
        return Failed(check.error);
      }
      RegisterCharge(check.value, userId, today);
      r := Done;
    }

    /** The three updates of a charge registration for subscription s. */
    method RegisterCharge(s: Subscription, userId: Id, today: CivilDate)
      requires Valid()
      modifies this
      ensures Valid()
      ensures charges == old(charges) + [Charge(old(nextId), s.id, today, s.amount, Pending)]
      ensures subscriptions == SubscriptionRepository.UpdateNextBillingDate(
        old(subscriptions), s.id, userId, ChargeService.NextBillingDate(s))
      ensures alerts == old(alerts) + [Alert(old(nextId) + 1, userId, ChargeRegistered(s.serviceName, s.amount), false)]
      ensures nextId == old(nextId) + 2
      ensures users == old(users) && categories == old(categories)
    {
      AddCharge(s.id, today, s.amount);
      UpdateNextBillingDate(s.id, userId, ChargeService.NextBillingDate(s));
      AddAlert(userId, ChargeRegistered(s.serviceName, s.amount));
    }

    /** The subscription update that moves (id, userId)'s next billing date. */
    method UpdateNextBillingDate(id: Id, userId: Id, date: CivilDate)
      requires Valid()
      modifies this
      ensures Valid()
      ensures subscriptions == SubscriptionRepository.UpdateNextBillingDate(old(subscriptions), id, userId, date)
      ensures users == old(users) && categories == old(categories) && charges == old(charges)
      ensures alerts == old(alerts) && nextId == old(nextId)
    {
      var moved := SubscriptionRepository.UpdateNextBillingDate(subscriptions, id, userId, date);
      SubscriptionRowsKept(subscriptions, moved, nextId);
      subscriptions := moved;
    }

    /** ChargeService.PayCharge: an existing pending charge becomes paid. No
        owner is checked. */
    method PayCharge(id: Id) returns (r: Outcome)
      requires Valid()
      modifies this
      ensures Valid()
      ensures r == ChargeService.PayCheck(old(charges), id)
      ensures r == Done <==>
        ChargeRepository.ListByID(old(charges), id).Some? && ChargeRepository.ListByID(old(charges), id).value.status == Pending
      ensures r == Done ==> charges == ChargeRepository.PayCharge(old(charges), id)
      ensures r != Done ==> charges == old(charges)
      ensures users == old(users) && categories == old(categories) && subscriptions == old(subscriptions)
      ensures alerts == old(alerts) && nextId == old(nextId)
    {
      r := ChargeService.PayCheck(charges, id);
      if r == Done {
        var paid := ChargeRepository.PayCharge(charges, id);
        ChargeRowsKept(charges, paid, nextId);
        charges := paid;
      }
    }

    /** SubscriptionService.Create: after the required-field test and the
        shared validation, one active subscription created today is
        appended. */
    method CreateSubscription(userId: Id, categoryId: Option<Id>, serviceName: string, amount: Cents,
                              billingCycle: string, date: SubscriptionService.DateArg, today: CivilDate)
      returns (r: Outcome)
      requires Valid()
      modifies this
      ensures Valid()
      ensures r == SubscriptionService.CreateCheck(old(subscriptions), userId, categoryId, serviceName, amount,
                                                   billingCycle, date, today)
      ensures r.Failed? ==> subscriptions == old(subscriptions) && nextId == old(nextId)
      ensures r == Done ==>
        && amount > 0 && date.OnDay? && Before(today, date.date)
        && subscriptions == old(subscriptions) + [SubscriptionService.NewSubscription(
             old(nextId), userId, categoryId.value, serviceName, amount, billingCycle, date.date, today)]
        && nextId == old(nextId) + 1
      ensures users == old(users) && categories == old(categories)
      ensures charges == old(charges) && alerts == old(alerts)
    {
      r := SubscriptionService.CreateCheck(subscriptions, userId, categoryId, serviceName, amount,
                                           billingCycle, date, today);
      if r == Done {
        var s := SubscriptionService.NewSubscription(
          nextId, userId, categoryId.value, serviceName, amount, billingCycle, date.date, today);
        assert forall i :: 0 <= i < |subscriptions| ==> subscriptions[i] in subscriptions;
        AppendKeepsPairwise(subscriptions, s, SubscriptionKeysAscend);
        AppendKeepsPairwise(subscriptions, s, ServiceNamesDiffer);
        subscriptions := subscriptions + [s];
        nextId := nextId + 1;
      }
    }

    /** SubscriptionService.Edit as written: NotFound for a subscription the
        user does not have; otherwise the values after the fallbacks are
        revalidated with Create's duplicate-name lookup, which also finds the
        edited subscription, and on success written to that subscription
        only. An Edit that keeps or omits the current name is therefore
        always refused with Conflict. */
    method EditSubscription(userId: Id, id: Id, serviceName: string, amount: Cents, billingCycle: string,
                            date: SubscriptionService.DateArg, categoryId: Option<Id>, today: CivilDate)
      returns (r: Outcome)
      requires Valid()
      modifies this
      ensures Valid()
      ensures var check := SubscriptionService.EditCheck(
                old(subscriptions), userId, id, serviceName, amount, billingCycle, date, categoryId, today);
        && (r == Done <==> check.Success?)
        && (check.Failure? ==> r == Failed(check.error) && subscriptions == old(subscriptions))
        && (check.Success? ==>
              var e := check.value;
              subscriptions == SubscriptionRepository.Edit(
                old(subscriptions), e.serviceName, e.amount, e.billingCycle, e.nextBillingDate.date,
                e.categoryId, id, userId))
      ensures var found := SubscriptionRepository.ListByID(old(subscriptions), userId, id);
        found.Some? && (serviceName == "" || serviceName == found.value.serviceName) ==>
          r == Failed(Conflict) && subscriptions == old(subscriptions)
      ensures users == old(users) && categories == old(categories)
      ensures charges == old(charges) && alerts == old(alerts) && nextId == old(nextId)
    {
      var found := SubscriptionRepository.ListByID(subscriptions, userId, id);
      if found.Some? && (serviceName == "" || serviceName == found.value.serviceName) {
        SubscriptionService.EditKeepingNameConflicts(
          subscriptions, userId, id, serviceName, amount, billingCycle, date, categoryId, today);
      }
      var check := SubscriptionService.EditCheck(
        subscriptions, userId, id, serviceName, amount, billingCycle, date, categoryId, today);
      if check.Failure? {
        return Failed(check.error);
      }
      WriteEdit(userId, id, check.value);
      r := Done;
    }

    /** Edit with the duplicate-name lookup skipping the edited
        subscription: an Edit that keeps or omits the current name is no
        longer refused, and the table stays valid. */
    method EditSubscriptionExcludingSelf(userId: Id, id: Id, serviceName: string, amount: Cents,
                                         billingCycle: string, date: SubscriptionService.DateArg,
                                         categoryId: Option<Id>, today: CivilDate)
      returns (r: Outcome)
      requires Valid()
      modifies this
      ensures Valid()
      ensures var check := SubscriptionService.EditCheckExcludingSelf(
                old(subscriptions), userId, id, serviceName, amount, billingCycle, date, categoryId, today);
        && (r == Done <==> check.Success?)
        && (check.Failure? ==> r == Failed(check.error) && subscriptions == old(subscriptions))
        && (check.Success? ==>
              var e := check.value;
              subscriptions == SubscriptionRepository.Edit(
                old(subscriptions), e.serviceName, e.amount, e.billingCycle, e.nextBillingDate.date,
                e.categoryId, id, userId))
      ensures users == old(users) && categories == old(categories)
      ensures charges == old(charges) && alerts == old(alerts) && nextId == old(nextId)
    {
      var check := SubscriptionService.EditCheckExcludingSelf(
        subscriptions, userId, id, serviceName, amount, billingCycle, date, categoryId, today);
      if check.Failure? {
        return Failed(check.error);
      }
      WriteEdit(userId, id, check.value);
      r := Done;
    }

    /** The update both Edits end with: the checked values written to
        subscription (id, userId), whose name no other subscription of the
        user holds and whose amount is positive. */
    method WriteEdit(userId: Id, id: Id, e: SubscriptionService.Edited)
      requires Valid()
      requires e.nextBillingDate.OnDay?
      requires forall s :: s in subscriptions && s.id != id ==> !(s.serviceName == e.serviceName && s.userId == userId)
      requires e.amount > 0
      modifies this
      ensures Valid()
      ensures subscriptions == SubscriptionRepository.Edit(
        old(subscriptions), e.serviceName, e.amount, e.billingCycle, e.nextBillingDate.date, e.categoryId, id, userId)
      ensures users == old(users) && categories == old(categories)
      ensures charges == old(charges) && alerts == old(alerts) && nextId == old(nextId)
    {
      SubscriptionEditKept(subscriptions, nextId, e.serviceName, e.amount, e.billingCycle,
                           e.nextBillingDate.date, e.categoryId, id, userId);
      subscriptions := SubscriptionRepository.Edit(
        subscriptions, e.serviceName, e.amount, e.billingCycle, e.nextBillingDate.date, e.categoryId, id, userId);
    }

    /** SubscriptionService.Cancel: the user's subscription becomes canceled
        and one alert naming it is appended. A canceled subscription can be
        canceled again, with another alert. */
    method CancelSubscription(userId: Id, id: Id) returns (r: Outcome)
      requires Valid()
      modifies this
      ensures Valid()
      ensures r == Failed(NotFound) <==> forall s :: s in old(subscriptions) ==> !(s.id == id && s.userId == userId)
      ensures r == Done || r == Failed(NotFound)
      ensures r.Failed? ==> subscriptions == old(subscriptions) && alerts == old(alerts) && nextId == old(nextId)
      ensures r == Done ==>
        var s := SubscriptionRepository.ListByID(old(subscriptions), userId, id).value;
        && subscriptions == SubscriptionRepository.Cancel(old(subscriptions), id, userId)
        && alerts == old(alerts) + [Alert(old(nextId), userId, SubscriptionCanceled(s.serviceName), false)]
        && nextId == old(nextId) + 1
      ensures r == Done ==> exists s :: s in subscriptions && s.id == id && s.userId == userId && s.status == Canceled
      ensures users == old(users) && categories == old(categories) && charges == old(charges)
    {
      var found := SubscriptionRepository.ListByID(subscriptions, userId, id);
      if found.None? {
        return Failed(NotFound);
      }
      var s := found.value;
      var canceled := SubscriptionRepository.Cancel(subscriptions, id, userId);
      SubscriptionRowsKept(subscriptions, canceled, nextId);
      var i :| 0 <= i < |subscriptions| && subscriptions[i] == s;
      assert canceled[i] in canceled;
      subscriptions := canceled;
      AddAlert(userId, SubscriptionCanceled(s.serviceName));
      r := Done;
    }

    /** CategoryService.Create: a non-blank name no category of the user
        holds is appended as given, with the optional color. */
    method CreateCategory(userId: Id, name: string, color: Option<string>) returns (r: Outcome)
      requires Valid()
      modifies this
      ensures Valid()
      ensures r == CategoryService.CreateCheck(old(categories), userId, name)
      ensures r.Failed? ==> categories == old(categories) && nextId == old(nextId)
      ensures r == Done ==>
        && categories == old(categories) + [CategoryService.NewCategory(old(nextId), userId, name, color)]
        && nextId == old(nextId) + 1
      ensures users == old(users) && subscriptions == old(subscriptions)
      ensures charges == old(charges) && alerts == old(alerts)
    {
      r := CategoryService.CreateCheck(categories, userId, name);
      if r == Done {
        var c := CategoryService.NewCategory(nextId, userId, name, color);
        assert forall i :: 0 <= i < |categories| ==> categories[i] in categories;
        AppendKeepsPairwise(categories, c, CategoryKeysAscend);
        AppendKeepsPairwise(categories, c, CategoryNamesDiffer);
        categories := categories + [c];
        nextId := nextId + 1;
      }
    }

    /** CategoryService.Edit: after the name checks, the rename scoped by
        (id, userId); an id the user does not own changes nothing and is not
        an error. */
    method EditCategory(id: Id, userId: Id, name: string) returns (r: Outcome)
      requires Valid()
      modifies this
      ensures Valid()
      ensures r == CategoryService.EditCheck(old(categories), id, userId, name)
      ensures r == Done ==> categories == CategoryRepository.Edit(old(categories), id, userId, name)
      ensures r.Failed? ==> categories == old(categories)
      ensures users == old(users) && subscriptions == old(subscriptions)
      ensures charges == old(charges) && alerts == old(alerts) && nextId == old(nextId)
    {
      r := CategoryService.EditCheck(categories, id, userId, name);
      if r == Done {
        WriteRename(id, userId, name);
      }
    }

    /** The update of EditCategory once the check has passed. */
    method WriteRename(id: Id, userId: Id, name: string)
      requires Valid()
      requires CategoryRepository.FindByName(categories, name, userId).None? ||
               CategoryRepository.FindByName(categories, name, userId).value.id == id
      modifies this
      ensures Valid()
      ensures categories == CategoryRepository.Edit(old(categories), id, userId, name)
      ensures users == old(users) && subscriptions == old(subscriptions)
      ensures charges == old(charges) && alerts == old(alerts) && nextId == old(nextId)
    {
      CategoryRenameKept(categories, nextId, id, userId, name);
      categories := CategoryRepository.Edit(categories, id, userId, name);
    }

    /** CategoryService.Delete: the delete scoped by (id, userId). */
    method DeleteCategory(id: Id, userId: Id)
      requires Valid()
      modifies this
      ensures Valid()
      ensures categories == CategoryRepository.Delete(old(categories), id, userId)
      ensures users == old(users) && subscriptions == old(subscriptions)
      ensures charges == old(charges) && alerts == old(alerts) && nextId == old(nextId)
    {
      FilterKeepsPairwise(categories, (c: Category) => !(c.id == id && c.userId == userId), CategoryKeysAscend);
      FilterKeepsPairwise(categories, (c: Category) => !(c.id == id && c.userId == userId), CategoryNamesDiffer);
      categories := CategoryRepository.Delete(categories, id, userId);
    }

    /** AlertService.ReadAlert: the user's alert id is marked read. */
    method ReadAlert(userId: Id, id: Id)
      requires Valid()
      modifies this
      ensures Valid()
      ensures alerts == AlertRepository.ReadAlert(old(alerts), userId, id)
      ensures users == old(users) && categories == old(categories) && subscriptions == old(subscriptions)
      ensures charges == old(charges) && nextId == old(nextId)
    {
      var after := AlertRepository.ReadAlert(alerts, userId, id);
      AlertRowsKept(alerts, after, nextId);
      alerts := after;
    }

    /** UserService.Edit: the three editable fields after their fallbacks,
        written to the user with that key. */
    method EditUser(userId: Id, name: string, currency: string, notificationsEnabled: Option<bool>)
      returns (r: Outcome)
      requires Valid()
      modifies this
      ensures Valid()
      ensures var values := UserService.EditValues(UserRepository.FindByID(old(users), userId), name, currency,
                                                   notificationsEnabled);
        && (values.Failure? ==> r == Failed(values.error) && users == old(users))
        && (values.Success? ==> r == Done && users == UserRepository.Edit(
              old(users), userId, values.value.name, values.value.currency, values.value.notificationsEnabled))
      ensures categories == old(categories) && subscriptions == old(subscriptions)
      ensures charges == old(charges) && alerts == old(alerts) && nextId == old(nextId)
    {
      var values := UserService.EditValues(UserRepository.FindByID(users, userId), name, currency,
                                           notificationsEnabled);
      if values.Failure? {
        return Failed(values.error);
      }
      var p := values.value;
      var edited := UserRepository.Edit(users, userId, p.name, p.currency, p.notificationsEnabled);
      UserRowsKept(users, edited, nextId);
      users := edited;
      r := Done;
    }

    /** UserService.Delete: the user goes, and with them their categories,
        their subscriptions, the charges of those subscriptions and their
        alerts. */
    method DeleteUser(userId: Id)
      requires Valid()
      modifies this
      ensures Valid()
      ensures users == UserRepository.Delete(old(users), userId)
      ensures categories == CascadeCategories(old(categories), userId)
      ensures subscriptions == CascadeSubscriptions(old(subscriptions), userId)
      ensures charges == CascadeCharges(old(charges), old(subscriptions), userId)
      ensures alerts == CascadeAlerts(old(alerts), userId)
      ensures nextId == old(nextId)
    {
      RemoveCharges(userId);
      RemoveAlerts(userId);
      RemoveSubscriptions(userId);
      RemoveCategories(userId);
      RemoveAccount(userId);
    }

    /** The cascade from a user's subscriptions to their charges. */
    method RemoveCharges(userId: Id)
      requires Valid()
      modifies this
      ensures Valid()
      ensures charges == CascadeCharges(old(charges), old(subscriptions), userId)
      ensures users == old(users) && categories == old(categories) && subscriptions == old(subscriptions)
      ensures alerts == old(alerts) && nextId == old(nextId)
    {
      CascadeChargesKept(charges, subscriptions, nextId, userId);
      charges := CascadeCharges(charges, subscriptions, userId);
    }

    /** The cascade from a user to their alerts. */
    method RemoveAlerts(userId: Id)
      requires Valid()
      modifies this
      ensures Valid()
      ensures alerts == CascadeAlerts(old(alerts), userId)
      ensures users == old(users) && categories == old(categories) && subscriptions == old(subscriptions)
      ensures charges == old(charges) && nextId == old(nextId)
    {
      CascadeAlertsKept(alerts, nextId, userId);
      alerts := CascadeAlerts(alerts, userId);
    }

    /** The cascade from a user to their subscriptions. */
    method RemoveSubscriptions(userId: Id)
      requires Valid()
      modifies this
      ensures Valid()
      ensures subscriptions == CascadeSubscriptions(old(subscriptions), userId)
      ensures users == old(users) && categories == old(categories) && charges == old(charges)
      ensures alerts == old(alerts) && nextId == old(nextId)
    {
      CascadeSubscriptionsKept(subscriptions, nextId, userId);
      subscriptions := CascadeSubscriptions(subscriptions, userId);
    }

    /** The cascade from a user to their categories. */
    method RemoveCategories(userId: Id)
      requires Valid()
      modifies this
      ensures Valid()
      ensures categories == CascadeCategories(old(categories), userId)
      ensures users == old(users) && subscriptions == old(subscriptions) && charges == old(charges)
      ensures alerts == old(alerts) && nextId == old(nextId)
    {
      CascadeCategoriesKept(categories, nextId, userId);
      categories := CascadeCategories(categories, userId);
    }

    /** UserRepository.Delete on the user table alone. */
    method RemoveAccount(userId: Id)
      requires Valid()
      modifies this
      ensures Valid()
      ensures users == UserRepository.Delete(old(users), userId)
      ensures categories == old(categories) && subscriptions == old(subscriptions) && charges == old(charges)
      ensures alerts == old(alerts) && nextId == old(nextId)
    {
      AccountRemovalKept(users, nextId, userId);
      users := UserRepository.Delete(users, userId);
    }
  }
}
