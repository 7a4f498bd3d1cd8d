/** The queries and updates of the charge table. A charge belongs to a user
    through its subscription: the list query joins the subscription table and
    keeps the charges whose subscription has the caller's user id. */
module ChargeRepository {
  import opened CivilDate
  import opened Tables
  import opened Records

  /** The charge with primary key id, if there is one. */
  function ListByID(charges: seq<Charge>, id: Id): (r: Option<Charge>)
    ensures r.Some? ==> r.value in charges && r.value.id == id
    ensures r.None? <==> forall c :: c in charges ==> c.id != id
  {
    Find(charges, (c: Charge) => c.id == id)
  }

  /** The inner join with the subscription table finds a subscription of
      this charge that belongs to userId. */
  predicate OwnedBy(subscriptions: seq<Subscription>, c: Charge, userId: Id) {
    exists s :: s in subscriptions && s.id == c.subscriptionId && s.userId == userId
  }

  /** Later charge dates first (ORDER BY charge_date DESC). */
  predicate NewestFirst(cs: seq<Charge>) {
    forall i, j :: 0 <= i < j < |cs| ==> NotAfter(cs[j].chargeDate, cs[i].chargeDate)
  }

  function InsertByDate(c: Charge, cs: seq<Charge>): (r: seq<Charge>)
    requires NewestFirst(cs)
    ensures NewestFirst(r)
    ensures multiset(r) == multiset(cs) + multiset{c}
  {
    if cs == [] then [c]
    else if NotAfter(cs[0].chargeDate, c.chargeDate) then
      InsertInFront(c, cs);
      [c] + cs
    else
      var rest := InsertByDate(c, cs[1..]);
      assert cs == [cs[0]] + cs[1..];
      InsertBehind(c, cs, rest);
      [cs[0]] + rest
  }

  lemma InsertInFront(c: Charge, cs: seq<Charge>)
    requires NewestFirst(cs) && cs != []
    requires NotAfter(cs[0].chargeDate, c.chargeDate)
    ensures NewestFirst([c] + cs)
  {
    var r := [c] + cs;
    forall i, j | 0 <= i < j < |r|
      ensures NotAfter(r[j].chargeDate, r[i].chargeDate)
    {
      if i == 0 {
        assert r[j] == cs[j - 1];
        NotAfterTransitive(cs[j - 1].chargeDate, cs[0].chargeDate, c.chargeDate);
      } else {
        assert r[i] == cs[i - 1] && r[j] == cs[j - 1];
      }
    }
  }

  lemma InsertBehind(c: Charge, cs: seq<Charge>, rest: seq<Charge>)
    requires NewestFirst(cs) && cs != []
    requires !NotAfter(cs[0].chargeDate, c.chargeDate)
    requires NewestFirst(rest)
    requires multiset(rest) == multiset(cs[1..]) + multiset{c}
    ensures NewestFirst([cs[0]] + rest)
  {
    var r := [cs[0]] + rest;
    forall i, j | 0 <= i < j < |r|
      ensures NotAfter(r[j].chargeDate, r[i].chargeDate)
    {
      if i == 0 {
        var y := rest[j - 1];
        assert r[j] == y;
        assert y in multiset(rest);
        if y != c {
          assert y in multiset(cs[1..]);
          var k :| 0 <= k < |cs[1..]| && cs[1..][k] == y;
          assert cs[k + 1] == y;
        }
      } else {
        assert r[i] == rest[i - 1] && r[j] == rest[j - 1];
      }
    }
  }

  /** The rows in charge_date-descending order. Rows with the same date keep
      their table order; SQL leaves the order of such ties open. */
  function SortNewestFirst(cs: seq<Charge>): (r: seq<Charge>)
    ensures NewestFirst(r)
    ensures multiset(r) == multiset(cs)
  {
    if cs == [] then []
    else
      assert cs == [cs[0]] + cs[1..];
      InsertByDate(cs[0], SortNewestFirst(cs[1..]))
  }

  /** The WHERE clause of List. */
  predicate Listed(subscriptions: seq<Subscription>, c: Charge, userId: Id,
                   initial: Option<CivilDate>, final: Option<CivilDate>, status: Option<ChargeStatus>)
  {
    && OwnedBy(subscriptions, c, userId)
    && InPeriod(c.chargeDate, initial, final)
    && (status.Some? ==> c.status == status.value)
  }

  /** The caller's charges, filtered by the optional period and the optional
      status (a status is applied only when one is given), newest first. */
  function List(subscriptions: seq<Subscription>, charges: seq<Charge>, userId: Id,
                initial: Option<CivilDate>, final: Option<CivilDate>, status: Option<ChargeStatus>)
    : (r: seq<Charge>)
    ensures forall c :: c in r <==> c in charges && Listed(subscriptions, c, userId, initial, final, status)
    ensures multiset(r) == multiset(Filter(charges, c => Listed(subscriptions, c, userId, initial, final, status)))
    ensures NewestFirst(r)
  {
    var selected := Filter(charges, c => Listed(subscriptions, c, userId, initial, final, status));
    var r := SortNewestFirst(selected);
    SameElements(r, selected);
    r
  }

  /** All charges of one subscription, newest first, whoever owns it. */
  function ListBySubscriptionID(charges: seq<Charge>, subscriptionId: Id): (r: seq<Charge>)
    ensures forall c :: c in r <==> c in charges && c.subscriptionId == subscriptionId
    ensures multiset(r) == multiset(Filter(charges, (c: Charge) => c.subscriptionId == subscriptionId))
    ensures NewestFirst(r)
  {
    var selected := Filter(charges, (c: Charge) => c.subscriptionId == subscriptionId);
    var r := SortNewestFirst(selected);
    SameElements(r, selected);
    r
  }

  /** UPDATE charges SET status = 'paid' WHERE id = id. */
  function PayCharge(charges: seq<Charge>, id: Id): (r: seq<Charge>)
    ensures |r| == |charges|
    ensures forall i :: 0 <= i < |charges| && charges[i].id == id ==> r[i] == charges[i].(status := Paid)
    ensures forall i :: 0 <= i < |charges| && charges[i].id != id ==> r[i] == charges[i]
  {
    MapRows(charges, (c: Charge) => if c.id == id then c.(status := Paid) else c)
  }

  /** Paying is idempotent at the table level, and an unknown id changes nothing. */
  lemma PayChargeIdempotent(charges: seq<Charge>, id: Id)
    ensures PayCharge(PayCharge(charges, id), id) == PayCharge(charges, id)
    ensures (forall c :: c in charges ==> c.id != id) ==> PayCharge(charges, id) == charges
  {
    var once := PayCharge(charges, id);
    assert |PayCharge(once, id)| == |once|;
    if forall c :: c in charges ==> c.id != id {
      assert forall i :: 0 <= i < |charges| ==> charges[i] in charges;
    }
  }

  /** After paying an existing id, looking the id up finds a paid charge. */
  lemma PaidChargeIsFoundPaid(charges: seq<Charge>, id: Id)
    requires exists c :: c in charges && c.id == id
    ensures ListByID(PayCharge(charges, id), id).Some?
    ensures ListByID(PayCharge(charges, id), id).value.status == Paid
  {
    var paid := PayCharge(charges, id);
    var c :| c in charges && c.id == id;
    var i :| 0 <= i < |charges| && charges[i] == c;
    assert paid[i].id == id;
    var found := ListByID(paid, id).value;
    var k :| 0 <= k < |paid| && paid[k] == found;
    assert charges[k].id == id;
  }
}
