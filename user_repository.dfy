/** The user table behind the user service: primary-key lookup, the update of
    the three editable columns, and delete. The password hash column is not
    part of this model. */
module UserRepository {
  import opened Tables
  import opened Records

  /** findByPk / findOne on id. */
  function FindByID(users: seq<User>, userId: Id): (r: Option<User>)
    ensures r.Some? ==> r.value in users && r.value.id == userId
    ensures r.None? <==> forall u :: u in users ==> u.id != userId
  {
    Find(users, (u: User) => u.id == userId)
  }

  /** UPDATE users SET name, currency, notifications_enabled WHERE id = userId. */
  function Edit(users: seq<User>, userId: Id, name: string, currency: string, notificationsEnabled: bool)
    : (r: seq<User>)
    ensures |r| == |users|
    ensures forall i :: 0 <= i < |users| ==>
      if users[i].id == userId
      then r[i] == users[i].(name := name, currency := currency, notificationsEnabled := notificationsEnabled)
      else r[i] == users[i]
  {
    MapRows(users, (u: User) =>
      if u.id == userId
      then u.(name := name, currency := currency, notificationsEnabled := notificationsEnabled)
      else u)
  }

  /** DELETE FROM users WHERE id = userId. */
  function Delete(users: seq<User>, userId: Id): (r: seq<User>)
    ensures forall u :: u in r <==> u in users && u.id != userId
  {
    Filter(users, (u: User) => u.id != userId)
  }
}
