/** The user service: reading a profile, the partial update of its three
    editable fields, and deleting the account. The update reads the stored
    user without checking that it exists. */
module UserService {
  import opened Tables
  import opened Records
  import UserRepository

  /** Get: the user with that id, or NotFound. */
  function Get(users: seq<User>, userId: Id): (r: Result<User>)
    ensures r.Failure? <==> forall u :: u in users ==> u.id != userId
    ensures r.Failure? ==> r.error == NotFound
    ensures r.Success? ==> r.value in users && r.value.id == userId
  {
    match UserRepository.FindByID(users, userId)
    case None => Failure(NotFound)
    case Some(u) => Success(u)
  }

  /** The values Edit writes. */
  datatype Profile = Profile(name: string, currency: string, notificationsEnabled: bool)

  /** The fallbacks of Edit: an empty name or currency keeps the stored one,
      and `notifications_enabled` keeps the stored flag only when it is not
      sent at all (None), so an explicit false is written. Without a stored
      user the first fallback that reads it throws, a Fault; when no
      fallback is needed the update goes ahead and matches no row. */
  function EditValues(user: Option<User>, name: string, currency: string, notificationsEnabled: Option<bool>)
    : (r: Result<Profile>)
    ensures r.Failure? <==> user.None? && (name == "" || currency == "" || notificationsEnabled.None?)
    ensures r.Failure? ==> r.error == Fault
    ensures r.Success? && name != "" ==> r.value.name == name
    ensures r.Success? && name == "" ==> r.value.name == user.value.name
    ensures r.Success? && currency != "" ==> r.value.currency == currency
    ensures r.Success? && currency == "" ==> r.value.currency == user.value.currency
    ensures r.Success? && notificationsEnabled.Some? ==> r.value.notificationsEnabled == notificationsEnabled.value
    ensures r.Success? && notificationsEnabled.None? ==> r.value.notificationsEnabled == user.value.notificationsEnabled
  {
    if user.None? && (name == "" || currency == "" || notificationsEnabled.None?) then Failure(Fault)
    else Success(Profile(
      if name == "" then user.value.name else name,
      if currency == "" then user.value.currency else currency,
      if notificationsEnabled.None? then user.value.notificationsEnabled else notificationsEnabled.value))
  }

  /** Sending nothing for a stored user writes its profile back unchanged. */
  lemma EmptyEditKeepsProfile(user: User)
    ensures EditValues(Some(user), "", "", None)
            == Success(Profile(user.name, user.currency, user.notificationsEnabled))
  {
  }
}
