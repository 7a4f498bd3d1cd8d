/** The alert table: alerts are appended unread, listed while unread, and
    marked read by an update scoped to the owner. */
module AlertRepository {
  import opened Tables
  import opened Records

  /** The user's unread alerts, in table order. */
  function List(alerts: seq<Alert>, userId: Id): (r: seq<Alert>)
    ensures forall a :: a in r <==> a in alerts && a.userId == userId && !a.isRead
  {
    Filter(alerts, (a: Alert) => a.userId == userId && !a.isRead)
  }

  /** ORDER BY created_at ASC: keys are handed out in creation order, so a
      table whose keys ascend yields a list whose keys ascend. */
  lemma ListOldestFirst(alerts: seq<Alert>, userId: Id)
    requires Pairwise(alerts, AlertKeysAscend)
    ensures Pairwise(List(alerts, userId), AlertKeysAscend)
  {
    FilterKeepsPairwise(alerts, (a: Alert) => a.userId == userId && !a.isRead, AlertKeysAscend);
  }

  /** UPDATE alerts SET is_read = true WHERE user_id = userId AND id = id. */
  function ReadAlert(alerts: seq<Alert>, userId: Id, id: Id): (r: seq<Alert>)
    ensures |r| == |alerts|
    ensures forall i :: 0 <= i < |alerts| ==>
      if alerts[i].userId == userId && alerts[i].id == id
      then r[i] == alerts[i].(isRead := true)
      else r[i] == alerts[i]
  {
    MapRows(alerts, (a: Alert) => if a.userId == userId && a.id == id then a.(isRead := true) else a)
  }

  /** Marking read is repeatable: a second call changes nothing. */
  lemma ReadAlertIdempotent(alerts: seq<Alert>, userId: Id, id: Id)
    ensures ReadAlert(ReadAlert(alerts, userId, id), userId, id) == ReadAlert(alerts, userId, id)
  {
    var once := ReadAlert(alerts, userId, id);
    assert |ReadAlert(once, userId, id)| == |once|;
  }

  /** After the owner marks alert id read, it leaves the owner's list and
      every other alert keeps its place in or out of every user's list; for
      another user's alert nothing changes at all. */
  lemma ReadAlertLeavesList(alerts: seq<Alert>, userId: Id, id: Id, viewer: Id)
    ensures forall a :: a in List(ReadAlert(alerts, userId, id), viewer) <==>
      a in List(alerts, viewer) && !(a.userId == userId && a.id == id)
  {
    var after := ReadAlert(alerts, userId, id);
    forall a
      ensures a in List(after, viewer) <==> a in List(alerts, viewer) && !(a.userId == userId && a.id == id)
    {
      if a in List(after, viewer) {
        var i :| 0 <= i < |after| && after[i] == a;
        assert !(alerts[i].userId == userId && alerts[i].id == id);
        assert alerts[i] == a;
      }
      if a in List(alerts, viewer) && !(a.userId == userId && a.id == id) {
        var i :| 0 <= i < |alerts| && alerts[i] == a;
        assert after[i] == a;
      }
    }
  }
}
