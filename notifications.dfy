/**
 * The notification list: show appends one entry, remove filters entries out by id.
 * The clock reading and the random suffix of the id are parameters; the 3-second
 * auto-dismiss timer is a later call of RemoveNotification.
 */
module Notifications {
  import opened Seqs
  import opened Strings

  datatype NotificationType = Success | Error | Warning | Info

  datatype Notification = Notification(id: string, message: string, kind: NotificationType)

  const IdPrefix := "notification-"

  /** `notification-${Date.now()}-${random}`. */
  function NotificationId(now: nat, randomPart: string): (id: string)
    ensures StartsWith(id, IdPrefix)
  {
    IdPrefix + NatToString(now) + "-" + randomPart
  }

  /** `prev.filter(n => n.id !== id)`. */
  function RemoveById(ns: seq<Notification>, id: string): (r: seq<Notification>)
    ensures IsSubsequence(r, ns)
    ensures forall n :: n in r <==> n in ns && n.id != id
    ensures forall n :: multiset(r)[n] == if n.id != id then multiset(ns)[n] else 0
  {
    FilterMultiplicity(ns, (n: Notification) => n.id != id);
    Filter(ns, (n: Notification) => n.id != id)
  }

  /** Removing an unknown id changes nothing; removing twice is removing once. */
  lemma RemoveProperties(ns: seq<Notification>, id: string)
    ensures (forall i :: 0 <= i < |ns| ==> ns[i].id != id) ==> RemoveById(ns, id) == ns
    ensures RemoveById(RemoveById(ns, id), id) == RemoveById(ns, id)
  {
    if forall i :: 0 <= i < |ns| ==> ns[i].id != id {
      FilterKeepsAll(ns, (n: Notification) => n.id != id);
    }
    FilterIdempotent(ns, (n: Notification) => n.id != id);
  }

  /** Showing a notification with a fresh id and then removing that id restores the list. */
  lemma ShowThenRemove(ns: seq<Notification>, n: Notification)
    requires forall i :: 0 <= i < |ns| ==> ns[i].id != n.id
    ensures RemoveById(ns + [n], n.id) == ns
  {
    FilterAppend(ns, [n], (x: Notification) => x.id != n.id);
    FilterKeepsAll(ns, (x: Notification) => x.id != n.id);
  }

  class NotificationCenter {
    var notifications: seq<Notification>

    constructor ()
      ensures notifications == []
    {
      notifications := [];
    }

    /** showNotification: exactly one entry, at the end. */
    method ShowNotification(message: string, kind: NotificationType, now: nat, randomPart: string)
      modifies this`notifications
      ensures notifications == old(notifications) + [Notification(NotificationId(now, randomPart), message, kind)]
    {
      var id := NotificationId(now, randomPart);
      notifications := notifications + [Notification(id, message, kind)];
    }

    /** removeNotification (also what the auto-dismiss timer calls). */
    method RemoveNotification(id: string)
      modifies this`notifications
      ensures notifications == RemoveById(old(notifications), id)
    {
      notifications := RemoveById(notifications, id);
    }
  }
}
