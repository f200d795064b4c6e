/** Notifications: creation (with the real-time `new_notification` event to the
    recipient's room), the caller's latest twenty, and marking the caller's
    notifications read. The store keeps notifications in the order they were created. */
module NotificationController {
  import opened Optional
  import Lists

  datatype Notification = Notification(
    recipient: string, sender: Option<string>, kind: string, message: Option<string>,
    link: Option<string>, relatedId: Option<string>, isRead: bool, createdAt: int)

  /** A socket event sent to a room. */
  datatype Emit = Emit(room: string, event: string, payload: Notification)

  datatype Reply = Created(n: Notification) | Failed(error: string)

  const PageSize: nat := 20

  /** Stored order is creation order, so creation times never decrease. */
  predicate Chronological(ns: seq<Notification>) {
    forall i, j :: 0 <= i < j < |ns| ==> ns[i].createdAt <= ns[j].createdAt
  }

  /** `find({ recipient })`, in stored order. */
  function Mine(ns: seq<Notification>, me: string): (r: seq<Notification>)
    ensures |r| <= |ns|
    ensures forall i :: 0 <= i < |r| ==> r[i].recipient == me && r[i] in ns
    ensures forall i :: 0 <= i < |ns| && ns[i].recipient == me ==> ns[i] in r
  {
    if ns == [] then []
    else if ns[0].recipient == me then [ns[0]] + Mine(ns[1..], me)
    else Mine(ns[1..], me)
  }

  /** The query keeps stored order: over two lists one after the other, it yields the
      matches of the first, then those of the second. */
  lemma {:induction false} MineAppend(a: seq<Notification>, b: seq<Notification>, me: string)
    ensures Mine(a + b, me) == Mine(a, me) + Mine(b, me)
  {
    if a == [] {
      assert a + b == b;
    } else {
      assert (a + b)[0] == a[0];
      assert (a + b)[1..] == a[1..] + b;
      MineAppend(a[1..], b, me);
    }
  }

  /** The query on one notification: kept exactly when it is addressed to `me`. */
  lemma MineSingle(x: Notification, me: string)
    ensures Mine([x], me) == if x.recipient == me then [x] else []
  {
    assert [x][1..] == [];
  }

  /** Dropping the oldest notification keeps the order. */
  lemma TailChronological(ns: seq<Notification>)
    requires ns != [] && Chronological(ns)
    ensures Chronological(ns[1..])
  {
    var t := ns[1..];
    forall i, j | 0 <= i < j < |t|
      ensures t[i].createdAt <= t[j].createdAt
    {
      assert t[i] == ns[i + 1] && t[j] == ns[j + 1];
    }
  }

  /** A notification no newer than any of a chronological list may go in front of it. */
  lemma ConsChronological(n: Notification, rest: seq<Notification>)
    requires Chronological(rest)
    requires forall j :: 0 <= j < |rest| ==> n.createdAt <= rest[j].createdAt
    ensures Chronological([n] + rest)
  {
    var s := [n] + rest;
    forall i, j | 0 <= i < j < |s|
      ensures s[i].createdAt <= s[j].createdAt
    {
      assert s[j] == rest[j - 1];
      if i > 0 {
        assert s[i] == rest[i - 1];
      }
    }
  }

  /** The sub-sequence of a chronological sequence is chronological. */
  lemma {:induction false} MineChronological(ns: seq<Notification>, me: string)
    requires Chronological(ns)
    ensures Chronological(Mine(ns, me))
  {
    if ns != [] {
      TailChronological(ns);
      MineChronological(ns[1..], me);
      var rest := Mine(ns[1..], me);
      if ns[0].recipient == me {
        forall j | 0 <= j < |rest|
          ensures ns[0].createdAt <= rest[j].createdAt
        {
          var k :| 0 <= k < |ns[1..]| && ns[1..][k] == rest[j];
          assert ns[k + 1] == rest[j];
        }
        ConsChronological(ns[0], rest);
      }
    }
  }

  /** `find({ recipient: me }).sort({ createdAt: -1 }).limit(20)`: the last twenty of
      the caller's notifications in stored order, latest first. */
  function LatestFor(ns: seq<Notification>, me: string): (r: seq<Notification>)
    ensures |r| == if |Mine(ns, me)| < PageSize then |Mine(ns, me)| else PageSize
    ensures forall i :: 0 <= i < |r| ==> r[i].recipient == me && r[i] in ns
    ensures forall i :: 0 <= i < |r| ==> r[i] == Mine(ns, me)[|Mine(ns, me)| - 1 - i]
  {
    var mine := Lists.Reverse(Mine(ns, me));
    if |mine| < PageSize then mine else mine[..PageSize]
  }

  /** In a store kept in creation order, the page is newest first: the sort by
      `createdAt` descending. */
  lemma LatestNewestFirst(ns: seq<Notification>, me: string)
    requires Chronological(ns)
    ensures var r := LatestFor(ns, me);
      forall i, j :: 0 <= i < j < |r| ==> r[i].createdAt >= r[j].createdAt
  {
    MineChronological(ns, me);
    ReversedNewestFirst(Mine(ns, me), LatestFor(ns, me));
  }

  /** Reading a chronological list from its end gives the newest first. */
  lemma ReversedNewestFirst(ns: seq<Notification>, r: seq<Notification>)
    requires Chronological(ns) && |r| <= |ns|
    requires forall i :: 0 <= i < |r| ==> r[i] == ns[|ns| - 1 - i]
    ensures forall i, j :: 0 <= i < j < |r| ==> r[i].createdAt >= r[j].createdAt
  {
    forall i, j | 0 <= i < j < |r|
      ensures r[i].createdAt >= r[j].createdAt
    {
      assert r[i] == ns[|ns| - 1 - i] && r[j] == ns[|ns| - 1 - j];
    }
  }

  /** The notifications as `updateMany({ recipient: me, isRead: false }, { isRead: true })`
      leaves them: the caller's are read, every other one is unchanged. */
  function MarkedRead(ns: seq<Notification>, me: string): (r: seq<Notification>)
    ensures |r| == |ns|
    ensures forall i :: 0 <= i < |ns| && ns[i].recipient == me ==> r[i] == ns[i].(isRead := true)
    ensures forall i :: 0 <= i < |ns| && ns[i].recipient != me ==> r[i] == ns[i]
  {
    seq(|ns|, i requires 0 <= i < |ns| => if ns[i].recipient == me then ns[i].(isRead := true) else ns[i])
  }

  /** Marking read twice is marking read once. */
  lemma MarkedReadIdempotent(ns: seq<Notification>, me: string)
    ensures MarkedRead(MarkedRead(ns, me), me) == MarkedRead(ns, me)
  {
  }

  /** After marking, none of the caller's notifications is unread. */
  lemma MarkedReadLeavesNoneUnread(ns: seq<Notification>, me: string)
    ensures forall i :: 0 <= i < |ns| && MarkedRead(ns, me)[i].recipient == me ==> MarkedRead(ns, me)[i].isRead
  {
  }

  class NotificationStore {
    var notifications: seq<Notification>

    ghost predicate Valid()
      reads this
    {
      Chronological(notifications)
    }

    /** The clock reading `now` is no earlier than any stored notification. */
    predicate NotBefore(now: int)
      reads this
    {
      forall i :: 0 <= i < |notifications| ==> notifications[i].createdAt <= now
    }

    constructor ()
      ensures notifications == [] && Valid()
    {
      notifications := [];
    }

    /** `Notification.create`, which fails when the database does (`dbOk` false). */
    method Save(n: Notification, dbOk: bool)
      requires Valid() && NotBefore(n.createdAt)
      modifies this
      ensures Valid()
      ensures notifications == if dbOk then old(notifications) + [n] else old(notifications)
    {
      if dbOk {
        notifications := notifications + [n];
      }
    }

    /** The `createNotification` helper. Once saved, the notification is sent to the
        recipient's room and returned; without a socket server (`hasIo` false) the
        emit throws after the save, and any failure makes the helper return nothing. */
    method CreateNotification(hasIo: bool, recipientId: string, senderId: Option<string>, kind: string,
                              message: Option<string>, link: Option<string>, now: int, dbOk: bool)
      returns (result: Option<Notification>, emitted: Option<Emit>)
      requires Valid() && NotBefore(now)
      modifies this
      ensures Valid()
      ensures var n := Notification(recipientId, senderId, kind, message, link, None, false, now);
        && notifications == (if dbOk then old(notifications) + [n] else old(notifications))
        && result == (if dbOk && hasIo then Some(n) else None)
        && emitted == (if dbOk && hasIo then Some(Emit(recipientId, "new_notification", n)) else None)
    {
      var n := Notification(recipientId, senderId, kind, message, link, None, false, now);
      Save(n, dbOk);
      if dbOk && hasIo {
        emitted := Some(Emit(recipientId, "new_notification", n));
        result := Some(n);
      } else {
        emitted := None;
        result := None;
      }
    }

    /** `getNotifications` for the caller `me`. */
    function GetNotifications(me: string): (r: seq<Notification>)
      requires Valid()
      reads this
      ensures r == LatestFor(notifications, me)
    {
      LatestFor(notifications, me)
    }

    /** `sendNotificationAPI`: 201 with the saved notification, which goes to the
        recipient's room when there is a socket server; 500 when the save fails. */
    method SendNotificationApi(hasIo: bool, senderId: string, recipientId: string, kind: string,
                               message: Option<string>, link: Option<string>, now: int, dbOk: bool)
      returns (reply: Reply, emitted: Option<Emit>)
      requires Valid() && NotBefore(now)
      modifies this
      ensures Valid()
      ensures var n := Notification(recipientId, Some(senderId), kind, message, link, None, false, now);
        if dbOk then
          notifications == old(notifications) + [n] && reply == Created(n)
          && emitted == (if hasIo then Some(Emit(recipientId, "new_notification", n)) else None)
        else
          notifications == old(notifications) && reply == Failed("Failed to send notification")
          && emitted == None
    {
      var n := Notification(recipientId, Some(senderId), kind, message, link, None, false, now);
      Save(n, dbOk);
      if !dbOk {
        return Failed("Failed to send notification"), None;
      }
      emitted := if hasIo then Some(Emit(recipientId, "new_notification", n)) else None;
      reply := Created(n);
    }

    /** `markRead`, one stored notification at a time. */
    method MarkRead(me: string) returns (success: bool)
      requires Valid()
      modifies this
      ensures Valid()
      ensures notifications == MarkedRead(old(notifications), me)
      ensures success
    {
      var i := 0;
      while i < |notifications|
        invariant 0 <= i <= |notifications| == |old(notifications)|
        invariant forall k :: 0 <= k < i ==> notifications[k] == MarkedRead(old(notifications), me)[k]
        invariant forall k :: i <= k < |notifications| ==> notifications[k] == old(notifications)[k]
      {
        if notifications[i].recipient == me && !notifications[i].isRead {
          notifications := notifications[i := notifications[i].(isRead := true)];
        }
        i := i + 1;
      }
      success := true;
    }
  }
}
