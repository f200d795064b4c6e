/** The client notification reducer: a list of notifications with a cached count of
    the unread ones. The reducers mutate the draft state in place. */
module NotificationSlice {

  /** A notification as the client holds it; `body` stands for every field other
      than the read flag. */
  datatype Item = Item(body: string, isRead: bool)

  /** `items.filter(n => !n.isRead).length`. */
  function UnreadCount(items: seq<Item>): (n: nat)
    ensures n <= |items|
    ensures n == 0 <==> forall i :: 0 <= i < |items| ==> items[i].isRead
  {
    if items == [] then 0 else (if items[0].isRead then 0 else 1) + UnreadCount(items[1..])
  }

  /** The list after every item has been marked read: same bodies, same order. */
  ghost predicate AllReadOf(r: seq<Item>, items: seq<Item>) {
    |r| == |items| && forall i :: 0 <= i < |items| ==> r[i] == Item(items[i].body, true)
  }

  /** Marking every item read leaves nothing unread. */
  lemma AllReadHasNoUnread(r: seq<Item>, items: seq<Item>)
    requires AllReadOf(r, items)
    ensures UnreadCount(r) == 0
  {
  }

  /** Putting an item in front counts it exactly when it is unread. */
  lemma {:induction false} UnreadCountPrepend(x: Item, items: seq<Item>)
    ensures UnreadCount([x] + items) == UnreadCount(items) + (if x.isRead then 0 else 1)
  {
    assert ([x] + items)[1..] == items;
  }

  class NotificationState {
    var items: seq<Item>
    var unreadCount: int

    /** The count the reducer keeps agrees with the list. */
    ghost predicate Valid()
      reads this
    {
      unreadCount == UnreadCount(items)
    }

    /** The initial state: no items, nothing unread. */
    constructor ()
      ensures items == [] && unreadCount == 0
      ensures Valid()
    {
      items := [];
      unreadCount := 0;
    }

    /** `setNotifications`: replace the list, recount the unread items. */
    method SetNotifications(payload: seq<Item>)
      modifies this
      ensures items == payload
      ensures unreadCount == UnreadCount(payload)
      ensures Valid()
    {
      items := payload;
      unreadCount := UnreadCount(payload);
    }

    /** `addNotification`: `unshift` the payload and add one to the count whatever
        the payload's read flag; the count stays exact only for an unread payload. */
    method AddNotification(payload: Item)
      modifies this
      ensures items == [payload] + old(items)
      ensures unreadCount == old(unreadCount) + 1
      ensures old(Valid()) && !payload.isRead ==> Valid()
      ensures old(Valid()) && payload.isRead ==> unreadCount == UnreadCount(items) + 1
    {
      UnreadCountPrepend(payload, items);
      items := [payload] + items;
      unreadCount := unreadCount + 1;
    }

    /** `markAllRead`: set `isRead` on every item in place, then zero the count. */
    method MarkAllRead()
      modifies this
      ensures AllReadOf(items, old(items))
      ensures unreadCount == 0
      ensures Valid()
    {
      var i := 0;
      while i < |items|
        invariant 0 <= i <= |items| == |old(items)|
        invariant forall k :: 0 <= k < i ==> items[k] == Item(old(items)[k].body, true)
        invariant forall k :: i <= k < |items| ==> items[k] == old(items)[k]
      {
        items := items[i := items[i].(isRead := true)];
        i := i + 1;
      }
      unreadCount := 0;
      AllReadHasNoUnread(items, old(items));
    }
  }

  /** Marking all read twice is the same as once: the second call changes nothing. */
  method MarkAllReadTwice(s: NotificationState)
    modifies s
    ensures AllReadOf(s.items, old(s.items)) && s.unreadCount == 0
  {
    s.MarkAllRead();
    ghost var once := s.items;
    s.MarkAllRead();
    assert AllReadOf(s.items, once);
  }
}
