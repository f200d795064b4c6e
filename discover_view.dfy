/** The discover view: suggested users with their relationship status, and the
    optimistic "pending" update of a connect click. */
module DiscoverView {
  import opened Optional
  import opened ClientJson

  datatype DiscoverUser = DiscoverUser(id: string, name: string, institute: string,
                                       headline: string, status: string)

  /** The body of the notification request sent after a successful connect. */
  datatype NotificationRequest = NotificationRequest(recipientId: string, kind: string,
                                                     message: string, link: string)

  /** `users.map(u => u._id === id ? {...u, status: "pending"} : u)`. */
  function MarkPending(users: seq<DiscoverUser>, receiverId: string): (r: seq<DiscoverUser>)
    ensures |r| == |users|
    ensures forall i :: 0 <= i < |users| && users[i].id == receiverId ==>
      r[i] == users[i].(status := "pending")
    ensures forall i :: 0 <= i < |users| && users[i].id != receiverId ==> r[i] == users[i]
  {
    seq(|users|, i requires 0 <= i < |users| =>
      if users[i].id == receiverId then users[i].(status := "pending") else users[i])
  }

  /** A second click on the same user changes nothing more. */
  lemma MarkPendingIdempotent(users: seq<DiscoverUser>, receiverId: string)
    ensures MarkPending(MarkPending(users, receiverId), receiverId) == MarkPending(users, receiverId)
  {
  }

  class DiscoverState {
    var users: seq<DiscoverUser>
    var selectedUser: Option<DiscoverUser>

    constructor ()
      ensures users == [] && selectedUser == None
    {
      users := [];
      selectedUser := None;
    }

    /** The discover fetch: an array is taken as is; anything else, or a failed
        request (given as `NotArray`), empties the list. */
    method LoadUsers(data: MaybeArray<DiscoverUser>)
      modifies this
      ensures users == ArrayOrEmpty(data) && selectedUser == old(selectedUser)
    {
      users := ArrayOrEmpty(data);
    }

    method SelectUser(u: Option<DiscoverUser>)
      modifies this
      ensures selectedUser == u && users == old(users)
    {
      selectedUser := u;
    }

    /** `handleConnect`: mark the user pending in the list and in the open profile, then
        send the connection request; the notification request follows only when the
        connection request succeeded (`connectOk`). */
    method HandleConnect(receiverId: string, connectOk: bool) returns (notify: Option<NotificationRequest>)
      modifies this
      ensures users == MarkPending(old(users), receiverId)
      ensures old(selectedUser).Some? && old(selectedUser).value.id == receiverId ==>
        selectedUser == Some(old(selectedUser).value.(status := "pending"))
      ensures !(old(selectedUser).Some? && old(selectedUser).value.id == receiverId) ==>
        selectedUser == old(selectedUser)
      ensures connectOk ==> notify == Some(NotificationRequest(receiverId, "connection_request",
                                            "sent you a connection request.", "/network"))
      ensures !connectOk ==> notify == None
    {
      users := MarkPending(users, receiverId);
      if selectedUser.Some? && selectedUser.value.id == receiverId {
        selectedUser := Some(selectedUser.value.(status := "pending"));
      }
      notify := None;
      if connectOk {
        notify := Some(NotificationRequest(receiverId, "connection_request",
                                           "sent you a connection request.", "/network"));
      }
    }
  }
}
