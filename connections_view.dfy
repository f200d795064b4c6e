/** The network view: pending invitations and accepted connections, with the
    optimistic update when an invitation is answered. */
module ConnectionsView {
  import opened Optional
  import opened ClientJson

  datatype Person = Person(id: string, name: string)

  /** An invitation: the connection id and the requesting user, which may be missing. */
  datatype Invite = Invite(id: string, user: Option<Person>)

  /** The body of the answer request. */
  datatype RespondRequest = RespondRequest(connectionId: string, action: string)

  /** `invites.filter(i => i._id !== id)`. */
  function WithoutInvite(invites: seq<Invite>, id: string): (r: seq<Invite>)
    ensures |r| <= |invites|
    ensures forall k :: 0 <= k < |r| ==> r[k].id != id && r[k] in invites
    ensures forall k :: 0 <= k < |invites| && invites[k].id != id ==> invites[k] in r
  {
    if invites == [] then []
    else if invites[0].id == id then WithoutInvite(invites[1..], id)
    else [invites[0]] + WithoutInvite(invites[1..], id)
  }

  /** The filter keeps order: filtering two lists one after the other is filtering each. */
  lemma {:induction false} WithoutInviteAppend(a: seq<Invite>, b: seq<Invite>, id: string)
    ensures WithoutInvite(a + b, id) == WithoutInvite(a, id) + WithoutInvite(b, id)
  {
    if a == [] {
      assert a + b == b;
    } else {
      assert (a + b)[0] == a[0];
      assert (a + b)[1..] == a[1..] + b;
      WithoutInviteAppend(a[1..], b, id);
    }
  }

  /** The filter on one invitation: dropped exactly when it has the id. */
  lemma WithoutInviteSingle(x: Invite, id: string)
    ensures WithoutInvite([x], id) == if x.id == id then [] else [x]
  {
    assert [x][1..] == [];
  }

  /** Without a matching invitation, the filter keeps the list as it is. */
  lemma {:induction false} WithoutAbsentInvite(invites: seq<Invite>, id: string)
    requires forall k :: 0 <= k < |invites| ==> invites[k].id != id
    ensures WithoutInvite(invites, id) == invites
  {
    if invites != [] {
      WithoutAbsentInvite(invites[1..], id);
    }
  }

  /** Answering the same invitation twice removes nothing more. */
  lemma WithoutInviteIdempotent(invites: seq<Invite>, id: string)
    ensures WithoutInvite(WithoutInvite(invites, id), id) == WithoutInvite(invites, id)
  {
    WithoutAbsentInvite(WithoutInvite(invites, id), id);
  }

  /** `invites.find(i => i._id === id)`: the first invitation with that id. */
  function FindInvite(invites: seq<Invite>, id: string): (r: Option<Invite>)
    ensures r.None? <==> forall k :: 0 <= k < |invites| ==> invites[k].id != id
    ensures r.Some? ==> exists k :: 0 <= k < |invites| && invites[k] == r.value && r.value.id == id
                          && forall j :: 0 <= j < k ==> invites[j].id != id
  {
    if invites == [] then None
    else if invites[0].id == id then Some(invites[0])
    else
      var r := FindInvite(invites[1..], id);
      if r.Some? then
        var k :| 0 <= k < |invites[1..]| && invites[1..][k] == r.value && r.value.id == id
                 && forall j :: 0 <= j < k ==> invites[1..][j].id != id;
        assert invites[k + 1] == r.value;
        r
      else r
  }

  class ConnectionsState {
    var invites: seq<Invite>
    var connections: seq<Person>

    constructor ()
      ensures invites == [] && connections == []
    {
      invites := [];
      connections := [];
    }

    /** The network fetch: on an ok response each list is taken when it is an array
        and emptied otherwise; a failed response changes nothing. */
    method LoadNetwork(ok: bool, invitations: MaybeArray<Invite>, conns: MaybeArray<Person>)
      modifies this
      ensures ok ==> invites == ArrayOrEmpty(invitations) && connections == ArrayOrEmpty(conns)
      ensures !ok ==> invites == old(invites) && connections == old(connections)
    {
      if ok {
        invites := ArrayOrEmpty(invitations);
        connections := ArrayOrEmpty(conns);
      }
    }

    /** `handleResponse`: drop the invitation; on accept, put its user in front of the
        connections when the invitation exists and carries a user. */
    method HandleResponse(connectionId: string, action: string) returns (request: RespondRequest)
      modifies this
      ensures invites == WithoutInvite(old(invites), connectionId)
      ensures var found := FindInvite(old(invites), connectionId);
        if action == "accept" && found.Some? && found.value.user.Some?
        then connections == [found.value.user.value] + old(connections)
        else connections == old(connections)
      ensures request == RespondRequest(connectionId, action)
    {
      var inviteData := FindInvite(invites, connectionId);
      invites := WithoutInvite(invites, connectionId);
      if action == "accept" {
        if inviteData.Some? && inviteData.value.user.Some? {
          connections := [inviteData.value.user.value] + connections;
        }
      }
      request := RespondRequest(connectionId, action);
    }
  }
}
