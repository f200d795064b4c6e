/** Groups: creation, the visible-group list, join requests and their handling, direct
    joining, the group chat history and deletion, with the read-through Redis cache
    modelled as a map from key to stored payload and time-to-live. */
module GroupController {
  import opened Optional
  import opened Strings
  import Lists
  import NotificationController

  type Notification = NotificationController.Notification

  datatype Group = Group(
    id: string, name: string, description: string, privacy: string, institute: Option<string>,
    admins: seq<string>, members: seq<string>, joinRequests: seq<string>,
    image: string, inviteCode: string, createdAt: int)

  /** The user fields the handlers read. */
  datatype Person = Person(name: string, institute: string, profilePicture: Option<string>)

  datatype Message = Message(id: string, group: string, sender: string, text: string, fileUrl: string,
                             fileType: string, fileName: string, createdAt: int)

  /** A group in the list answer, with its formatted image and the caller's flags. */
  datatype GroupView = GroupView(group: Group, image: string, isMember: bool, isAdmin: bool)

  /** A chat message with its sender's name and formatted picture. */
  datatype MessageView = MessageView(message: Message, senderName: string, senderPicture: string)

  /** What the handlers store in the cache and what they answer with. */
  datatype Payload =
    | GroupList(groups: seq<GroupView>)
    | GroupDoc(group: Group)
    | Requests(requesters: seq<string>)
    | Messages(messages: seq<MessageView>)

  /** A cache entry: the stored value and its time-to-live in seconds. */
  datatype Entry = Entry(payload: Payload, ttl: int)

  datatype Body =
    | Text(message: string)
    | TextWithId(message: string, groupId: string)
    | Data(payload: Payload)
    | Crash

  datatype Reply = Reply(status: int, body: Body)

  const ListTtl: int := 120
  const RequestsTtl: int := 300
  const MessagesTtl: int := 60
  const GroupTtl: int := 1800

  function ListKey(userId: string): string { "groups:list:" + userId }
  function GroupKey(groupId: string): string { "group:" + groupId }
  function RequestsKey(groupId: string): string { "group_requests:" + groupId }
  function MessagesKey(groupId: string): string { "group_messages:" + groupId }

  /** Keys of different kinds never collide, and each kind names one id per key. */
  lemma KeysDistinct(a: string, b: string)
    ensures ListKey(a) != GroupKey(b) && ListKey(a) != RequestsKey(b) && ListKey(a) != MessagesKey(b)
    ensures GroupKey(a) != RequestsKey(b) && GroupKey(a) != MessagesKey(b)
    ensures RequestsKey(a) != MessagesKey(b)
    ensures ListKey(a) == ListKey(b) ==> a == b
    ensures GroupKey(a) == GroupKey(b) ==> a == b
    ensures RequestsKey(a) == RequestsKey(b) ==> a == b
    ensures MessagesKey(a) == MessagesKey(b) ==> a == b
  {
    assert ListKey(a)[5] == 's' && GroupKey(b)[5] == ':' && RequestsKey(b)[5] == '_' && MessagesKey(b)[5] == '_';
    assert GroupKey(a)[5] == ':' && RequestsKey(a)[6] == 'r' && MessagesKey(b)[6] == 'm';
    if ListKey(a) == ListKey(b) {
      assert a == ListKey(a)[12..] && b == ListKey(b)[12..];
    }
    if GroupKey(a) == GroupKey(b) {
      assert a == GroupKey(a)[6..] && b == GroupKey(b)[6..];
    }
    if RequestsKey(a) == RequestsKey(b) {
      assert a == RequestsKey(a)[15..] && b == RequestsKey(b)[15..];
    }
    if MessagesKey(a) == MessagesKey(b) {
      assert a == MessagesKey(a)[15..] && b == MessagesKey(b)[15..];
    }
  }

  /** `${process.env.BASE_URL}`: an unset variable renders as "undefined". */
  function BaseText(base: Option<string>): string {
    if base.Some? then base.value else "undefined"
  }

  /** `formatUrl`: empty stays empty, an absolute `http…` URL is kept, anything else is
      put under the base URL. */
  function FormatUrl(base: Option<string>, url: string): (r: string)
    ensures url == "" ==> r == ""
    ensures url != "" && StartsWith(url, "http") ==> r == url
    ensures url != "" && !StartsWith(url, "http") ==> r == BaseText(base) + "/" + url
  {
    if url == "" then ""
    else if StartsWith(url, "http") || StartsWith(url, "https") then url
    else BaseText(base) + "/" + url
  }

  /** The `https` test adds nothing: every `https…` URL already starts with `http`. */
  lemma HttpsIsHttp(url: string)
    requires StartsWith(url, "https")
    ensures StartsWith(url, "http")
  {
    assert url[..4] == url[..5][..4];
  }

  /** With an absolute base URL, formatting a formatted URL changes nothing more. */
  lemma FormatUrlIdempotent(base: Option<string>, url: string)
    requires StartsWith(BaseText(base), "http")
    ensures FormatUrl(base, FormatUrl(base, url)) == FormatUrl(base, url)
  {
    if url != "" && !StartsWith(url, "http") {
      var b := BaseText(base);
      assert (b + "/" + url)[..4] == b[..4];
    }
  }

  /** The `getGroups` query: public groups, private groups of the caller's institute,
      and groups the caller is a member of. */
  predicate Visible(g: Group, userId: string, institute: string) {
    g.privacy == "public" || (g.privacy == "private" && g.institute == Some(institute)) || userId in g.members
  }

  /** The visible groups, in stored order. */
  function VisibleGroups(gs: seq<Group>, userId: string, institute: string): (r: seq<Group>)
    ensures forall k :: 0 <= k < |r| ==> r[k] in gs && Visible(r[k], userId, institute)
    ensures forall i :: 0 <= i < |gs| && Visible(gs[i], userId, institute) ==> gs[i] in r
  {
    if gs == [] then []
    else if Visible(gs[0], userId, institute) then [gs[0]] + VisibleGroups(gs[1..], userId, institute)
    else VisibleGroups(gs[1..], userId, institute)
  }

  /** Stored order is creation order. */
  predicate Chronological(gs: seq<Group>) {
    forall i, j :: 0 <= i < j < |gs| ==> gs[i].createdAt <= gs[j].createdAt
  }

  /** Dropping the oldest group keeps the order. */
  lemma TailChronological(gs: seq<Group>)
    requires gs != [] && Chronological(gs)
    ensures Chronological(gs[1..])
  {
    var t := gs[1..];
    forall i, j | 0 <= i < j < |t|
      ensures t[i].createdAt <= t[j].createdAt
    {
      assert t[i] == gs[i + 1] && t[j] == gs[j + 1];
    }
  }

  /** A group no newer than any of a chronological list may go in front of it. */
  lemma ConsChronological(g: Group, rest: seq<Group>)
    requires Chronological(rest)
    requires forall j :: 0 <= j < |rest| ==> g.createdAt <= rest[j].createdAt
    ensures Chronological([g] + rest)
  {
    var s := [g] + rest;
    forall i, j | 0 <= i < j < |s|
      ensures s[i].createdAt <= s[j].createdAt
    {
      assert s[j] == rest[j - 1];
      if i > 0 {
        assert s[i] == rest[i - 1];
      }
    }
  }

  lemma {:induction false} VisibleChronological(gs: seq<Group>, userId: string, institute: string)
    requires Chronological(gs)
    ensures Chronological(VisibleGroups(gs, userId, institute))
  {
    if gs != [] {
      TailChronological(gs);
      VisibleChronological(gs[1..], userId, institute);
      var rest := VisibleGroups(gs[1..], userId, institute);
      if Visible(gs[0], userId, institute) {
        forall j | 0 <= j < |rest|
          ensures gs[0].createdAt <= rest[j].createdAt
        {
          var k :| 0 <= k < |gs[1..]| && gs[1..][k] == rest[j];
          assert gs[k + 1] == rest[j];
        }
        ConsChronological(gs[0], rest);
      }
    }
  }

  function ShapeGroup(base: Option<string>, g: Group, userId: string): (v: GroupView)
    ensures v.group == g && v.image == FormatUrl(base, g.image)
    ensures v.isMember <==> userId in g.members
    ensures v.isAdmin <==> userId in g.admins
  {
    GroupView(g, FormatUrl(base, g.image), userId in g.members, userId in g.admins)
  }

  /** Each group shaped for the caller, in the given order. */
  function ShapeAll(base: Option<string>, gs: seq<Group>, userId: string): (r: seq<GroupView>)
    ensures |r| == |gs|
    ensures forall k :: 0 <= k < |r| ==> r[k] == ShapeGroup(base, gs[k], userId)
  {
    seq(|gs|, k requires 0 <= k < |gs| => ShapeGroup(base, gs[k], userId))
  }

  /** A chronological sequence reversed is newest first. */
  lemma ReverseNewestFirst(gs: seq<Group>)
    requires Chronological(gs)
    ensures forall k, l :: 0 <= k < l < |gs| ==> Lists.Reverse(gs)[k].createdAt >= Lists.Reverse(gs)[l].createdAt
  {
    var r := Lists.Reverse(gs);
    forall k, l | 0 <= k < l < |gs|
      ensures r[k].createdAt >= r[l].createdAt
    {
      assert r[k] == gs[|gs| - 1 - k] && r[l] == gs[|gs| - 1 - l];
    }
  }

  /** The list answer: the visible groups back to front, each shaped for the caller. */
  function GroupListFor(base: Option<string>, gs: seq<Group>, userId: string, institute: string): (r: seq<GroupView>)
    ensures |r| == |VisibleGroups(gs, userId, institute)|
  {
    ShapeAll(base, Lists.Reverse(VisibleGroups(gs, userId, institute)), userId)
  }

  /** The list holds exactly the visible groups, each with its image formatted and the
      caller's `isMember` and `isAdmin` flags. */
  lemma GroupListExact(base: Option<string>, gs: seq<Group>, userId: string, institute: string)
    ensures var r := GroupListFor(base, gs, userId, institute);
      && (forall k :: 0 <= k < |r| ==> r[k].group in gs && Visible(r[k].group, userId, institute))
      && (forall k :: 0 <= k < |r| ==> r[k] == ShapeGroup(base, r[k].group, userId))
    ensures var r := GroupListFor(base, gs, userId, institute);
      forall i :: 0 <= i < |gs| && Visible(gs[i], userId, institute) ==>
        exists k :: 0 <= k < |r| && r[k].group == gs[i]
  {
    var vis := VisibleGroups(gs, userId, institute);
    var newest := Lists.Reverse(vis);
    Lists.ReverseMembers(vis);
    var r := GroupListFor(base, gs, userId, institute);
    assert forall k :: 0 <= k < |r| ==> r[k].group == newest[k];
    forall i | 0 <= i < |gs| && Visible(gs[i], userId, institute)
      ensures exists k :: 0 <= k < |r| && r[k].group == gs[i]
    {
      var k :| 0 <= k < |newest| && newest[k] == gs[i];
      assert r[k].group == gs[i];
    }
  }

  /** The list is newest first. */
  lemma GroupListNewestFirst(base: Option<string>, gs: seq<Group>, userId: string, institute: string)
    requires Chronological(gs)
    ensures var r := GroupListFor(base, gs, userId, institute);
      forall k, l :: 0 <= k < l < |r| ==> r[k].group.createdAt >= r[l].group.createdAt
  {
    var vis := VisibleGroups(gs, userId, institute);
    VisibleChronological(gs, userId, institute);
    ReverseNewestFirst(vis);
    var r := GroupListFor(base, gs, userId, institute);
    assert forall k :: 0 <= k < |r| ==> r[k].group == Lists.Reverse(vis)[k];
  }

  /** The stored messages of a group, in stored (chronological) order. */
  function GroupMessages(ms: seq<Message>, groupId: string): (r: seq<Message>)
    ensures forall k :: 0 <= k < |r| ==> r[k] in ms && r[k].group == groupId
    ensures forall i :: 0 <= i < |ms| && ms[i].group == groupId ==> ms[i] in r
  {
    if ms == [] then []
    else if ms[0].group == groupId then [ms[0]] + GroupMessages(ms[1..], groupId)
    else GroupMessages(ms[1..], groupId)
  }

  /** The history keeps stored order: over two lists one after the other, it is the first list's messages of the group, then the second's. */
  lemma {:induction false} GroupMessagesAppend(a: seq<Message>, b: seq<Message>, groupId: string)
    ensures GroupMessages(a + b, groupId) == GroupMessages(a, groupId) + GroupMessages(b, groupId)
  {
    if a == [] {
      assert a + b == b;
    } else {
      assert (a + b)[0] == a[0];
      assert (a + b)[1..] == a[1..] + b;
      GroupMessagesAppend(a[1..], b, groupId);
    }
  }

  /** One message is kept exactly when it belongs to the group. */
  lemma GroupMessagesSingle(x: Message, groupId: string)
    ensures GroupMessages([x], groupId) == if x.group == groupId then [x] else []
  {
    assert [x][1..] == [];
  }

  /** The messages of every other group. */
  function OtherMessages(ms: seq<Message>, groupId: string): (r: seq<Message>)
    ensures forall k :: 0 <= k < |r| ==> r[k] in ms && r[k].group != groupId
    ensures forall i :: 0 <= i < |ms| && ms[i].group != groupId ==> ms[i] in r
  {
    if ms == [] then []
    else if ms[0].group != groupId then [ms[0]] + OtherMessages(ms[1..], groupId)
    else OtherMessages(ms[1..], groupId)
  }

  /** `deleteMany` keeps the other messages in stored order: over two lists one after the other, the first list's survivors, then the second's. */
  lemma {:induction false} OtherMessagesAppend(a: seq<Message>, b: seq<Message>, groupId: string)
    ensures OtherMessages(a + b, groupId) == OtherMessages(a, groupId) + OtherMessages(b, groupId)
  {
    if a == [] {
      assert a + b == b;
    } else {
      assert (a + b)[0] == a[0];
      assert (a + b)[1..] == a[1..] + b;
      OtherMessagesAppend(a[1..], b, groupId);
    }
  }

  /** One message survives exactly when it belongs to another group. */
  lemma OtherMessagesSingle(x: Message, groupId: string)
    ensures OtherMessages([x], groupId) == if x.group != groupId then [x] else []
  {
    assert [x][1..] == [];
  }

  /** The notifications not related to the group. */
  function UnrelatedNotifications(ns: seq<Notification>, groupId: string): (r: seq<Notification>)
    ensures forall k :: 0 <= k < |r| ==> r[k] in ns && r[k].relatedId != Some(groupId)
    ensures forall i :: 0 <= i < |ns| && ns[i].relatedId != Some(groupId) ==> ns[i] in r
  {
    if ns == [] then []
    else if ns[0].relatedId != Some(groupId) then [ns[0]] + UnrelatedNotifications(ns[1..], groupId)
    else UnrelatedNotifications(ns[1..], groupId)
  }

  /** `deleteMany` keeps the other notifications in stored order: over two lists one after the other, the first list's survivors, then the second's. */
  lemma {:induction false} UnrelatedNotificationsAppend(a: seq<Notification>, b: seq<Notification>, groupId: string)
    ensures UnrelatedNotifications(a + b, groupId) == UnrelatedNotifications(a, groupId) + UnrelatedNotifications(b, groupId)
  {
    if a == [] {
      assert a + b == b;
    } else {
      assert (a + b)[0] == a[0];
      assert (a + b)[1..] == a[1..] + b;
      UnrelatedNotificationsAppend(a[1..], b, groupId);
    }
  }

  /** One notification survives exactly when it is not related to the group. */
  lemma UnrelatedNotificationsSingle(x: Notification, groupId: string)
    ensures UnrelatedNotifications([x], groupId) == if x.relatedId != Some(groupId) then [x] else []
  {
    assert [x][1..] == [];
  }

  /** The groups other than `groupId`. */
  function OtherGroups(gs: seq<Group>, groupId: string): (r: seq<Group>)
    ensures forall k :: 0 <= k < |r| ==> r[k] in gs && r[k].id != groupId
    ensures forall i :: 0 <= i < |gs| && gs[i].id != groupId ==> gs[i] in r
  {
    if gs == [] then []
    else if gs[0].id != groupId then [gs[0]] + OtherGroups(gs[1..], groupId)
    else OtherGroups(gs[1..], groupId)
  }

  /** Deleting keeps the other groups in stored order: over two lists one after the other, the first list's survivors, then the second's. */
  lemma {:induction false} OtherGroupsAppend(a: seq<Group>, b: seq<Group>, groupId: string)
    ensures OtherGroups(a + b, groupId) == OtherGroups(a, groupId) + OtherGroups(b, groupId)
  {
    if a == [] {
      assert a + b == b;
    } else {
      assert (a + b)[0] == a[0];
      assert (a + b)[1..] == a[1..] + b;
      OtherGroupsAppend(a[1..], b, groupId);
    }
  }

  /** One group survives exactly when it has another id. */
  lemma OtherGroupsSingle(x: Group, groupId: string)
    ensures OtherGroups([x], groupId) == if x.id != groupId then [x] else []
  {
    assert [x][1..] == [];
  }

  /** Removing a chronological sequence's elements keeps it chronological. */
  lemma {:induction false} OtherGroupsChronological(gs: seq<Group>, groupId: string)
    requires Chronological(gs)
    ensures Chronological(OtherGroups(gs, groupId))
  {
    if gs != [] {
      TailChronological(gs);
      OtherGroupsChronological(gs[1..], groupId);
      var rest := OtherGroups(gs[1..], groupId);
      if gs[0].id != groupId {
        forall j | 0 <= j < |rest|
          ensures gs[0].createdAt <= rest[j].createdAt
        {
          var k :| 0 <= k < |gs[1..]| && gs[1..][k] == rest[j];
          assert gs[k + 1] == rest[j];
        }
        ConsChronological(gs[0], rest);
      }
    }
  }

  /** The first group with that id. */
  function GroupIndex(gs: seq<Group>, id: string): (r: Option<nat>)
    ensures r.None? <==> forall i :: 0 <= i < |gs| ==> gs[i].id != id
    ensures r.Some? ==> r.value < |gs| && gs[r.value].id == id
  {
    if gs == [] then None
    else if gs[0].id == id then Some(0)
    else
      var r := GroupIndex(gs[1..], id);
      if r.Some? then Some(r.value + 1) else None
  }

  /** Updating a group in place, under the same id, keeps every lookup where it was. */
  lemma {:induction false} GroupIndexUpdate(gs: seq<Group>, k: nat, g: Group, id: string)
    requires k < |gs| && g.id == gs[k].id
    ensures GroupIndex(gs[k := g], id) == GroupIndex(gs, id)
  {
    if k > 0 {
      assert gs[k := g][1..] == gs[1..][k - 1 := g];
      GroupIndexUpdate(gs[1..], k - 1, g, id);
    }
  }

  /** Replacing a group by one created at the same time keeps the order. */
  lemma ReplaceChronological(gs: seq<Group>, k: nat, g: Group)
    requires k < |gs| && g.createdAt == gs[k].createdAt && Chronological(gs)
    ensures Chronological(gs[k := g])
  {
    var u := gs[k := g];
    forall i, j | 0 <= i < j < |u|
      ensures u[i].createdAt <= u[j].createdAt
    {
      assert u[i].createdAt == gs[i].createdAt && u[j].createdAt == gs[j].createdAt;
    }
  }

  /** `findById` over groups. */
  function Lookup(gs: seq<Group>, id: string): (r: Option<Group>)
    ensures r.None? <==> GroupIndex(gs, id).None?
    ensures r.Some? ==> r.value == gs[GroupIndex(gs, id).value] && r.value.id == id
  {
    var k := GroupIndex(gs, id);
    if k.Some? then Some(gs[k.value]) else None
  }

  /** `requestToJoinGroup` gets past its checks: the group exists and the requester is
      neither a member, an admin nor already pending. */
  predicate CanRequest(gs: seq<Group>, groupId: string, requesterId: string) {
    var g := Lookup(gs, groupId);
    g.Some? && requesterId !in g.value.members && requesterId !in g.value.admins
    && requesterId !in g.value.joinRequests
  }

  /** The group with the requester's pending request added. */
  function Requested(g: Group, requesterId: string): (g': Group)
    ensures g'.joinRequests == g.joinRequests + [requesterId]
    ensures g'.id == g.id && g'.members == g.members && g'.admins == g.admins
    ensures g'.createdAt == g.createdAt
    ensures requesterId !in g.joinRequests ==> Lists.Count(g'.joinRequests, requesterId) == 1
  {
    Lists.CountAppend(g.joinRequests, [requesterId], requesterId);
    g.(joinRequests := g.joinRequests + [requesterId])
  }

  /** `handleJoinRequest` gets past its checks: the group exists, the caller is one of
      its admins and the requester is pending. */
  predicate CanHandle(gs: seq<Group>, groupId: string, adminId: string, requesterId: string) {
    var g := Lookup(gs, groupId);
    g.Some? && adminId in g.value.admins && requesterId in g.value.joinRequests
  }

  /** The group once `handleJoinRequest` has handled `requesterId`: the request is gone,
      and an accepted requester is a member, added only when not one already. */
  function Handled(g: Group, requesterId: string, accept: bool): (g': Group)
    ensures g'.id == g.id && g'.name == g.name && g'.admins == g.admins
    ensures g'.createdAt == g.createdAt
    ensures g'.joinRequests == Lists.RemoveAll(g.joinRequests, requesterId)
    ensures requesterId !in g'.joinRequests
    ensures requesterId in g'.members <==> accept || requesterId in g.members
    ensures Lists.Count(g.members, requesterId) <= 1 ==> Lists.Count(g'.members, requesterId) <= 1
    ensures forall x :: x != requesterId ==> Lists.Count(g'.members, x) == Lists.Count(g.members, x)
  {
    var members := if accept && requesterId !in g.members then g.members + [requesterId] else g.members;
    Lists.CountAppend(g.members, [requesterId], requesterId);
    forall x | x != requesterId
      ensures Lists.Count(members, x) == Lists.Count(g.members, x)
    {
      Lists.CountAppend(g.members, [requesterId], x);
    }
    g.(members := members, joinRequests := Lists.RemoveAll(g.joinRequests, requesterId))
  }

  /** `uuidv4().slice(0, 8)`. */
  function InviteCode(uuid: string): (code: string)
    ensures |code| <= 8 && |code| <= |uuid| && code == uuid[..|code|]
    ensures |uuid| >= 8 ==> |code| == 8
  {
    if |uuid| <= 8 then uuid else uuid[..8]
  }

  /** The group exists and `userId` is one of its admins. */
  predicate IsAdminOf(gs: seq<Group>, groupId: string, userId: string) {
    var k := GroupIndex(gs, groupId);
    k.Some? && userId in gs[k.value].admins
  }

  /** The keys `deleteGroup` removes. */
  function DeleteKeys(groupId: string, userId: string): set<string> {
    {GroupKey(groupId), MessagesKey(groupId), RequestsKey(groupId), ListKey(userId)}
  }

  /** Deleting a group leaves every other user's cached group list in place, still
      listing the deleted group until its time-to-live runs out. */
  lemma DeleteKeepsOtherLists(cache: map<string, Entry>, groupId: string, deleter: string, other: string)
    requires other != deleter && ListKey(other) in cache
    ensures ListKey(other) in cache - DeleteKeys(groupId, deleter)
    ensures (cache - DeleteKeys(groupId, deleter))[ListKey(other)] == cache[ListKey(other)]
  {
    KeysDistinct(other, groupId);
    KeysDistinct(other, deleter);
  }

  /** The group handlers over the group, user, message and notification collections
      and the cache. `base` is the `BASE_URL` setting. */
  class GroupService {
    var groups: seq<Group>
    var users: map<string, Person>
    var messages: seq<Message>
    var notifications: seq<Notification>
    var cache: map<string, Entry>

    ghost predicate Valid()
      reads this
    {
      Chronological(groups)
    }

    constructor ()
      ensures groups == [] && users == map[] && messages == [] && notifications == [] && cache == map[]
      ensures Valid()
    {
      groups := [];
      users := map[];
      messages := [];
      notifications := [];
      cache := map[];
    }

    /** No stored group is newer than `now`. */
    predicate NotBefore(now: int)
      reads this
    {
      forall i :: 0 <= i < |groups| ==> groups[i].createdAt <= now
    }

    /** `createGroup`. `hasFile` says whether an icon came with the request and
        `uploadUrl` is the upload's URL (`None` when the upload fails); `newId`, `uuid`
        and `now` are the new id, the random UUID and the clock. A private group takes
        its creator's institute; a missing creator then makes the handler fail. */
    method CreateGroup(base: Option<string>, creatorId: string, name: string, description: string,
                       privacy: string, hasFile: bool, uploadUrl: Option<string>,
                       newId: string, uuid: string, now: int) returns (reply: Reply)
      requires Valid() && NotBefore(now)
      modifies this
      ensures Valid()
      ensures users == old(users) && messages == old(messages) && notifications == old(notifications)
      ensures var fails := (hasFile && uploadUrl.None?) || (privacy == "private" && creatorId !in users);
        if fails then
          reply == Reply(500, Crash) && groups == old(groups) && cache == old(cache)
        else
          var image := if hasFile then uploadUrl.value else "";
          var institute := if privacy == "private" then Some(users[creatorId].institute) else None;
          var g := Group(newId, name, description, privacy, institute, [creatorId], [creatorId], [],
                         image, InviteCode(uuid), now);
          groups == old(groups) + [g]
          && cache == old(cache) - {ListKey(creatorId)}
          && reply == Reply(201, Data(GroupDoc(g.(image := FormatUrl(base, image)))))
    {
      var imageUrl := "";
      if hasFile {
        if uploadUrl.None? {
          return Reply(500, Crash);
        }
        imageUrl := uploadUrl.value;
      }
      var institute: Option<string> := None;
      if privacy == "private" {
        if creatorId !in users {
          return Reply(500, Crash);
        }
        institute := Some(users[creatorId].institute);
      }
      var g := Group(newId, name, description, privacy, institute, [creatorId], [creatorId], [],
                     imageUrl, InviteCode(uuid), now);
      groups := groups + [g];
      cache := cache - {ListKey(creatorId)};
      reply := Reply(201, Data(GroupDoc(g.(image := FormatUrl(base, imageUrl)))));
    }

    /** `getGroups`: a cached list is answered as is; otherwise the list is computed,
        cached for two minutes and answered. A caller without a user record makes the
        handler fail. */
    method GetGroups(base: Option<string>, userId: string) returns (reply: Reply)
      requires Valid()
      modifies this
      ensures groups == old(groups) && users == old(users) && messages == old(messages)
      ensures notifications == old(notifications)
      ensures ListKey(userId) in old(cache) ==>
        reply == Reply(200, Data(old(cache)[ListKey(userId)].payload)) && cache == old(cache)
      ensures ListKey(userId) !in old(cache) && userId !in users ==> reply == Reply(500, Crash) && cache == old(cache)
      ensures ListKey(userId) !in old(cache) && userId in users ==>
        var list := GroupList(GroupListFor(base, groups, userId, users[userId].institute));
        reply == Reply(200, Data(list)) && cache == old(cache)[ListKey(userId) := Entry(list, ListTtl)]
    {
      var key := ListKey(userId);
      if key in cache {
        return Reply(200, Data(cache[key].payload));
      }
      if userId !in users {
        return Reply(500, Crash);
      }
      var list := GroupList(GroupListFor(base, groups, userId, users[userId].institute));
      cache := cache[key := Entry(list, ListTtl)];
      reply := Reply(200, Data(list));
    }

    /** `getGroupById`: always reads the store, never the cache, and caches the group
        for thirty minutes. */
    method GetGroupById(id: string) returns (reply: Reply)
      modifies this
      ensures groups == old(groups) && users == old(users) && messages == old(messages)
      ensures notifications == old(notifications)
      ensures var k := GroupIndex(groups, id);
        if k.None? then reply == Reply(404, Text("Group not found")) && cache == old(cache)
        else reply == Reply(200, Data(GroupDoc(groups[k.value])))
             && cache == old(cache)[GroupKey(id) := Entry(GroupDoc(groups[k.value]), GroupTtl)]
    {
      var k := GroupIndex(groups, id);
      if k.None? {
        return Reply(404, Text("Group not found"));
      }
      var g := groups[k.value];
      cache := cache[GroupKey(id) := Entry(GroupDoc(g), GroupTtl)];
      reply := Reply(200, Data(GroupDoc(g)));
    }

    /** The notification of a join request, one per admin. */
    static function JoinRequestNotices(admins: seq<string>, requesterId: string, text: string,
                                       groupId: string, now: int): (ns: seq<Notification>)
      ensures |ns| == |admins|
      ensures forall i :: 0 <= i < |ns| ==> ns[i] == NotificationController.Notification(
        admins[i], Some(requesterId), "GROUP_JOIN_REQUEST", Some(text), None, Some(groupId), false, now)
    {
      seq(|admins|, i requires 0 <= i < |admins| => NotificationController.Notification(
        admins[i], Some(requesterId), "GROUP_JOIN_REQUEST", Some(text), None, Some(groupId), false, now))
    }

    /** `requestToJoinGroup`: 404 for an unknown group, then 400 for a member or admin,
        then 400 for a pending request; otherwise the requester joins the request list
        once, the group's cache entries are dropped and every admin is notified. */
    method RequestToJoinGroup(groupId: string, requesterId: string, requesterName: string, now: int)
      returns (reply: Reply)
      requires Valid()
      modifies this
      ensures Valid()
      ensures users == old(users) && messages == old(messages)
      ensures Lookup(old(groups), groupId).None? ==> reply == Reply(404, Text("Group not found")) && unchanged(this)
      ensures Lookup(old(groups), groupId).Some? ==>
        var g := Lookup(old(groups), groupId).value;
        requesterId in g.members || requesterId in g.admins ==>
          reply == Reply(400, Text("You are already a member of this group")) && unchanged(this)
      ensures Lookup(old(groups), groupId).Some? ==>
        var g := Lookup(old(groups), groupId).value;
        requesterId !in g.members && requesterId !in g.admins && requesterId in g.joinRequests ==>
          reply == Reply(400, Text("Request is already pending")) && unchanged(this)
      ensures CanRequest(old(groups), groupId, requesterId) ==>
        groups == old(groups)[GroupIndex(old(groups), groupId).value := Requested(Lookup(old(groups), groupId).value, requesterId)]
      ensures CanRequest(old(groups), groupId, requesterId) ==>
        cache == old(cache) - {GroupKey(groupId), RequestsKey(groupId)}
      ensures CanRequest(old(groups), groupId, requesterId) ==>
        var g := Lookup(old(groups), groupId).value;
        notifications == old(notifications) + JoinRequestNotices(g.admins, requesterId,
          requesterName + " requested to join \"" + g.name + "\"", g.id, now)
      ensures CanRequest(old(groups), groupId, requesterId) ==>
        reply == Reply(200, TextWithId("Request sent successfully", groupId))
    {
      var k := GroupIndex(groups, groupId);
      if k.None? {
        return Reply(404, Text("Group not found"));
      }
      var g := groups[k.value];
      if requesterId in g.members || requesterId in g.admins {
        return Reply(400, Text("You are already a member of this group"));
      }
      if requesterId in g.joinRequests {
        return Reply(400, Text("Request is already pending"));
      }
      ReplaceChronological(groups, k.value, Requested(g, requesterId));
      groups := groups[k.value := Requested(g, requesterId)];
      cache := cache - {GroupKey(groupId), RequestsKey(groupId)};
      var text := requesterName + " requested to join \"" + g.name + "\"";
      notifications := notifications + JoinRequestNotices(g.admins, requesterId, text, g.id, now);
      reply := Reply(200, TextWithId("Request sent successfully", g.id));
    }

    /** `handleJoinRequest`: 404, then 403 for a caller who is not an admin, then 400
        when there is no such request. The request is then removed whatever the action;
        "accept" also adds the requester to the members unless already there, notifies
        them and drops their cached list. */
    method HandleJoinRequest(groupId: string, requesterId: string, action: string, adminId: string, now: int)
      returns (reply: Reply)
      requires Valid()
      modifies this
      ensures Valid()
      ensures users == old(users) && messages == old(messages)
      ensures Lookup(old(groups), groupId).None? ==> reply == Reply(404, Text("Group not found")) && unchanged(this)
      ensures Lookup(old(groups), groupId).Some? && adminId !in Lookup(old(groups), groupId).value.admins ==>
        reply == Reply(403, Text("Only admins can manage requests")) && unchanged(this)
      ensures (Lookup(old(groups), groupId).Some? && adminId in Lookup(old(groups), groupId).value.admins
               && requesterId !in Lookup(old(groups), groupId).value.joinRequests) ==>
        reply == Reply(400, Text("Request not found or already handled")) && unchanged(this)
      ensures CanHandle(old(groups), groupId, adminId, requesterId) ==>
        groups == old(groups)[GroupIndex(old(groups), groupId).value :=
          Handled(Lookup(old(groups), groupId).value, requesterId, action == "accept")]
      ensures CanHandle(old(groups), groupId, adminId, requesterId) ==>
        cache == old(cache) - (if action == "accept" then {ListKey(requesterId)} else {})
                            - {GroupKey(groupId), RequestsKey(groupId)}
      ensures CanHandle(old(groups), groupId, adminId, requesterId) ==>
        notifications == old(notifications) + (if action == "accept" then [NotificationController.Notification(
          requesterId, Some(adminId), "GROUP_APPROVED",
          Some("Your request to join \"" + Lookup(old(groups), groupId).value.name + "\" was approved!"),
          None, Some(groupId), false, now)] else [])
      ensures CanHandle(old(groups), groupId, adminId, requesterId) ==>
        reply == Reply(200, Text("Request " + action + "ed successfully"))
    {
      var k := GroupIndex(groups, groupId);
      if k.None? {
        return Reply(404, Text("Group not found"));
      }
      var g := groups[k.value];
      if adminId !in g.admins {
        return Reply(403, Text("Only admins can manage requests"));
      }
      if requesterId !in g.joinRequests {
        return Reply(400, Text("Request not found or already handled"));
      }
      var accept := action == "accept";
      var approval := NotificationController.Notification(
        requesterId, Some(adminId), "GROUP_APPROVED",
        Some("Your request to join \"" + g.name + "\" was approved!"), None, Some(g.id), false, now);
      notifications := notifications + (if accept then [approval] else []);
      ReplaceChronological(groups, k.value, Handled(g, requesterId, accept));
      groups := groups[k.value := Handled(g, requesterId, accept)];
      cache := cache - (if accept then {ListKey(requesterId)} else {}) - {GroupKey(groupId), RequestsKey(groupId)};
      reply := Reply(200, Text("Request " + action + "ed successfully"));
    }

    /** `getGroupRequests`: a cached list is answered before anything else, to any
        caller; otherwise 404, then 403 for a non-admin, then the request list, cached
        for five minutes. */
    method GetGroupRequests(groupId: string, userId: string) returns (reply: Reply)
      modifies this
      ensures groups == old(groups) && users == old(users) && messages == old(messages)
      ensures notifications == old(notifications)
      ensures RequestsKey(groupId) in old(cache) ==>
        reply == Reply(200, Data(old(cache)[RequestsKey(groupId)].payload)) && cache == old(cache)
      ensures RequestsKey(groupId) !in old(cache) ==>
        var k := GroupIndex(groups, groupId);
        if k.None? then reply == Reply(404, Text("Group not found")) && cache == old(cache)
        else if userId !in groups[k.value].admins then
          reply == Reply(403, Text("Access denied. Admins only.")) && cache == old(cache)
        else
          var list := Requests(groups[k.value].joinRequests);
          reply == Reply(200, Data(list)) && cache == old(cache)[RequestsKey(groupId) := Entry(list, RequestsTtl)]
    {
      var key := RequestsKey(groupId);
      if key in cache {
        return Reply(200, Data(cache[key].payload));
      }
      var k := GroupIndex(groups, groupId);
      if k.None? {
        return Reply(404, Text("Group not found"));
      }
      var g := groups[k.value];
      if userId !in g.admins {
        return Reply(403, Text("Access denied. Admins only."));
      }
      var list := Requests(g.joinRequests);
      cache := cache[key := Entry(list, RequestsTtl)];
      reply := Reply(200, Data(list));
    }

    /** `joinGroup`: any user who is not yet a member joins, whatever the group's
        privacy; a member gets 400 and nothing changes. */
    method JoinGroup(groupId: string, userId: string) returns (reply: Reply)
      requires Valid()
      modifies this
      ensures Valid()
      ensures users == old(users) && messages == old(messages) && notifications == old(notifications)
      ensures var k := GroupIndex(old(groups), groupId);
        if k.None? then reply == Reply(404, Text("Group not found")) && unchanged(this)
        else
          var g := old(groups)[k.value];
          if userId in g.members then reply == Reply(400, Text("Already a member")) && unchanged(this)
          else
            groups == old(groups)[k.value := g.(members := g.members + [userId])]
            && cache == old(cache) - {GroupKey(groupId), ListKey(userId)}
            && reply == Reply(200, Text("Joined successfully"))
    {
      var k := GroupIndex(groups, groupId);
      if k.None? {
        return Reply(404, Text("Group not found"));
      }
      var g := groups[k.value];
      if userId in g.members {
        return Reply(400, Text("Already a member"));
      }
      ReplaceChronological(groups, k.value, g.(members := g.members + [userId]));
      groups := groups[k.value := g.(members := g.members + [userId])];
      cache := cache - {GroupKey(groupId), ListKey(userId)};
      reply := Reply(200, Text("Joined successfully"));
    }

    /** Each message with its sender; `None` when some sender has no user record. */
    static function ShapeMessages(base: Option<string>, ms: seq<Message>, users: map<string, Person>): (r: Option<seq<MessageView>>)
      ensures r.Some? <==> forall i :: 0 <= i < |ms| ==> ms[i].sender in users
      ensures r.Some? ==> |r.value| == |ms| && forall i :: 0 <= i < |ms| ==>
        r.value[i] == MessageView(ms[i], users[ms[i].sender].name,
                                  FormatUrl(base, users[ms[i].sender].profilePicture.GetOr("")))
    {
      if exists i | 0 <= i < |ms| :: ms[i].sender !in users then None
      else Some(seq(|ms|, i requires 0 <= i < |ms| => MessageView(ms[i], users[ms[i].sender].name,
                                  FormatUrl(base, users[ms[i].sender].profilePicture.GetOr("")))))
    }

    /** `getGroupMessages`: a cached history is answered as is; otherwise the group's
        messages, oldest first, each with its sender, cached for one minute. A message
        whose sender is gone makes the handler fail. */
    method GetGroupMessages(base: Option<string>, groupId: string) returns (reply: Reply)
      modifies this
      ensures groups == old(groups) && users == old(users) && messages == old(messages)
      ensures notifications == old(notifications)
      ensures MessagesKey(groupId) in old(cache) ==>
        reply == Reply(200, Data(old(cache)[MessagesKey(groupId)].payload)) && cache == old(cache)
      ensures MessagesKey(groupId) !in old(cache) ==>
        var shaped := ShapeMessages(base, GroupMessages(messages, groupId), users);
        if shaped.None? then reply == Reply(500, Crash) && cache == old(cache)
        else reply == Reply(200, Data(Messages(shaped.value)))
             && cache == old(cache)[MessagesKey(groupId) := Entry(Messages(shaped.value), MessagesTtl)]
    {
      var key := MessagesKey(groupId);
      if key in cache {
        return Reply(200, Data(cache[key].payload));
      }
      var shaped := ShapeMessages(base, GroupMessages(messages, groupId), users);
      if shaped.None? {
        return Reply(500, Crash);
      }
      cache := cache[key := Entry(Messages(shaped.value), MessagesTtl)];
      reply := Reply(200, Data(Messages(shaped.value)));
    }

    /** `deleteGroup`: 404, then 403 for a non-admin; then the group, its messages and
        its notifications go, and so do the group's three cache entries and the
        deleter's own list; other users' lists stay cached. */
    method DeleteGroup(groupId: string, userId: string) returns (reply: Reply)
      requires Valid()
      modifies this
      ensures Valid()
      ensures users == old(users)
      ensures GroupIndex(old(groups), groupId).None? ==>
        reply == Reply(404, Text("Group not found")) && unchanged(this)
      ensures GroupIndex(old(groups), groupId).Some? && !IsAdminOf(old(groups), groupId, userId) ==>
        reply == Reply(403, Text("Only admins can delete the group")) && unchanged(this)
      ensures IsAdminOf(old(groups), groupId, userId) ==> messages == OtherMessages(old(messages), groupId)
      ensures IsAdminOf(old(groups), groupId, userId) ==>
        notifications == UnrelatedNotifications(old(notifications), groupId)
      ensures IsAdminOf(old(groups), groupId, userId) ==> groups == OtherGroups(old(groups), groupId)
      ensures IsAdminOf(old(groups), groupId, userId) ==> cache == old(cache) - DeleteKeys(groupId, userId)
      ensures IsAdminOf(old(groups), groupId, userId) ==> reply == Reply(200, Text("Group deleted successfully"))
    {
      var k := GroupIndex(groups, groupId);
      if k.None? {
        return Reply(404, Text("Group not found"));
      }
      if userId !in groups[k.value].admins {
        return Reply(403, Text("Only admins can delete the group"));
      }
      messages := OtherMessages(messages, groupId);
      notifications := UnrelatedNotifications(notifications, groupId);
      OtherGroupsChronological(groups, groupId);
      groups := OtherGroups(groups, groupId);
      cache := cache - DeleteKeys(groupId, userId);
      reply := Reply(200, Text("Group deleted successfully"));
    }
  }

  /** A second direct join of the same user is refused and changes nothing: the groups
      end as the first join left them. */
  method JoinTwice(s: GroupService, groupId: string, userId: string) returns (first: Reply, second: Option<Reply>)
    requires s.Valid()
    modifies s
    ensures first.status == 200 ==> second == Some(Reply(400, Text("Already a member")))
    ensures first.status == 200 ==>
      (GroupIndex(old(s.groups), groupId).Some? &&
       var k := GroupIndex(old(s.groups), groupId).value;
       s.groups == old(s.groups)[k := old(s.groups)[k].(members := old(s.groups)[k].members + [userId])])
  {
    ghost var k := GroupIndex(s.groups, groupId);
    first := s.JoinGroup(groupId, userId);
    second := None;
    if first.status == 200 {
      GroupIndexUpdate(old(s.groups), k.value, s.groups[k.value], groupId);
      ghost var before := s.groups;
      var r := s.JoinGroup(groupId, userId);
      assert s.groups == before;
      second := Some(r);
    }
  }

  /** A request followed by its acceptance makes the requester a member and leaves no
      pending request. */
  method RequestThenAccept(s: GroupService, groupId: string, requesterId: string, adminId: string, now: int)
    returns (r1: Reply)
    requires s.Valid()
    modifies s
    ensures r1.status == 200 && Lookup(old(s.groups), groupId).Some? && adminId in Lookup(old(s.groups), groupId).value.admins ==>
      Lookup(s.groups, groupId).Some? && requesterId in Lookup(s.groups, groupId).value.members &&
      requesterId !in Lookup(s.groups, groupId).value.joinRequests
  {
    ghost var k := GroupIndex(s.groups, groupId);
    r1 := s.RequestToJoinGroup(groupId, requesterId, "", now);
    if r1.status == 200 {
      ghost var g := Requested(Lookup(old(s.groups), groupId).value, requesterId);
      GroupIndexUpdate(old(s.groups), k.value, g, groupId);
      ghost var before := s.groups;
      assert Lookup(before, groupId) == Some(g);
      var r2 := s.HandleJoinRequest(groupId, requesterId, "accept", adminId, now);
      if adminId in g.admins {
        assert CanHandle(before, groupId, adminId, requesterId);
        ghost var h := Handled(g, requesterId, true);
        GroupIndexUpdate(before, k.value, h, groupId);
        assert s.groups == before[k.value := h];
        assert Lookup(s.groups, groupId) == Some(h);
      }
    }
  }

}
