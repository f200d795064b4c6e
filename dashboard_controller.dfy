/** Post likes and comments, the connection-request lifecycle between two users, the
    network and discover queries, and the profile update. */
module DashboardController {
  import opened Optional
  import Lists

  datatype Comment = Comment(user: string, text: string, createdAt: int)

  datatype Post = Post(id: string, author: string, text: string, image: string,
                       likes: seq<string>, comments: seq<Comment>)

  datatype Status = Pending | Accepted | Rejected

  /** A connection row: `requester` asked `recipient`. */
  datatype Connection = Connection(id: string, requester: string, recipient: string, status: Status)

  /** A JSON value of a profile field or of an update body. */
  datatype Value = Str(s: string) | Flag(b: bool) | List(items: seq<string>) | Null

  /** A user document as a field map. */
  datatype Account = Account(id: string, profile: map<string, Value>)

  datatype Reply<T> = Ok(value: T) | Error(status: int, message: string)

  /** One invitation of the network answer: the row id and the requester. */
  datatype Invite = Invite(id: string, user: string)

  /** One entry of the discover answer. */
  datatype DiscoverEntry = DiscoverEntry(id: string, name: Option<Value>, institute: Option<Value>,
                                         headline: Option<Value>, status: string)

  const DiscoverLimit: nat := 20

  /** The fields a profile update may not change. */
  const Protected: set<string> := {"password", "email", "role", "_id"}

  function StatusName(s: Status): (name: string)
    ensures name in {"pending", "accepted", "rejected"}
  {
    match s
    case Pending => "pending"
    case Accepted => "accepted"
    case Rejected => "rejected"
  }

  /** The first post with that id. */
  function PostIndex(posts: seq<Post>, id: string): (r: Option<nat>)
    ensures r.None? <==> forall i :: 0 <= i < |posts| ==> posts[i].id != id
    ensures r.Some? ==> r.value < |posts| && posts[r.value].id == id
  {
    if posts == [] then None
    else if posts[0].id == id then Some(0)
    else
      var r := PostIndex(posts[1..], id);
      if r.Some? then Some(r.value + 1) else None
  }

  /** The row joins `a` and `b`, in either direction. */
  predicate Joins(c: Connection, a: string, b: string) {
    (c.requester == a && c.recipient == b) || (c.requester == b && c.recipient == a)
  }

  /** `findOne({ $or: [a→b, b→a] })`: the first row for the unordered pair. */
  function FindPair(cs: seq<Connection>, a: string, b: string): (r: Option<Connection>)
    ensures r.None? <==> forall i :: 0 <= i < |cs| ==> !Joins(cs[i], a, b)
    ensures r.Some? ==> r.value in cs && Joins(r.value, a, b)
  {
    if cs == [] then None
    else if Joins(cs[0], a, b) then Some(cs[0])
    else FindPair(cs[1..], a, b)
  }

  /** The pair lookup does not depend on which side asks. */
  lemma {:induction false} FindPairSymmetric(cs: seq<Connection>, a: string, b: string)
    ensures FindPair(cs, a, b) == FindPair(cs, b, a)
  {
    if cs != [] {
      FindPairSymmetric(cs[1..], a, b);
    }
  }

  /** A row appended for a pair that had none is the one the lookup finds. */
  lemma {:induction false} FindPairAppended(cs: seq<Connection>, c: Connection, a: string, b: string)
    requires forall i :: 0 <= i < |cs| ==> !Joins(cs[i], a, b)
    requires Joins(c, a, b)
    ensures FindPair(cs + [c], a, b) == Some(c)
  {
    if cs != [] {
      assert (cs + [c])[1..] == cs[1..] + [c];
      FindPairAppended(cs[1..], c, a, b);
    }
  }

  /** The first row with that id. */
  function ConnectionIndex(cs: seq<Connection>, id: string): (r: Option<nat>)
    ensures r.None? <==> forall i :: 0 <= i < |cs| ==> cs[i].id != id
    ensures r.Some? ==> r.value < |cs| && cs[r.value].id == id
  {
    if cs == [] then None
    else if cs[0].id == id then Some(0)
    else
      var r := ConnectionIndex(cs[1..], id);
      if r.Some? then Some(r.value + 1) else None
  }

  /** At most one row per unordered pair, and row ids are distinct. */
  ghost predicate WellFormed(cs: seq<Connection>) {
    forall i, j :: 0 <= i < j < |cs| ==> !Joins(cs[j], cs[i].requester, cs[i].recipient) && cs[i].id != cs[j].id
  }

  /** Deleting a row keeps the rows well formed. */
  lemma WellFormedRemove(cs: seq<Connection>, k: nat)
    requires k < |cs| && WellFormed(cs)
    ensures WellFormed(cs[..k] + cs[k + 1..])
  {
    var r := cs[..k] + cs[k + 1..];
    forall i, j | 0 <= i < j < |r|
      ensures !Joins(r[j], r[i].requester, r[i].recipient) && r[i].id != r[j].id
    {
      var i', j' := if i < k then i else i + 1, if j < k then j else j + 1;
      assert r[i] == cs[i'] && r[j] == cs[j'];
    }
  }

  /** The other side of a row, seen from `me`. */
  function Counterpart(me: string, c: Connection): (other: string)
    ensures c.requester == me ==> other == c.recipient
    ensures c.requester != me ==> other == c.requester
    ensures (c.requester == me || c.recipient == me) ==> Joins(c, me, other)
  {
    if c.requester == me then c.recipient else c.requester
  }

  /** A pending row addressed to `me`. */
  predicate InvitesMe(c: Connection, me: string) {
    c.recipient == me && c.status == Pending
  }

  /** `find({ recipient: me, status: 'pending' })`, in stored order. */
  function PendingFor(cs: seq<Connection>, me: string): (p: seq<Connection>)
    ensures forall k :: 0 <= k < |p| ==> p[k] in cs && InvitesMe(p[k], me)
    ensures forall i :: 0 <= i < |cs| && InvitesMe(cs[i], me) ==> cs[i] in p
  {
    if cs == [] then []
    else if InvitesMe(cs[0], me) then [cs[0]] + PendingFor(cs[1..], me)
    else PendingFor(cs[1..], me)
  }

  /** Each row shaped `{ _id, user: requester }`. */
  function InvitesOf(p: seq<Connection>): (r: seq<Invite>)
    ensures |r| == |p|
    ensures forall k :: 0 <= k < |p| ==> r[k] == Invite(p[k].id, p[k].requester)
  {
    seq(|p|, k requires 0 <= k < |p| => Invite(p[k].id, p[k].requester))
  }

  /** The pending rows addressed to `me`, shaped `{ _id, user: requester }`. */
  function Invitations(cs: seq<Connection>, me: string): (r: seq<Invite>)
    ensures forall k :: 0 <= k < |r| ==> exists c | c in cs :: InvitesMe(c, me) && r[k] == Invite(c.id, c.requester)
    ensures forall i :: 0 <= i < |cs| && InvitesMe(cs[i], me) ==> Invite(cs[i].id, cs[i].requester) in r
  {
    var p := PendingFor(cs, me);
    var r := InvitesOf(p);
    forall k | 0 <= k < |r|
      ensures exists c | c in cs :: InvitesMe(c, me) && r[k] == Invite(c.id, c.requester)
    {
      var c := p[k];
      assert c in cs && InvitesMe(c, me) && r[k] == Invite(c.id, c.requester);
    }
    forall i | 0 <= i < |cs| && InvitesMe(cs[i], me)
      ensures Invite(cs[i].id, cs[i].requester) in r
    {
      var k :| 0 <= k < |p| && p[k] == cs[i];
      assert r[k] == Invite(cs[i].id, cs[i].requester);
    }
    r
  }

  /** An accepted row with `me` on exactly one side. */
  predicate ConnectsMe(c: Connection, me: string) {
    c.status == Accepted
    && ((c.requester == me && c.recipient != me) || (c.recipient == me && c.requester != me))
  }

  /** The accepted connections of `me`, each mapped to the other party, who is never
      `me`. */
  function NetworkPeers(cs: seq<Connection>, me: string): (r: seq<string>)
    ensures forall k :: 0 <= k < |r| ==> r[k] != me
    ensures forall k :: 0 <= k < |r| ==> PeerIn(cs, me, r[k])
    ensures forall i :: 0 <= i < |cs| && ConnectsMe(cs[i], me) ==> Counterpart(me, cs[i]) in r
  {
    var p := AcceptedFor(cs, me);
    var r := CounterpartsOf(me, p);
    PeersSound(cs, me, p, r);
    PeersComplete(cs, me, p, r);
    r
  }

  /** `x` is the other party of some accepted connection of `me` in `cs`. */
  predicate PeerIn(cs: seq<Connection>, me: string, x: string) {
    exists c | c in cs :: ConnectsMe(c, me) && x == Counterpart(me, c)
  }

  /** The accepted rows with `me` on exactly one side, in stored order. */
  function AcceptedFor(cs: seq<Connection>, me: string): (p: seq<Connection>)
    ensures forall k :: 0 <= k < |p| ==> p[k] in cs && ConnectsMe(p[k], me)
    ensures forall i :: 0 <= i < |cs| && ConnectsMe(cs[i], me) ==> cs[i] in p
  {
    if cs == [] then []
    else if ConnectsMe(cs[0], me) then [cs[0]] + AcceptedFor(cs[1..], me)
    else AcceptedFor(cs[1..], me)
  }

  /** Every peer comes from an accepted connection of `me` and is not `me`. */
  lemma PeersSound(cs: seq<Connection>, me: string, p: seq<Connection>, r: seq<string>)
    requires forall k :: 0 <= k < |p| ==> p[k] in cs && ConnectsMe(p[k], me)
    requires |r| == |p|
    requires forall k :: 0 <= k < |p| ==> r[k] == Counterpart(me, p[k])
    ensures forall k :: 0 <= k < |r| ==> r[k] != me
    ensures forall k :: 0 <= k < |r| ==> PeerIn(cs, me, r[k])
  {
    forall k | 0 <= k < |r|
      ensures PeerIn(cs, me, r[k])
    {
      var c := p[k];
      assert c in cs && ConnectsMe(c, me) && r[k] == Counterpart(me, c);
    }
    forall k | 0 <= k < |r|
      ensures r[k] != me
    {
      assert ConnectsMe(p[k], me);
    }
  }

  /** Every accepted connection of `me` contributes its other party. */
  lemma PeersComplete(cs: seq<Connection>, me: string, p: seq<Connection>, r: seq<string>)
    requires forall i :: 0 <= i < |cs| && ConnectsMe(cs[i], me) ==> cs[i] in p
    requires |r| == |p|
    requires forall k :: 0 <= k < |p| ==> r[k] == Counterpart(me, p[k])
    ensures forall i :: 0 <= i < |cs| && ConnectsMe(cs[i], me) ==> Counterpart(me, cs[i]) in r
  {
    forall i | 0 <= i < |cs| && ConnectsMe(cs[i], me)
      ensures Counterpart(me, cs[i]) in r
    {
      var k :| 0 <= k < |p| && p[k] == cs[i];
      assert r[k] == Counterpart(me, cs[i]);
    }
  }

  /** Each row mapped to its other party. */
  function CounterpartsOf(me: string, p: seq<Connection>): (r: seq<string>)
    ensures |r| == |p|
    ensures forall k :: 0 <= k < |p| ==> r[k] == Counterpart(me, p[k])
  {
    seq(|p|, k requires 0 <= k < |p| => Counterpart(me, p[k]))
  }

  /** `find({ $or: [{ requester: me }, { recipient: me }] })`. */
  function Relationships(cs: seq<Connection>, me: string): (r: seq<Connection>)
    ensures forall k :: 0 <= k < |r| ==> r[k] in cs && (r[k].requester == me || r[k].recipient == me)
    ensures forall i :: 0 <= i < |cs| && (cs[i].requester == me || cs[i].recipient == me) ==> cs[i] in r
  {
    if cs == [] then []
    else if cs[0].requester == me || cs[0].recipient == me then [cs[0]] + Relationships(cs[1..], me)
    else Relationships(cs[1..], me)
  }

  /** The status map the discover loop builds: each row sets its other party's entry,
      later rows overwriting earlier ones. */
  function StatusMapOf(rels: seq<Connection>, me: string): map<string, Status>
  {
    if rels == [] then map[]
    else
      var last := rels[|rels| - 1];
      StatusMapOf(rels[..|rels| - 1], me)[Counterpart(me, last) := last.status]
  }

  /** A user has an entry exactly when some row names them as the other party. */
  lemma {:induction false} StatusMapDomain(rels: seq<Connection>, me: string, other: string)
    ensures other in StatusMapOf(rels, me) <==> exists i :: 0 <= i < |rels| && Counterpart(me, rels[i]) == other
  {
    if rels != [] {
      var init := rels[..|rels| - 1];
      StatusMapDomain(init, me, other);
      if exists i :: 0 <= i < |rels| && Counterpart(me, rels[i]) == other {
        var i :| 0 <= i < |rels| && Counterpart(me, rels[i]) == other;
        if i < |init| {
          assert init[i] == rels[i];
        }
      }
      if exists i :: 0 <= i < |init| && Counterpart(me, init[i]) == other {
        var i :| 0 <= i < |init| && Counterpart(me, init[i]) == other;
        assert rels[i] == init[i];
      }
    }
  }

  /** The entry is the status of the last row naming that user: later rows overwrite. */
  lemma {:induction false} StatusMapLastWins(rels: seq<Connection>, me: string, i: nat)
    requires i < |rels|
    requires forall j :: i < j < |rels| ==> Counterpart(me, rels[j]) != Counterpart(me, rels[i])
    ensures Counterpart(me, rels[i]) in StatusMapOf(rels, me)
    ensures StatusMapOf(rels, me)[Counterpart(me, rels[i])] == rels[i].status
  {
    var last := |rels| - 1;
    if i < last {
      var init := rels[..last];
      assert forall j :: i < j < |init| ==> init[j] == rels[j];
      StatusMapLastWins(init, me, i);
      assert init[i] == rels[i];
    }
  }

  /** The `forEach` over my relationships that fills `statusMap`. */
  method BuildStatusMap(rels: seq<Connection>, me: string) returns (statusMap: map<string, Status>)
    ensures statusMap == StatusMapOf(rels, me)
  {
    statusMap := map[];
    var i := 0;
    while i < |rels|
      invariant 0 <= i <= |rels|
      invariant statusMap == StatusMapOf(rels[..i], me)
    {
      var rel := rels[i];
      var otherId := if rel.requester == me then rel.recipient else rel.requester;
      statusMap := statusMap[otherId := rel.status];
      assert rels[..i + 1][..i] == rels[..i];
      i := i + 1;
    }
    assert rels[..i] == rels;
  }

  /** `User.find({ _id: { $ne: me } }).limit(20)`. */
  function Others(users: seq<Account>, me: string, limit: nat): (r: seq<Account>)
    ensures |r| <= limit
    ensures forall k :: 0 <= k < |r| ==> r[k].id != me && r[k] in users
  {
    if users == [] || limit == 0 then []
    else if users[0].id == me then Others(users[1..], me, limit)
    else [users[0]] + Others(users[1..], me, limit - 1)
  }

  /** The users other than the caller, in stored order (`{ _id: { $ne: me } }` without
      the limit). */
  function NotMe(users: seq<Account>, me: string): (r: seq<Account>)
    ensures |r| <= |users|
    ensures forall k :: 0 <= k < |r| ==> r[k].id != me && r[k] in users
    ensures forall k :: 0 <= k < |users| && users[k].id != me ==> users[k] in r
  {
    if users == [] then []
    else if users[0].id == me then NotMe(users[1..], me)
    else [users[0]] + NotMe(users[1..], me)
  }

  /** The limited query is the first `limit` users other than the caller, in stored
      order, or all of them when there are fewer. */
  lemma {:induction false} OthersFirst(users: seq<Account>, me: string, limit: nat)
    ensures Others(users, me, limit) == Lists.Take(NotMe(users, me), limit)
  {
    if users == [] || limit == 0 {
    } else if users[0].id == me {
      OthersFirst(users[1..], me, limit);
    } else {
      OthersFirst(users[1..], me, limit - 1);
      Lists.TakeCons(users[0], NotMe(users[1..], me), limit - 1);
    }
  }

  function Field(a: Account, key: string): Option<Value> {
    if key in a.profile then Some(a.profile[key]) else None
  }

  /** `getDiscoverUsers`: up to twenty users other than the caller, each with the status
      of its relationship to the caller, or "none". */
  method DiscoverUsers(cs: seq<Connection>, users: seq<Account>, me: string) returns (r: seq<DiscoverEntry>)
    ensures |r| <= DiscoverLimit
    ensures forall k :: 0 <= k < |r| ==> r[k].id != me
    ensures var page := Others(users, me, DiscoverLimit); var sm := StatusMapOf(Relationships(cs, me), me);
      |r| == |page| && forall k :: 0 <= k < |r| ==>
        r[k] == DiscoverEntry(page[k].id, Field(page[k], "name"), Field(page[k], "institute"),
                              Field(page[k], "headline"),
                              if page[k].id in sm then StatusName(sm[page[k].id]) else "none")
  {
    var statusMap := BuildStatusMap(Relationships(cs, me), me);
    var page := Others(users, me, DiscoverLimit);
    r := seq(|page|, k requires 0 <= k < |page| =>
      DiscoverEntry(page[k].id, Field(page[k], "name"), Field(page[k], "institute"), Field(page[k], "headline"),
                    if page[k].id in statusMap then StatusName(statusMap[page[k].id]) else "none"));
  }

  /** A field map without the protected fields. */
  function WithoutProtected(m: map<string, Value>): (r: map<string, Value>)
    ensures forall k :: k in r <==> k in m && k !in Protected
    ensures forall k :: k in r ==> r[k] == m[k]
  {
    map k | k in m && k !in Protected :: m[k]
  }

  /** The four `delete updates.<field>` statements. */
  method StripProtected(updates: map<string, Value>) returns (clean: map<string, Value>)
    ensures forall k :: k in clean <==> k in updates && k !in Protected
    ensures forall k :: k in clean ==> clean[k] == updates[k]
    ensures clean == WithoutProtected(updates)
  {
    clean := updates;
    clean := clean - {"password"};
    clean := clean - {"email"};
    clean := clean - {"role"};
    clean := clean - {"_id"};
  }

  /** The stored fields after `findByIdAndUpdate` with an update that names only plain
      fields: each named field is overwritten, every other field is kept. */
  function Overwrite(profile: map<string, Value>, fields: map<string, Value>): (p: map<string, Value>)
    ensures forall k :: k in p <==> k in profile || k in fields
    ensures forall k :: k in p ==> p[k] == if k in fields then fields[k] else profile[k]
  {
    profile + fields
  }

  /** The profile update as the handler performs it when the body also carries a `$set`
      operator key: the deletes reach only the top-level fields, Mongoose folds those
      into `$set`, and the fields under `$set` are written as they came. */
  function CastUpdateAsWritten(profile: map<string, Value>, plain: map<string, Value>,
                               setFields: map<string, Value>): map<string, Value>
  {
    Overwrite(Overwrite(profile, setFields), WithoutProtected(plain))
  }

  /** As written, a protected field under `$set` is stored. */
  lemma AsWrittenSetReachesProtected(profile: map<string, Value>, plain: map<string, Value>,
                                     setFields: map<string, Value>, k: string)
    requires k in Protected && k in setFields
    ensures k in CastUpdateAsWritten(profile, plain, setFields)
    ensures CastUpdateAsWritten(profile, plain, setFields)[k] == setFields[k]
  {
  }

  /** The body `{"$set": {"role": "admin"}}` makes a student an admin. */
  lemma SetOperatorMakesAdmin()
    ensures CastUpdateAsWritten(map["role" := Str("student")], map[], map["role" := Str("admin")])["role"] == Str("admin")
  {
    AsWrittenSetReachesProtected(map["role" := Str("student")], map[], map["role" := Str("admin")], "role");
  }

  /** The update with the protected fields removed from the `$set` fields as well as
      from the top level. */
  function CastUpdate(profile: map<string, Value>, plain: map<string, Value>,
                      setFields: map<string, Value>): map<string, Value>
  {
    Overwrite(Overwrite(profile, WithoutProtected(setFields)), WithoutProtected(plain))
  }

  /** Whatever the body, the corrected update leaves every protected field as stored:
      present iff it was, with the same value. Without operator keys it is the update
      `updateProfile` performs on a plain body. */
  lemma CastUpdateKeepsProtected(profile: map<string, Value>, plain: map<string, Value>,
                                 setFields: map<string, Value>, k: string)
    requires k in Protected
    ensures k in CastUpdate(profile, plain, setFields) <==> k in profile
    ensures k in profile ==> CastUpdate(profile, plain, setFields)[k] == profile[k]
    ensures CastUpdate(profile, plain, map[]) == Overwrite(profile, WithoutProtected(plain))
  {
    assert WithoutProtected(map[]) == map[];
    assert Overwrite(profile, map[]) == profile;
  }

  /** Posts, connections and users as the dashboard handlers see them. */
  class DashboardService {
    var posts: seq<Post>
    var connections: seq<Connection>
    var users: seq<Account>

    ghost predicate Valid()
      reads this
    {
      WellFormed(connections)
    }

    constructor ()
      ensures posts == [] && connections == [] && users == [] && Valid()
    {
      posts := [];
      connections := [];
      users := [];
    }

    /** `toggleLike`: the user's id leaves the likes when present (every occurrence),
        and joins them at the end otherwise; the answer is the new likes. */
    method ToggleLike(postId: string, userId: string) returns (reply: Reply<seq<string>>)
      modifies this
      ensures connections == old(connections) && users == old(users)
      ensures var k := PostIndex(old(posts), postId);
        if k.None? then reply == Error(404, "Post not found") && posts == old(posts)
        else
          var likes := Lists.Toggle(old(posts)[k.value].likes, userId);
          posts == old(posts)[k.value := old(posts)[k.value].(likes := likes)] && reply == Ok(likes)
    {
      var k := PostIndex(posts, postId);
      if k.None? {
        return Error(404, "Post not found");
      }
      var post := posts[k.value];
      var likes := post.likes;
      if userId in likes {
        likes := Lists.RemoveAll(likes, userId);
      } else {
        likes := likes + [userId];
      }
      posts := posts[k.value := post.(likes := likes)];
      reply := Ok(likes);
    }

    /** `addComment`: one comment is appended; the answer is the post's comment list. */
    method AddComment(postId: string, userId: string, text: string, now: int) returns (reply: Reply<seq<Comment>>)
      modifies this
      ensures connections == old(connections) && users == old(users)
      ensures var k := PostIndex(old(posts), postId);
        if k.None? then reply == Error(404, "Post not found") && posts == old(posts)
        else
          var comments := old(posts)[k.value].comments + [Comment(userId, text, now)];
          posts == old(posts)[k.value := old(posts)[k.value].(comments := comments)] && reply == Ok(comments)
    {
      var k := PostIndex(posts, postId);
      if k.None? {
        return Error(404, "Post not found");
      }
      var post := posts[k.value];
      var comments := post.comments + [Comment(userId, text, now)];
      posts := posts[k.value := post.(comments := comments)];
      reply := Ok(comments);
    }

    /** `sendConnectionRequest`. `newId` is the id the database gives the new row. */
    method SendConnectionRequest(senderId: string, receiverId: string, newId: string) returns (reply: Reply<string>)
      requires Valid()
      requires forall i :: 0 <= i < |connections| ==> connections[i].id != newId
      modifies this
      ensures Valid()
      ensures posts == old(posts) && users == old(users)
      ensures var existing := FindPair(old(connections), senderId, receiverId);
        if senderId == receiverId then reply == Error(400, "Cannot connect to yourself") && connections == old(connections)
        else if existing.Some? then
          connections == old(connections)
          && reply == Error(400, match existing.value.status
                                 case Pending => "Request already pending"
                                 case Accepted => "Already connected"
                                 case Rejected => "Cannot send request")
        else
          connections == old(connections) + [Connection(newId, senderId, receiverId, Pending)]
          && reply == Ok("Request sent")
    {
      if senderId == receiverId {
        return Error(400, "Cannot connect to yourself");
      }
      var existing := FindPair(connections, senderId, receiverId);
      if existing.Some? {
        match existing.value.status {
          case Pending => reply := Error(400, "Request already pending");
          case Accepted => reply := Error(400, "Already connected");
          case Rejected => reply := Error(400, "Cannot send request");
        }
        return;
      }
      var c := Connection(newId, senderId, receiverId, Pending);
      forall i | 0 <= i < |connections|
        ensures !Joins(c, connections[i].requester, connections[i].recipient)
      {
        assert !Joins(connections[i], senderId, receiverId);
      }
      connections := connections + [c];
      reply := Ok("Request sent");
    }

    /** `respondToInvite`: only the recipient may answer; "accept" marks the row
        accepted, any other action deletes it. */
    method RespondToInvite(userId: string, connectionId: string, action: string) returns (reply: Reply<bool>)
      requires Valid()
      modifies this
      ensures Valid()
      ensures posts == old(posts) && users == old(users)
      ensures var k := ConnectionIndex(old(connections), connectionId);
        if k.None? then reply == Error(404, "Request not found") && connections == old(connections)
        else if old(connections)[k.value].recipient != userId then
          reply == Error(403, "Not authorized") && connections == old(connections)
        else if action == "accept" then
          reply == Ok(true) && connections == old(connections)[k.value := old(connections)[k.value].(status := Accepted)]
        else
          reply == Ok(true) && connections == old(connections)[..k.value] + old(connections)[k.value + 1..]
    {
      var k := ConnectionIndex(connections, connectionId);
      if k.None? {
        return Error(404, "Request not found");
      }
      if connections[k.value].recipient != userId {
        return Error(403, "Not authorized");
      }
      if action == "accept" {
        connections := connections[k.value := connections[k.value].(status := Accepted)];
      } else {
        WellFormedRemove(connections, k.value);
        connections := connections[..k.value] + connections[k.value + 1..];
      }
      reply := Ok(true);
    }

    /** `getNetwork` for the caller `me`. */
    function GetNetwork(me: string): (r: (seq<Invite>, seq<string>))
      reads this
      ensures r == (Invitations(connections, me), NetworkPeers(connections, me))
    {
      (Invitations(connections, me), NetworkPeers(connections, me))
    }

    /** `updateProfile`: the user's fields are overwritten by the update without its
        protected fields, and the answer is the user without its password (`None`
        when no user has that id, answered as `null`). */
    method UpdateProfile(userId: string, updates: map<string, Value>) returns (reply: Option<map<string, Value>>)
      modifies this
      ensures posts == old(posts) && connections == old(connections)
      ensures |users| == |old(users)|
      ensures forall i :: 0 <= i < |users| && old(users)[i].id != userId ==> users[i] == old(users)[i]
      ensures forall i :: 0 <= i < |users| && old(users)[i].id == userId ==>
        users[i].id == userId
        && (forall k :: k in users[i].profile <==> k in old(users)[i].profile || (k in updates && k !in Protected))
        && (forall k :: k in users[i].profile ==>
              users[i].profile[k] == if k in updates && k !in Protected then updates[k] else old(users)[i].profile[k])
      ensures forall i :: 0 <= i < |users| && old(users)[i].id == userId ==>
        users[i].profile == Overwrite(old(users)[i].profile, WithoutProtected(updates))
      ensures reply.None? <==> forall i :: 0 <= i < |old(users)| ==> old(users)[i].id != userId
      ensures reply.Some? ==> "password" !in reply.value
      ensures forall i :: FirstWithId(old(users), i, userId) ==>
        reply == Some(users[i].profile - {"password"})
    {
      var clean := StripProtected(updates);
      var found: Option<map<string, Value>> := None;
      var i := 0;
      while i < |users|
        invariant 0 <= i <= |users| == |old(users)|
        invariant posts == old(posts) && connections == old(connections)
        invariant forall j :: i <= j < |users| ==> users[j] == old(users)[j]
        invariant forall j :: 0 <= j < i && old(users)[j].id != userId ==> users[j] == old(users)[j]
        invariant forall j :: 0 <= j < i && old(users)[j].id == userId ==>
          users[j] == Account(userId, Overwrite(old(users)[j].profile, clean))
        invariant found.None? <==> forall j :: 0 <= j < i ==> old(users)[j].id != userId
        invariant found.Some? ==> "password" !in found.value
        invariant forall j :: j < i && FirstWithId(old(users), j, userId) ==>
          found == Some(users[j].profile - {"password"})
      {
        if users[i].id == userId {
          var updated := Overwrite(users[i].profile, clean);
          users := users[i := Account(userId, updated)];
          if found.None? {
            found := Some(updated - {"password"});
          }
        }
        i := i + 1;
      }
      reply := found;
    }
  }

  /** `i` is the first position holding a user with that id: the one `findByIdAndUpdate`
      answers with. */
  predicate FirstWithId(users: seq<Account>, i: int, id: string) {
    0 <= i < |users| && users[i].id == id && forall j :: 0 <= j < i ==> users[j].id != id
  }

  /** After a successful send, no further send for the same pair succeeds, from either
      side. */
  method SendTwice(s: DashboardService, a: string, b: string, id1: string, id2: string)
    returns (first: Reply<string>, again: Option<Reply<string>>)
    requires s.Valid() && a != b && id1 != id2
    requires forall i :: 0 <= i < |s.connections| ==> s.connections[i].id != id1 && s.connections[i].id != id2
    modifies s
    ensures first.Ok? ==> again == Some(Error(400, "Request already pending"))
  {
    ghost var before := s.connections;
    first := s.SendConnectionRequest(a, b, id1);
    again := None;
    if first.Ok? {
      var c := Connection(id1, a, b, Pending);
      FindPairAppended(before, c, a, b);
      FindPairSymmetric(s.connections, a, b);
      var r := s.SendConnectionRequest(b, a, id2);
      again := Some(r);
    }
  }
}
