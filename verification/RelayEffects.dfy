/** What the users of the relay see of each call: who gets a message, what a group and an account
    are afterwards, and what stays as it was (server/main.py:385-560; server/database.py:191-602). */
module RelayEffects {
  import opened Bytes
  import opened Options
  import opened RelayStore
  import opened RelayInvariants

  // ---- Reading histories ----

  /** A page with room for everything holds exactly the live envelopes of the conversation above the
      given id, in either direction. */
  lemma ConversationShows(s: Store, a: Name, b: Name, since: nat, now: Time, limit: nat, e: Envelope)
    requires limit >= |s.envelopes|
    ensures e in Conversation(s, a, b, since, now, limit) <==>
            && e in s.envelopes && e.id > since && (e.expires.Some? ==> now < e.expires.value)
            && ((e.sender == a && e.dest == Direct(b)) || (e.sender == b && e.dest == Direct(a)))
  {}

  lemma InboxShows(s: Store, u: Name, since: nat, now: Time, limit: nat, e: Envelope)
    requires limit >= |s.envelopes|
    ensures e in Inbox(s, u, since, now, limit) <==>
            e in s.envelopes && e.id > since && (e.expires.Some? ==> now < e.expires.value) && e.dest == Direct(u)
  {}

  lemma GroupMessagesShow(s: Store, g: nat, since: nat, now: Time, limit: nat, e: Envelope)
    requires limit >= |s.groupEnvelopes|
    ensures e in GroupMessages(s, g, since, now, limit) <==>
            e in s.groupEnvelopes && e.id > since && (e.expires.Some? ==> now < e.expires.value) && e.dest == Room(g)
  {}

  // ---- Delivery ----

  lemma KeepLast(es: seq<Envelope>, e: Envelope, p: Envelope -> bool)
    ensures Keep(es + [e], p) == Keep(es, p) + if p(e) then [e] else []
  {
    assert (es + [e])[..|es|] == es;
  }

  /** The envelope is what was posted: by whom, to where, of which kind, with which payload and blob,
      and gone after the given time if there is one. */
  predicate Posted(e: Envelope, sender: Name, dest: Dest, kind: Kind, payload: string, file: Option<FileId>,
                   ttl: Option<int>, now: Time)
  {
    && e.sender == sender && e.dest == dest && e.kind == kind && e.payload == payload && e.file == file
    && e.created == now
    && (ttl == None || ttl == Some(0) ==> e.expires == None)
    && (ttl.Some? && ttl.value != 0 ==> e.expires == Some(now + ttl.value as real))
  }

  /** Nothing but the 1:1 envelopes differs. */
  predicate OnlyEnvelopes(s: Store, t: Store) {
    t == s.(envelopes := t.envelopes, nextEnvelope := t.nextEnvelope)
  }

  predicate OnlyGroupEnvelopes(s: Store, t: Store) {
    t == s.(groupEnvelopes := t.groupEnvelopes, nextGroupEnvelope := t.nextGroupEnvelope)
  }

  predicate AliveAt(e: Envelope, now: Time) {
    e.expires.Some? ==> now < e.expires.value
  }

  /** e is the one new envelope: the recipient finds it last in the inbox, both parties find it last in
      their conversation, and no other inbox or conversation differs. */
  ghost predicate Delivered(s: Store, t: Store, e: Envelope, me: Name, recipient: Name) {
    && t.envelopes == s.envelopes + [e] && OnlyEnvelopes(s, t)
    && (forall d :: d in s.envelopes ==> d.id < e.id)
    && forall since: nat, later: Time, limit: nat ::
         since < e.id && AliveAt(e, later) && limit > |s.envelopes| ==>
           ShownLast(s, t, e, me, recipient, since, later, limit)
  }

  ghost predicate ShownLast(s: Store, t: Store, e: Envelope, me: Name, recipient: Name, since: nat, later: Time,
                            limit: nat)
  {
    && Inbox(t, recipient, since, later, limit) == Inbox(s, recipient, since, later, limit) + [e]
    && Conversation(t, me, recipient, since, later, limit) == Conversation(s, me, recipient, since, later, limit) + [e]
    && Conversation(t, recipient, me, since, later, limit) == Conversation(s, recipient, me, since, later, limit) + [e]
    && (forall u :: u != recipient ==> Inbox(t, u, since, later, limit) == Inbox(s, u, since, later, limit))
    && (forall a, b :: {a, b} != {me, recipient} ==>
          Conversation(t, a, b, since, later, limit) == Conversation(s, a, b, since, later, limit))
  }

  lemma AppendDelivers(s: Store, t: Store, e: Envelope, me: Name, recipient: Name)
    requires Inv(s) && e.id == s.nextEnvelope && e.sender == me && e.dest == Direct(recipient)
    requires t == s.(envelopes := s.envelopes + [e], nextEnvelope := s.nextEnvelope + 1)
    ensures Delivered(s, t, e, me, recipient)
  {
    forall since: nat, later: Time, limit: nat | since < e.id && AliveAt(e, later) && limit > |s.envelopes|
      ensures ShownLast(s, t, e, me, recipient, since, later, limit)
    {
      AppendShown(s, t, e, me, recipient, since, later, limit);
    }
  }

  lemma AppendShown(s: Store, t: Store, e: Envelope, me: Name, recipient: Name, since: nat, later: Time, limit: nat)
    requires e.sender == me && e.dest == Direct(recipient) && t.envelopes == s.envelopes + [e]
    requires since < e.id && AliveAt(e, later) && limit > |s.envelopes|
    ensures ShownLast(s, t, e, me, recipient, since, later, limit)
  {
    forall u
      ensures Inbox(t, u, since, later, limit)
           == Inbox(s, u, since, later, limit) + if u == recipient then [e] else []
    {
      KeepLast(s.envelopes, e, (d: Envelope) => d.dest == Direct(u) && Visible(d, since, later));
    }
    forall a, b
      ensures Conversation(t, a, b, since, later, limit)
           == Conversation(s, a, b, since, later, limit)
              + if {a, b} == {me, recipient} then [e] else []
    {
      KeepLast(s.envelopes, e, (d: Envelope) => Between(d, a, b) && Visible(d, since, later));
      SamePair(a, b, me, recipient);
    }
  }

  lemma SamePair(a: Name, b: Name, c: Name, d: Name)
    ensures {a, b} == {c, d} <==> (a == c && b == d) || (a == d && b == c)
  {
    if {a, b} == {c, d} {
      assert a in {c, d} && b in {c, d} && c in {a, b} && d in {a, b};
    }
  }

  /** A message is refused with 404 if there is no such recipient, and is otherwise delivered as it was
      posted. */
  lemma MessageDelivered(s: Store, me: Name, recipient: Name, payload: string, ttl: Option<int>, now: Time)
    requires Inv(s) && me in s.users
    ensures var (t, r) := SendMessage(s, me, recipient, payload, ttl, now);
            if recipient !in s.users then t == s && r == Status(404)
            else r == Done && |t.envelopes| > 0 && var e := t.envelopes[|t.envelopes| - 1];
              Posted(e, me, Direct(recipient), Message, payload, None, ttl, now) && Delivered(s, t, e, me, recipient)
  {
    if recipient in s.users {
      var t := SendMessage(s, me, recipient, payload, ttl, now).0;
      AppendDelivers(s, t, t.envelopes[|t.envelopes| - 1], me, recipient);
    }
  }

  /** The same for a file message, refused also if the blob is not there or not the sender's. */
  lemma FileMessageDelivered(s: Store, me: Name, recipient: Name, f: FileId, payload: string, ttl: Option<int>,
                             now: Time)
    requires Inv(s) && me in s.users
    ensures var (t, r) := SendFileMessage(s, me, recipient, f, payload, ttl, now);
            if recipient !in s.users || f !in s.files || s.files[f].owner != me then t == s && r == Status(404)
            else r == Done && |t.envelopes| > 0 && var e := t.envelopes[|t.envelopes| - 1];
              Posted(e, me, Direct(recipient), File, payload, Some(f), ttl, now) && Delivered(s, t, e, me, recipient)
  {
    if recipient in s.users && f in s.files && s.files[f].owner == me {
      var t := SendFileMessage(s, me, recipient, f, payload, ttl, now).0;
      AppendDelivers(s, t, t.envelopes[|t.envelopes| - 1], me, recipient);
    }
  }

  /** e is the one new group envelope: last in its group, and no other group's messages differ. */
  ghost predicate GroupDelivered(s: Store, t: Store, e: Envelope, g: nat) {
    && t.groupEnvelopes == s.groupEnvelopes + [e] && OnlyGroupEnvelopes(s, t)
    && (forall d :: d in s.groupEnvelopes ==> d.id < e.id)
    && forall since: nat, later: Time, limit: nat, h: nat ::
         since < e.id && AliveAt(e, later) && limit > |s.groupEnvelopes| ==>
           GroupMessages(t, h, since, later, limit)
           == GroupMessages(s, h, since, later, limit) + if h == g then [e] else []
  }

  lemma AppendGroupDelivers(s: Store, t: Store, e: Envelope, g: nat)
    requires Inv(s) && e.id == s.nextGroupEnvelope && e.dest == Room(g)
    requires t == s.(groupEnvelopes := s.groupEnvelopes + [e], nextGroupEnvelope := s.nextGroupEnvelope + 1)
    ensures GroupDelivered(s, t, e, g)
  {
    forall since: nat, later: Time, limit: nat, h: nat |
      since < e.id && AliveAt(e, later) && limit > |s.groupEnvelopes|
      ensures GroupMessages(t, h, since, later, limit)
           == GroupMessages(s, h, since, later, limit) + if h == g then [e] else []
    {
      KeepLast(s.groupEnvelopes, e, (d: Envelope) => d.dest == Room(h) && Visible(d, since, later));
    }
  }

  /** A group message is refused to everyone but members, and otherwise delivered to the group. */
  lemma GroupMessageDelivered(s: Store, me: Name, g: nat, payload: string, ttl: Option<int>, now: Time)
    requires Inv(s) && me in s.users
    ensures var (t, r) := SendGroupMessage(s, me, g, payload, ttl, now);
            if g !in s.groups || me !in Roster(s.members, g) then t == s && r == Status(404)
            else r == Done && |t.groupEnvelopes| > 0 && var e := t.groupEnvelopes[|t.groupEnvelopes| - 1];
              Posted(e, me, Room(g), Message, payload, None, ttl, now) && GroupDelivered(s, t, e, g)
  {
    if g in s.groups && me in Roster(s.members, g) {
      var t := SendGroupMessage(s, me, g, payload, ttl, now).0;
      AppendGroupDelivers(s, t, t.groupEnvelopes[|t.groupEnvelopes| - 1], g);
    }
  }

  lemma GroupFileDelivered(s: Store, me: Name, g: nat, f: FileId, payload: string, ttl: Option<int>, now: Time)
    requires Inv(s) && me in s.users
    ensures var (t, r) := SendGroupFile(s, me, g, f, payload, ttl, now);
            if g !in s.groups || me !in Roster(s.members, g) || f !in s.files || s.files[f].owner != me
            then t == s && r == Status(404)
            else r == Done && |t.groupEnvelopes| > 0 && var e := t.groupEnvelopes[|t.groupEnvelopes| - 1];
              Posted(e, me, Room(g), File, payload, Some(f), ttl, now) && GroupDelivered(s, t, e, g)
  {
    if g in s.groups && me in Roster(s.members, g) && f in s.files && s.files[f].owner == me {
      var t := SendGroupFile(s, me, g, f, payload, ttl, now).0;
      AppendGroupDelivers(s, t, t.groupEnvelopes[|t.groupEnvelopes| - 1], g);
    }
  }

  // ---- Accounts and uploads ----

  /** A free name is registered, without anything else; a name in use is refused. */
  lemma Registered(s: Store, u: Name)
    ensures var (t, r) := CreateUser(s, u);
            if u in s.users then t == s && r == Status(409)
            else r == Done && t == s.(users := t.users) && t.users == s.users + {u}
  {}

  /** An upload of a size within the limit, claimed and actual, can be downloaded by its uploader, and by
      nobody else; any other is refused. */
  lemma UploadStored(s: Store, me: Name, f: FileId, ciphertext: seq<Byte>, size: int, now: Time, u: Name)
    requires Inv(s) && me in s.users && f !in s.files
    ensures var (t, r) := Upload(s, me, f, ciphertext, size, now);
            if size < 0 || size > 52_428_800 then t == s && r == Status(400)
            else if |ciphertext| > 52_428_800 then t == s && r == Status(413)
            else
              && r == Done && t == s.(files := t.files) && t.files.Keys == s.files.Keys + {f}
              && (forall h :: h in s.files ==> t.files[h] == s.files[h])
              && t.files[f].ciphertext == ciphertext && t.files[f].size == size && t.files[f].created == now
              && (CanAccess(t, u, f) <==> u == me)
  {
    var t := Upload(s, me, f, ciphertext, size, now).0;
    forall e | e in s.envelopes || e in s.groupEnvelopes
      ensures e.file != Some(f)
    {
      assert e in s.envelopes + s.groupEnvelopes;
    }
  }

  // ---- Groups ----

  /** A new group belongs to its creator; its members are the creator and those invited who exist, all
      since now; nothing else differs. */
  lemma GroupCreated(s: Store, me: Name, name: string, invited: seq<Name>, now: Time)
    requires Inv(s) && me in s.users
    ensures var (t, r) := CreateGroup(s, me, name, invited, now);
         && r == Done && t == s.(groups := t.groups, members := t.members, nextGroup := t.nextGroup)
         && exists g ::
              && g !in s.groups && t.groups.Keys == s.groups.Keys + {g} && t.groups[g] == Group(name, me, now)
              && (forall h :: h in s.groups ==> t.groups[h] == s.groups[h])
              && (forall u :: u in Roster(t.members, g) <==> u == me || (u in invited && u in s.users))
              && (forall u :: u in Roster(t.members, g) ==> t.members[Member(g, u)] == now)
              && (forall m: Member :: m.group != g ==> (m in t.members <==> m in s.members))
              && (forall m :: m in s.members ==> t.members[m] == s.members[m])
  {
    var g := s.nextGroup;
    var t := CreateGroup(s, me, name, invited, now).0;
    assert g !in s.groups;
    forall m | m in s.members
      ensures m.group != g
    {
      assert m.group in s.groups;
    }
    assert t.groups[g] == Group(name, me, now);
  }

  /** Only the owner adds members, and only users; a member who is added again keeps the time of the
      first joining. */
  lemma MemberAdded(s: Store, me: Name, g: nat, u: Name, now: Time)
    requires Inv(s)
    ensures var (t, r) := AddMember(s, me, g, u, now);
            if g !in s.groups || me !in Roster(s.members, g) then t == s && r == Status(404)
            else if me != s.groups[g].owner then t == s && r == Status(403)
            else if u !in s.users then t == s && r == Status(404)
            else
              && r == Done && t == s.(members := t.members) && t.members.Keys == s.members.Keys + {Member(g, u)}
              && (forall m :: m in s.members ==> t.members[m] == s.members[m])
              && (Member(g, u) !in s.members ==> t.members[Member(g, u)] == now)
  {}

  /** The owner removes anyone, and everybody themselves; nobody else leaves with them. */
  lemma MemberRemoved(s: Store, me: Name, g: nat, u: Name)
    requires Inv(s)
    ensures var (t, r) := RemoveMember(s, me, g, u);
            if g !in s.groups || me !in Roster(s.members, g) then t == s && r == Status(404)
            else if me != s.groups[g].owner && me != u then t == s && r == Status(403)
            else
              && r == Done
              && (g in t.groups <==> Roster(s.members, g) != {u})
              && (forall m :: m in t.members <==> m in s.members && m != Member(g, u))
              && (forall m :: m in t.members ==> t.members[m] == s.members[m])
              && (g in t.groups && u != s.groups[g].owner ==> t.groups[g].owner == s.groups[g].owner)
              && (forall h :: h in s.groups && h != g ==> h in t.groups && t.groups[h] == s.groups[h])
              && t.users == s.users && t.envelopes == s.envelopes && t.files == s.files
              && (forall e :: e in s.groupEnvelopes && e.dest != Room(g) ==> e in t.groupEnvelopes)
              && (g in t.groups ==> t.groupEnvelopes == s.groupEnvelopes)
  {
    if g in s.groups && me in Roster(s.members, g) && (me == s.groups[g].owner || me == u) {
      var left := s.members - {Member(g, u)};
      assert Roster(left, g) == Roster(s.members, g) - {u};
      assert Member(g, s.groups[g].owner) in s.members;
      assert s.groups[g].owner in Roster(s.members, g);
      if u == s.groups[g].owner && Roster(left, g) == {} {
        OnlyMemberGone(s, g, u);
      }
    }
  }

  lemma OnlyMemberGone(s: Store, g: nat, u: Name)
    requires Inv(s) && g in s.groups && u in Roster(s.members, g) && Roster(s.members, g) - {u} == {}
    ensures Roster(s.members, g) == {u}
    ensures forall m :: m in s.members && m.group == g ==> m == Member(g, u)
  {
    forall m | m in s.members && m.group == g
      ensures m == Member(g, u)
    {
      assert m.name != u ==> m.name in Roster(s.members, g) - {u};
    }
  }

  // ---- Account deletion ----

  /** Deleting an account takes nothing that belongs to others: their messages among themselves, their
      blobs, their groups, and their messages in groups that still have a member. */
  lemma DeletionKeepsOthers(s: Store, u: Name)
    requires Inv(s)
    ensures var t := DeleteUser(s, u);
         && t.users == s.users - {u}
         && (forall e :: e in s.envelopes && e.sender != u && e.dest != Direct(u) ==> e in t.envelopes)
         && (forall f :: f in s.files && s.files[f].owner != u ==> f in t.files && t.files[f] == s.files[f])
         && (forall g :: g in t.groups <==> g in s.groups && Roster(s.members, g) != {u})
         && (forall g :: g in t.groups && s.groups[g].owner != u ==> t.groups[g] == s.groups[g])
         && (forall g :: g in t.groups ==> t.groups[g].name == s.groups[g].name)
         && (forall m :: m in s.members && m.name != u ==> m in t.members && t.members[m] == s.members[m])
         && (forall e :: e in s.groupEnvelopes && e.sender != u && e.dest.group in t.groups ==> e in t.groupEnvelopes)
  {
    forall g | g in s.groups
      ensures Survives(s, g, u) <==> Roster(s.members, g) != {u}
    {
      var owner := s.groups[g].owner;
      assert Member(g, owner) in s.members && owner in Roster(s.members, g);
      assert Others(s, g, u) == Roster(s.members, g) - {u};
    }
    forall m | m in s.members && m.name != u
      ensures Survives(s, m.group, u)
    {
      assert m.name in Others(s, m.group, u);
    }
  }
}
