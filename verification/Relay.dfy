/** The relay as the object the endpoints work on: its tables change row by row. Each endpoint is
    proved to have the effect `RelayStore` says. */
module Relay {
  import opened Options
  import opened Bytes
  import opened RelayStore
  import I = RelayInvariants

  class Relay {
    var users: set<Name>
    var envelopes: seq<Envelope>
    var groupEnvelopes: seq<Envelope>
    var files: map<FileId, Blob>
    var groups: map<nat, Group>
    var members: map<Member, Time>
    var nextEnvelope: nat
    var nextGroup: nat
    var nextGroupEnvelope: nat

    function State(): Store
      reads this
    {
      Store(users, envelopes, groupEnvelopes, files, groups, members, nextEnvelope, nextGroup, nextGroupEnvelope)
    }

    /** Foreign keys hold, ids only grow, every named blob exists and belongs to the envelope's sender,
        and every group's owner is a member. */
    ghost predicate Valid()
      reads this
    {
      Inv(State())
    }

    constructor ()
      ensures State() == EMPTY && Valid()
    {
      users, envelopes, groupEnvelopes, files, groups, members := {}, [], [], map[], map[], map[];
      nextEnvelope, nextGroup, nextGroupEnvelope := 1, 1, 1;
    }

    // ---- Messages and files ----

    method StoreEnvelope(sender: Name, recipient: Name, kind: Kind, payload: string,
                         file: Option<FileId>, expires: Option<Time>, now: Time) returns (r: Response)
      modifies this
      ensures (State(), r)
           == RelayStore.StoreEnvelope(old(State()), sender, recipient, kind, payload, file, expires, now)
    {
      if sender !in users || recipient !in users { return INTEGRITY_ERROR; }
      envelopes := envelopes + [Envelope(nextEnvelope, sender, Direct(recipient), kind, payload, file, expires, now)];
      nextEnvelope := nextEnvelope + 1;
      r := Done;
    }

    method StoreGroupEnvelope(g: nat, sender: Name, kind: Kind, payload: string,
                              file: Option<FileId>, expires: Option<Time>, now: Time) returns (r: Response)
      modifies this
      ensures (State(), r) == RelayStore.StoreGroupEnvelope(old(State()), g, sender, kind, payload, file, expires, now)
    {
      if sender !in users || g !in groups { return INTEGRITY_ERROR; }
      var envelope := Envelope(nextGroupEnvelope, sender, Room(g), kind, payload, file, expires, now);
      groupEnvelopes := groupEnvelopes + [envelope];
      nextGroupEnvelope := nextGroupEnvelope + 1;
      r := Done;
    }

    method Register(u: Name) returns (r: Response)
      requires Valid()
      modifies this
      ensures Valid()
      ensures (State(), r) == CreateUser(old(State()), u)
    {
      I.CreateUserInv(State(), u);
      if u in users { return CONFLICT; }
      users := users + {u};
      r := Done;
    }

    method UploadFile(me: Name, f: FileId, ciphertext: seq<Byte>, size: int, now: Time) returns (r: Response)
      requires Valid()
      modifies this
      ensures Valid()
      ensures (State(), r) == Upload(old(State()), me, f, ciphertext, size, now)
    {
      I.UploadInv(State(), me, f, ciphertext, size, now);
      if size < 0 || size > MAX_FILE_BYTES { return BAD_REQUEST; }
      if |ciphertext| > MAX_FILE_BYTES { return TOO_LARGE; }
      if me !in users || f in files { return INTEGRITY_ERROR; }
      files := files[f := Blob(me, ciphertext, size, now)];
      r := Done;
    }

    method SendMessage(me: Name, recipient: Name, payload: string, ttl: Option<int>, now: Time) returns (r: Response)
      requires Valid()
      modifies this
      ensures Valid()
      ensures (State(), r) == RelayStore.SendMessage(old(State()), me, recipient, payload, ttl, now)
    {
      I.SendMessageInv(State(), me, recipient, payload, ttl, now);
      if recipient !in users { return NOT_FOUND; }
      r := StoreEnvelope(me, recipient, Message, payload, None, Expiry(ttl, now), now);
    }

    method SendFileMessage(me: Name, recipient: Name, f: FileId, payload: string, ttl: Option<int>,
                           now: Time) returns (r: Response)
      requires Valid()
      modifies this
      ensures Valid()
      ensures (State(), r) == RelayStore.SendFileMessage(old(State()), me, recipient, f, payload, ttl, now)
    {
      I.SendFileMessageInv(State(), me, recipient, f, payload, ttl, now);
      if recipient !in users { return NOT_FOUND; }
      if f !in files || files[f].owner != me { return NOT_FOUND; }
      r := StoreEnvelope(me, recipient, File, payload, Some(f), Expiry(ttl, now), now);
    }

    method SendGroupMessage(me: Name, g: nat, payload: string, ttl: Option<int>, now: Time) returns (r: Response)
      requires Valid()
      modifies this
      ensures Valid()
      ensures (State(), r) == RelayStore.SendGroupMessage(old(State()), me, g, payload, ttl, now)
    {
      I.SendGroupMessageInv(State(), me, g, payload, ttl, now);
      if g !in groups || Member(g, me) !in members { return NOT_FOUND; }
      r := StoreGroupEnvelope(g, me, Message, payload, None, Expiry(ttl, now), now);
    }

    method SendGroupFile(me: Name, g: nat, f: FileId, payload: string, ttl: Option<int>,
                         now: Time) returns (r: Response)
      requires Valid()
      modifies this
      ensures Valid()
      ensures (State(), r) == RelayStore.SendGroupFile(old(State()), me, g, f, payload, ttl, now)
    {
      I.SendGroupFileInv(State(), me, g, f, payload, ttl, now);
      if g !in groups || Member(g, me) !in members { return NOT_FOUND; }
      if f !in files || files[f].owner != me { return NOT_FOUND; }
      r := StoreGroupEnvelope(g, me, File, payload, Some(f), Expiry(ttl, now), now);
    }

    // ---- Groups ----

    method CreateGroup(me: Name, name: string, invited: seq<Name>, now: Time) returns (r: Response)
      requires Valid()
      modifies this
      ensures Valid()
      ensures (State(), r) == RelayStore.CreateGroup(old(State()), me, name, invited, now)
    {
      I.CreateGroupInv(State(), me, name, invited, now);
      if me !in users { return INTEGRITY_ERROR; }
      var g := nextGroup;
      groups := groups[g := Group(name, me, now)];
      nextGroup := g + 1;
      var roster := {me} + set u | u in invited && u in users;
      InsertMembers(g, roster, now);
      r := Done;
    }

    method InsertMembers(g: nat, roster: set<Name>, now: Time)
      modifies `members
      ensures members == old(members) + map u | u in roster :: Member(g, u) := now
    {
      var todo, done := roster, {};
      while todo != {}
        invariant done + todo == roster
        invariant forall m :: m in members <==> m in old(members) || (m.group == g && m.name in done)
        invariant forall m ::
                  m in members ==> members[m] == if m.group == g && m.name in done then now else old(members)[m]
        decreases todo
      {
        var u :| u in todo;
        members := members[Member(g, u) := now];
        done, todo := done + {u}, todo - {u};
      }
    }

    method AddMember(me: Name, g: nat, u: Name, now: Time) returns (r: Response)
      requires Valid()
      modifies this
      ensures Valid()
      ensures (State(), r) == RelayStore.AddMember(old(State()), me, g, u, now)
    {
      I.AddMemberInv(State(), me, g, u, now);
      if g !in groups || Member(g, me) !in members { return NOT_FOUND; }
      if groups[g].owner != me { return FORBIDDEN; }
      if u !in users { return NOT_FOUND; }
      if Member(g, u) !in members {
        members := members[Member(g, u) := now];
      }
      r := Done;
    }

    /** `ORDER BY joined_at ASC, username ASC LIMIT 1` over the members of g but one. */
    method OldestMember(g: nat, but: Option<Name>) returns (a: Option<Name>)
      ensures var pool := Roster(members, g) - (if but.Some? then {but.value} else {});
              if pool == {} then a == None else a == Some(Eldest(members, g, pool))
    {
      var pool := Roster(members, g) - if but.Some? then {but.value} else {};
      a := None;
      var todo, seen := pool, {};
      while todo != {}
        invariant todo + seen == pool && todo !! seen
        invariant if seen == {} then a == None else a.Some? && IsEldest(members, g, seen, a.value)
        decreases todo
      {
        var u :| u in todo;
        ElderReflexive(members, g, u);
        if a.None? {
          a := Some(u);
        } else {
          NameLeTotal(u, a.value);
          if Elder(members, g, u, a.value) {
            forall b | b in seen { ElderTransitive(members, g, u, a.value, b); }
            a := Some(u);
          }
        }
        todo, seen := todo - {u}, seen + {u};
      }
      if a.Some? { EldestUnique(members, g, pool, a.value, Eldest(members, g, pool)); }
    }

    static lemma ElderReflexive(members: map<Member, Time>, g: nat, u: Name)
      requires Member(g, u) in members
      ensures Elder(members, g, u, u)
    {
      NameLeTotal(u, u);
    }

    /** `delete_group` and its cascades. */
    method DropGroup(g: nat)
      modifies `groups, `members, `groupEnvelopes
      ensures State() == DeleteGroup(old(State()), g)
    {
      groups := groups - {g};
      members := map m | m in members && m.group != g :: members[m];
      groupEnvelopes := Keep(groupEnvelopes, (e: Envelope) => e.dest != Room(g));
    }

    method RemoveMember(me: Name, g: nat, u: Name) returns (r: Response)
      requires Valid()
      modifies this
      ensures Valid()
      ensures (State(), r) == RelayStore.RemoveMember(old(State()), me, g, u)
    {
      I.RemoveMemberInv(State(), me, g, u);
      if g !in groups || Member(g, me) !in members { return NOT_FOUND; }
      var group := groups[g];
      if group.owner != me && u != me { return FORBIDDEN; }
      members := members - {Member(g, u)};
      if u == group.owner {
        var successor := OldestMember(g, None);
        assert Roster(members, g) - {} == Roster(members, g);
        if successor.Some? {
          groups := groups[g := groups[g].(owner := successor.value)];
        } else {
          DropGroup(g);
        }
      }
      r := Done;
    }

    // ---- Sweeps ----

    method DeleteExpired(now: Time) returns (removed: nat)
      modifies this
      ensures State() == RelayStore.DeleteExpired(old(State()), now)
      ensures removed == ExpiredBlobs(old(State()), now)
    {
      var expiring := Expiring(State(), now);
      DropExpired(now);
      removed := DeleteBlobs(expiring, Referenced(State()));
    }

    method DropExpired(now: Time)
      modifies `envelopes, `groupEnvelopes
      ensures State() == DropEnvelopes(old(State()), now)
    {
      envelopes := Live(envelopes, now);
      groupEnvelopes := Live(groupEnvelopes, now);
    }

    /** Deletes the given blobs one by one, except those still referenced, and counts. */
    method DeleteBlobs(expiring: set<FileId>, referenced: set<FileId>) returns (removed: nat)
      modifies `files
      ensures files == old(files) - (expiring - referenced)
      ensures removed == |old(files).Keys - files.Keys|
    {
      removed := 0;
      var todo := expiring;
      ghost var dropped: set<FileId> := {};
      while todo != {}
        invariant todo <= expiring && removed == |dropped|
        invariant forall f :: f in dropped <==> f in old(files) && f in expiring && f !in todo && f !in referenced
        invariant files == old(files) - dropped
        decreases todo
      {
        var f :| f in todo;
        if f in files && f !in referenced {
          files := files - {f};
          removed := removed + 1;
          dropped := dropped + {f};
        }
        todo := todo - {f};
      }
      assert old(files).Keys - files.Keys == dropped;
    }

    method DeleteOrphans(grace: Time, now: Time) returns (removed: nat)
      modifies `files
      ensures State() == RelayStore.DeleteOrphans(old(State()), grace, now)
      ensures removed == |old(files).Keys - files.Keys|
    {
      var kept := map f | f in files && (files[f].created >= now - grace || f in Referenced(State())) :: files[f];
      removed := |files.Keys - kept.Keys|;
      files := kept;
    }

    // ---- Account deletion ----

    /** Part way through the loop over u's groups: those in `todo` are still as they were, the others
        have been handed over or dropped. */
    static ghost predicate HandedOver(was: Store, s: Store, u: Name, todo: set<nat>) {
      && s == was.(groups := s.groups, members := s.members, groupEnvelopes := s.groupEnvelopes)
      && (forall g :: g in s.groups <==> g in was.groups && (g in todo || Survives(was, g, u)))
      && (forall g :: g in s.groups ==> s.groups[g] == if g in todo then was.groups[g] else SurvivingGroup(was, g, u))
      && (forall m :: m in s.members <==> m in was.members && m.group in s.groups)
      && (forall m :: m in s.members ==> s.members[m] == was.members[m])
      && s.groupEnvelopes == Keep(was.groupEnvelopes, InGroups(s.groups.Keys))
    }

    static function InGroups(gs: set<nat>): Envelope -> bool {
      (e: Envelope) => e.dest.Room? && e.dest.group in gs
    }

    static lemma {:induction false} KeepAll(es: seq<Envelope>, p: Envelope -> bool)
      requires forall e :: e in es ==> p(e)
      ensures Keep(es, p) == es
    {
      if |es| > 0 { KeepAll(es[..|es| - 1], p); }
    }

    /** Eldest depends only on the rows of the group. */
    static lemma SameEldest(a: map<Member, Time>, b: map<Member, Time>, g: nat, pool: set<Name>)
      requires pool != {} && pool <= Roster(a, g) && pool <= Roster(b, g)
      requires forall n :: n in pool ==> a[Member(g, n)] == b[Member(g, n)]
      ensures Eldest(a, g, pool) == Eldest(b, g, pool)
    {
      var x, y := Eldest(a, g, pool), Eldest(b, g, pool);
      forall n | n in pool
        ensures Elder(b, g, x, n)
      {
        assert Elder(a, g, x, n);
      }
      EldestUnique(b, g, pool, x, y);
    }

    static lemma DroppedGroup(es: seq<Envelope>, gs: set<nat>, g: nat)
      ensures Keep(Keep(es, InGroups(gs)), (e: Envelope) => e.dest != Room(g)) == Keep(es, InGroups(gs - {g}))
    {
      KeepKeep(es, InGroups(gs), (e: Envelope) => e.dest != Room(g), InGroups(gs - {g}));
    }

    static lemma DroppedSender(s: Store, gs: set<nat>, u: Name)
      requires forall g :: g in gs <==> Survives(s, g, u)
      ensures Keep(Keep(s.groupEnvelopes, InGroups(gs)), (e: Envelope) => e.sender != u)
           == RelayStore.DeleteUser(s, u).groupEnvelopes
    {
      KeepKeep(s.groupEnvelopes, InGroups(gs), (e: Envelope) => e.sender != u,
               (e: Envelope) => e.sender != u && e.dest.Room? && Survives(s, e.dest.group, u));
    }

    /** Groups still there keep their members on the list of those to tell. */
    static function StillTouched(was: Store, u: Name, gs: set<nat>): set<nat> {
      set m | m in was.members && m.name == u && m.group in gs :: m.group
    }

    /** `delete_user`: hand over or drop every group u owns, then drop u's row and let the foreign
        keys take the rest. Returns the groups whose members are told. */
    method DeleteUser(u: Name) returns (touched: set<nat>)
      requires ForeignKeys(State())
      modifies this
      ensures State() == RelayStore.DeleteUser(old(State()), u)
      ensures touched == Touched(old(State()), u)
    {
      ghost var was := State();
      touched := set m | m in members && m.name == u :: m.group;
      var owned := set g | g in groups && groups[g].owner == u;
      touched := HandOverOwned(u, owned, touched);
      AllTouched(was, State(), u);
      Cascaded(was, State(), u);
      DropUser(u);
    }

    /** The loop over the groups u owns. */
    method HandOverOwned(u: Name, owned: set<nat>, joined: set<nat>) returns (touched: set<nat>)
      requires ForeignKeys(State()) && owned == set g | g in groups && groups[g].owner == u
      requires joined == set m | m in members && m.name == u :: m.group
      modifies `groups, `members, `groupEnvelopes
      ensures HandedOver(old(State()), State(), u, {})
      ensures touched == StillTouched(old(State()), u, groups.Keys)
    {
      ghost var was := State();
      touched := joined;
      NothingDoneYet(was, u, owned);
      var todo := owned;
      while todo != {}
        invariant todo <= owned && HandedOver(was, State(), u, todo)
        invariant touched == StillTouched(was, u, groups.Keys)
        decreases todo
      {
        var g :| g in todo;
        NoLongerTouched(was, u, groups.Keys, g);
        var dropped := HandOver(u, g, was, todo);
        if dropped { touched := touched - {g}; }
        todo := todo - {g};
      }
    }

    static lemma NothingDoneYet(s: Store, u: Name, owned: set<nat>)
      requires ForeignKeys(s) && owned == set g | g in s.groups && s.groups[g].owner == u
      ensures HandedOver(s, s, u, owned)
      ensures StillTouched(s, u, s.groups.Keys) == set m | m in s.members && m.name == u :: m.group
    {
      KeepAll(s.groupEnvelopes, InGroups(s.groups.Keys));
    }

    static lemma NoLongerTouched(was: Store, u: Name, gs: set<nat>, g: nat)
      ensures StillTouched(was, u, gs - {g}) == StillTouched(was, u, gs) - {g}
      ensures StillTouched(was, u, gs - {}) == StillTouched(was, u, gs)
    {
      assert gs - {} == gs;
    }

    static lemma AllTouched(was: Store, s: Store, u: Name)
      requires HandedOver(was, s, u, {})
      ensures StillTouched(was, u, s.groups.Keys) == Touched(was, u)
    {}

    /** One round: the group goes to the longest-standing other member, or away. */
    method HandOver(u: Name, g: nat, ghost was: Store, ghost todo: set<nat>) returns (dropped: bool)
      requires g in todo && HandedOver(was, State(), u, todo) && g in was.groups && was.groups[g].owner == u
      modifies `groups, `members, `groupEnvelopes
      ensures HandedOver(was, State(), u, todo - {g})
      ensures groups.Keys == old(groups).Keys - if dropped then {g} else {}
    {
      ghost var before := State();
      assert Roster(members, g) - {u} == Others(was, g, u);
      var heir := OldestMember(g, Some(u));
      if heir.Some? {
        groups := groups[g := groups[g].(owner := heir.value)];
        GivenOver(was, before, u, todo, g);
        dropped := false;
      } else {
        DropGroup(g);
        GivenUp(was, before, u, todo, g);
        dropped := true;
      }
    }

    static lemma GivenOver(was: Store, s: Store, u: Name, todo: set<nat>, g: nat)
      requires g in todo && HandedOver(was, s, u, todo) && g in was.groups && was.groups[g].owner == u
      requires Others(was, g, u) != {} && Roster(s.members, g) - {u} == Others(was, g, u)
      ensures g in s.groups
      ensures var heir := Eldest(s.members, g, Others(was, g, u));
              HandedOver(was, s.(groups := s.groups[g := s.groups[g].(owner := heir)]), u, todo - {g})
    {
      SameEldest(s.members, was.members, g, Others(was, g, u));
      var t := s.(groups := s.groups[g := s.groups[g].(owner := Eldest(s.members, g, Others(was, g, u)))]);
      assert t.groups.Keys == s.groups.Keys;
    }

    static lemma GivenUp(was: Store, s: Store, u: Name, todo: set<nat>, g: nat)
      requires g in todo && HandedOver(was, s, u, todo) && g in was.groups && was.groups[g].owner == u
      requires Others(was, g, u) == {}
      ensures HandedOver(was, DeleteGroup(s, g), u, todo - {g})
    {
      DroppedGroup(was.groupEnvelopes, s.groups.Keys, g);
      assert DeleteGroup(s, g).groups.Keys == s.groups.Keys - {g};
    }

    /** What deleting u's row takes along by foreign key, when u owns no group. */
    static function Cascade(s: Store, u: Name): Store {
      s.(users := s.users - {u},
         envelopes := Keep(s.envelopes, (e: Envelope) => e.sender != u && e.dest != Direct(u)),
         groupEnvelopes := Keep(s.groupEnvelopes, (e: Envelope) => e.sender != u),
         files := map f | f in s.files && s.files[f].owner != u :: s.files[f],
         members := map m | m in s.members && m.name != u :: s.members[m])
    }

    method DropUser(u: Name)
      modifies `users, `envelopes, `groupEnvelopes, `files, `members
      ensures State() == Cascade(old(State()), u)
    {
      users := users - {u};
      envelopes := Keep(envelopes, (e: Envelope) => e.sender != u && e.dest != Direct(u));
      groupEnvelopes := Keep(groupEnvelopes, (e: Envelope) => e.sender != u);
      files := map f | f in files && files[f].owner != u :: files[f];
      members := map m | m in members && m.name != u :: members[m];
    }

    static lemma Cascaded(was: Store, s: Store, u: Name)
      requires ForeignKeys(was) && HandedOver(was, s, u, {})
      ensures Cascade(s, u) == RelayStore.DeleteUser(was, u)
    {
      Dropped(was, s, u);
    }

    static lemma Dropped(was: Store, s: Store, u: Name)
      requires ForeignKeys(was) && HandedOver(was, s, u, {})
      ensures s.groups == RelayStore.DeleteUser(was, u).groups
      ensures (map m | m in s.members && m.name != u :: s.members[m]) == RelayStore.DeleteUser(was, u).members
      ensures Keep(s.groupEnvelopes, (e: Envelope) => e.sender != u) == RelayStore.DeleteUser(was, u).groupEnvelopes
    {
      var gone := RelayStore.DeleteUser(was, u);
      assert s.groups.Keys == gone.groups.Keys;
      forall m: Member | m in was.members
        ensures m.group in s.groups <==> Survives(was, m.group, u)
      {}
      DroppedSender(was, s.groups.Keys, u);
    }

    // ---- Deletion and sweeps, as the relay calls them ----

    method DeleteAccount(me: Name) returns (touched: set<nat>)
      requires Valid()
      modifies this
      ensures Valid() && State() == RelayStore.DeleteUser(old(State()), me)
      ensures touched == Touched(old(State()), me)
    {
      I.DeleteUserInv(State(), me);
      touched := DeleteUser(me);
    }

    method SweepExpired(now: Time) returns (removed: nat)
      requires Valid()
      modifies this
      ensures Valid() && State() == RelayStore.DeleteExpired(old(State()), now)
      ensures removed == ExpiredBlobs(old(State()), now)
    {
      I.DeleteExpiredInv(State(), now);
      removed := DeleteExpired(now);
    }

    method SweepOrphans(grace: Time, now: Time) returns (removed: nat)
      requires Valid()
      modifies this
      ensures Valid() && State() == RelayStore.DeleteOrphans(old(State()), grace, now)
      ensures removed == |old(files).Keys - files.Keys|
    {
      I.DeleteOrphansInv(State(), grace, now);
      removed := DeleteOrphans(grace, now);
    }
  }
}
