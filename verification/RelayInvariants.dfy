/** What every run of the relay keeps: foreign keys, numbering, and the two invariants no constraint
    of the schema enforces. */
module RelayInvariants {
  import opened Options
  import opened Bytes
  import opened RelayStore

  // ---- Appending and dropping rows ----

  lemma IncreasingAppend(es: seq<Envelope>, e: Envelope)
    requires Increasing(es) && forall d :: d in es ==> d.id < e.id
    ensures Increasing(es + [e])
  {
    forall i | 0 <= i < |es|
      ensures es[i].id < e.id
    {
      assert es[i] in es;
    }
  }

  lemma CreateUserInv(s: Store, u: Name)
    requires Inv(s)
    ensures Inv(CreateUser(s, u).0)
  {}

  /** A new envelope may name a blob only if its sender owns it. */
  lemma StoreEnvelopeInv(s: Store, sender: Name, recipient: Name, kind: Kind, payload: string,
                         file: Option<FileId>, expires: Option<Time>, now: Time)
    requires Inv(s) && (file.Some? ==> FileOwnedBy(s, file.value, sender))
    ensures Inv(StoreEnvelope(s, sender, recipient, kind, payload, file, expires, now).0)
  {
    var e := Envelope(s.nextEnvelope, sender, Direct(recipient), kind, payload, file, expires, now);
    IncreasingAppend(s.envelopes, e);
  }

  lemma StoreGroupEnvelopeInv(s: Store, g: nat, sender: Name, kind: Kind, payload: string,
                              file: Option<FileId>, expires: Option<Time>, now: Time)
    requires Inv(s) && (file.Some? ==> FileOwnedBy(s, file.value, sender))
    ensures Inv(StoreGroupEnvelope(s, g, sender, kind, payload, file, expires, now).0)
  {
    var e := Envelope(s.nextGroupEnvelope, sender, Room(g), kind, payload, file, expires, now);
    IncreasingAppend(s.groupEnvelopes, e);
  }

  lemma UploadInv(s: Store, me: Name, f: FileId, ciphertext: seq<Byte>, size: int, now: Time)
    requires Inv(s)
    ensures Inv(Upload(s, me, f, ciphertext, size, now).0)
  {}

  lemma CreateGroupInv(s: Store, me: Name, name: string, invited: seq<Name>, now: Time)
    requires Inv(s)
    ensures Inv(CreateGroup(s, me, name, invited, now).0)
  {}

  lemma AddMemberInv(s: Store, me: Name, g: nat, u: Name, now: Time)
    requires Inv(s)
    ensures Inv(AddMember(s, me, g, u, now).0)
  {}

  /** Dropping a group whose owner row is gone leaves the rest in order. */
  lemma DeleteGroupInv(s: Store, g: nat)
    requires ForeignKeys(s) && Numbered(s) && FilesOwned(s)
    requires forall h :: h in s.groups && h != g ==> Member(h, s.groups[h].owner) in s.members
    ensures Inv(DeleteGroup(s, g))
  {
    KeepIncreasing(s.groupEnvelopes, (e: Envelope) => e.dest != Room(g));
  }

  lemma RemoveMemberInv(s: Store, me: Name, g: nat, u: Name)
    requires Inv(s)
    ensures Inv(RemoveMember(s, me, g, u).0)
  {
    if CanSeeGroup(s, g, me) && (s.groups[g].owner == me || u == me) {
      var left := s.(members := s.members - {Member(g, u)});
      if u == s.groups[g].owner && Roster(left.members, g) == {} {
        DeleteGroupInv(left, g);
      }
    }
  }

  lemma DeleteUserInv(s: Store, u: Name)
    requires Inv(s)
    ensures Inv(DeleteUser(s, u))
  {
    KeepIncreasing(s.envelopes, (e: Envelope) => e.sender != u && e.dest != Direct(u));
    KeepIncreasing(s.groupEnvelopes, (e: Envelope) => e.sender != u && e.dest.Room? && Survives(s, e.dest.group, u));
    DeleteUserOwners(s, u);
    DeleteUserFiles(s, u);
  }

  lemma DeleteUserOwners(s: Store, u: Name)
    requires Inv(s)
    ensures OwnersBelong(DeleteUser(s, u))
  {}

  lemma DeleteUserFiles(s: Store, u: Name)
    requires Inv(s)
    ensures FilesOwned(DeleteUser(s, u))
  {
    var gone := DeleteUser(s, u);
    forall e | e in gone.envelopes + gone.groupEnvelopes
      ensures e in s.envelopes + s.groupEnvelopes && e.sender != u
    {}
  }

  lemma DeleteExpiredInv(s: Store, now: Time)
    requires Inv(s)
    ensures Inv(DeleteExpired(s, now))
  {
    KeepIncreasing(s.envelopes, (e: Envelope) => !Expired(e, now));
    KeepIncreasing(s.groupEnvelopes, (e: Envelope) => !Expired(e, now));
  }

  lemma DeleteOrphansInv(s: Store, grace: Time, now: Time)
    requires Inv(s)
    ensures Inv(DeleteOrphans(s, grace, now))
  {}

  // ---- Posting ----

  lemma SendMessageInv(s: Store, me: Name, recipient: Name, payload: string, ttl: Option<int>, now: Time)
    requires Inv(s)
    ensures Inv(SendMessage(s, me, recipient, payload, ttl, now).0)
  {
    StoreEnvelopeInv(s, me, recipient, Message, payload, None, Expiry(ttl, now), now);
  }

  lemma SendFileMessageInv(s: Store, me: Name, recipient: Name, f: FileId, payload: string, ttl: Option<int>, now: Time)
    requires Inv(s)
    ensures Inv(SendFileMessage(s, me, recipient, f, payload, ttl, now).0)
  {
    if FileOwnedBy(s, f, me) { StoreEnvelopeInv(s, me, recipient, File, payload, Some(f), Expiry(ttl, now), now); }
  }

  lemma SendGroupMessageInv(s: Store, me: Name, g: nat, payload: string, ttl: Option<int>, now: Time)
    requires Inv(s)
    ensures Inv(SendGroupMessage(s, me, g, payload, ttl, now).0)
  {
    StoreGroupEnvelopeInv(s, g, me, Message, payload, None, Expiry(ttl, now), now);
  }

  lemma SendGroupFileInv(s: Store, me: Name, g: nat, f: FileId, payload: string, ttl: Option<int>, now: Time)
    requires Inv(s)
    ensures Inv(SendGroupFile(s, me, g, f, payload, ttl, now).0)
  {
    if FileOwnedBy(s, f, me) { StoreGroupEnvelopeInv(s, g, me, File, payload, Some(f), Expiry(ttl, now), now); }
  }

  // ---- Runs ----

  datatype Op =
    | OpRegister(u: Name)
    | OpDeleteAccount(me: Name)
    | OpUpload(me: Name, f: FileId, ciphertext: seq<Byte>, size: int)
    | OpSend(me: Name, recipient: Name, payload: string, ttl: Option<int>)
    | OpSendFile(me: Name, recipient: Name, f: FileId, payload: string, ttl: Option<int>)
    | OpCreateGroup(me: Name, name: string, invited: seq<Name>)
    | OpAddMember(me: Name, g: nat, u: Name)
    | OpRemoveMember(me: Name, g: nat, u: Name)
    | OpSendGroup(me: Name, g: nat, payload: string, ttl: Option<int>)
    | OpSendGroupFile(me: Name, g: nat, f: FileId, payload: string, ttl: Option<int>)
    | OpSweep
    | OpSweepOrphans(grace: Time)

  ghost function Step(s: Store, op: Op, now: Time): Store {
    match op
    case OpRegister(u) => CreateUser(s, u).0
    case OpDeleteAccount(me) => DeleteUser(s, me)
    case OpUpload(me, f, ciphertext, size) => Upload(s, me, f, ciphertext, size, now).0
    case OpSend(me, recipient, payload, ttl) => SendMessage(s, me, recipient, payload, ttl, now).0
    case OpSendFile(me, recipient, f, payload, ttl) => SendFileMessage(s, me, recipient, f, payload, ttl, now).0
    case OpCreateGroup(me, name, invited) => CreateGroup(s, me, name, invited, now).0
    case OpAddMember(me, g, u) => AddMember(s, me, g, u, now).0
    case OpRemoveMember(me, g, u) => RemoveMember(s, me, g, u).0
    case OpSendGroup(me, g, payload, ttl) => SendGroupMessage(s, me, g, payload, ttl, now).0
    case OpSendGroupFile(me, g, f, payload, ttl) => SendGroupFile(s, me, g, f, payload, ttl, now).0
    case OpSweep => DeleteExpired(s, now)
    case OpSweepOrphans(grace) => DeleteOrphans(s, grace, now)
  }

  lemma StepInv(s: Store, op: Op, now: Time)
    requires Inv(s)
    ensures Inv(Step(s, op, now))
  {
    match op
    case OpRegister(u) => CreateUserInv(s, u);
    case OpDeleteAccount(me) => DeleteUserInv(s, me);
    case OpUpload(me, f, ciphertext, size) => UploadInv(s, me, f, ciphertext, size, now);
    case OpSend(me, recipient, payload, ttl) => SendMessageInv(s, me, recipient, payload, ttl, now);
    case OpSendFile(me, recipient, f, payload, ttl) => SendFileMessageInv(s, me, recipient, f, payload, ttl, now);
    case OpCreateGroup(me, name, invited) => CreateGroupInv(s, me, name, invited, now);
    case OpAddMember(me, g, u) => AddMemberInv(s, me, g, u, now);
    case OpRemoveMember(me, g, u) => RemoveMemberInv(s, me, g, u);
    case OpSendGroup(me, g, payload, ttl) => SendGroupMessageInv(s, me, g, payload, ttl, now);
    case OpSendGroupFile(me, g, f, payload, ttl) => SendGroupFileInv(s, me, g, f, payload, ttl, now);
    case OpSweep => DeleteExpiredInv(s, now);
    case OpSweepOrphans(grace) => DeleteOrphansInv(s, grace, now);
  }

  /** The store after the operations of a run, each at its own time. */
  ghost function Run(ops: seq<(Op, Time)>): Store {
    if |ops| == 0 then EMPTY else Step(Run(ops[..|ops| - 1]), ops[|ops| - 1].0, ops[|ops| - 1].1)
  }

  /** Every reachable store satisfies the invariant, whatever the order and the clocks. */
  lemma {:induction false} RunInv(ops: seq<(Op, Time)>)
    ensures Inv(Run(ops))
  {
    if |ops| > 0 {
      RunInv(ops[..|ops| - 1]);
      StepInv(Run(ops[..|ops| - 1]), ops[|ops| - 1].0, ops[|ops| - 1].1);
    }
  }

  // ---- What the invariant is for ----

  /** In every reachable store a group has members, and its owner is one of them. */
  lemma GroupsHaveOwnersAmongMembers(ops: seq<(Op, Time)>, g: nat)
    requires g in Run(ops).groups
    ensures Run(ops).groups[g].owner in Roster(Run(ops).members, g)
  {
    RunInv(ops);
  }

  /** Access to a blob goes to the uploader, a recipient of a 1:1 message of the uploader naming it,
      and the current members of a group in which the uploader posted it; to nobody else. */
  lemma AccessIsGrantedByTheUploader(ops: seq<(Op, Time)>, u: Name, f: FileId)
    ensures var s := Run(ops);
            CanAccess(s, u, f) <==>
              f in s.files && var owner := s.files[f].owner;
              || u == owner
              || (exists e :: e in s.envelopes && e.file == Some(f) && e.sender == owner && e.dest == Direct(u))
              || (exists e :: e in s.groupEnvelopes && e.file == Some(f) && e.sender == owner && e.dest.Room?
                    && Member(e.dest.group, u) in s.members)
  {
    RunInv(ops);
    var s := Run(ops);
    forall e | e in s.envelopes || e in s.groupEnvelopes
      ensures e in s.envelopes + s.groupEnvelopes
    {}
  }
}
