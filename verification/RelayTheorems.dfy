/** Succession, account deletion and sweeping. */
module RelayTheorems {
  import opened Options
  import opened RelayStore
  import opened RelayInvariants

  // ---- Succession ----

  /** An owner who leaves a group and an owner who deletes the account leave it to the same
      successor, or drop it alike. */
  lemma LeavingAndDeletingAgree(s: Store, u: Name, g: nat)
    requires Inv(s) && g in s.groups && s.groups[g].owner == u
    ensures g in RemoveMember(s, u, g, u).0.groups <==> g in DeleteUser(s, u).groups
    ensures g in DeleteUser(s, u).groups ==>
              RemoveMember(s, u, g, u).0.groups[g].owner == DeleteUser(s, u).groups[g].owner
    ensures Roster(RemoveMember(s, u, g, u).0.members, g) == Roster(DeleteUser(s, u).members, g)
  {
    var members' := s.members - {Member(g, u)};
    assert Roster(members', g) == Others(s, g, u);
    if Others(s, g, u) != {} {
      var a := Eldest(members', g, Others(s, g, u));
      var b := Eldest(s.members, g, Others(s, g, u));
      forall c | c in Others(s, g, u)
        ensures Elder(s.members, g, a, c)
      {
        assert Elder(members', g, a, c);
      }
      EldestUnique(s.members, g, Others(s, g, u), a, b);
    }
  }

  /** The successor has been a member at least as long as anyone who stays. */
  lemma SuccessorIsEldest(s: Store, u: Name, g: nat, other: Name)
    requires Inv(s) && g in s.groups && s.groups[g].owner == u
    requires g in DeleteUser(s, u).groups && other in Roster(DeleteUser(s, u).members, g)
    ensures var heir := DeleteUser(s, u).groups[g].owner;
         && heir in Roster(DeleteUser(s, u).members, g)
         && s.members[Member(g, heir)] <= s.members[Member(g, other)]
         && (s.members[Member(g, heir)] == s.members[Member(g, other)] ==> heir == other || NameBefore(heir, other))
  {
    var heir := Eldest(s.members, g, Others(s, g, u));
    assert Elder(s.members, g, heir, other);
    NameLeMeans(heir, other);
  }

  /** a is a proper beginning of b, or smaller in the first letter that differs. */
  ghost predicate NameBefore(a: Name, b: Name) {
    exists k :: BeforeAt(a, b, k)
  }

  predicate BeforeAt(a: Name, b: Name, k: int) {
    0 <= k <= |a| && k < |b| && a[..k] == b[..k] && (k == |a| || a[k] < b[k])
  }

  lemma {:induction false} NameLeMeans(a: Name, b: Name)
    ensures NameLe(a, b) ==> a == b || NameBefore(a, b)
  {
    if |a| > 0 && |b| > 0 && a[0] == b[0] {
      NameLeMeans(a[1..], b[1..]);
      assert a == [a[0]] + a[1..] && b == [b[0]] + b[1..];
      if k :| BeforeAt(a[1..], b[1..], k) {
        assert a[..k + 1] == [a[0]] + a[1..][..k] && b[..k + 1] == [b[0]] + b[1..][..k];
        assert BeforeAt(a, b, k + 1);
      }
    } else if NameLe(a, b) && a != b {
      assert BeforeAt(a, b, 0);
    }
  }

  /** Deleting an account reports exactly the surviving groups that lost a member. */
  lemma TouchedIsExact(s: Store, u: Name, g: nat)
    requires Inv(s)
    ensures g in Touched(s, u) <==>
      g in DeleteUser(s, u).groups && Roster(DeleteUser(s, u).members, g) != Roster(s.members, g)
  {
    var gone := DeleteUser(s, u);
    if g in Touched(s, u) {
      assert Member(g, u) in s.members;
      assert u in Roster(s.members, g) && u !in Roster(gone.members, g);
    } else if g in gone.groups && Member(g, u) !in s.members {
      assert Roster(gone.members, g) == Roster(s.members, g);
    }
  }

  /** Nothing in the store mentions a deleted account, so registering the name again inherits
      nothing. */
  lemma DeletionLeavesNothing(s: Store, u: Name)
    requires Inv(s)
    ensures var gone := CreateUser(DeleteUser(s, u), u).0;
         && (forall e :: e in gone.envelopes ==> e.sender != u && e.dest != Direct(u))
         && (forall e :: e in gone.groupEnvelopes ==> e.sender != u)
         && (forall f :: f in gone.files ==> gone.files[f].owner != u)
         && (forall g :: g in gone.groups ==> gone.groups[g].owner != u)
         && (forall g :: Member(g, u) !in gone.members)
         && (forall f :: !CanAccess(gone, u, f))
  {
    DeleteUserInv(s, u);
    var gone := DeleteUser(s, u);
    forall g | g in gone.groups
      ensures gone.groups[g].owner != u
    {
      assert OwnersBelong(gone);
    }
  }

  // ---- Sweeping is exact ----

  /** e is a stored envelope that names blob f. */
  predicate Names(s: Store, e: Envelope, f: FileId) {
    (e in s.envelopes || e in s.groupEnvelopes) && e.file == Some(f)
  }

  lemma SweepRemovesExactly(s: Store, now: Time)
    ensures var swept := DeleteExpired(s, now);
         && (forall e :: e in swept.envelopes <==> e in s.envelopes && !Expired(e, now))
         && (forall e :: e in swept.groupEnvelopes <==> e in s.groupEnvelopes && !Expired(e, now))
         && (forall f :: f in swept.files ==> f in s.files && swept.files[f] == s.files[f])
    ensures forall f :: f in s.files ==>
      (f !in DeleteExpired(s, now).files <==>
        (exists e :: Names(s, e, f) && Expired(e, now)) && (forall e :: Names(s, e, f) ==> Expired(e, now)))
  {
    var live := DropEnvelopes(s, now);
    forall f | f in s.files
      ensures f in Expiring(s, now) <==> exists e :: Names(s, e, f) && Expired(e, now)
      ensures f in Referenced(live) <==> exists e :: Names(s, e, f) && !Expired(e, now)
    {}
  }

  // ---- Sweeping is invisible ----

  lemma LiveThenKeep(es: seq<Envelope>, now: Time, q: Envelope -> bool)
    requires forall e :: q(e) ==> !Expired(e, now)
    ensures Keep(Live(es, now), q) == Keep(es, q)
  {
    KeepKeep(es, (e: Envelope) => !Expired(e, now), q, q);
  }

  /** At any time from the sweep on, every history read gives the same answer with and without it. */
  lemma SweepIsInvisible(s: Store, now: Time, later: Time, since: nat, limit: nat, a: Name, b: Name, g: nat)
    requires now <= later
    ensures Conversation(DeleteExpired(s, now), a, b, since, later, limit) == Conversation(s, a, b, since, later, limit)
    ensures Inbox(DeleteExpired(s, now), a, since, later, limit) == Inbox(s, a, since, later, limit)
    ensures GroupMessages(DeleteExpired(s, now), g, since, later, limit) == GroupMessages(s, g, since, later, limit)
  {
    LiveThenKeep(s.envelopes, now, (e: Envelope) => Between(e, a, b) && Visible(e, since, later));
    LiveThenKeep(s.envelopes, now, (e: Envelope) => e.dest == Direct(a) && Visible(e, since, later));
    LiveThenKeep(s.groupEnvelopes, now, (e: Envelope) => e.dest == Room(g) && Visible(e, since, later));
  }

  // ---- How long a blob lasts ----

  /** The store after the operations of a run that starts from s. */
  ghost function RunFrom(s: Store, ops: seq<(Op, Time)>): Store {
    if |ops| == 0 then s
    else Step(RunFrom(s, ops[..|ops| - 1]), ops[|ops| - 1].0, ops[|ops| - 1].1)
  }

  /** What takes a stored blob away: its owner's account goes, or the last envelopes that name it
      expire, or no envelope names it at the end of its grace period. */
  ghost predicate Removes(s: Store, op: Op, now: Time, f: FileId)
    requires f in s.files
  {
    match op
    case OpDeleteAccount(me) => s.files[f].owner == me
    case OpSweep => (exists e :: Names(s, e, f) && Expired(e, now)) && (forall e :: Names(s, e, f) ==> Expired(e, now))
    case OpSweepOrphans(grace) => s.files[f].created < now - grace && f !in Referenced(s)
    case _ => false
  }

  lemma BlobKept(s: Store, op: Op, now: Time, f: FileId)
    requires f in s.files
    ensures f in Step(s, op, now).files <==> !Removes(s, op, now, f)
    ensures f in Step(s, op, now).files ==> Step(s, op, now).files[f] == s.files[f]
  {
    if op.OpSweep? { SweepRemovesExactly(s, now); }
  }

  ghost predicate StoredThroughout(s: Store, ops: seq<(Op, Time)>, f: FileId) {
    forall k :: 0 <= k <= |ops| ==> f in RunFrom(s, ops[..k]).files
  }

  /** No operation of the run removes the blob from a store that still has it. */
  ghost predicate NothingRemoves(s: Store, ops: seq<(Op, Time)>, f: FileId) {
    |ops| == 0 ||
    var n := |ops| - 1;
    NothingRemoves(s, ops[..n], f) && RemainsAt(RunFrom(s, ops[..n]), ops[n], f)
  }

  ghost predicate RemainsAt(s: Store, op: (Op, Time), f: FileId) {
    f in s.files ==> !Removes(s, op.0, op.1, f)
  }

  lemma FrontPrefix(ops: seq<(Op, Time)>, k: nat)
    requires k < |ops|
    ensures ops[..|ops| - 1][..k] == ops[..k]
  {}

  lemma StoredFront(s: Store, ops: seq<(Op, Time)>, f: FileId)
    requires |ops| > 0
    ensures StoredThroughout(s, ops, f) <==>
            StoredThroughout(s, ops[..|ops| - 1], f) && f in RunFrom(s, ops).files
  {
    var n := |ops| - 1;
    assert ops[..n + 1] == ops;
    if StoredThroughout(s, ops, f) {
      forall k | 0 <= k <= n ensures f in RunFrom(s, ops[..n][..k]).files {
        FrontPrefix(ops, k);
      }
    }
    if StoredThroughout(s, ops[..n], f) && f in RunFrom(s, ops).files {
      forall k | 0 <= k <= n + 1 ensures f in RunFrom(s, ops[..k]).files {
        if k <= n {
          FrontPrefix(ops, k);
          assert f in RunFrom(s, ops[..n][..k]).files;
        }
      }
    }
  }

  lemma StoredAtEnd(s: Store, ops: seq<(Op, Time)>, f: FileId)
    requires StoredThroughout(s, ops, f)
    ensures f in RunFrom(s, ops).files
  {
    assert ops[..|ops|] == ops;
  }

  /** A blob outlives a run, and is the same then, exactly when nothing in the run removes it. */
  lemma {:induction false} BlobStays(s: Store, ops: seq<(Op, Time)>, f: FileId)
    requires f in s.files
    ensures StoredThroughout(s, ops, f) <==> NothingRemoves(s, ops, f)
    ensures StoredThroughout(s, ops, f) ==> f in RunFrom(s, ops).files && RunFrom(s, ops).files[f] == s.files[f]
  {
    if |ops| > 0 {
      var n := |ops| - 1;
      var before := RunFrom(s, ops[..n]);
      BlobStays(s, ops[..n], f);
      StoredFront(s, ops, f);
      if f in before.files { BlobKept(before, ops[n].0, ops[n].1, f); }
      if StoredThroughout(s, ops[..n], f) { StoredAtEnd(s, ops[..n], f); }
    }
  }

  // ---- A fresh upload lasts until its message ----

  /** The operation is no deletion of the uploader's account, no posting of the blob by the uploader,
      and no orphan sweep after the grace period. */
  predicate LeavesUpload(op: (Op, Time), me: Name, f: FileId, created: Time) {
    match op.0
    case OpDeleteAccount(u) => u != me
    case OpSendFile(u, _, g, _, _) => u != me || g != f
    case OpSendGroupFile(u, _, g, _, _) => u != me || g != f
    case OpSweepOrphans(grace) => op.1 <= created + grace
    case _ => true
  }

  lemma UploadLeft(s: Store, op: (Op, Time), me: Name, f: FileId)
    requires FileOwnedBy(s, f, me) && f !in Referenced(s) && LeavesUpload(op, me, f, s.files[f].created)
    ensures var t := Step(s, op.0, op.1);
            f in t.files && t.files[f] == s.files[f] && f !in Referenced(t)
  {
    BlobKept(s, op.0, op.1, f);
    var t := Step(s, op.0, op.1);
    forall e | e in t.envelopes || e in t.groupEnvelopes
      ensures e.file != Some(f)
    {
      if e in s.envelopes || e in s.groupEnvelopes { assert e.file != Some(f); }
    }
  }

  /** Whatever else the relay does within the grace period after an upload, and whoever else does it, the
      uploader can still post the blob. */
  lemma {:induction false} UploadSurvives(s: Store, me: Name, f: FileId, ops: seq<(Op, Time)>)
    requires FileOwnedBy(s, f, me) && f !in Referenced(s)
    requires forall op :: op in ops ==> LeavesUpload(op, me, f, s.files[f].created)
    ensures var t := RunFrom(s, ops);
            f in t.files && t.files[f] == s.files[f] && f !in Referenced(t)
  {
    if |ops| > 0 {
      var n := |ops| - 1;
      assert ops == ops[..n] + [ops[n]];
      UploadSurvives(s, me, f, ops[..n]);
      UploadLeft(RunFrom(s, ops[..n]), ops[n], me, f);
    }
  }
}
