/** The relay's tables and what each endpoint or sweep does to them (server/database.py,
    server/main.py). One endpoint call or one sweep is one step. */
module RelayStore {
  import opened Options
  import opened Bytes

  type Name = string
  type FileId = string
  type Time = real

  /** Where an envelope goes: to one user, or into a group. */
  datatype Dest = Direct(recipient: Name) | Room(group: nat)

  datatype Kind = Message | File

  datatype Envelope = Envelope(id: nat, sender: Name, dest: Dest, kind: Kind, payload: string,
                               file: Option<FileId>, expires: Option<Time>, created: Time)

  datatype Blob = Blob(owner: Name, ciphertext: seq<Byte>, size: nat, created: Time)

  datatype Group = Group(name: string, owner: Name, created: Time)

  /** The key of a `group_members` row; the row's value is the time of joining. */
  datatype Member = Member(group: nat, name: Name)

  datatype Store = Store(
    users: set<Name>,
    envelopes: seq<Envelope>,
    groupEnvelopes: seq<Envelope>,
    files: map<FileId, Blob>,
    groups: map<nat, Group>,
    members: map<Member, Time>,
    nextEnvelope: nat,
    nextGroup: nat,
    nextGroupEnvelope: nat)

  const EMPTY := Store({}, [], [], map[], map[], map[], 1, 1, 1)

  // ---- Rows selected by a condition, in table order ----

  function Keep(es: seq<Envelope>, p: Envelope -> bool): (r: seq<Envelope>)
    ensures |r| <= |es|
    ensures forall e :: e in r <==> e in es && p(e)
  {
    if |es| == 0 then []
    else
      var rest := Keep(es[..|es| - 1], p);
      assert forall e :: e in es <==> e in es[..|es| - 1] || e == es[|es| - 1];
      if p(es[|es| - 1]) then rest + [es[|es| - 1]] else rest
  }

  /** Selecting twice is selecting by both conditions. */
  lemma {:induction false} KeepKeep(es: seq<Envelope>, p: Envelope -> bool, q: Envelope -> bool, both: Envelope -> bool)
    requires forall e :: both(e) <==> p(e) && q(e)
    ensures Keep(Keep(es, p), q) == Keep(es, both)
  {
    if |es| > 0 {
      var n := |es| - 1;
      KeepKeep(es[..n], p, q, both);
      if p(es[n]) {
        var kept := Keep(es[..n], p);
        assert (kept + [es[n]])[..|kept|] == kept;
      }
    }
  }

  ghost predicate Increasing(es: seq<Envelope>) {
    forall i, j :: 0 <= i < j < |es| ==> es[i].id < es[j].id
  }

  lemma {:induction false} KeepIncreasing(es: seq<Envelope>, p: Envelope -> bool)
    requires Increasing(es)
    ensures Increasing(Keep(es, p))
  {
    if |es| > 0 {
      var n := |es| - 1;
      KeepIncreasing(es[..n], p);
      forall e | e in Keep(es[..n], p)
        ensures e.id < es[n].id
      {
        var i :| 0 <= i < n && es[i] == e;
      }
    }
  }

  // ---- Names are ordered as text ----

  predicate NameLe(a: Name, b: Name) {
    if |a| == 0 then true
    else if |b| == 0 then false
    else a[0] < b[0] || (a[0] == b[0] && NameLe(a[1..], b[1..]))
  }

  lemma {:induction false} NameLeTotal(a: Name, b: Name)
    ensures NameLe(a, b) || NameLe(b, a)
    ensures NameLe(a, b) && NameLe(b, a) ==> a == b
  {
    if |a| > 0 && |b| > 0 {
      NameLeTotal(a[1..], b[1..]);
      if a[0] == b[0] {
        assert a == [a[0]] + a[1..] && b == [b[0]] + b[1..];
      }
    }
  }

  lemma {:induction false} NameLeTransitive(a: Name, b: Name, c: Name)
    requires NameLe(a, b) && NameLe(b, c)
    ensures NameLe(a, c)
  {
    if |a| > 0 && a[0] == b[0] && b[0] == c[0] { NameLeTransitive(a[1..], b[1..], c[1..]); }
  }

  // ---- Rosters and succession ----

  function Roster(members: map<Member, Time>, g: nat): (r: set<Name>)
    ensures forall n :: n in r <==> Member(g, n) in members
  {
    set m | m in members && m.group == g :: m.name
  }

  /** `ORDER BY joined_at ASC, username ASC`. */
  predicate Elder(members: map<Member, Time>, g: nat, a: Name, b: Name)
    requires Member(g, a) in members && Member(g, b) in members
  {
    var ta, tb := members[Member(g, a)], members[Member(g, b)];
    ta < tb || (ta == tb && NameLe(a, b))
  }

  ghost predicate IsEldest(members: map<Member, Time>, g: nat, pool: set<Name>, a: Name)
    requires pool <= Roster(members, g)
  {
    a in pool && forall b :: b in pool ==> Elder(members, g, a, b)
  }

  lemma EldestUnique(members: map<Member, Time>, g: nat, pool: set<Name>, a: Name, b: Name)
    requires pool <= Roster(members, g) && IsEldest(members, g, pool, a) && IsEldest(members, g, pool, b)
    ensures a == b
  {
    NameLeTotal(a, b);
  }

  lemma {:induction false} EldestExists(members: map<Member, Time>, g: nat, pool: set<Name>) returns (a: Name)
    requires pool <= Roster(members, g) && pool != {}
    ensures IsEldest(members, g, pool, a)
    decreases |pool|
  {
    var x :| x in pool;
    var rest := pool - {x};
    if rest == {} {
      a := x;
      assert pool == {x};
      NameLeTotal(x, x);
    } else {
      var y := EldestExists(members, g, rest);
      NameLeTotal(x, y);
      NameLeTotal(x, x);
      a := if Elder(members, g, x, y) then x else y;
      forall b | b in pool
        ensures Elder(members, g, a, b)
      {
        if b != x && a == x { ElderTransitive(members, g, x, y, b); }
      }
    }
  }

  lemma SomeEldest(members: map<Member, Time>, g: nat, pool: set<Name>)
    requires pool <= Roster(members, g) && pool != {}
    ensures exists a :: IsEldest(members, g, pool, a)
  {
    var a := EldestExists(members, g, pool);
  }

  lemma ElderTransitive(members: map<Member, Time>, g: nat, a: Name, b: Name, c: Name)
    requires Member(g, a) in members && Member(g, b) in members && Member(g, c) in members
    requires Elder(members, g, a, b) && Elder(members, g, b, c)
    ensures Elder(members, g, a, c)
  {
    if members[Member(g, a)] == members[Member(g, c)] { NameLeTransitive(a, b, c); }
  }

  /** The longest-standing member among `pool`. */
  ghost function Eldest(members: map<Member, Time>, g: nat, pool: set<Name>): (a: Name)
    requires pool <= Roster(members, g) && pool != {}
    ensures IsEldest(members, g, pool, a)
  {
    SomeEldest(members, g, pool);
    var a :| IsEldest(members, g, pool, a);
    a
  }

  // ---- The invariant ----

  /** Foreign keys, as the schema declares them. */
  ghost predicate ForeignKeys(s: Store) {
    && (forall e :: e in s.envelopes ==> e.sender in s.users && e.dest.Direct? && e.dest.recipient in s.users)
    && (forall e :: e in s.groupEnvelopes ==> e.sender in s.users && e.dest.Room? && e.dest.group in s.groups)
    && (forall f :: f in s.files ==> s.files[f].owner in s.users)
    && (forall g :: g in s.groups ==> s.groups[g].owner in s.users)
    && (forall m :: m in s.members ==> m.group in s.groups && m.name in s.users)
  }

  /** Row ids only grow. */
  ghost predicate Numbered(s: Store) {
    && Increasing(s.envelopes) && Increasing(s.groupEnvelopes)
    && (forall e :: e in s.envelopes ==> e.id < s.nextEnvelope)
    && (forall e :: e in s.groupEnvelopes ==> e.id < s.nextGroupEnvelope)
    && (forall g :: g in s.groups ==> g < s.nextGroup)
  }

  /** Every envelope that names a blob names an existing one, owned by the envelope's sender. The
      schema does not declare this. */
  ghost predicate FilesOwned(s: Store) {
    forall e :: e in s.envelopes + s.groupEnvelopes ==>
      e.file.Some? ==> e.file.value in s.files && s.files[e.file.value].owner == e.sender
  }

  /** Every group's owner is one of its members. The schema does not declare this either. */
  ghost predicate OwnersBelong(s: Store) {
    forall g :: g in s.groups ==> Member(g, s.groups[g].owner) in s.members
  }

  ghost predicate Inv(s: Store) {
    ForeignKeys(s) && Numbered(s) && FilesOwned(s) && OwnersBelong(s)
  }

  // ---- Responses ----

  datatype Response = Done | Status(code: nat)

  const NOT_FOUND := Status(404)
  const FORBIDDEN := Status(403)
  const CONFLICT := Status(409)
  const BAD_REQUEST := Status(400)
  const TOO_LARGE := Status(413)
  /** A foreign key or key violation that no endpoint catches. */
  const INTEGRITY_ERROR := Status(500)

  /** The limit unless configured otherwise: 50 MB. */
  const MAX_FILE_BYTES: nat := 50 * 1024 * 1024

  // ---- Single-row operations ----

  function CreateUser(s: Store, u: Name): (Store, Response) {
    if u in s.users then (s, CONFLICT) else (s.(users := s.users + {u}), Done)
  }

  /** Inserting an envelope fails when its foreign keys do. */
  function StoreEnvelope(s: Store, sender: Name, recipient: Name, kind: Kind, payload: string,
                         file: Option<FileId>, expires: Option<Time>, now: Time): (Store, Response)
  {
    if sender !in s.users || recipient !in s.users then (s, INTEGRITY_ERROR)
    else
      var e := Envelope(s.nextEnvelope, sender, Direct(recipient), kind, payload, file, expires, now);
      (s.(envelopes := s.envelopes + [e], nextEnvelope := s.nextEnvelope + 1), Done)
  }

  function StoreGroupEnvelope(s: Store, g: nat, sender: Name, kind: Kind, payload: string,
                              file: Option<FileId>, expires: Option<Time>, now: Time): (Store, Response)
  {
    if sender !in s.users || g !in s.groups then (s, INTEGRITY_ERROR)
    else
      var e := Envelope(s.nextGroupEnvelope, sender, Room(g), kind, payload, file, expires, now);
      (s.(groupEnvelopes := s.groupEnvelopes + [e], nextGroupEnvelope := s.nextGroupEnvelope + 1), Done)
  }

  /** `_expiry`: no ttl, or a ttl of 0, means the message is kept. */
  function Expiry(ttl: Option<int>, now: Time): Option<Time> {
    if ttl.None? || ttl.value == 0 then None else Some(now + ttl.value as real)
  }

  predicate FileOwnedBy(s: Store, f: FileId, u: Name) {
    f in s.files && s.files[f].owner == u
  }

  // ---- Endpoints ----

  /** Checks the size the client claims, then the size that arrives. The blob gets a fresh id. */
  function Upload(s: Store, me: Name, f: FileId, ciphertext: seq<Byte>, size: int, now: Time): (Store, Response) {
    if size < 0 || size > MAX_FILE_BYTES then (s, BAD_REQUEST)
    else if |ciphertext| > MAX_FILE_BYTES then (s, TOO_LARGE)
    else if me !in s.users || f in s.files then (s, INTEGRITY_ERROR)
    else (s.(files := s.files[f := Blob(me, ciphertext, size, now)]), Done)
  }

  function SendMessage(s: Store, me: Name, recipient: Name, payload: string, ttl: Option<int>,
                       now: Time): (Store, Response) {
    if recipient !in s.users then (s, NOT_FOUND)
    else StoreEnvelope(s, me, recipient, Message, payload, None, Expiry(ttl, now), now)
  }

  function SendFileMessage(s: Store, me: Name, recipient: Name, f: FileId, payload: string, ttl: Option<int>,
                           now: Time): (Store, Response) {
    if recipient !in s.users then (s, NOT_FOUND)
    else if !FileOwnedBy(s, f, me) then (s, NOT_FOUND)
    else StoreEnvelope(s, me, recipient, File, payload, Some(f), Expiry(ttl, now), now)
  }

  /** `_require_group_member`. */
  predicate CanSeeGroup(s: Store, g: nat, me: Name) {
    g in s.groups && Member(g, me) in s.members
  }

  function CreateGroup(s: Store, me: Name, name: string, invited: seq<Name>, now: Time): (Store, Response) {
    if me !in s.users then (s, INTEGRITY_ERROR)
    else
      var g := s.nextGroup;
      var roster := {me} + set u | u in invited && u in s.users;
      (s.(groups := s.groups[g := Group(name, me, now)],
          members := s.members + map u | u in roster :: Member(g, u) := now,
          nextGroup := g + 1), Done)
  }

  function AddMember(s: Store, me: Name, g: nat, u: Name, now: Time): (Store, Response) {
    if !CanSeeGroup(s, g, me) then (s, NOT_FOUND)
    else if s.groups[g].owner != me then (s, FORBIDDEN)
    else if u !in s.users then (s, NOT_FOUND)
    else if Member(g, u) in s.members then (s, Done)
    else (s.(members := s.members[Member(g, u) := now]), Done)
  }

  /** Dropping a group takes its membership rows and envelopes along. */
  function DeleteGroup(s: Store, g: nat): Store {
    s.(groups := s.groups - {g},
       members := map m | m in s.members && m.group != g :: s.members[m],
       groupEnvelopes := Keep(s.groupEnvelopes, (e: Envelope) => e.dest != Room(g)))
  }

  ghost function RemoveMember(s: Store, me: Name, g: nat, u: Name): (Store, Response) {
    if !CanSeeGroup(s, g, me) then (s, NOT_FOUND)
    else if s.groups[g].owner != me && u != me then (s, FORBIDDEN)
    else
      var left := s.(members := s.members - {Member(g, u)});
      if u != s.groups[g].owner then (left, Done)
      else if Roster(left.members, g) == {} then (DeleteGroup(left, g), Done)
      else
        var heir := Eldest(left.members, g, Roster(left.members, g));
        (left.(groups := left.groups[g := left.groups[g].(owner := heir)]), Done)
  }

  function SendGroupMessage(s: Store, me: Name, g: nat, payload: string, ttl: Option<int>, now: Time): (Store,
                            Response) {
    if !CanSeeGroup(s, g, me) then (s, NOT_FOUND)
    else StoreGroupEnvelope(s, g, me, Message, payload, None, Expiry(ttl, now), now)
  }

  function SendGroupFile(s: Store, me: Name, g: nat, f: FileId, payload: string, ttl: Option<int>,
                         now: Time): (Store, Response) {
    if !CanSeeGroup(s, g, me) then (s, NOT_FOUND)
    else if !FileOwnedBy(s, f, me) then (s, NOT_FOUND)
    else StoreGroupEnvelope(s, g, me, File, payload, Some(f), Expiry(ttl, now), now)
  }

  // ---- Account deletion ----

  /** The members of g other than u. */
  function Others(s: Store, g: nat, u: Name): set<Name> {
    Roster(s.members, g) - {u}
  }

  /** Groups that outlive u's account: those u does not own, and those with another member. */
  predicate Survives(s: Store, g: nat, u: Name) {
    g in s.groups && (s.groups[g].owner != u || Others(s, g, u) != {})
  }

  ghost function SurvivingGroup(s: Store, g: nat, u: Name): Group
    requires Survives(s, g, u)
  {
    if s.groups[g].owner == u then s.groups[g].(owner := Eldest(s.members, g, Others(s, g, u))) else s.groups[g]
  }

  ghost function DeleteUser(s: Store, u: Name): Store {
    s.(users := s.users - {u},
       envelopes := Keep(s.envelopes, (e: Envelope) => e.sender != u && e.dest != Direct(u)),
       groupEnvelopes := Keep(s.groupEnvelopes,
                              (e: Envelope) => e.sender != u && e.dest.Room? && Survives(s, e.dest.group, u)),
       files := map f | f in s.files && s.files[f].owner != u :: s.files[f],
       groups := map g | g in s.groups && Survives(s, g, u) :: SurvivingGroup(s, g, u),
       members := map m | m in s.members && m.name != u && Survives(s, m.group, u) :: s.members[m])
  }

  /** The groups whose remaining members are told. */
  function Touched(s: Store, u: Name): set<nat> {
    set m | m in s.members && m.name == u && Survives(s, m.group, u) :: m.group
  }

  // ---- Sweeps ----

  predicate Expired(e: Envelope, now: Time) {
    e.expires.Some? && e.expires.value <= now
  }

  /** The blobs named in a table. */
  function Named(es: seq<Envelope>): (r: set<FileId>)
    ensures forall f :: f in r <==> exists e :: e in es && e.file == Some(f)
  {
    set e | e in es && e.file.Some? :: e.file.value
  }

  function Live(es: seq<Envelope>, now: Time): seq<Envelope> {
    Keep(es, (e: Envelope) => !Expired(e, now))
  }

  /** Blobs named by an expired envelope. */
  function Expiring(s: Store, now: Time): set<FileId> {
    Named(Keep(s.envelopes, (e: Envelope) => Expired(e, now)))
    + Named(Keep(s.groupEnvelopes, (e: Envelope) => Expired(e, now)))
  }

  /** The blobs named by any envelope. */
  function Referenced(s: Store): set<FileId> {
    Named(s.envelopes) + Named(s.groupEnvelopes)
  }

  function DropEnvelopes(s: Store, now: Time): Store {
    s.(envelopes := Live(s.envelopes, now), groupEnvelopes := Live(s.groupEnvelopes, now))
  }

  function DropBlobs(s: Store, expiring: set<FileId>): Store {
    s.(files := s.files - (expiring - Referenced(s)))
  }

  /** Expired envelopes go, and with them the blobs they named that no survivor names. */
  function DeleteExpired(s: Store, now: Time): Store {
    DropBlobs(DropEnvelopes(s, now), Expiring(s, now))
  }

  /** How many blobs that removes. */
  function ExpiredBlobs(s: Store, now: Time): nat {
    |s.files.Keys - DeleteExpired(s, now).files.Keys|
  }

  function DeleteOrphans(s: Store, grace: Time, now: Time): Store {
    s.(files := map f | f in s.files && (s.files[f].created >= now - grace || f in Referenced(s)) :: s.files[f])
  }

  // ---- Reads ----

  predicate Visible(e: Envelope, since: nat, now: Time) {
    e.id > since && (e.expires.None? || e.expires.value > now)
  }

  predicate Between(e: Envelope, a: Name, b: Name) {
    (e.sender == a && e.dest == Direct(b)) || (e.sender == b && e.dest == Direct(a))
  }

  function Take(es: seq<Envelope>, limit: nat): (r: seq<Envelope>)
    ensures |r| <= limit
  {
    if |es| <= limit then es else es[..limit]
  }

  /** Ids grow in table order, so table order is `ORDER BY id ASC`. */
  function Conversation(s: Store, a: Name, b: Name, since: nat, now: Time, limit: nat): seq<Envelope> {
    Take(Keep(s.envelopes, (e: Envelope) => Between(e, a, b) && Visible(e, since, now)), limit)
  }

  function Inbox(s: Store, recipient: Name, since: nat, now: Time, limit: nat): seq<Envelope> {
    Take(Keep(s.envelopes, (e: Envelope) => e.dest == Direct(recipient) && Visible(e, since, now)), limit)
  }

  function GroupMessages(s: Store, g: nat, since: nat, now: Time, limit: nat): seq<Envelope> {
    Take(Keep(s.groupEnvelopes, (e: Envelope) => e.dest == Room(g) && Visible(e, since, now)), limit)
  }

  /** `user_can_access_file`, as its query is written. */
  ghost predicate CanAccess(s: Store, u: Name, f: FileId) {
    || FileOwnedBy(s, f, u)
    || (exists e :: e in s.envelopes && e.file == Some(f) && (e.sender == u || e.dest == Direct(u)))
    || (exists e :: e in s.groupEnvelopes && e.file == Some(f) && e.dest.Room? && Member(e.dest.group, u) in s.members)
  }
}
