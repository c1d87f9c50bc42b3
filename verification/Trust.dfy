/** Key pinning, alerts and the gate on sending (client/js/app.js:997-1105, 1762-1822, 1984-2031,
    2196-2230). `H` is the fingerprint the client computes itself from a key record. */
module Trust {

  type Name = string
  type Fp = string

  /** The keys the relay serves for a user. */
  datatype Keys = Keys(kem: string, dsa: string)

  datatype Pin = Pin(fp: Fp, verified: bool)

  datatype Reason = Changed | Link

  datatype Alert = Alert(oldFp: Fp, newFp: Fp, reason: Reason)

  /** The verify dialog: whose code it shows, and what its button will do. */
  datatype Dialog = Closed | Asking(who: Name, fp: Fp, verify: bool)

  /** The part of the client's state that decides whom it trusts. */
  datatype Client = Client(
    me: Name, pins: map<Name, Pin>, alerts: map<Name, Alert>, peers: map<Name, Keys>, dialog: Dialog)

  predicate IsVerified(c: Client, u: Name) {
    u in c.pins && c.pins[u].verified && u !in c.alerts
  }

  // ---- The handlers ----

  /** `adoptPeerKeys`: the first key is pinned; a different key re-pins an unverified contact and
      raises an alert for a verified one; the pinned key coming back resolves a "changed" alert. */
  function Adopt(H: Keys -> Fp, c: Client, u: Name, rec: Keys): Client {
    var fp := H(rec);
    if u == c.me then c
    else if u !in c.pins then c.(pins := c.pins[u := Pin(fp, false)])
    else if c.pins[u].fp != fp then
      if c.pins[u].verified then
        if u in c.alerts && c.alerts[u].newFp == fp then c
        else c.(alerts := c.alerts[u := Alert(c.pins[u].fp, fp, Changed)])
      else c.(pins := c.pins[u := Pin(fp, false)])
    else if u in c.alerts && c.alerts[u].reason == Changed then c.(alerts := c.alerts - {u})
    else c
  }

  /** Adoption and the assignment to `state.peers` that follows it. */
  function Cache(H: Keys -> Fp, c: Client, u: Name, rec: Keys): Client {
    var adopted := Adopt(H, c, u, rec);
    adopted.(peers := adopted.peers[u := rec])
  }

  /** `getPeerKeys`, with what the relay would serve. */
  function GetPeerKeys(H: Keys -> Fp, c: Client, u: Name, refresh: bool, served: Keys): (r: Client)
    ensures u in r.peers
  {
    if !refresh && u in c.peers then c else Cache(H, c, u, served)
  }

  datatype Served = Served(name: Name, keys: Keys)

  /** `ensureGroupLoaded`: the members of a roster are adopted one after the other. */
  function LoadRoster(H: Keys -> Fp, c: Client, roster: seq<Served>): Client {
    if |roster| == 0 then c
    else
      var last := roster[|roster| - 1];
      Cache(H, LoadRoster(H, c, roster[..|roster| - 1]), last.name, last.keys)
  }

  function AcceptNewKey(c: Client, u: Name): Client {
    if u !in c.alerts then c
    else c.(pins := c.pins[u := Pin(c.alerts[u].newFp, false)], alerts := c.alerts - {u})
  }

  function SetVerified(c: Client, u: Name, fp: Fp, verified: bool): Client {
    c.(pins := c.pins[u := Pin(fp, verified)], alerts := c.alerts - {u})
  }

  /** `openFingerprint`: the dialog shows a fresh code, and what its button will do is settled now. */
  function ShowDialog(H: Keys -> Fp, c: Client, u: Name, served: Keys): Client {
    if u == c.me then c.(dialog := Closed)
    else
      var shown := GetPeerKeys(H, c, u, true, served);
      shown.(dialog := Asking(u, H(shown.peers[u]), !IsVerified(shown, u)))
  }

  /** The button pins the code that was shown. */
  function Confirm(c: Client): Client {
    if c.dialog.Closed? then c
    else SetVerified(c, c.dialog.who, c.dialog.fp, c.dialog.verify).(dialog := Closed)
  }

  /** `processDeepLink`: the fingerprint in the link is the contact's own word. */
  function DeepLink(H: Keys -> Fp, c: Client, who: Name, linkFp: Fp, served: Keys): Client {
    if who == c.me then c
    else
      var loaded := GetPeerKeys(H, c, who, false, served);
      var fp := H(loaded.peers[who]);
      if fp == linkFp then SetVerified(loaded, who, linkFp, true)
      else loaded.(alerts := loaded.alerts[who := Alert(linkFp, fp, Link)])
  }

  // ---- The invariant ----

  /** A verified contact whose cached key is not the pinned one. The user's own entry is exempt: it is
      never adopted. */
  predicate Mismatched(H: Keys -> Fp, c: Client, u: Name) {
    u in c.pins && c.pins[u].verified && u in c.peers && u != c.me && H(c.peers[u]) != c.pins[u].fp
  }

  /** Such a contact has an alert. */
  ghost predicate Guarded(H: Keys -> Fp, c: Client) {
    forall u :: Mismatched(H, c, u) ==> u in c.alerts
  }

  lemma CacheGuarded(H: Keys -> Fp, c: Client, u: Name, rec: Keys)
    requires Guarded(H, c)
    ensures Guarded(H, Cache(H, c, u, rec))
  {}

  lemma {:induction false} LoadRosterGuarded(H: Keys -> Fp, c: Client, roster: seq<Served>)
    requires Guarded(H, c)
    ensures Guarded(H, LoadRoster(H, c, roster)) && LoadRoster(H, c, roster).me == c.me
  {
    if |roster| > 0 {
      var n := |roster| - 1;
      LoadRosterGuarded(H, c, roster[..n]);
      CacheGuarded(H, LoadRoster(H, c, roster[..n]), roster[n].name, roster[n].keys);
    }
  }

  lemma {:induction false} RosterCached(H: Keys -> Fp, c: Client, roster: seq<Served>)
    ensures forall m :: m in roster ==> m.name in LoadRoster(H, c, roster).peers
  {
    if |roster| > 0 {
      RosterCached(H, c, roster[..|roster| - 1]);
      assert forall m :: m in roster ==> m in roster[..|roster| - 1] || m == roster[|roster| - 1];
    }
  }

  /** Marking a contact verified keeps the invariant exactly when the code being verified is that of
      the cached key. */
  lemma SetVerifiedGuarded(H: Keys -> Fp, c: Client, u: Name, fp: Fp, verified: bool)
    requires Guarded(H, c)
    ensures Guarded(H, SetVerified(c, u, fp, verified)) <==>
      !verified || u == c.me || u !in c.peers || H(c.peers[u]) == fp
  {
    var d := SetVerified(c, u, fp, verified);
    assert u in d.pins && u !in d.alerts;
  }

  /** If the button would mark a contact verified, the code shown is still that of the cached key. */
  predicate ShowsCached(H: Keys -> Fp, c: Client) {
    c.dialog.Asking? && c.dialog.verify && c.dialog.who != c.me && c.dialog.who in c.peers ==>
      H(c.peers[c.dialog.who]) == c.dialog.fp
  }

  // ---- Runs ----

  datatype Event =
    | Fetch(u: Name, refresh: bool, served: Keys)
    | Roster(roster: seq<Served>)
    | Accept(u: Name)
    | OpenDialog(u: Name, served: Keys)
    | ConfirmDialog
    | DismissDialog
    | OpenLink(who: Name, linkFp: Fp, served: Keys)

  /** What the relay can cause by itself, whatever it serves. */
  predicate RelayDriven(e: Event) {
    e.Fetch? || e.Roster?
  }

  function Handle(H: Keys -> Fp, c: Client, e: Event): Client {
    match e
    case Fetch(u, refresh, served) => GetPeerKeys(H, c, u, refresh, served)
    case Roster(roster) => LoadRoster(H, c, roster)
    case Accept(u) => AcceptNewKey(c, u)
    case OpenDialog(u, served) => ShowDialog(H, c, u, served)
    case ConfirmDialog => Confirm(c)
    case DismissDialog => c.(dialog := Closed)
    case OpenLink(who, linkFp, served) => DeepLink(H, c, who, linkFp, served)
  }

  function Run(H: Keys -> Fp, c: Client, events: seq<Event>): Client {
    if |events| == 0 then c else Handle(H, Run(H, c, events[..|events| - 1]), events[|events| - 1])
  }

  lemma LinkGuarded(H: Keys -> Fp, c: Client, who: Name, linkFp: Fp, served: Keys)
    requires Guarded(H, c)
    ensures Guarded(H, DeepLink(H, c, who, linkFp, served)) && DeepLink(H, c, who, linkFp, served).me == c.me
  {
    CacheGuarded(H, c, who, served);
    SetVerifiedGuarded(H, GetPeerKeys(H, c, who, false, served), who, linkFp, true);
  }

  lemma ConfirmGuarded(H: Keys -> Fp, c: Client)
    requires Guarded(H, c)
    ensures Guarded(H, Confirm(c)) <==> ShowsCached(H, c)
  {
    if c.dialog.Asking? {
      var d := SetVerified(c, c.dialog.who, c.dialog.fp, c.dialog.verify);
      SetVerifiedGuarded(H, c, c.dialog.who, c.dialog.fp, c.dialog.verify);
      assert Guarded(H, d) <==> Guarded(H, d.(dialog := Closed));
    }
  }

  /** Only the dialog's button can break the invariant, and it does exactly when the code shown is no
      longer that of the cached key. */
  lemma HandleGuarded(H: Keys -> Fp, c: Client, e: Event)
    requires Guarded(H, c)
    ensures Handle(H, c, e).me == c.me
    ensures Guarded(H, Handle(H, c, e)) <==> (e.ConfirmDialog? ==> ShowsCached(H, c))
  {
    match e
    case Fetch(u, refresh, served) => CacheGuarded(H, c, u, served);
    case Roster(roster) => LoadRosterGuarded(H, c, roster);
    case OpenDialog(u, served) => CacheGuarded(H, c, u, served);
    case ConfirmDialog => ConfirmGuarded(H, c);
    case OpenLink(who, linkFp, served) => LinkGuarded(H, c, who, linkFp, served);
    case _ =>
  }

  /** A client that has just signed in: pins as stored, nothing cached but its own keys. */
  ghost predicate Booted(c: Client) {
    c.alerts == map[] && c.peers.Keys <= {c.me} && c.dialog.Closed?
  }

  /** Whenever the button of the dialog is pressed in this run, the code shown is still current. */
  predicate ConfirmsCurrent(H: Keys -> Fp, c: Client, events: seq<Event>) {
    forall k :: 0 <= k < |events| && events[k].ConfirmDialog? ==> ShowsCached(H, Run(H, c, events[..k]))
  }

  ghost predicate AlwaysGuarded(H: Keys -> Fp, c: Client, events: seq<Event>) {
    forall k :: 0 <= k <= |events| ==> Guarded(H, Run(H, c, events[..k]))
  }

  lemma RunNext(H: Keys -> Fp, c: Client, events: seq<Event>, k: nat)
    requires k < |events|
    ensures Run(H, c, events[..k + 1]) == Handle(H, Run(H, c, events[..k]), events[k])
  {
    assert events[..k + 1][..k] == events[..k];
  }

  lemma {:induction false} GuardedUpTo(H: Keys -> Fp, c: Client, events: seq<Event>, k: nat)
    requires Guarded(H, c) && ConfirmsCurrent(H, c, events) && k <= |events|
    ensures Guarded(H, Run(H, c, events[..k])) && Run(H, c, events[..k]).me == c.me
  {
    if k > 0 {
      GuardedUpTo(H, c, events, k - 1);
      RunNext(H, c, events, k - 1);
      HandleGuarded(H, Run(H, c, events[..k - 1]), events[k - 1]);
    }
  }

  /** The invariant holds at every point of a run exactly when every confirmed code was current. */
  lemma RunGuarded(H: Keys -> Fp, c: Client, events: seq<Event>)
    requires Booted(c)
    ensures AlwaysGuarded(H, c, events) <==> ConfirmsCurrent(H, c, events)
  {
    if ConfirmsCurrent(H, c, events) {
      forall k | 0 <= k <= |events|
        ensures Guarded(H, Run(H, c, events[..k]))
      {
        GuardedUpTo(H, c, events, k);
      }
    }
    if AlwaysGuarded(H, c, events) {
      forall k | 0 <= k < |events| && events[k].ConfirmDialog?
        ensures ShowsCached(H, Run(H, c, events[..k]))
      {
        RunNext(H, c, events, k);
        assert Guarded(H, Run(H, c, events[..k])) && Guarded(H, Run(H, c, events[..k + 1]));
        HandleGuarded(H, Run(H, c, events[..k]), events[k]);
      }
    }
  }

  /** It can fail: the dialog shows one key, another is fetched while it is open, and the button marks
      the contact verified although the cached key is not the verified one. */
  lemma ConfirmingAnotherKey()
    ensures var H: Keys -> Fp := (k: Keys) => k.kem;
            var boot := Client("me", map[], map[], map[], Closed);
            var events := [OpenDialog("bob", Keys("a", "")), Fetch("bob", true, Keys("b", "")), ConfirmDialog];
            var c := Run(H, boot, events);
            Booted(boot) && IsVerified(c, "bob") && "bob" in c.peers && H(c.peers["bob"]) != c.pins["bob"].fp
  {
    var H: Keys -> Fp := (k: Keys) => k.kem;
    var boot := Client("me", map[], map[], map[], Closed);
    var events := [OpenDialog("bob", Keys("a", "")), Fetch("bob", true, Keys("b", "")), ConfirmDialog];
    assert events[..0] == [];
    RunNext(H, boot, events, 0);
    RunNext(H, boot, events, 1);
    RunNext(H, boot, events, 2);
    assert events[..3] == events;
    var shown := Run(H, boot, events[..1]);
    assert shown.dialog == Asking("bob", "a", true) && shown.pins == map["bob" := Pin("a", false)];
    var fetched := Run(H, boot, events[..2]);
    assert fetched.dialog == Asking("bob", "a", true) && fetched.peers["bob"] == Keys("b", "");
  }

  // ---- What the relay cannot do ----

  /** Verified pins, as they are. */
  ghost predicate KeepsVerified(c: Client, d: Client) {
    d.me == c.me && forall u :: u in c.pins && c.pins[u].verified ==> u in d.pins && d.pins[u] == c.pins[u]
  }

  /** The alert a mismatched link raised over an unverified contact stays, and so does the contact. */
  ghost predicate KeepsLinkAlerts(c: Client, d: Client) {
    forall u :: u in c.alerts && c.alerts[u].reason == Link && !(u in c.pins && c.pins[u].verified) ==>
      u in d.alerts && d.alerts[u] == c.alerts[u] && !(u in d.pins && d.pins[u].verified)
  }

  lemma CacheKeeps(H: Keys -> Fp, c: Client, u: Name, rec: Keys)
    ensures KeepsVerified(c, Cache(H, c, u, rec)) && KeepsLinkAlerts(c, Cache(H, c, u, rec))
  {}

  /** Over a verified pin two served keys clear it: another key rewrites the alert as a key change,
      and the pinned key resolves that. */
  lemma LinkAlertCleared(H: Keys -> Fp, c: Client, u: Name, other: Keys, pinned: Keys)
    requires u in c.alerts && c.alerts[u].reason == Link && u != c.me && u in c.pins && c.pins[u].verified
    requires H(other) != c.pins[u].fp && H(other) != c.alerts[u].newFp && H(pinned) == c.pins[u].fp
    ensures u !in Run(H, c, [Fetch(u, true, other), Fetch(u, true, pinned)]).alerts
  {
    var events := [Fetch(u, true, other), Fetch(u, true, pinned)];
    assert events[..0] == [] && events[..2] == events;
    RunNext(H, c, events, 0);
    RunNext(H, c, events, 1);
  }

  lemma KeepsTransitive(c: Client, d: Client, e: Client)
    requires KeepsVerified(c, d) && KeepsVerified(d, e) && KeepsLinkAlerts(c, d) && KeepsLinkAlerts(d, e)
    ensures KeepsVerified(c, e) && KeepsLinkAlerts(c, e)
  {}

  lemma {:induction false} LoadRosterKeeps(H: Keys -> Fp, c: Client, roster: seq<Served>)
    ensures KeepsVerified(c, LoadRoster(H, c, roster)) && KeepsLinkAlerts(c, LoadRoster(H, c, roster))
  {
    if |roster| > 0 {
      var n := |roster| - 1;
      var before := LoadRoster(H, c, roster[..n]);
      LoadRosterKeeps(H, c, roster[..n]);
      CacheKeeps(H, before, roster[n].name, roster[n].keys);
      KeepsTransitive(c, before, LoadRoster(H, c, roster));
    }
  }

  /** No run of relay-driven events changes or removes a verified pin, or clears the alert of a link
      opened for an unverified contact. */
  lemma {:induction false} RelayKeeps(H: Keys -> Fp, c: Client, events: seq<Event>)
    requires forall e :: e in events ==> RelayDriven(e)
    ensures KeepsVerified(c, Run(H, c, events)) && KeepsLinkAlerts(c, Run(H, c, events))
  {
    if |events| > 0 {
      var n := |events| - 1;
      var before, e := Run(H, c, events[..n]), events[n];
      RelayKeeps(H, c, events[..n]);
      assert e in events && RelayDriven(e);
      match e {
        case Fetch(u, refresh, served) => CacheKeeps(H, before, u, served);
        case Roster(roster) => LoadRosterKeeps(H, before, roster);
      }
      KeepsTransitive(c, before, Run(H, c, events));
    }
  }

  // ---- How long the alert of a link lasts ----

  predicate LinkRaised(c: Client, u: Name) {
    u in c.alerts && c.alerts[u].reason == Link
  }

  predicate StillRaised(c: Client, d: Client, u: Name)
    requires u in c.alerts
  {
    u in d.alerts && d.alerts[u] == c.alerts[u]
  }

  /** A key for u that does not differ both from a verified pin and from the key of the alert. */
  predicate Harmless(H: Keys -> Fp, c: Client, u: Name, alert: Alert, rec: Keys) {
    u != c.me && u in c.pins && c.pins[u].verified ==> H(rec) == c.pins[u].fp || H(rec) == alert.newFp
  }

  /** The event adopts only such keys for u. */
  predicate HarmlessEvent(H: Keys -> Fp, c: Client, u: Name, alert: Alert, e: Event) {
    match e
    case Fetch(w, refresh, served) => w == u && (refresh || u !in c.peers) ==> Harmless(H, c, u, alert, served)
    case Roster(roster) => forall m :: m in roster && m.name == u ==> Harmless(H, c, u, alert, m.keys)
    case _ => true
  }

  /** Whether the pin of u is verified, and if so which it is. */
  predicate SamePin(c: Client, d: Client, u: Name) {
    && d.me == c.me
    && ((u in c.pins && c.pins[u].verified) <==> (u in d.pins && d.pins[u].verified))
    && (u in c.pins && c.pins[u].verified ==> d.pins[u] == c.pins[u])
  }

  /** One served key: the alert is as it was exactly when the key is harmless, and never comes back. */
  lemma CacheLink(H: Keys -> Fp, c: Client, w: Name, rec: Keys, u: Name)
    requires u in c.alerts
    ensures SamePin(c, Cache(H, c, w, rec), u)
    ensures LinkRaised(c, u) ==>
              (StillRaised(c, Cache(H, c, w, rec), u) <==> (w == u ==> Harmless(H, c, u, c.alerts[u], rec)))
    ensures LinkRaised(Cache(H, c, w, rec), u) ==> StillRaised(c, Cache(H, c, w, rec), u)
  {}

  lemma CacheNoLink(H: Keys -> Fp, c: Client, w: Name, rec: Keys, u: Name)
    requires !LinkRaised(c, u)
    ensures SamePin(c, Cache(H, c, w, rec), u) && !LinkRaised(Cache(H, c, w, rec), u)
  {}

  lemma HarmlessThere(H: Keys -> Fp, c: Client, d: Client, u: Name, rec: Keys)
    requires u in c.alerts && StillRaised(c, d, u) && SamePin(c, d, u)
    ensures Harmless(H, d, u, d.alerts[u], rec) <==> Harmless(H, c, u, c.alerts[u], rec)
  {}

  lemma {:induction false} RosterLink(H: Keys -> Fp, c: Client, roster: seq<Served>, u: Name)
    requires LinkRaised(c, u)
    ensures SamePin(c, LoadRoster(H, c, roster), u)
    ensures StillRaised(c, LoadRoster(H, c, roster), u) <==>
            (forall m :: m in roster && m.name == u ==> Harmless(H, c, u, c.alerts[u], m.keys))
    ensures LinkRaised(LoadRoster(H, c, roster), u) ==> StillRaised(c, LoadRoster(H, c, roster), u)
  {
    if |roster| > 0 {
      var n := |roster| - 1;
      var before, last := LoadRoster(H, c, roster[..n]), roster[n];
      RosterLink(H, c, roster[..n], u);
      assert forall m :: m in roster <==> m in roster[..n] || m == last;
      if StillRaised(c, before, u) {
        CacheLink(H, before, last.name, last.keys, u);
        HarmlessThere(H, c, before, u, last.keys);
      } else {
        CacheNoLink(H, before, last.name, last.keys, u);
      }
    }
  }

  lemma HandleLink(H: Keys -> Fp, c: Client, e: Event, u: Name)
    requires LinkRaised(c, u) && RelayDriven(e)
    ensures StillRaised(c, Handle(H, c, e), u) <==> HarmlessEvent(H, c, u, c.alerts[u], e)
  {
    match e
    case Fetch(w, refresh, served) => CacheLink(H, c, w, served, u);
    case Roster(roster) => RosterLink(H, c, roster, u);
  }

  ghost predicate RaisedThroughout(H: Keys -> Fp, c: Client, events: seq<Event>, u: Name)
    requires u in c.alerts
  {
    forall k :: 0 <= k <= |events| ==> StillRaised(c, Run(H, c, events[..k]), u)
  }

  predicate HarmlessRun(H: Keys -> Fp, c: Client, events: seq<Event>, u: Name, alert: Alert) {
    forall k :: 0 <= k < |events| ==> HarmlessEvent(H, Run(H, c, events[..k]), u, alert, events[k])
  }

  lemma {:induction false} RaisedUpTo(H: Keys -> Fp, c: Client, events: seq<Event>, u: Name, k: nat)
    requires LinkRaised(c, u) && (forall e :: e in events ==> RelayDriven(e))
    requires HarmlessRun(H, c, events, u, c.alerts[u]) && k <= |events|
    ensures StillRaised(c, Run(H, c, events[..k]), u)
  {
    if k > 0 {
      RaisedUpTo(H, c, events, u, k - 1);
      RunNext(H, c, events, k - 1);
      assert events[k - 1] in events;
      HandleLink(H, Run(H, c, events[..k - 1]), events[k - 1], u);
    }
  }

  /** Whatever the pin: in a run of relay-driven events the alert of a link stays as it is throughout
      exactly when every key the client adopts for the contact is harmless. */
  lemma LinkAlertLasts(H: Keys -> Fp, c: Client, events: seq<Event>, u: Name)
    requires LinkRaised(c, u) && forall e :: e in events ==> RelayDriven(e)
    ensures RaisedThroughout(H, c, events, u) <==> HarmlessRun(H, c, events, u, c.alerts[u])
  {
    if HarmlessRun(H, c, events, u, c.alerts[u]) {
      forall k | 0 <= k <= |events|
        ensures StillRaised(c, Run(H, c, events[..k]), u)
      {
        RaisedUpTo(H, c, events, u, k);
      }
    }
    if RaisedThroughout(H, c, events, u) {
      forall k | 0 <= k < |events|
        ensures HarmlessEvent(H, Run(H, c, events[..k]), u, c.alerts[u], events[k])
      {
        assert StillRaised(c, Run(H, c, events[..k]), u) && StillRaised(c, Run(H, c, events[..k + 1]), u);
        RunNext(H, c, events, k);
        assert events[k] in events;
        HandleLink(H, Run(H, c, events[..k]), events[k], u);
      }
    }
  }

  // ---- Sending ----

  datatype Convo = Dm(id: Name) | Group(members: seq<Served>)

  /** A party of an envelope: who, and under which keys the content key is wrapped. */
  datatype Party = Party(name: Name, keys: Keys)

  datatype Sending = Held | To(parties: seq<Party>)

  function NamesOf(convo: Convo): seq<Name> {
    match convo
    case Dm(id) => [id]
    case Group(members) => seq(|members|, i requires 0 <= i < |members| => members[i].name)
  }

  /** `recipientsFor`. */
  function RecipientsFor(c: Client, own: Keys, convo: Convo): seq<Party>
    requires forall u :: u in NamesOf(convo) ==> u in c.peers
  {
    match convo
    case Dm(id) => [Party(id, c.peers[id])] + if id != c.me then [Party(c.me, own)] else []
    case Group(members) =>
      assert forall i :: 0 <= i < |members| ==> members[i].name == NamesOf(convo)[i];
      seq(|members|, i requires 0 <= i < |members| => Party(members[i].name, c.peers[members[i].name]))
  }

  /** The state `sendCurrent` encrypts in: keys loaded, the roster refreshed. */
  function Loaded(H: Keys -> Fp, c: Client, convo: Convo, served: Keys): Client {
    match convo
    case Dm(id) => GetPeerKeys(H, c, id, false, served)
    case Group(members) => LoadRoster(H, c, members)
  }

  lemma LoadedGuarded(H: Keys -> Fp, c: Client, convo: Convo, served: Keys)
    requires Guarded(H, c)
    ensures Guarded(H, Loaded(H, c, convo, served)) && Loaded(H, c, convo, served).me == c.me
  {
    match convo
    case Dm(id) => CacheGuarded(H, c, id, served);
    case Group(members) => LoadRosterGuarded(H, c, members);
  }

  lemma LoadedPeers(H: Keys -> Fp, c: Client, convo: Convo, served: Keys)
    ensures forall u :: u in NamesOf(convo) ==> u in Loaded(H, c, convo, served).peers
  {
    match convo
    case Dm(id) =>
    case Group(members) =>
      RosterCached(H, c, members);
      forall i | 0 <= i < |members|
        ensures NamesOf(convo)[i] in LoadRoster(H, c, members).peers
      {
        assert members[i] in members;
      }
  }

  /** `sendCurrent` up to the encryption. */
  ghost function SendCurrent(H: Keys -> Fp, c: Client, own: Keys, convo: Convo, served: Keys): Sending {
    LoadedPeers(H, c, convo, served);
    var d := Loaded(H, c, convo, served);
    if exists u :: u in NamesOf(convo) && u in d.alerts then Held else To(RecipientsFor(d, own, convo))
  }

  /** Every party that is a verified contact gets a key that hashes to the pinned code. */
  ghost predicate PinnedOnly(H: Keys -> Fp, c: Client, s: Sending) {
    s.To? ==> forall p :: p in s.parties && p.name != c.me && p.name in c.pins && c.pins[p.name].verified ==>
      H(p.keys) == c.pins[p.name].fp
  }

  lemma PartyPinned(H: Keys -> Fp, c: Client, d: Client, u: Name)
    requires Guarded(H, d) && KeepsVerified(c, d) && u !in d.alerts && u in d.peers
    requires u != c.me && u in c.pins && c.pins[u].verified
    ensures H(d.peers[u]) == c.pins[u].fp
  {
    assert !Mismatched(H, d, u);
  }

  /** Parties are the loaded peers, or the user. */
  lemma PartyNamed(c: Client, own: Keys, convo: Convo, p: Party)
    requires (forall u :: u in NamesOf(convo) ==> u in c.peers) && p in RecipientsFor(c, own, convo)
    ensures p.name == c.me || (p.name in NamesOf(convo) && p.keys == c.peers[p.name])
  {
    match convo
    case Dm(id) => assert NamesOf(convo)[0] == id;
    case Group(members) =>
      var i :| 0 <= i < |members| && RecipientsFor(c, own, convo)[i] == p;
      assert NamesOf(convo)[i] == members[i].name;
  }

  lemma LoadedKeeps(H: Keys -> Fp, c: Client, convo: Convo, served: Keys)
    ensures KeepsVerified(c, Loaded(H, c, convo, served))
  {
    match convo
    case Dm(id) => CacheKeeps(H, c, id, served);
    case Group(members) => LoadRosterKeeps(H, c, members);
  }

  /** With the invariant, a message to a verified contact, alone or in a group, is wrapped only under
      a key that hashes to the pinned code, or held. */
  lemma GuardedSending(H: Keys -> Fp, c: Client, own: Keys, convo: Convo, served: Keys)
    requires Guarded(H, c)
    ensures PinnedOnly(H, c, SendCurrent(H, c, own, convo, served))
  {
    LoadedPeers(H, c, convo, served);
    LoadedGuarded(H, c, convo, served);
    LoadedKeeps(H, c, convo, served);
    var d, s := Loaded(H, c, convo, served), SendCurrent(H, c, own, convo, served);
    if s.To? {
      forall p | p in s.parties && p.name != c.me && p.name in c.pins && c.pins[p.name].verified
        ensures H(p.keys) == c.pins[p.name].fp
      {
        PartyNamed(d, own, convo, p);
        PartyPinned(H, c, d, p.name);
      }
    }
  }

  /** Without it, a message to some contact is not. */
  lemma UnguardedSending(H: Keys -> Fp, c: Client, own: Keys, served: Keys) returns (u: Name)
    requires !Guarded(H, c)
    ensures !PinnedOnly(H, c, SendCurrent(H, c, own, Dm(u), served))
  {
    u :| Mismatched(H, c, u) && u !in c.alerts;
    LoadedPeers(H, c, Dm(u), served);
    var parties := RecipientsFor(c, own, Dm(u));
    assert SendCurrent(H, c, own, Dm(u), served) == To(parties);
    assert parties[0] in parties && parties[0] == Party(u, c.peers[u]);
  }

  /** Every message the client may send in this state goes to pinned keys. */
  ghost predicate SafeToSend(H: Keys -> Fp, c: Client, own: Keys) {
    forall convo, served :: PinnedOnly(H, c, SendCurrent(H, c, own, convo, served))
  }

  /** At every point of a run, messages to verified contacts, alone or in groups, are wrapped only
      under keys that hash to the pinned codes, or held: exactly when every code confirmed in the
      verify dialog was current. */
  lemma SentOnlyToPinnedKeys(H: Keys -> Fp, boot: Client, events: seq<Event>, own: Keys)
    requires Booted(boot)
    ensures (forall k :: 0 <= k <= |events| ==> SafeToSend(H, Run(H, boot, events[..k]), own))
            <==> ConfirmsCurrent(H, boot, events)
  {
    RunGuarded(H, boot, events);
    forall k | 0 <= k <= |events|
      ensures SafeToSend(H, Run(H, boot, events[..k]), own) <==> Guarded(H, Run(H, boot, events[..k]))
    {
      SafeIffGuarded(H, Run(H, boot, events[..k]), own);
    }
  }

  lemma SafeIffGuarded(H: Keys -> Fp, c: Client, own: Keys)
    ensures SafeToSend(H, c, own) <==> Guarded(H, c)
  {
    if Guarded(H, c) {
      forall convo, served
        ensures PinnedOnly(H, c, SendCurrent(H, c, own, convo, served))
      {
        GuardedSending(H, c, own, convo, served);
      }
    } else {
      var u := UnguardedSending(H, c, own, own);
    }
  }

  /** A contact shown as verified has the pinned key in the cache, if every confirmed code was current. */
  lemma VerifiedMeansPinned(H: Keys -> Fp, boot: Client, events: seq<Event>, u: Name)
    requires Booted(boot) && u != boot.me && ConfirmsCurrent(H, boot, events)
    ensures var c := Run(H, boot, events);
            IsVerified(c, u) && u in c.peers ==> H(c.peers[u]) == c.pins[u].fp
  {
    GuardedUpTo(H, boot, events, |events|);
    assert events[..|events|] == events;
  }

  // ---- Whom a message goes to ----

  /** What came of sending, with d the state in which the keys are loaded: held exactly when some contact
      it would go to has an alert; otherwise for every member of the group, in order, or for the contact
      and the user, under the keys cached then. */
  ghost predicate SentToAll(d: Client, own: Keys, convo: Convo, r: Sending) {
    match convo
    case Dm(id) =>
      && id in d.peers && (r == Held <==> id in d.alerts)
      && (r.To? && id == d.me ==> r.parties == [Party(id, d.peers[id])])
      && (r.To? && id != d.me ==> r.parties == [Party(id, d.peers[id]), Party(d.me, own)])
    case Group(members) =>
      && (r == Held <==> exists m :: m in members && m.name in d.alerts)
      && (r.To? ==>
            && |r.parties| == |members|
            && forall i :: 0 <= i < |members| ==>
                 members[i].name in d.peers && r.parties[i] == Party(members[i].name, d.peers[members[i].name]))
  }

  lemma SendingIsComplete(H: Keys -> Fp, c: Client, own: Keys, convo: Convo, served: Keys)
    ensures Loaded(H, c, convo, served).me == c.me
    ensures SentToAll(Loaded(H, c, convo, served), own, convo, SendCurrent(H, c, own, convo, served))
  {
    LoadedPeers(H, c, convo, served);
    LoadedMe(H, c, convo, served);
    match convo
    case Dm(id) => assert NamesOf(convo) == [id];
    case Group(members) => GroupNames(members);
  }

  lemma GroupNames(members: seq<Served>)
    ensures forall i :: 0 <= i < |members| ==> members[i].name in NamesOf(Group(members))
    ensures forall u :: u in NamesOf(Group(members)) ==> exists m :: m in members && m.name == u
  {
    forall i | 0 <= i < |members| ensures members[i].name in NamesOf(Group(members)) {
      assert NamesOf(Group(members))[i] == members[i].name;
    }
    forall u | u in NamesOf(Group(members)) ensures exists m :: m in members && m.name == u {
      var i :| 0 <= i < |members| && NamesOf(Group(members))[i] == u;
      assert members[i] in members;
    }
  }

  lemma LoadedMe(H: Keys -> Fp, c: Client, convo: Convo, served: Keys)
    ensures Loaded(H, c, convo, served).me == c.me
  {
    match convo
    case Dm(id) =>
    case Group(members) => LoadRosterKeeps(H, c, members);
  }

  /** The keys cached for a group are those of its roster. */
  lemma {:induction false} RosterKeysCached(H: Keys -> Fp, c: Client, roster: seq<Served>, i: nat)
    requires i < |roster| && forall j, k :: 0 <= j < k < |roster| ==> roster[j].name != roster[k].name
    ensures roster[i].name in LoadRoster(H, c, roster).peers
    ensures LoadRoster(H, c, roster).peers[roster[i].name] == roster[i].keys
  {
    var n := |roster| - 1;
    if i < n { RosterKeysCached(H, c, roster[..n], i); }
  }

  // ---- What alerts and pins say ----

  /** The alerts are those of the verified contacts whose cached key is not the pinned one, and name
      both; and every other cached contact is pinned to the cached key. */
  ghost predicate Exact(H: Keys -> Fp, c: Client) {
    && (forall u :: u in c.alerts <==> Mismatched(H, c, u))
    && (forall u :: u in c.alerts ==> c.alerts[u] == Alert(c.pins[u].fp, H(c.peers[u]), Changed))
    && (forall u :: u in c.peers && u != c.me ==> u in c.pins)
    && (forall u :: u in c.peers && u != c.me && !c.pins[u].verified ==> c.pins[u].fp == H(c.peers[u]))
  }

  lemma CacheExact(H: Keys -> Fp, c: Client, u: Name, rec: Keys)
    requires Exact(H, c)
    ensures Exact(H, Cache(H, c, u, rec))
  {
    assert u in c.alerts ==> c.alerts[u].reason == Changed;
  }

  lemma {:induction false} LoadRosterExact(H: Keys -> Fp, c: Client, roster: seq<Served>)
    requires Exact(H, c)
    ensures Exact(H, LoadRoster(H, c, roster))
  {
    if |roster| > 0 {
      LoadRosterExact(H, c, roster[..|roster| - 1]);
      CacheExact(H, LoadRoster(H, c, roster[..|roster| - 1]), roster[|roster| - 1].name, roster[|roster| - 1].keys);
    }
  }

  /** A code confirmed in the dialog is still current, and an opened link has the code of the key. */
  predicate Orderly(H: Keys -> Fp, c: Client, e: Event) {
    match e
    case ConfirmDialog => c.dialog.Asking? ==> c.dialog.who in c.peers && H(c.peers[c.dialog.who]) == c.dialog.fp
    case OpenLink(who, linkFp, served) => linkFp == if who in c.peers then H(c.peers[who]) else H(served)
    case _ => true
  }

  lemma ConfirmExact(H: Keys -> Fp, c: Client)
    requires Exact(H, c) && Orderly(H, c, ConfirmDialog) && (c.dialog.Asking? ==> c.dialog.who != c.me)
    ensures Exact(H, Confirm(c))
  {}

  lemma LinkExact(H: Keys -> Fp, c: Client, who: Name, linkFp: Fp, served: Keys)
    requires Exact(H, c) && Orderly(H, c, OpenLink(who, linkFp, served))
    ensures Exact(H, DeepLink(H, c, who, linkFp, served))
  {
    CacheExact(H, c, who, served);
  }

  predicate AsksOthers(c: Client) {
    c.dialog.Asking? ==> c.dialog.who != c.me
  }

  lemma HandleAsksOthers(H: Keys -> Fp, c: Client, e: Event)
    requires AsksOthers(c)
    ensures AsksOthers(Handle(H, c, e)) && Handle(H, c, e).me == c.me
  {
    if e.Roster? { RosterSameDialog(H, c, e.roster); }
  }

  lemma OpenDialogExact(H: Keys -> Fp, c: Client, u: Name, served: Keys)
    requires Exact(H, c)
    ensures Exact(H, ShowDialog(H, c, u, served))
  {
    CacheExact(H, c, u, served);
    if u == c.me {
      DialogApart(H, c, Closed);
    } else {
      var shown := GetPeerKeys(H, c, u, true, served);
      DialogApart(H, shown, Asking(u, H(shown.peers[u]), !IsVerified(shown, u)));
    }
  }

  lemma DialogApart(H: Keys -> Fp, c: Client, dialog: Dialog)
    ensures Exact(H, c) <==> Exact(H, c.(dialog := dialog))
  {
    var d := c.(dialog := dialog);
    assert forall u :: Mismatched(H, c, u) <==> Mismatched(H, d, u);
  }

  lemma AcceptExact(H: Keys -> Fp, c: Client, u: Name)
    requires Exact(H, c)
    ensures Exact(H, AcceptNewKey(c, u))
  {}

  lemma HandleExact(H: Keys -> Fp, c: Client, e: Event)
    requires Exact(H, c) && Orderly(H, c, e) && AsksOthers(c)
    ensures Exact(H, Handle(H, c, e))
  {
    match e
    case Fetch(u, refresh, served) => CacheExact(H, c, u, served);
    case Roster(roster) => LoadRosterExact(H, c, roster);
    case Accept(u) => AcceptExact(H, c, u);
    case OpenDialog(u, served) => OpenDialogExact(H, c, u, served);
    case ConfirmDialog => ConfirmExact(H, c);
    case DismissDialog => DialogApart(H, c, Closed);
    case OpenLink(who, linkFp, served) => LinkExact(H, c, who, linkFp, served);
  }

  lemma {:induction false} RosterSameDialog(H: Keys -> Fp, c: Client, roster: seq<Served>)
    ensures LoadRoster(H, c, roster).dialog == c.dialog && LoadRoster(H, c, roster).me == c.me
  {
    if |roster| > 0 { RosterSameDialog(H, c, roster[..|roster| - 1]); }
  }

  ghost predicate OrderlyRun(H: Keys -> Fp, c: Client, events: seq<Event>) {
    forall k :: 0 <= k < |events| ==> Orderly(H, Run(H, c, events[..k]), events[k])
  }

  lemma {:induction false} ExactUpTo(H: Keys -> Fp, c: Client, events: seq<Event>, k: nat)
    requires Booted(c) && OrderlyRun(H, c, events) && k <= |events|
    ensures Exact(H, Run(H, c, events[..k])) && AsksOthers(Run(H, c, events[..k]))
  {
    if k > 0 {
      ExactUpTo(H, c, events, k - 1);
      RunNext(H, c, events, k - 1);
      HandleExact(H, Run(H, c, events[..k - 1]), events[k - 1]);
      HandleAsksOthers(H, Run(H, c, events[..k - 1]), events[k - 1]);
    }
  }

  /** As long as every opened link has the code of the key, and every confirmed code is current, there is
      an alert exactly for the verified contacts whose cached key is not the pinned one, and everybody
      else is pinned to the cached key: no false alarm, and no missing one. */
  lemma AlertsAreExact(H: Keys -> Fp, boot: Client, events: seq<Event>)
    requires Booted(boot) && OrderlyRun(H, boot, events)
    ensures Exact(H, Run(H, boot, events))
  {
    ExactUpTo(H, boot, events, |events|);
    assert events[..|events|] == events;
  }

  // ---- Who verifies ----

  ghost predicate NoNewlyVerified(c: Client, d: Client) {
    forall u :: u in d.pins && d.pins[u].verified ==> u in c.pins && c.pins[u].verified && c.pins[u].fp == d.pins[u].fp
  }

  lemma {:induction false} RosterVerifiesNobody(H: Keys -> Fp, c: Client, roster: seq<Served>)
    ensures NoNewlyVerified(c, LoadRoster(H, c, roster))
  {
    if |roster| > 0 { RosterVerifiesNobody(H, c, roster[..|roster| - 1]); }
  }

  /** Only the button of the dialog and a link with the right code verify a contact: no served key does,
      and accepting a new key does not. */
  lemma OnlyUserVerifies(H: Keys -> Fp, c: Client, e: Event)
    requires !e.ConfirmDialog? && !e.OpenLink?
    ensures NoNewlyVerified(c, Handle(H, c, e))
  {
    if e.Roster? { RosterVerifiesNobody(H, c, e.roster); }
  }

  /** Accepting pins the new code, unverified, and lets messages through again. */
  lemma AcceptResolves(H: Keys -> Fp, c: Client, u: Name)
    requires u in c.alerts
    ensures var d := Handle(H, c, Accept(u));
            d.pins == c.pins[u := Pin(c.alerts[u].newFp, false)] && d.alerts == c.alerts - {u} && d.peers == c.peers
  {}

  /** A link makes its contact verified under its code exactly when that is the code of the key, and
      otherwise raises an alert that names both. */
  lemma LinkDecides(H: Keys -> Fp, c: Client, who: Name, linkFp: Fp, served: Keys)
    requires who != c.me
    ensures var d := Handle(H, c, OpenLink(who, linkFp, served));
            var fp := if who in c.peers then H(c.peers[who]) else H(served);
         && (linkFp == fp ==> IsVerified(d, who) && d.pins[who].fp == linkFp)
         && (linkFp != fp ==> who in d.alerts && d.alerts[who] == Alert(linkFp, fp, Link) && KeepsVerified(c, d))
  {
    CacheKeeps(H, c, who, served);
  }

  /** The dialog's button turns verification on or off, under the code that was served for it. */
  lemma ButtonToggles(H: Keys -> Fp, c: Client, u: Name, served: Keys)
    requires u != c.me
    ensures var shown := Handle(H, c, OpenDialog(u, served));
            var d := Handle(H, shown, ConfirmDialog);
         && d.pins[u] == Pin(H(served), !IsVerified(shown, u)) && u !in d.alerts
         && (IsVerified(d, u) <==> !IsVerified(shown, u)) && d.dialog == Closed
  {}

  // ---- The state object ----

  class TrustState {
    const me: Name
    const hash: Keys -> Fp
    var pins: map<Name, Pin>
    var keyAlerts: map<Name, Alert>
    var peers: map<Name, Keys>
    var dialog: Dialog

    function State(): Client
      reads this
    {
      Client(me, pins, keyAlerts, peers, dialog)
    }

    /** A verified contact whose cached key is not the pinned one has an alert. */
    ghost predicate Valid()
      reads this
    {
      Guarded(hash, State())
    }

    constructor (me: Name, own: Keys, hash: Keys -> Fp, stored: map<Name, Pin>)
      ensures State() == Client(me, stored, map[], map[me := own], Closed)
      ensures this.hash == hash && Booted(State()) && Valid()
    {
      this.me, this.hash := me, hash;
      pins, keyAlerts, peers, dialog := stored, map[], map[me := own], Closed;
    }

    method AdoptPeerKeys(u: Name, rec: Keys)
      modifies `pins, `keyAlerts
      ensures State() == Adopt(hash, old(State()), u, rec)
    {
      var fp := hash(rec);
      if u == me { return; }
      if u !in pins {
        pins := pins[u := Pin(fp, false)];
      } else if pins[u].fp != fp {
        if pins[u].verified {
          if u !in keyAlerts || keyAlerts[u].newFp != fp {
            keyAlerts := keyAlerts[u := Alert(pins[u].fp, fp, Changed)];
          }
        } else {
          pins := pins[u := Pin(fp, false)];
        }
      } else if u in keyAlerts && keyAlerts[u].reason == Changed {
        keyAlerts := keyAlerts - {u};
      }
    }

    method GetKeys(u: Name, refresh: bool, served: Keys)
      requires Valid()
      modifies this
      ensures Valid() && State() == GetPeerKeys(hash, old(State()), u, refresh, served)
    {
      if !refresh && u in peers { return; }
      CacheGuarded(hash, State(), u, served);
      AdoptPeerKeys(u, served);
      peers := peers[u := served];
    }

    method EnsureGroupLoaded(roster: seq<Served>)
      requires Valid()
      modifies this
      ensures Valid() && State() == LoadRoster(hash, old(State()), roster)
    {
      LoadRosterGuarded(hash, State(), roster);
      for i := 0 to |roster|
        invariant State() == LoadRoster(hash, old(State()), roster[..i])
      {
        AdoptPeerKeys(roster[i].name, roster[i].keys);
        peers := peers[roster[i].name := roster[i].keys];
        assert roster[..i + 1][..i] == roster[..i];
      }
      assert roster[..|roster|] == roster;
    }

    method AcceptKey(u: Name)
      requires Valid()
      modifies this
      ensures Valid() && State() == AcceptNewKey(old(State()), u)
    {
      if u !in keyAlerts { return; }
      pins := pins[u := Pin(keyAlerts[u].newFp, false)];
      keyAlerts := keyAlerts - {u};
    }

    method MarkVerified(u: Name, fp: Fp, verified: bool)
      modifies `pins, `keyAlerts
      ensures State() == SetVerified(old(State()), u, fp, verified)
    {
      pins := pins[u := Pin(fp, verified)];
      keyAlerts := keyAlerts - {u};
    }

    method OpenFingerprint(u: Name, served: Keys)
      requires Valid()
      modifies this
      ensures Valid() && State() == ShowDialog(hash, old(State()), u, served)
    {
      if u == me {
        dialog := Closed;
        return;
      }
      GetKeys(u, true, served);
      dialog := Asking(u, hash(peers[u]), !IsVerified(State(), u));
    }

    /** The button keeps the invariant exactly when the code shown is that of the cached key. */
    method PressConfirm()
      requires Valid()
      modifies this
      ensures State() == Confirm(old(State()))
      ensures Valid() <==> old(ShowsCached(hash, State()))
    {
      ConfirmGuarded(hash, State());
      if dialog.Asking? {
        MarkVerified(dialog.who, dialog.fp, dialog.verify);
        dialog := Closed;
      }
    }

    method ProcessDeepLink(who: Name, linkFp: Fp, served: Keys)
      requires Valid()
      modifies this
      ensures Valid() && State() == DeepLink(hash, old(State()), who, linkFp, served)
    {
      LinkGuarded(hash, State(), who, linkFp, served);
      if who == me { return; }
      GetKeys(who, false, served);
      var fp := hash(peers[who]);
      if fp == linkFp {
        MarkVerified(who, linkFp, true);
      } else {
        keyAlerts := keyAlerts[who := Alert(linkFp, fp, Link)];
      }
    }

    /** Loads the keys the conversation needs, then refuses or names the parties; verified contacts
        among them get keys that hash to their pins. */
    method Send(convo: Convo, own: Keys, served: Keys) returns (r: Sending)
      requires Valid()
      modifies this
      ensures Valid() && State() == Loaded(hash, old(State()), convo, served)
      ensures r == SendCurrent(hash, old(State()), own, convo, served) && PinnedOnly(hash, old(State()), r)
      ensures SentToAll(State(), own, convo, r)
    {
      LoadedPeers(hash, State(), convo, served);
      SendingIsComplete(hash, State(), own, convo, served);
      GuardedSending(hash, State(), own, convo, served);
      match convo {
        case Dm(id) => GetKeys(id, false, served);
        case Group(members) => EnsureGroupLoaded(members);
      }
      var names := NamesOf(convo);
      var held := set u | u in names && u in keyAlerts;
      if held != {} {
        assert exists u :: u in names && u in keyAlerts by {
          var u :| u in held;
        }
        return Held;
      }
      assert forall u :: u in names && u in keyAlerts ==> u in held;
      r := To(RecipientsFor(State(), own, convo));
    }
  }
}
