/** Loading history page by page while the relay goes on storing and sweeping
    (client/js/app.js:1299-1310; server/database.py:274-286, 530-539). */
module Paging {
  import opened RelayStore
  import opened RelayInvariants

  /** The conversation as it can be read when page k is fetched: its visible envelopes in table order. */
  type Timeline = nat -> seq<Envelope>

  function Above(es: seq<Envelope>, since: nat): seq<Envelope> {
    Keep(es, (e: Envelope) => e.id > since)
  }

  /** One history request: the first `limit` envelopes with larger ids. */
  function Page(es: seq<Envelope>, since: nat, limit: nat): seq<Envelope> {
    Take(Above(es, since), limit)
  }

  /** Such a page is what the relay's query for a conversation returns. */
  lemma PageIsConversation(s: Store, a: Name, b: Name, since: nat, now: Time, limit: nat)
    ensures Conversation(s, a, b, since, now, limit)
         == Page(Keep(s.envelopes, (e: Envelope) => Between(e, a, b) && (e.expires.None? || e.expires.value > now)),
                 since, limit)
  {
    KeepKeep(s.envelopes, (e: Envelope) => Between(e, a, b) && (e.expires.None? || e.expires.value > now),
             (e: Envelope) => e.id > since, (e: Envelope) => Between(e, a, b) && Visible(e, since, now));
  }

  /** So is one of a group. */
  lemma PageIsGroupMessages(s: Store, g: nat, since: nat, now: Time, limit: nat)
    ensures GroupMessages(s, g, since, now, limit)
         == Page(Keep(s.groupEnvelopes,
                      (e: Envelope) => e.dest == Room(g) && (e.expires.None? || e.expires.value > now)),
                 since, limit)
  {
    KeepKeep(s.groupEnvelopes, (e: Envelope) => e.dest == Room(g) && (e.expires.None? || e.expires.value > now),
             (e: Envelope) => e.id > since, (e: Envelope) => e.dest == Room(g) && Visible(e, since, now));
  }

  ghost predicate Ids(timeline: Timeline) {
    forall k :: Increasing(timeline(k))
  }

  /** e could be read at one of the first n requests. */
  ghost predicate Seen(timeline: Timeline, n: nat, e: Envelope) {
    exists k :: 0 <= k < n && e in timeline(k)
  }

  /** e could be read at every one of the first n requests. */
  ghost predicate StaysVisible(timeline: Timeline, n: nat, e: Envelope) {
    forall k :: 0 <= k < n ==> e in timeline(k)
  }

  /** What lies beyond the first n is larger. */
  lemma BeyondIsLarger(es: seq<Envelope>, n: nat, d: Envelope, e: Envelope)
    requires Increasing(es) && n <= |es| && d in es[..n] && e in es && e !in es[..n]
    ensures d.id < e.id
  {
    var i :| 0 <= i < |es| && es[i] == e;
    var j :| 0 <= j < n && es[j] == d;
    assert forall t :: 0 <= t < n ==> es[..n][t] == es[t] && es[t] in es[..n];
  }

  lemma PrefixIncreasing(es: seq<Envelope>, n: nat)
    requires Increasing(es) && n <= |es|
    ensures Increasing(es[..n])
  {}

  /** A page ends with its largest id, and leaves out only larger ones when it is full. */
  lemma PageFacts(es: seq<Envelope>, since: nat, limit: nat)
    requires Increasing(es)
    ensures var page := Page(es, since, limit);
         && Increasing(page) && (forall e :: e in page ==> e in es && e.id > since)
         && (forall e ::
               e in es && e.id > since && e !in page ==> |page| == limit && forall d :: d in page ==> d.id < e.id)
  {
    var above := Above(es, since);
    KeepIncreasing(es, (e: Envelope) => e.id > since);
    if |above| > limit {
      PrefixIncreasing(above, limit);
      assert forall e :: e in above[..limit] ==> e in above;
      forall e, d | e in above && e !in above[..limit] && d in above[..limit]
        ensures d.id < e.id
      {
        BeyondIsLarger(above, limit, d, e);
      }
    }
  }

  lemma IncreasingConcat(a: seq<Envelope>, b: seq<Envelope>, since: nat)
    requires Increasing(a) && Increasing(b)
    requires (forall e :: e in a ==> e.id <= since) && (forall e :: e in b ==> e.id > since)
    ensures Increasing(a + b)
  {
    forall i, j | 0 <= i < j < |a + b|
      ensures (a + b)[i].id < (a + b)[j].id
    {
      if i < |a| && j >= |a| {
        assert a[i] in a && b[j - |a|] in b;
      }
    }
  }

  datatype Outcome = Complete | GaveUp

  /** `pullHistory`: fetch from `since`, ingest, move on to the last id, until a short page. The k-th
      request sees timeline(k). With a client page no longer than the relay's, what is ingested is in
      increasing order of id, and when the loop ends with a short page, every envelope above `since`
      that stayed visible has been ingested. */
  method PullHistory(timeline: Timeline, since: nat, clientPage: nat, relayPage: nat, pageGuard: nat)
    returns (ingested: seq<Envelope>, outcome: Outcome, requests: nat)
    requires 1 <= clientPage <= relayPage && Ids(timeline)
    ensures requests <= pageGuard && (outcome == GaveUp ==> requests == pageGuard)
    ensures outcome == Complete ==> requests > 0 && |ingested| >= Reach(0, requests - 1, clientPage)
    ensures outcome == GaveUp && pageGuard > 0 ==> SeenAsLargeAs(timeline, Reach(since, pageGuard, clientPage))
    ensures Increasing(ingested)
    ensures forall e :: e in ingested ==> e.id > since && Seen(timeline, requests, e)
    ensures outcome == Complete ==>
              forall e: Envelope :: e.id > since && StaysVisible(timeline, requests, e) ==> e in ingested
  {
    ingested, outcome, requests := [], GaveUp, 0;
    var at := since;
    while requests < pageGuard
      invariant Reach(since, requests, clientPage) <= at && (requests > 0 ==> SeenAsLargeAs(timeline, at))
      invariant requests <= pageGuard && Ingested(timeline, since, at, requests, ingested)
      invariant |ingested| >= Reach(0, requests, clientPage)
    {
      var short;
      ingested, short, at := NextPage(timeline, since, at, requests, clientPage, relayPage, ingested);
      requests := requests + 1;
      if short {
        outcome := Complete;
        return;
      }
    }
    SeenSmaller(timeline, Reach(since, pageGuard, clientPage), at);
  }

  /** One round of the loop: fetch, ingest, and move on unless the page was short. */
  method NextPage(timeline: Timeline, since: nat, at: nat, n: nat, clientPage: nat, relayPage: nat, was: seq<Envelope>)
    returns (ingested: seq<Envelope>, short: bool, next: nat)
    requires 1 <= clientPage <= relayPage && Ids(timeline) && Ingested(timeline, since, at, n, was)
    ensures short ==> AllIngested(timeline, since, n + 1, ingested)
    ensures !short ==> Ingested(timeline, since, next, n + 1, ingested)
    ensures !short ==> next >= at + clientPage && SeenAsLargeAs(timeline, next)
    ensures |ingested| >= |was| + if short then 0 else clientPage
  {
    var page := Page(timeline(n), at, relayPage);
    PageIngested(timeline, since, at, n, relayPage, was);
    ingested, next := was + page, at;
    short := |page| < clientPage;
    if !short {
      PageAdvances(page, at);
      next := page[|page| - 1].id;
      assert page[|page| - 1] in timeline(n);
    }
  }

  /** The id that n full pages reach at least. */
  function Reach(since: nat, n: nat, page: nat): nat {
    if n == 0 then since else Reach(since, n - 1, page) + page
  }

  lemma {:induction false} ReachIsProduct(since: nat, n: nat, page: nat)
    ensures Reach(since, n, page) == since + n * page
  {
    if n > 0 {
      ReachIsProduct(since, n - 1, page);
      assert n * page == (n - 1) * page + page;
    }
  }

  /** After n requests everything above `since` and not above `at` that stayed visible is ingested. */
  ghost predicate Ingested(timeline: Timeline, since: nat, at: nat, n: nat, ingested: seq<Envelope>) {
    && since <= at && Increasing(ingested) && (forall e :: e in ingested ==> since < e.id <= at)
    && (forall e :: e in ingested ==> Seen(timeline, n, e))
    && (forall e: Envelope :: since < e.id <= at && StaysVisible(timeline, n, e) ==> e in ingested)
  }

  lemma SeenLater(timeline: Timeline, n: nat, e: Envelope)
    requires Seen(timeline, n, e)
    ensures Seen(timeline, n + 1, e)
  {}

  /** Every envelope above `since` that stayed visible to n requests is ingested. */
  ghost predicate AllIngested(timeline: Timeline, since: nat, n: nat, ingested: seq<Envelope>) {
    && Increasing(ingested) && (forall e :: e in ingested ==> e.id > since && Seen(timeline, n, e))
    && (forall e: Envelope :: e.id > since && StaysVisible(timeline, n, e) ==> e in ingested)
  }

  /** One more page: a short one completes the conversation, and after a full one everything up to its
      last id is ingested. */
  lemma PageIngested(timeline: Timeline, since: nat, at: nat, n: nat, limit: nat, ingested: seq<Envelope>)
    requires Ids(timeline) && limit > 0 && Ingested(timeline, since, at, n, ingested)
    ensures var page := Page(timeline(n), at, limit);
         && Increasing(page) && (forall e :: e in page ==> e.id > at && e in timeline(n))
         && (|page| < limit ==> AllIngested(timeline, since, n + 1, ingested + page))
         && (|page| > 0 ==> Ingested(timeline, since, page[|page| - 1].id, n + 1, ingested + page))
  {
    var page := Page(timeline(n), at, limit);
    PageFacts(timeline(n), at, limit);
    IncreasingConcat(ingested, page, at);
    forall e | e in ingested + page
      ensures Seen(timeline, n + 1, e)
    {
      if e in page { assert e in timeline(n); } else { SeenLater(timeline, n, e); }
    }
    forall e: Envelope | e.id > since && StaysVisible(timeline, n + 1, e)
      ensures e in ingested + page || (e.id > at && |page| == limit && forall d :: d in page ==> d.id < e.id)
    {
      assert e in timeline(n) && StaysVisible(timeline, n, e);
    }
    if |page| > 0 {
      assert page[|page| - 1] in page;
      LastIsLargest(page);
    }
  }

  /** Some request could see an id as large as this. */
  ghost predicate SeenAsLargeAs(timeline: Timeline, id: nat) {
    exists k: nat, e :: e in timeline(k) && e.id >= id
  }

  lemma SeenSmaller(timeline: Timeline, small: nat, large: nat)
    requires small <= large
    ensures SeenAsLargeAs(timeline, large) ==> SeenAsLargeAs(timeline, small)
  {
    if k: nat, e :| e in timeline(k) && e.id >= large {
      assert e in timeline(k) && e.id >= small;
    }
  }

  /** A page moves on by at least as many ids as it has envelopes. */
  lemma {:induction false} PageAdvances(page: seq<Envelope>, since: nat)
    requires |page| > 0 && Increasing(page) && forall e :: e in page ==> e.id > since
    ensures page[|page| - 1].id >= since + |page|
  {
    var n := |page| - 1;
    assert page[n] in page;
    if n > 0 {
      assert page[n - 1] in page;
      PageAdvances(page[..n], since);
    }
  }

  lemma LastIsLargest(page: seq<Envelope>)
    requires |page| > 0 && Increasing(page)
    ensures forall e :: e in page ==> e.id <= page[|page| - 1].id
  {
    forall e | e in page
      ensures e.id <= page[|page| - 1].id
    {
      var i :| 0 <= i < |page| && page[i] == e;
    }
  }

  /** Whatever else the relay does between two requests, an envelope that has not expired and whose
      parties keep their accounts is still there at the next one. */
  lemma StaysStored(s: Store, op: Op, now: Time, e: Envelope)
    requires e in s.envelopes && !Expired(e, now)
    requires op.OpDeleteAccount? ==> op.me != e.sender && e.dest != Direct(op.me)
    ensures e in Step(s, op, now).envelopes
  {}

  /** The envelope outlives the operations from the i-th to the j-th of a run. */
  ghost predicate Outlives(ops: seq<(Op, Time)>, i: nat, j: nat, e: Envelope) {
    forall k :: i <= k < j && k < |ops| ==>
      !Expired(e, ops[k].1) && (ops[k].0.OpDeleteAccount? ==> ops[k].0.me != e.sender && e.dest != Direct(ops[k].0.me))
  }

  lemma {:induction false} StoredThroughout(ops: seq<(Op, Time)>, i: nat, j: nat, e: Envelope)
    requires i <= j <= |ops| && e in Run(ops[..i]).envelopes && Outlives(ops, i, j, e)
    ensures e in Run(ops[..j]).envelopes
    decreases j
  {
    if i < j {
      StoredThroughout(ops, i, j - 1, e);
      RunNext(ops, j - 1);
      StoredNext(Run(ops[..j - 1]), Run(ops[..j - 1 + 1]), ops[j - 1], e);
    }
  }

  lemma StoredNext(s: Store, t: Store, op: (Op, Time), e: Envelope)
    requires e in s.envelopes && !Expired(e, op.1) && t == Step(s, op.0, op.1)
    requires op.0.OpDeleteAccount? ==> op.0.me != e.sender && e.dest != Direct(op.0.me)
    ensures e in t.envelopes
  {
    StaysStored(s, op.0, op.1, e);
  }

  /** What a conversation shows after these operations, read at that time. */
  ghost function Shown(ops: seq<(Op, Time)>, a: Name, b: Name, now: Time): seq<Envelope> {
    Keep(Run(ops).envelopes, (e: Envelope) => Between(e, a, b) && (e.expires.None? || e.expires.value > now))
  }

  /** When request k comes after marks[k] operations of a run, at clocks[k]: an envelope stored before
      the first request stays visible to all of them, unless it expires or a party's account goes. */
  lemma VisibleThroughout(timeline: Timeline, ops: seq<(Op, Time)>, marks: seq<nat>, clocks: seq<Time>,
                          a: Name, b: Name, e: Envelope)
    requires 0 < |marks| == |clocks|
    requires forall k :: 0 <= k < |marks| ==> marks[0] <= marks[k] <= |ops|
    requires forall k :: 0 <= k < |marks| ==> timeline(k) == Shown(ops[..marks[k]], a, b, clocks[k])
    requires e in Run(ops[..marks[0]]).envelopes && Between(e, a, b) && Outlives(ops, marks[0], |ops|, e)
    requires forall k :: 0 <= k < |marks| ==> !Expired(e, clocks[k])
    ensures StaysVisible(timeline, |marks|, e)
  {
    forall k | 0 <= k < |marks|
      ensures e in timeline(k)
    {
      StoredThroughout(ops, marks[0], marks[k], e);
    }
  }

  /** The same for a group: its envelopes stay while it and the sender's account do. */
  lemma StaysPosted(s: Store, op: Op, now: Time, e: Envelope)
    requires e in s.groupEnvelopes && e.dest.Room? && !Expired(e, now)
    requires op.OpDeleteAccount? ==> op.me != e.sender
    requires e.dest.group in Step(s, op, now).groups
    ensures e in Step(s, op, now).groupEnvelopes
  {}

  /** The group envelope outlives the operations from the i-th to the j-th of a run. */
  ghost predicate OutlivesInGroup(ops: seq<(Op, Time)>, i: nat, j: nat, e: Envelope) {
    forall k :: i <= k < j && k < |ops| ==>
      !Expired(e, ops[k].1) && (ops[k].0.OpDeleteAccount? ==> ops[k].0.me != e.sender)
      && e.dest.Room? && e.dest.group in Run(ops[..k + 1]).groups
  }

  lemma {:induction false} PostedThroughout(ops: seq<(Op, Time)>, i: nat, j: nat, e: Envelope)
    requires i <= j <= |ops| && e in Run(ops[..i]).groupEnvelopes && OutlivesInGroup(ops, i, j, e)
    ensures e in Run(ops[..j]).groupEnvelopes
    decreases j
  {
    if i < j {
      PostedThroughout(ops, i, j - 1, e);
      RunNext(ops, j - 1);
      PostedNext(Run(ops[..j - 1]), Run(ops[..j - 1 + 1]), ops[j - 1], e);
    }
  }

  lemma RunNext(ops: seq<(Op, Time)>, k: nat)
    requires k < |ops|
    ensures Run(ops[..k + 1]) == Step(Run(ops[..k]), ops[k].0, ops[k].1)
  {
    assert ops[..k + 1][..k] == ops[..k];
  }

  lemma PostedNext(s: Store, t: Store, op: (Op, Time), e: Envelope)
    requires e in s.groupEnvelopes && e.dest.Room? && !Expired(e, op.1)
    requires op.0.OpDeleteAccount? ==> op.0.me != e.sender
    requires t == Step(s, op.0, op.1) && e.dest.group in t.groups
    ensures e in t.groupEnvelopes
  {
    StaysPosted(s, op.0, op.1, e);
  }

  ghost function ShownInGroup(ops: seq<(Op, Time)>, g: nat, now: Time): seq<Envelope> {
    Keep(Run(ops).groupEnvelopes, (e: Envelope) => e.dest == Room(g) && (e.expires.None? || e.expires.value > now))
  }

  lemma VisibleInGroupThroughout(timeline: Timeline, ops: seq<(Op, Time)>, marks: seq<nat>, clocks: seq<Time>,
                                 g: nat, e: Envelope)
    requires 0 < |marks| == |clocks|
    requires forall k :: 0 <= k < |marks| ==> marks[0] <= marks[k] <= |ops|
    requires forall k :: 0 <= k < |marks| ==> timeline(k) == ShownInGroup(ops[..marks[k]], g, clocks[k])
    requires e in Run(ops[..marks[0]]).groupEnvelopes && e.dest == Room(g) && OutlivesInGroup(ops, marks[0], |ops|, e)
    requires forall k :: 0 <= k < |marks| ==> !Expired(e, clocks[k])
    ensures StaysVisible(timeline, |marks|, e)
  {
    forall k | 0 <= k < |marks|
      ensures e in timeline(k)
    {
      ShownInGroupAfter(ops, marks[0], marks[k], clocks[k], g, e);
    }
  }

  lemma ShownInGroupAfter(ops: seq<(Op, Time)>, i: nat, j: nat, now: Time, g: nat, e: Envelope)
    requires i <= j <= |ops| && e in Run(ops[..i]).groupEnvelopes && e.dest == Room(g)
    requires OutlivesInGroup(ops, i, |ops|, e) && !Expired(e, now)
    ensures e in ShownInGroup(ops[..j], g, now)
  {
    OutlivesLess(ops, i, j, e);
    PostedThroughout(ops, i, j, e);
  }

  lemma OutlivesLess(ops: seq<(Op, Time)>, i: nat, j: nat, e: Envelope)
    requires j <= |ops| && OutlivesInGroup(ops, i, |ops|, e)
    ensures OutlivesInGroup(ops, i, j, e)
  {}

  /** In every reachable store, what can be read of a conversation is in order of id. */
  lemma TimelineInOrder(ops: seq<(Op, Time)>, p: Envelope -> bool)
    ensures Increasing(Keep(Run(ops).envelopes, p)) && Increasing(Keep(Run(ops).groupEnvelopes, p))
  {
    RunInv(ops);
    KeepIncreasing(Run(ops).envelopes, p);
    KeepIncreasing(Run(ops).groupEnvelopes, p);
  }

  // ---- Loading a conversation while the relay runs ----

  /** Every operation stores at most one envelope, so ids are no larger than the number of operations. */
  lemma {:induction false} IdsAreCounted(ops: seq<(Op, Time)>)
    ensures Run(ops).nextEnvelope <= |ops| + 1 && Run(ops).nextGroupEnvelope <= |ops| + 1
    ensures forall e :: e in Run(ops).envelopes || e in Run(ops).groupEnvelopes ==> e.id <= |ops|
  {
    RunInv(ops);
    if |ops| > 0 {
      IdsAreCounted(ops[..|ops| - 1]);
      OneMoreId(Run(ops[..|ops| - 1]), ops[|ops| - 1].0, ops[|ops| - 1].1);
    }
  }

  lemma OneMoreId(s: Store, op: Op, now: Time)
    ensures Step(s, op, now).nextEnvelope <= s.nextEnvelope + 1
    ensures Step(s, op, now).nextGroupEnvelope <= s.nextGroupEnvelope + 1
  {}

  /** Request k is answered after marks(k) operations of the run, at clocks(k); none before the first. */
  ghost predicate ReadsConversation(timeline: Timeline, ops: seq<(Op, Time)>, marks: nat -> nat, clocks: nat -> Time,
                                    a: Name, b: Name)
  {
    forall k: nat :: marks(0) <= marks(k) <= |ops| && timeline(k) == Shown(ops[..marks(k)], a, b, clocks(k))
  }

  ghost predicate ReadsGroup(timeline: Timeline, ops: seq<(Op, Time)>, marks: nat -> nat, clocks: nat -> Time, g: nat) {
    forall k: nat :: marks(0) <= marks(k) <= |ops| && timeline(k) == ShownInGroup(ops[..marks(k)], g, clocks(k))
  }

  /** e was stored before the first request, and neither expired nor lost a party by the end of the run. */
  ghost predicate Lasting(ops: seq<(Op, Time)>, marks: nat -> nat, clocks: nat -> Time, a: Name, b: Name, e: Envelope)
    requires marks(0) <= |ops|
  {
    && e in Run(ops[..marks(0)]).envelopes && Between(e, a, b) && Outlives(ops, marks(0), |ops|, e)
    && forall k: nat :: !Expired(e, clocks(k))
  }

  ghost predicate LastingInGroup(ops: seq<(Op, Time)>, marks: nat -> nat, clocks: nat -> Time, g: nat, e: Envelope)
    requires marks(0) <= |ops|
  {
    && e in Run(ops[..marks(0)]).groupEnvelopes && e.dest == Room(g) && OutlivesInGroup(ops, marks(0), |ops|, e)
    && forall k: nat :: !Expired(e, clocks(k))
  }

  lemma LastingIsVisible(timeline: Timeline, ops: seq<(Op, Time)>, marks: nat -> nat, clocks: nat -> Time,
                         a: Name, b: Name, n: nat, e: Envelope)
    requires ReadsConversation(timeline, ops, marks, clocks, a, b) && Lasting(ops, marks, clocks, a, b, e)
    ensures StaysVisible(timeline, n, e)
  {
    var m, t := seq(n, k requires 0 <= k < n => marks(k)), seq(n, k requires 0 <= k < n => clocks(k));
    if n > 0 { VisibleThroughout(timeline, ops, m, t, a, b, e); }
  }

  lemma LastingInGroupIsVisible(timeline: Timeline, ops: seq<(Op, Time)>, marks: nat -> nat, clocks: nat -> Time,
                                g: nat, n: nat, e: Envelope)
    requires ReadsGroup(timeline, ops, marks, clocks, g) && LastingInGroup(ops, marks, clocks, g, e)
    ensures StaysVisible(timeline, n, e)
  {
    var m, t := seq(n, k requires 0 <= k < n => marks(k)), seq(n, k requires 0 <= k < n => clocks(k));
    if n > 0 { VisibleInGroupThroughout(timeline, ops, m, t, g, e); }
  }

  /** `loadDm`: whatever the relay does between the pages, what was stored before the first and lasts
      is ingested once the loop completes; and only envelopes of this conversation are. */
  method LoadDm(timeline: Timeline, since: nat, clientPage: nat, relayPage: nat, pageGuard: nat,
                ghost ops: seq<(Op, Time)>, ghost marks: nat -> nat, ghost clocks: nat -> Time,
                ghost a: Name, ghost b: Name)
    returns (ingested: seq<Envelope>, outcome: Outcome)
    requires 1 <= clientPage <= relayPage && ReadsConversation(timeline, ops, marks, clocks, a, b)
    ensures marks(0) <= |ops| && Increasing(ingested)
    ensures forall e :: e in ingested ==> e.id > since && Between(e, a, b)
    ensures |ops| < since + pageGuard * clientPage && pageGuard > 0 ==> outcome == Complete
    ensures outcome == Complete ==>
              forall e: Envelope :: e.id > since && Lasting(ops, marks, clocks, a, b, e) ==> e in ingested
  {
    forall k: nat
      ensures Increasing(timeline(k))
    {
      TimelineInOrder(ops[..marks(k)],
                      (e: Envelope) => Between(e, a, b) && (e.expires.None? || e.expires.value > clocks(k)));
    }
    forall k: nat, e | e in timeline(k)
      ensures e.id <= |ops|
    {
      IdsAreCounted(ops[..marks(k)]);
    }
    ReachIsProduct(since, pageGuard, clientPage);
    var requests;
    ingested, outcome, requests := PullHistory(timeline, since, clientPage, relayPage, pageGuard);
    forall e: Envelope | e.id > since && Lasting(ops, marks, clocks, a, b, e)
      ensures StaysVisible(timeline, requests, e)
    {
      LastingIsVisible(timeline, ops, marks, clocks, a, b, requests, e);
    }
  }

  /** `loadGroup`, likewise. */
  method LoadGroup(timeline: Timeline, since: nat, clientPage: nat, relayPage: nat, pageGuard: nat,
                   ghost ops: seq<(Op, Time)>, ghost marks: nat -> nat, ghost clocks: nat -> Time, ghost g: nat)
    returns (ingested: seq<Envelope>, outcome: Outcome)
    requires 1 <= clientPage <= relayPage && ReadsGroup(timeline, ops, marks, clocks, g)
    ensures marks(0) <= |ops| && Increasing(ingested)
    ensures forall e :: e in ingested ==> e.id > since && e.dest == Room(g)
    ensures |ops| < since + pageGuard * clientPage && pageGuard > 0 ==> outcome == Complete
    ensures outcome == Complete ==>
              forall e: Envelope :: e.id > since && LastingInGroup(ops, marks, clocks, g, e) ==> e in ingested
  {
    forall k: nat
      ensures Increasing(timeline(k))
    {
      TimelineInOrder(ops[..marks(k)],
                      (e: Envelope) => e.dest == Room(g) && (e.expires.None? || e.expires.value > clocks(k)));
    }
    forall k: nat, e | e in timeline(k)
      ensures e.id <= |ops|
    {
      IdsAreCounted(ops[..marks(k)]);
    }
    ReachIsProduct(since, pageGuard, clientPage);
    var requests;
    ingested, outcome, requests := PullHistory(timeline, since, clientPage, relayPage, pageGuard);
    forall e: Envelope | e.id > since && LastingInGroup(ops, marks, clocks, g, e)
      ensures StaysVisible(timeline, requests, e)
    {
      LastingInGroupIsVisible(timeline, ops, marks, clocks, g, requests, e);
    }
  }
}
