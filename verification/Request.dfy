/** The request loop with its retries and its one re-login (client/js/api.js:221-256). */
module Request {
  import opened Numbers

  /** What one send comes back with. */
  datatype Outcome = NetworkError | Answer(status: nat)

  /** The outside world, by number of the send: what it answers, whether the client held a token when
      sending, and whether the token could be renewed after that answer. */
  datatype World = World(outcome: nat -> Outcome, hasToken: nat -> bool, renews: nat -> bool)

  datatype Ending = Unreachable | Rejected(status: nat) | Accepted(status: nat)

  /** The end of a request: how often it was sent, what came of it, whether it re-authenticated. */
  datatype Reply = Reply(sends: nat, result: Ending, reauthed: bool)

  const READ_ATTEMPTS := 3

  function Attempts(isGet: bool): nat {
    if isGet then READ_ATTEMPTS else 1
  }

  predicate IsOk(status: nat) {
    200 <= status < 300
  }

  predicate Retryable(status: nat) {
    status == 502 || status == 503 || status == 504
  }

  function EndingOf(o: Outcome): Ending {
    match o
    case NetworkError => Unreachable
    case Answer(status) => if IsOk(status) then Accepted(status) else Rejected(status)
  }

  /** The answer to send k makes the client try a new token. */
  predicate WantsReauth(w: World, mayReauth: bool, reauthed: bool, k: nat) {
    w.outcome(k) == Answer(401) && w.hasToken(k) && mayReauth && !reauthed
  }

  /** From send k on, with `attempt` attempts used up. */
  function Serve(w: World, attempts: nat, mayReauth: bool, attempt: nat, reauthed: bool, k: nat): Reply
    requires attempt < attempts
    decreases !reauthed, attempts - attempt
  {
    var o := w.outcome(k);
    if WantsReauth(w, mayReauth, reauthed, k) && w.renews(k) then Serve(w, attempts, mayReauth, attempt, true, k + 1)
    else if (o.NetworkError? || Retryable(o.status)) && attempt + 1 < attempts
      then Serve(w, attempts, mayReauth, attempt + 1, reauthed, k + 1)
    else Reply(k + 1, EndingOf(o), reauthed || WantsReauth(w, mayReauth, reauthed, k))
  }

  method Req(w: World, isGet: bool, mayReauth: bool) returns (r: Reply)
    ensures r == Serve(w, Attempts(isGet), mayReauth, 0, false, 0)
    ensures Explained(w, if isGet then 3 else 1, mayReauth, true, 0, r) && Reported(w, r)
  {
    ServeExplained(w, Attempts(isGet), mayReauth, 0, false, 0);
    ServeReported(w, Attempts(isGet), mayReauth, 0, false, 0);
    var attempts := Attempts(isGet);
    var reauthed := false;
    var attempt := 0;
    var sent := 0;
    while true
      invariant 0 <= attempt < attempts
      invariant Serve(w, attempts, mayReauth, 0, false, 0) == Serve(w, attempts, mayReauth, attempt, reauthed, sent)
      decreases !reauthed, attempts - attempt
    {
      var tokenUsed := w.hasToken(sent);
      var res := w.outcome(sent);
      sent := sent + 1;
      if res.NetworkError? {
        if attempt + 1 < attempts { attempt := attempt + 1; continue; }
        return Reply(sent, Unreachable, reauthed);
      }
      var status := res.status;
      if status == 401 && tokenUsed && mayReauth && !reauthed {
        reauthed := true;
        if w.renews(sent - 1) { continue; }
      }
      if !IsOk(status) && Retryable(status) && attempt + 1 < attempts {
        attempt := attempt + 1;
        continue;
      }
      return Reply(sent, EndingOf(res), reauthed);
    }
  }

  // ---- Why a request is sent again ----

  /** A failure worth another attempt. */
  predicate Failed(o: Outcome) {
    o == NetworkError || o == Answer(502) || o == Answer(503) || o == Answer(504)
  }

  /** The answer of a relay that does not know the token, to a request that may log in again. */
  predicate Refused(w: World, mayReauth: bool, k: nat) {
    w.outcome(k) == Answer(401) && w.hasToken(k) && mayReauth
  }

  /** How many of the sends from i to j - 1 failed. */
  function Failures(w: World, i: nat, j: nat): nat
    requires i <= j
    decreases j - i
  {
    if i == j then 0 else (if Failed(w.outcome(i)) then 1 else 0) + Failures(w, i + 1, j)
  }

  /** Each send but the last failed, or was the first refusal and the token was renewed. */
  ghost predicate Repeats(w: World, mayReauth: bool, unrefused: bool, k: nat, r: Reply) {
    forall j :: k <= j < r.sends - 1 ==>
      Failed(w.outcome(j)) || (unrefused && Refused(w, mayReauth, j) && w.renews(j) && NoneRefused(w, mayReauth, k, j))
  }

  /** The first refusal is followed by another send exactly when the token is renewed. */
  ghost predicate Renews(w: World, mayReauth: bool, unrefused: bool, k: nat, r: Reply) {
    forall j :: k <= j < r.sends && unrefused && Refused(w, mayReauth, j) && NoneRefused(w, mayReauth, k, j) ==>
      (j + 1 < r.sends <==> w.renews(j))
  }

  /** The sends from k on, `unrefused` if nothing was refused before: why each was made, that the client
      logs in at the first refusal, and that failures are retried as long as there are attempts. */
  ghost predicate Explained(w: World, attempts: nat, mayReauth: bool, unrefused: bool, k: nat, r: Reply) {
    && k < r.sends && Repeats(w, mayReauth, unrefused, k, r) && Renews(w, mayReauth, unrefused, k, r)
    && (r.reauthed <==> !unrefused || !NoneRefused(w, mayReauth, k, r.sends))
    && Failures(w, k, r.sends) <= attempts
    && (Failed(w.outcome(r.sends - 1)) ==> Failures(w, k, r.sends) == attempts)
  }

  ghost predicate NoneRefused(w: World, mayReauth: bool, i: nat, j: nat) {
    forall n :: i <= n < j ==> !Refused(w, mayReauth, n)
  }

  lemma NoneRefusedFrom(w: World, mayReauth: bool, i: nat, j: nat)
    requires i < j
    ensures NoneRefused(w, mayReauth, i, j) <==> !Refused(w, mayReauth, i) && NoneRefused(w, mayReauth, i + 1, j)
  {}

  /** A send that was not the last, before sends that are explained. */
  lemma OneMoreSend(w: World, attempts: nat, mayReauth: bool, unrefused: bool, k: nat, r: Reply)
    requires Explained(w, attempts, mayReauth, unrefused, k + 1, r)
    requires Failed(w.outcome(k))
    ensures Explained(w, attempts + 1, mayReauth, unrefused, k, r)
  {
    assert !Refused(w, mayReauth, k);
    forall j: nat | k < j ensures NoneRefused(w, mayReauth, k, j) <==> NoneRefused(w, mayReauth, k + 1, j) {
      NoneRefusedFrom(w, mayReauth, k, j);
    }
  }

  lemma OneRenewal(w: World, attempts: nat, mayReauth: bool, k: nat, r: Reply)
    requires Explained(w, attempts, mayReauth, false, k + 1, r)
    requires Refused(w, mayReauth, k) && w.renews(k)
    ensures Explained(w, attempts, mayReauth, true, k, r)
  {
    forall j: nat | k < j ensures !NoneRefused(w, mayReauth, k, j) {
      NoneRefusedFrom(w, mayReauth, k, j);
    }
  }

  lemma LastSend(w: World, attempts: nat, mayReauth: bool, unrefused: bool, k: nat, r: Reply)
    requires attempts > 0 && r.sends == k + 1 && (Failed(w.outcome(k)) ==> attempts == 1)
    requires unrefused && Refused(w, mayReauth, k) ==> !w.renews(k)
    requires r.reauthed <==> !unrefused || Refused(w, mayReauth, k)
    ensures Explained(w, attempts, mayReauth, unrefused, k, r)
  {
    NoneRefusedFrom(w, mayReauth, k, k + 1);
    assert Failures(w, k + 1, k + 1) == 0;
  }

  lemma {:induction false} ServeExplained(w: World, attempts: nat, mayReauth: bool, attempt: nat, reauthed: bool,
                                          k: nat)
    requires attempt < attempts
    ensures var r := Serve(w, attempts, mayReauth, attempt, reauthed, k);
            Explained(w, attempts - attempt, mayReauth, !reauthed, k, r)
    decreases !reauthed, attempts - attempt
  {
    var o, r := w.outcome(k), Serve(w, attempts, mayReauth, attempt, reauthed, k);
    if WantsReauth(w, mayReauth, reauthed, k) && w.renews(k) {
      ServeExplained(w, attempts, mayReauth, attempt, true, k + 1);
      OneRenewal(w, attempts - attempt, mayReauth, k, r);
    } else if (o.NetworkError? || Retryable(o.status)) && attempt + 1 < attempts {
      ServeExplained(w, attempts, mayReauth, attempt + 1, reauthed, k + 1);
      OneMoreSend(w, attempts - attempt - 1, mayReauth, !reauthed, k, r);
    } else {
      LastSend(w, attempts - attempt, mayReauth, !reauthed, k, r);
    }
  }

  /** What is reported is the last answer. */
  predicate Reported(w: World, r: Reply) {
    && r.sends > 0
    && match w.outcome(r.sends - 1)
       case NetworkError => r.result == Unreachable
       case Answer(status) => r.result == if 200 <= status <= 299 then Accepted(status) else Rejected(status)
  }

  lemma {:induction false} ServeReported(w: World, attempts: nat, mayReauth: bool, attempt: nat, reauthed: bool, k: nat)
    requires attempt < attempts
    ensures Reported(w, Serve(w, attempts, mayReauth, attempt, reauthed, k))
    decreases !reauthed, attempts - attempt
  {
    var o := w.outcome(k);
    if WantsReauth(w, mayReauth, reauthed, k) && w.renews(k) {
      ServeReported(w, attempts, mayReauth, attempt, true, k + 1);
    } else if (o.NetworkError? || Retryable(o.status)) && attempt + 1 < attempts {
      ServeReported(w, attempts, mayReauth, attempt + 1, reauthed, k + 1);
    }
  }

  /** Every answer but 401, 502, 503 and 504 ends the request and is reported. */
  lemma AnswerEnds(w: World, isGet: bool, mayReauth: bool, k: nat, status: nat)
    requires w.outcome(k) == Answer(status) && status !in {401, 502, 503, 504}
    ensures var r := Serve(w, Attempts(isGet), mayReauth, 0, false, 0);
            k < r.sends ==>
              r.sends == k + 1 && r.result == if 200 <= status <= 299 then Accepted(status) else Rejected(status)
  {
    ServeExplained(w, Attempts(isGet), mayReauth, 0, false, 0);
    ServeReported(w, Attempts(isGet), mayReauth, 0, false, 0);
  }

  /** The first refusal makes the client log in, and the request is sent again exactly when that renews
      the token. */
  lemma RefusalRenews(w: World, isGet: bool, mayReauth: bool, k: nat)
    requires w.outcome(k) == Answer(401) && w.hasToken(k) && mayReauth
    requires forall j :: 0 <= j < k ==> !(w.outcome(j) == Answer(401) && w.hasToken(j))
    ensures var r := Serve(w, Attempts(isGet), mayReauth, 0, false, 0);
            k < r.sends ==> r.reauthed && (r.sends > k + 1 <==> w.renews(k))
  {
    ServeExplained(w, Attempts(isGet), mayReauth, 0, false, 0);
    assert Refused(w, mayReauth, k);
  }

  // ---- How often a request is sent ----

  /** Each send but the last was a failure worth a retry or the one 401. */
  lemma {:induction false} SendBounds(w: World, attempts: nat, mayReauth: bool, attempt: nat, reauthed: bool, k: nat)
    requires attempt < attempts
    ensures var r := Serve(w, attempts, mayReauth, attempt, reauthed, k);
         && k < r.sends <= k + (attempts - attempt) + (if reauthed then 0 else 1)
         && r.result == EndingOf(w.outcome(r.sends - 1))
         && (reauthed ==> r.reauthed)
         && (r.sends == k + (attempts - attempt) + 1 ==> r.reauthed && !reauthed)
    decreases !reauthed, attempts - attempt
  {
    var o := w.outcome(k);
    if WantsReauth(w, mayReauth, reauthed, k) && w.renews(k) {
      SendBounds(w, attempts, mayReauth, attempt, true, k + 1);
    } else if (o.NetworkError? || Retryable(o.status)) && attempt + 1 < attempts {
      SendBounds(w, attempts, mayReauth, attempt + 1, reauthed, k + 1);
    }
  }

  /** A read is sent at most four times, a write at most twice. */
  lemma AtMostFourReadsTwoWrites(w: World, mayReauth: bool)
    ensures 1 <= Serve(w, Attempts(true), mayReauth, 0, false, 0).sends <= 4
    ensures 1 <= Serve(w, Attempts(false), mayReauth, 0, false, 0).sends <= 2
  {
    SendBounds(w, Attempts(true), mayReauth, 0, false, 0);
    SendBounds(w, Attempts(false), mayReauth, 0, false, 0);
  }

  /** A write is repeated only because of a 401. */
  lemma WriteRepeatedOnlyAfter401(w: World, mayReauth: bool)
    requires Serve(w, Attempts(false), mayReauth, 0, false, 0).sends == 2
    ensures w.outcome(0) == Answer(401) && w.hasToken(0) && w.renews(0) && mayReauth
  {}

  /** The sends after which the relay has stored the request. */
  function Stored(stores: nat -> bool, sends: nat): set<nat> {
    set k | 0 <= k < sends && stores(k)
  }

  /** A relay that stores nothing when it answers 401 stores any write at most once, whatever else
      goes wrong: lost answers, restarts, failed or successful logins. */
  lemma WriteStoredAtMostOnce(w: World, mayReauth: bool, stores: nat -> bool)
    requires forall k :: stores(k) ==> w.outcome(k) != Answer(401)
    ensures |Stored(stores, Serve(w, Attempts(false), mayReauth, 0, false, 0).sends)| <= 1
  {
    var sends := Serve(w, Attempts(false), mayReauth, 0, false, 0).sends;
    AtMostFourReadsTwoWrites(w, mayReauth);
    var last := sends - 1;
    if sends == 2 { WriteRepeatedOnlyAfter401(w, mayReauth); }
    assert Stored(stores, sends) <= {last};
    SubsetSize(Stored(stores, sends), {last});
  }

  /** Retries are used up before a failure that warrants one is reported. */
  lemma {:induction false} RetriesUsedUp(w: World, attempts: nat, mayReauth: bool, attempt: nat, reauthed: bool, k: nat)
    requires attempt < attempts
    ensures var r := Serve(w, attempts, mayReauth, attempt, reauthed, k);
            (r.result.Unreachable? || (r.result.Rejected? && Retryable(r.result.status))) ==>
              r.sends >= k + (attempts - attempt)
    decreases !reauthed, attempts - attempt
  {
    var o := w.outcome(k);
    if WantsReauth(w, mayReauth, reauthed, k) && w.renews(k) {
      RetriesUsedUp(w, attempts, mayReauth, attempt, true, k + 1);
    } else if (o.NetworkError? || Retryable(o.status)) && attempt + 1 < attempts {
      RetriesUsedUp(w, attempts, mayReauth, attempt + 1, reauthed, k + 1);
    }
  }
}
