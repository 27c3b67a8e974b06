/** The SDK's retry loop, and what it means end to end: a lossy network delivering one retain
    call any number of times to a ledger that other clients are using. */
module Sdk {
  import opened Uuids
  import opened Records
  import opened Ledger
  import opened LedgerRuns
  import LedgerInvariant

  datatype Policy = Policy(maxRetries: nat, baseDelay: real, retryStatuses: set<int>)

  datatype Body = Retained(id: Uuid, created: bool, queued: seq<Uuid>) | Detail(text: string)

  /** What one send ends in: an OSError, another exception (a body that is not JSON, whatever the
      status), or a response. `retryAfter` is the parsed header. */
  datatype Reply = Lost | Unreadable | Answer(status: int, retryAfter: Option<real>, body: Body)

  type Network = nat -> Reply

  datatype ErrorKind =
    | Unavailable | Invalid | Authentication | Permission | Missing | Conflict | RateLimited
    | OtherServer | Malformed | Undecodable | FellThrough

  datatype Result = Returned(id: Uuid, created: bool, queued: seq<Uuid>) | Raised(kind: ErrorKind)

  predicate Succeeded(r: Reply) {
    r.Answer? && 200 <= r.status < 300
  }

  /** Another attempt could follow this reply, were one left. */
  predicate Retryable(p: Policy, r: Reply) {
    r.Lost? || (r.Answer? && !Succeeded(r) && r.status in p.retryStatuses)
  }

  /** `_raise_http_error`. */
  function HttpError(status: int): ErrorKind {
    if status == 400 || status == 422 then Invalid
    else if status == 401 then Authentication
    else if status == 403 then Permission
    else if status == 404 then Missing
    else if status == 409 then Conflict
    else if status == 429 then RateLimited
    else if status >= 500 then Unavailable
    else OtherServer
  }

  function Verdict(r: Reply): Result {
    if r.Lost? then Raised(Unavailable)
    else if r.Unreadable? then Raised(Undecodable)
    else if !Succeeded(r) then Raised(HttpError(r.status))
    else if r.body.Retained? then Returned(r.body.id, r.body.created, r.body.queued)
    else Raised(Malformed)
  }

  function Pow2(n: nat): real {
    if n == 0 then 1.0 else 2.0 * Pow2(n - 1)
  }

  function Delay(p: Policy, attempt: nat, r: Reply): real {
    if r.Answer? && r.retryAfter.Some?
    then (if r.retryAfter.value > 0.0 then r.retryAfter.value else 0.0)
    else p.baseDelay * Pow2(attempt)
  }

  function Total(slept: seq<real>): real {
    if slept == [] then 0.0 else Total(slept[..|slept| - 1]) + slept[|slept| - 1]
  }

  /** The sleeps before attempts 1 to n. */
  function Sleeps(p: Policy, net: Network, n: nat): seq<real> {
    seq(n, i requires 0 <= i < n => Delay(p, i, net(i)))
  }

  ghost predicate NoRetryAfter(net: Network, n: nat) {
    forall i :: 0 <= i < n ==> net(i).Answer? ==> net(i).retryAfter.None?
  }

  function Backoff(p: Policy, n: nat): real {
    p.baseDelay * (Pow2(n) - 1.0)
  }

  /** Without Retry-After headers n sleeps add up to base * (2^n - 1). */
  lemma {:induction false} BackoffTotal(p: Policy, net: Network, n: nat)
    requires NoRetryAfter(net, n)
    ensures Total(Sleeps(p, net, n)) == Backoff(p, n)
  {
    if n > 0 {
      BackoffTotal(p, net, n - 1);
      assert Sleeps(p, net, n)[..n - 1] == Sleeps(p, net, n - 1);
      assert p.baseDelay * (Pow2(n) - 1.0)
          == p.baseDelay * (Pow2(n - 1) - 1.0) + p.baseDelay * Pow2(n - 1);
    }
  }

  /** The loop has slept after each of the first n replies, and only then. */
  ghost predicate SleptBetween(p: Policy, net: Network, n: nat, slept: seq<real>) {
    slept == Sleeps(p, net, n) && (NoRetryAfter(net, n) ==> Total(slept) == Backoff(p, n))
  }

  lemma SleptMore(p: Policy, net: Network, n: nat, slept: seq<real>)
    requires SleptBetween(p, net, n, slept)
    ensures SleptBetween(p, net, n + 1, slept + [Delay(p, n, net(n))])
  {
    assert Sleeps(p, net, n) + [Delay(p, n, net(n))] == Sleeps(p, net, n + 1);
    if NoRetryAfter(net, n + 1) { BackoffTotal(p, net, n + 1); }
  }

  /** The attempt the loop ends with: the first whose reply is not retried. */
  ghost predicate EndsAt(p: Policy, net: Network, n: nat) {
    n <= p.maxRetries && (forall m :: 0 <= m < n ==> Retryable(p, net(m)))
    && (n == p.maxRetries || !Retryable(p, net(n)))
  }

  /** The loop returns or raises inside itself: it sends at most maxRetries + 1 requests, sleeps
      between them only, and ends with the verdict on the last reply. */
  method Request(p: Policy, net: Network) returns (result: Result, sent: nat, slept: seq<real>)
    ensures 1 <= sent <= p.maxRetries + 1 && EndsAt(p, net, sent - 1)
    ensures result == Verdict(net(sent - 1)) && result != Raised(FellThrough)
    ensures SleptBetween(p, net, sent - 1, slept)
    ensures forall m :: 0 <= m < sent - 1 ==>
              net(m).Lost?
              || (net(m).Answer? && !(200 <= net(m).status < 300) && net(m).status in p.retryStatuses)
    ensures sent <= p.maxRetries ==>
              var last := net(sent - 1);
              last.Unreadable?
              || (last.Answer? && (200 <= last.status < 300 || last.status !in p.retryStatuses))
  {
    sent, slept := 0, [];
    for attempt := 0 to p.maxRetries + 1
      invariant sent == attempt <= p.maxRetries
      invariant forall m :: 0 <= m < attempt ==> Retryable(p, net(m))
      invariant SleptBetween(p, net, attempt, slept)
    {
      sent := sent + 1;
      var r := net(attempt);
      if r.Lost? {
        if attempt == p.maxRetries { return Raised(Unavailable), sent, slept; }
        SleptMore(p, net, attempt, slept);
        slept := slept + [Delay(p, attempt, r)];
        continue;
      }
      if r.Unreadable? { return Raised(Undecodable), sent, slept; }
      if 200 <= r.status < 300 {
        return Verdict(r), sent, slept;
      }
      if r.status in p.retryStatuses && attempt < p.maxRetries {
        SleptMore(p, net, attempt, slept);
        slept := slept + [Delay(p, attempt, r)];
        continue;
      }
      return Raised(HttpError(r.status)), sent, slept;
    }
    assert false;
    result := Raised(FellThrough);
  }

  /** A reply after which, by its fields, another attempt is made while one is left. */
  lemma RetriedIff(p: Policy, r: Reply)
    ensures Retryable(p, r) <==>
            r.Lost? || (r.Answer? && (r.status < 200 || 300 <= r.status) && r.status in p.retryStatuses)
  {}

  /** If the first k replies are lost or carry a retried error status, and k retries are allowed, the
      loop sends at least k + 1 requests; if the next reply is a success with a retained body, the
      loop ends with it. */
  lemma RetriesReachSuccess(p: Policy, net: Network, n: nat, k: nat)
    requires EndsAt(p, net, n) && k <= p.maxRetries
    requires forall m :: 0 <= m < k ==>
               net(m).Lost?
               || (net(m).Answer? && !(200 <= net(m).status < 300) && net(m).status in p.retryStatuses)
    ensures n >= k
    ensures net(k).Answer? && 200 <= net(k).status < 300 && net(k).body.Retained? ==>
              n == k && Verdict(net(n)) == Returned(net(k).body.id, net(k).body.created, net(k).body.queued)
  {
    if n < k { assert Retryable(p, net(n)); }
  }

  /** What the last reply is raised as. */
  lemma VerdictInFields(r: Reply)
    ensures r.Lost? ==> Verdict(r) == Raised(Unavailable)
    ensures r.Unreadable? ==> Verdict(r) == Raised(Undecodable)
    ensures r.Answer? && 200 <= r.status < 300 ==>
              Verdict(r) == match r.body
                            case Retained(id, created, queued) => Returned(id, created, queued)
                            case Detail(_) => Raised(Malformed)
    ensures r.Answer? && !(200 <= r.status < 300) ==>
              Verdict(r) == Raised(if r.status in {400, 422} then Invalid
                                   else if r.status == 401 then Authentication
                                   else if r.status == 403 then Permission
                                   else if r.status == 404 then Missing
                                   else if r.status == 409 then Conflict
                                   else if r.status == 429 then RateLimited
                                   else if r.status >= 500 then Unavailable else OtherServer)
  {}

  /** The i-th sleep: the header's seconds, not below zero, or the base delay doubled i times. */
  lemma SleepInFields(p: Policy, net: Network, n: nat, slept: seq<real>, i: nat)
    requires SleptBetween(p, net, n, slept) && i < n
    ensures |slept| == n
    ensures net(i).Answer? && net(i).retryAfter.Some? ==>
              slept[i] >= 0.0 && slept[i] >= net(i).retryAfter.value
              && (slept[i] == 0.0 || slept[i] == net(i).retryAfter.value)
    ensures !(net(i).Answer? && net(i).retryAfter.Some?) ==> slept[i] == p.baseDelay * Pow2(i)
    ensures Pow2(0) == 1.0 && Pow2(i + 1) == Pow2(i) + Pow2(i)
  {}

  // ---------------------------------------------------------------- the call on the ledger

  /** One `retain` call: its scope and the key, given or generated once before the first attempt,
      that every one of its requests carries. */
  datatype Call = Call(tenant: Uuid, workspace: Uuid, key: string)

  function CallKey(c: Call): Key {
    (c.tenant, ScopeKey(c.workspace, c.key))
  }

  /** A request of the call reaching the store, first, retried or late. Each delivery is prepared
      afresh by the service, with new item and event ids. */
  predicate Delivers(c: Call, op: Op) {
    op.Retain? && op.key == Some(c.key) && op.item.tenant == c.tenant
    && op.item.workspace == c.workspace
  }

  lemma DeliveryRecordsKey(s: State, c: Call, op: Op)
    requires LedgerInvariant.Inv(s) && Delivers(c, op)
    ensures CallKey(c) in Step(s, op).0.idem
    ensures Step(s, op).1.Stored?
    ensures Step(s, op).0.idem[CallKey(c)] == Step(s, op).1.item.id
    ensures Step(s, op).1.created ==>
              CallKey(c) !in s.idem && Step(s, op).1.item == op.item
              && Step(s, op).0.items == s.items[op.item.id := op.item]
    ensures !Step(s, op).1.created ==> CallKey(c) in s.idem && Step(s, op).0 == s
  {}

  /** Of all deliveries of a call in a run, whoever else writes in between, only the first changes
      the ledger, and every later one is answered with the first one's item. */
  lemma OneEffect(states: seq<State>, ops: seq<Op>, c: Call, i: nat, j: nat)
    requires IsRun(states, ops) && i < j < |ops| && Delivers(c, ops[i]) && Delivers(c, ops[j])
    ensures OutcomeAt(states, ops, i).Stored? && OutcomeAt(states, ops, j).Stored?
    ensures OutcomeAt(states, ops, j).item == OutcomeAt(states, ops, i).item
    ensures !OutcomeAt(states, ops, j).created && states[j + 1] == states[j]
  {
    RunKeepsInv(states, ops, i);
    DeliveryRecordsKey(states[i], c, ops[i]);
    RunKeepsInv(states, ops, i + 1);
    ReplayReturnsFirst(states, ops, i + 1, j);
    RunAppendsOnly(states, ops, i, i + 1);
  }

  // ---------------------------------------------------------------- end to end

  /** The n-th request of the call, as the network treated it: whether it was executed and if so
      as which step of the run. */
  type Fates = nat -> Option<nat>

  function BodyFor(out: Outcome, event: Event): Body {
    if out.Stored? then Retained(out.item.id, out.created, if out.created then [event.id] else [])
    else Detail("error")
  }

  /** Requests may be lost, executed with the reply lost, or refused; but a success the client
      sees is the server's answer to that request's execution. */
  ghost predicate Faithful(states: seq<State>, ops: seq<Op>, c: Call, net: Network, fates: Fates)
    requires |states| == |ops| + 1
  {
    forall n: nat ::
      && (fates(n).Some? ==> fates(n).value < |ops| && Delivers(c, ops[fates(n).value]))
      && (Succeeded(net(n)) ==>
            fates(n).Some?
            && net(n).body == BodyFor(OutcomeAt(states, ops, fates(n).value), ops[fates(n).value].event))
  }

  /** Whatever the network does and whatever other clients, retries and late duplicates do to the
      ledger, before or after the call returns: a success carries the id of the item that every
      delivery of the call resolves to, and at most one delivery created anything. */
  lemma RetainIsExactlyOnce(states: seq<State>, ops: seq<Op>, c: Call, p: Policy, net: Network,
                            fates: Fates, n: nat, d: nat)
    requires IsRun(states, ops) && Faithful(states, ops, c, net, fates) && EndsAt(p, net, n)
    requires d < |ops| && Delivers(c, ops[d])
    ensures Verdict(net(n)).Returned? ==>
              OutcomeAt(states, ops, d).Stored?
              && OutcomeAt(states, ops, d).item.id == Verdict(net(n)).id
              && Verdict(net(n)).id in states[|ops|].items
    ensures forall e :: 0 <= e < |ops| && e != d && Delivers(c, ops[e]) ==>
              !(OutcomeAt(states, ops, d).Stored? && OutcomeAt(states, ops, d).created
                && OutcomeAt(states, ops, e).Stored? && OutcomeAt(states, ops, e).created)
  {
    forall e | 0 <= e < |ops| && e != d && Delivers(c, ops[e])
      ensures !(OutcomeAt(states, ops, d).Stored? && OutcomeAt(states, ops, d).created
                && OutcomeAt(states, ops, e).Stored? && OutcomeAt(states, ops, e).created)
    {
      if d < e { OneEffect(states, ops, c, d, e); } else { OneEffect(states, ops, c, e, d); }
    }
    if Verdict(net(n)).Returned? {
      assert Succeeded(net(n));
      var e := fates(n).value;
      RunKeepsInv(states, ops, e);
      DeliveryRecordsKey(states[e], c, ops[e]);
      if d < e { OneEffect(states, ops, c, d, e); }
      if e < d { OneEffect(states, ops, c, e, d); }
      KeyResolvesForever(states, ops, e + 1, |ops|, CallKey(c));
    }
  }

  /** With a key no one else uses, the item a success names was created by this very call. */
  lemma SuccessIsOwnItem(states: seq<State>, ops: seq<Op>, c: Call, net: Network, fates: Fates, n: nat)
    requires IsRun(states, ops) && Faithful(states, ops, c, net, fates)
    requires forall i :: 0 <= i < |ops| && WriterKey(ops[i]) == Some(CallKey(c)) ==> Delivers(c, ops[i])
    requires Verdict(net(n)).Returned?
    ensures exists d :: 0 <= d < |ops| && Delivers(c, ops[d])
              && OutcomeAt(states, ops, d) == Stored(ops[d].item, true)
              && ops[d].item.id == Verdict(net(n)).id
  {
    assert Succeeded(net(n));
    var e := fates(n).value;
    RunKeepsInv(states, ops, e);
    DeliveryRecordsKey(states[e], c, ops[e]);
    if OutcomeAt(states, ops, e).created {
      assert OutcomeAt(states, ops, e) == Stored(ops[e].item, true);
    } else {
      var d := FirstRecorded(states, ops, c, e);
      OneEffect(states, ops, c, d, e);
    }
  }

  /** The step that recorded a call's key is a creating delivery of it. */
  lemma {:induction false} FirstRecorded(states: seq<State>, ops: seq<Op>, c: Call, e: nat)
    returns (d: nat)
    requires IsRun(states, ops) && e < |states| && CallKey(c) in states[e].idem
    requires forall i :: 0 <= i < |ops| && WriterKey(ops[i]) == Some(CallKey(c)) ==> Delivers(c, ops[i])
    ensures d < e && d < |ops| && Delivers(c, ops[d])
    ensures OutcomeAt(states, ops, d) == Stored(ops[d].item, true)
    decreases e
  {
    if e > 0 && CallKey(c) in states[e - 1].idem {
      d := FirstRecorded(states, ops, c, e - 1);
    } else {
      d := e - 1;
      NewKeyIsWriters(states[d], ops[d], CallKey(c));
      RunKeepsInv(states, ops, d);
      DeliveryRecordsKey(states[d], c, ops[d]);
    }
  }
}
