/** The push outbox and its single worker: claim, fan out per endpoint, then sent, retry or dead. */
module Outbox {
  import opened NumberTheory

  const MAX_ATTEMPTS: nat := 6

  /** What the push provider answers for one endpoint. */
  datatype Outcome = Delivered | Gone | Refused | Transient
  datatype Status = Pending | Sent | Dead
  /** `attempts` counts claims. Times are in seconds. */
  datatype Row = Row(user: string, dedupeKey: string, status: Status, attempts: nat, nextAttemptAt: int)
  /** An endpoint whose device id cannot be read cannot be pruned. */
  datatype Endpoint = Endpoint(user: string, readable: bool)

  type Sender = (nat, nat) -> Outcome

  function EndpointsOf(endpoints: map<nat, Endpoint>, user: string): set<nat> {
    set e | e in endpoints && endpoints[e].user == user
  }

  lemma EndpointsAre(endpoints: map<nat, Endpoint>, user: string, es: set<nat>)
    requires forall e :: e in es <==> e in endpoints && endpoints[e].user == user
    ensures es == EndpointsOf(endpoints, user)
  {
  }

  /** Some endpoint answered `o`. */
  ghost predicate Some(row: nat, es: set<nat>, send: Sender, o: Outcome) {
    exists e :: e in es && send(row, e) == o
  }

  /** The claim reached nobody and something might still succeed. */
  ghost predicate Failed(row: nat, es: set<nat>, send: Sender) {
    Some(row, es, send, Transient) && !Some(row, es, send, Delivered)
  }

  ghost function Reached(row: nat, es: set<nat>, send: Sender): set<(nat, nat)> {
    set e | e in es && send(row, e) == Delivered :: (row, e)
  }

  ghost function ReportedGone(row: nat, es: set<nat>, send: Sender, endpoints: map<nat, Endpoint>): set<nat> {
    set e | e in es && e in endpoints && endpoints[e].readable && send(row, e) == Gone
  }

  lemma TryNone(row: nat, send: Sender, endpoints: map<nat, Endpoint>)
    ensures forall o :: !Some(row, {}, send, o)
    ensures Reached(row, {}, send) == {} && ReportedGone(row, {}, send, endpoints) == {}
  {
  }

  /** What trying one more endpoint adds. */
  lemma TryOne(row: nat, tried: set<nat>, e: nat, send: Sender, endpoints: map<nat, Endpoint>)
    requires e in endpoints
    ensures forall o :: Some(row, tried + {e}, send, o) <==> Some(row, tried, send, o) || send(row, e) == o
    ensures Reached(row, tried + {e}, send)
         == Reached(row, tried, send) + if send(row, e) == Delivered then {(row, e)} else {}
    ensures ReportedGone(row, tried + {e}, send, endpoints) == ReportedGone(row, tried, send, endpoints)
          + if send(row, e) == Gone && endpoints[e].readable then {e} else {}
    ensures e !in tried ==> e !in ReportedGone(row, tried, send, endpoints)
  {
    assert forall o | Some(row, tried + {e}, send, o) ::
        exists x :: x in tried + {e} && send(row, x) == o && (x == e || x in tried);
  }

  function Backoff(attempts: nat): int {
    if Pow(2, attempts) * 10 < 3600 then Pow(2, attempts) * 10 else 3600
  }

  /** Waits double from twenty seconds; the one-hour cap is never reached before the row is dead. */
  lemma BackoffSeconds(attempts: nat)
    requires 1 <= attempts < MAX_ATTEMPTS
    ensures Backoff(attempts) == [20, 40, 80, 160, 320][attempts - 1]
  {
    assert Pow(2, 1) == 2 && Pow(2, 2) == 4 && Pow(2, 3) == 8;
    assert Pow(2, 4) == 16 && Pow(2, 5) == 32;
  }

  function RetryOrDead(r: Row, now: int): Row {
    if r.attempts >= MAX_ATTEMPTS then r.(status := Dead)
    else r.(nextAttemptAt := now + Backoff(r.attempts))
  }

  /** After its n-th claim failed a row waits as scheduled, and after the sixth it is dead. */
  lemma FailedClaimIs(r: Row, now: int)
    requires 1 <= r.attempts
    ensures r.attempts < 6 ==>
              RetryOrDead(r, now) == r.(nextAttemptAt := now + [20, 40, 80, 160, 320][r.attempts - 1])
    ensures r.attempts >= 6 ==> RetryOrDead(r, now) == r.(status := Dead)
  {
    if r.attempts < MAX_ATTEMPTS {
      BackoffSeconds(r.attempts);
    }
  }

  /** A pending row after one more claim, which failed or did not. */
  function AfterClaim(r: Row, failed: bool, now: int): Row {
    var claimed := r.(attempts := r.attempts + 1);
    if failed then RetryOrDead(claimed, now) else claimed.(status := Sent)
  }

  /** A row's whole life: the claims it gets while it is pending, at the given times. */
  function Life(r: Row, failed: seq<bool>, times: seq<int>): Row
    requires |times| == |failed|
  {
    if failed == [] then r
    else
      var n := |failed| - 1;
      var before := Life(r, failed[..n], times[..n]);
      if before.status.Pending? then AfterClaim(before, failed[n], times[n]) else before
  }

  /** Six claims settle a row; it is dead exactly when the first six all failed. */
  lemma {:induction false} SettledWithinSix(r: Row, failed: seq<bool>, times: seq<int>)
    requires |times| == |failed| && r.status.Pending? && r.attempts == 0
    ensures var after := Life(r, failed, times);
            && (after.status.Pending? <==> |failed| < 6 && forall i | 0 <= i < |failed| :: failed[i])
            && (after.status.Dead? <==> |failed| >= 6 && forall i | 0 <= i < 6 :: failed[i])
            && after.attempts <= 6 && (after.status.Pending? ==> after.attempts == |failed|)
  {
    if failed != [] {
      var n := |failed| - 1;
      SettledWithinSix(r, failed[..n], times[..n]);
      assert forall i | 0 <= i < n :: failed[..n][i] == failed[i];
    }
  }

  predicate KeyUsed(rows: map<nat, Row>, key: string) {
    exists r | r in rows :: rows[r].dedupeKey == key
  }

  ghost predicate KeysUnique(rows: map<nat, Row>) {
    forall r, q | r in rows && q in rows && rows[r].dedupeKey == rows[q].dedupeKey :: r == q
  }

  lemma SameKeys(before: map<nat, Row>, after: map<nat, Row>)
    requires KeysUnique(before) && before.Keys == after.Keys
    requires forall r | r in before :: after[r].dedupeKey == before[r].dedupeKey
    ensures KeysUnique(after)
  {
  }

  class Worker {
    var rows: map<nat, Row>
    var endpoints: map<nat, Endpoint>
    /** Every successful send so far, as (row, endpoint). */
    ghost var deliveries: set<(nat, nat)>

    constructor ()
      ensures Valid({}) && rows == map[] && endpoints == map[] && deliveries == {}
    {
      rows, endpoints, deliveries := map[], map[], {};
    }

    /** `claimed` are the rows of the current pass that have not been handled yet. */
    ghost predicate Valid(claimed: set<nat>)
      reads this
    {
      (forall r | r in rows :: RowOk(rows[r], r in claimed)) && KeysUnique(rows) &&
      (forall d | d in deliveries :: d.0 in rows && rows[d.0].status.Sent?)
    }

    static ghost predicate RowOk(row: Row, claimed: bool) {
      row.attempts <= MAX_ATTEMPTS &&
      (claimed ==> row.status.Pending?) &&
      (row.status.Pending? ==> claimed || row.attempts < MAX_ATTEMPTS) &&
      (row.status.Dead? ==> row.attempts == MAX_ATTEMPTS)
    }

    /** One push per (event, user): an already used dedupe key adds nothing. */
    method Enqueue(id: nat, user: string, dedupeKey: string, now: int) returns (added: bool)
      requires Valid({}) && id !in rows
      modifies this`rows
      ensures Valid({}) && (added <==> forall r | r in old(rows) :: old(rows)[r].dedupeKey != dedupeKey)
      ensures rows == if added then old(rows)[id := Row(user, dedupeKey, Pending, 0, now)] else old(rows)
    {
      added := !KeyUsed(rows, dedupeKey);
      if added {
        rows := rows[id := Row(user, dedupeKey, Pending, 0, now)];
      }
    }

    method Register(device: nat, endpoint: Endpoint)
      requires Valid({})
      modifies this`endpoints
      ensures Valid({}) && endpoints == old(endpoints)[device := endpoint]
    {
      endpoints := endpoints[device := endpoint];
    }

    method EndpointsFor(user: string) returns (es: seq<nat>)
      ensures forall i, j | 0 <= i < j < |es| :: es[i] != es[j]
      ensures forall e :: e in es <==> e in EndpointsOf(endpoints, user)
    {
      es := [];
      var left := EndpointsOf(endpoints, user);
      while left != {}
        invariant left <= EndpointsOf(endpoints, user)
        invariant forall e :: e in es <==> e in EndpointsOf(endpoints, user) && e !in left
        invariant forall i, j | 0 <= i < j < |es| :: es[i] != es[j]
        decreases left
      {
        var e := PickFrom(left);
        es := es + [e];
        left := left - {e};
      }
    }

    /** Send to each endpoint in turn, counting answers and pruning those reported gone. */
    method TryEndpoints(row: nat, list: seq<nat>, send: Sender, ghost es: set<nat>)
      returns (delivered: nat, retryable: nat)
      requires forall i, j | 0 <= i < j < |list| :: list[i] != list[j]
      requires es <= endpoints.Keys && forall e :: e in list <==> e in es
      modifies this`endpoints, this`deliveries
      ensures delivered > 0 <==> Some(row, es, send, Delivered)
      ensures retryable > 0 <==> Some(row, es, send, Transient)
      ensures endpoints == old(endpoints) - ReportedGone(row, es, send, old(endpoints))
      ensures deliveries == old(deliveries) + Reached(row, es, send)
    {
      hide Some, Reached, ReportedGone;
      TryNone(row, send, endpoints);
      delivered, retryable := 0, 0;
      ghost var tried: set<nat> := {};
      for i := 0 to |list|
        invariant forall e :: e in tried <==> e in list[..i]
        invariant delivered > 0 <==> Some(row, tried, send, Delivered)
        invariant retryable > 0 <==> Some(row, tried, send, Transient)
        invariant endpoints == old(endpoints) - ReportedGone(row, tried, send, old(endpoints))
        invariant deliveries == old(deliveries) + Reached(row, tried, send)
      {
        var e := list[i];
        assert e in list && e !in tried;
        TryOne(row, tried, e, send, old(endpoints));
        assert e in endpoints && endpoints[e] == old(endpoints)[e];
        match send(row, e) {
          case Delivered =>
            delivered := delivered + 1;
            deliveries := deliveries + {(row, e)};
          case Gone =>
            if endpoints[e].readable {
              endpoints := endpoints - {e};
            }
          case Refused =>
          case Transient =>
            retryable := retryable + 1;
        }
        tried := tried + {e};
      }
      assert list[..|list|] == list;
      assert tried == es;
    }

    /** One claimed row: every endpoint of its user is tried once, and the row settled accordingly. */
    method DeliverRow(row: nat, now: int, send: Sender, ghost claimed: set<nat>) returns (ghost es: set<nat>)
      requires Valid(claimed) && row in claimed && row in rows
      modifies this
      ensures Valid(claimed - {row})
      ensures forall e :: e in es <==> e in old(endpoints) && old(endpoints)[e].user == old(rows)[row].user
      ensures rows == old(rows)[row :=
                if Failed(row, es, send) then RetryOrDead(old(rows)[row], now)
                else old(rows)[row].(status := Sent)]
      ensures endpoints == old(endpoints) - ReportedGone(row, es, send, old(endpoints))
      ensures deliveries == old(deliveries) + Reached(row, es, send)
      ensures forall e: nat :: (row, e) !in old(deliveries)
    {
      es := EndpointsOf(endpoints, rows[row].user);
      var list := EndpointsFor(rows[row].user);
      if |list| == 0 {
        rows := rows[row := rows[row].(status := Sent)];
        assert forall e :: e in es ==> e in list;
        return;
      }
      var delivered, retryable := TryEndpoints(row, list, send, es);
      if retryable > 0 && delivered == 0 {
        rows := rows[row := RetryOrDead(rows[row], now)];
      } else {
        rows := rows[row := rows[row].(status := Sent)];
      }
    }

    ghost predicate Due(row: nat, now: int)
      reads this
    {
      row in rows && rows[row].status.Pending? && rows[row].nextAttemptAt <= now
    }

    /** `claimPending`: the attempt is counted, the row stays pending and due. */
    method Claim(batch: seq<nat>, now: int)
      requires Valid({}) && (forall i, j | 0 <= i < j < |batch| :: batch[i] != batch[j])
      requires forall r | r in batch :: Due(r, now)
      modifies this`rows
      ensures Valid(set r | r in batch) && rows.Keys == old(rows).Keys
      ensures forall r | r in rows :: rows[r] ==
                if r in batch then old(rows)[r].(attempts := old(rows)[r].attempts + 1) else old(rows)[r]
    {
      hide KeysUnique;
      for i := 0 to |batch|
        invariant rows.Keys == old(rows).Keys
        invariant forall r | r in rows :: rows[r] ==
                    if r in batch[..i] then old(rows)[r].(attempts := old(rows)[r].attempts + 1) else old(rows)[r]
      {
        var r := batch[i];
        assert r in batch && r !in batch[..i];
        rows := rows[r := rows[r].(attempts := rows[r].attempts + 1)];
        assert batch[..i + 1] == batch[..i] + [r];
      }
      assert batch[..|batch|] == batch;
      SameKeys(old(rows), rows);
    }

    /**
     * One pass over a batch of due rows. Each is claimed once and settled by the answers of its user's
     * endpoints; every successful send is new; only endpoints a provider reported gone are removed.
     */
    method Tick(batch: seq<nat>, now: int, send: Sender)
      requires Valid({}) && (forall i, j | 0 <= i < j < |batch| :: batch[i] != batch[j])
      requires forall r | r in batch :: Due(r, now)
      modifies this
      ensures Valid({})
      ensures Passed(old(State()), State(), batch, batch, now, send)
    {
      hide KeysUnique, EndpointsOf, Failed, ReportedGone, Reached;
      hide RowsPassed, SendsPassed, EndpointsPassed, Passed, RetryOrDead;
      Claim(batch, now);
      ghost var before := old(State());
      ghost var claimed := set r | r in batch;
      PassedStart(before, State(), batch, now, send);
      for i := 0 to |batch|
        invariant Valid(claimed) && Passed(before, State(), batch, batch[..i], now, send)
        invariant forall r :: r in claimed <==> r in batch[i..]
      {
        var r := batch[i];
        assert batch[i..] == [r] + batch[i + 1..] && batch[..i + 1] == batch[..i] + [r];
        assert r in claimed && r in batch;
        ghost var mid := State();
        PassedHas(before, mid, batch, batch[..i], now, send);
        ghost var es := DeliverRow(r, now, send, claimed);
        EndpointsAre(mid.endpoints, mid.rows[r].user, es);
        PassedOne(before, mid, State(), batch, batch[..i], r, es, now, send);
        claimed := claimed - {r};
        assert r !in batch[i + 1..];
      }
      assert batch[..|batch|] == batch;
    }

    ghost function State(): Snapshot
      reads this
    {
      Snapshot(rows, endpoints, deliveries)
    }
  }

  datatype Snapshot = Snapshot(rows: map<nat, Row>, endpoints: map<nat, Endpoint>, deliveries: set<(nat, nat)>)

  /** A row settled by one claim, answered by some of its user's endpoints. */
  ghost predicate Settled(before: Snapshot, after: Row, row: nat, es: set<nat>, now: int, send: Sender)
    requires row in before.rows
  {
    es <= EndpointsOf(before.endpoints, before.rows[row].user) &&
    after == AfterClaim(before.rows[row], Failed(row, es, send), now)
  }

  /** Every row of the batch is claimed; those in `done` are settled; nothing else changes. */
  ghost predicate RowsPassed(a: Snapshot, b: Snapshot, batch: seq<nat>, done: seq<nat>, now: int, send: Sender) {
    b.rows.Keys == a.rows.Keys &&
    (forall r | r in a.rows && r !in batch :: b.rows[r] == a.rows[r]) &&
    (forall r | r in batch :: r in a.rows) &&
    (forall r | r in batch && r !in done :: b.rows[r] == a.rows[r].(attempts := a.rows[r].attempts + 1)) &&
    (forall r | r in done :: r in batch && exists es :: Settled(a, b.rows[r], r, es, now, send))
  }

  /** Sends only add: each is a delivery of a batch row that had none before. */
  ghost predicate SendsPassed(a: Snapshot, b: Snapshot, done: seq<nat>, send: Sender) {
    a.deliveries <= b.deliveries &&
    (forall r, e: nat | r in done :: (r, e) !in a.deliveries) &&
    (forall d | d in b.deliveries - a.deliveries :: d.0 in done && send(d.0, d.1) == Delivered)
  }

  /** Endpoints only go, and only those some row's provider reported gone. */
  ghost predicate EndpointsPassed(a: Snapshot, b: Snapshot, done: seq<nat>, send: Sender) {
    (forall e | e in b.endpoints :: e in a.endpoints && b.endpoints[e] == a.endpoints[e]) &&
    (forall e | e in a.endpoints && e !in b.endpoints :: exists r :: r in done && send(r, e) == Gone)
  }

  ghost predicate Passed(a: Snapshot, b: Snapshot, batch: seq<nat>, done: seq<nat>, now: int, send: Sender) {
    RowsPassed(a, b, batch, done, now, send) && SendsPassed(a, b, done, send) && EndpointsPassed(a, b, done, send)
  }

  lemma PassedStart(a: Snapshot, b: Snapshot, batch: seq<nat>, now: int, send: Sender)
    requires b.rows.Keys == a.rows.Keys && b.endpoints == a.endpoints && b.deliveries == a.deliveries
    requires forall r | r in batch :: r in a.rows
    requires forall r | r in a.rows :: b.rows[r] ==
               if r in batch then a.rows[r].(attempts := a.rows[r].attempts + 1) else a.rows[r]
    ensures Passed(a, b, batch, batch[..0], now, send)
  {
  }

  lemma PassedHas(a: Snapshot, m: Snapshot, batch: seq<nat>, done: seq<nat>, now: int, send: Sender)
    requires Passed(a, m, batch, done, now, send)
    ensures forall r | r in batch :: r in m.rows
  {
  }

  lemma PassedOne(a: Snapshot, m: Snapshot, b: Snapshot, batch: seq<nat>, done: seq<nat>, row: nat, es: set<nat>,
                  now: int, send: Sender)
    requires Passed(a, m, batch, done, now, send) && row in batch && row !in done && row in m.rows
    requires es == EndpointsOf(m.endpoints, m.rows[row].user)
    requires b.rows == m.rows[row :=
               if Failed(row, es, send) then RetryOrDead(m.rows[row], now) else m.rows[row].(status := Sent)]
    requires b.endpoints == m.endpoints - ReportedGone(row, es, send, m.endpoints)
    requires b.deliveries == m.deliveries + Reached(row, es, send)
    requires forall e: nat :: (row, e) !in m.deliveries
    ensures Passed(a, b, batch, done + [row], now, send)
  {
    RowsPassedOne(a, m, b, batch, done, row, es, now, send);
    forall e | e in a.endpoints && e !in b.endpoints
      ensures exists r :: r in done + [row] && send(r, e) == Gone
    {
      if e in m.endpoints {
        assert row in done + [row];
      } else {
        var r :| r in done && send(r, e) == Gone;
        assert r in done + [row];
      }
    }
  }

  lemma RowsPassedOne(a: Snapshot, m: Snapshot, b: Snapshot, batch: seq<nat>, done: seq<nat>, row: nat, es: set<nat>,
                      now: int, send: Sender)
    requires RowsPassed(a, m, batch, done, now, send) && row in batch && row !in done && row in m.rows
    requires es <= EndpointsOf(a.endpoints, m.rows[row].user)
    requires b.rows == m.rows[row :=
               if Failed(row, es, send) then RetryOrDead(m.rows[row], now) else m.rows[row].(status := Sent)]
    ensures RowsPassed(a, b, batch, done + [row], now, send)
  {
    hide Failed, RetryOrDead;
    assert Settled(a, b.rows[row], row, es, now, send);
    forall r | r in done + [row]
      ensures r in batch && exists es' :: Settled(a, b.rows[r], r, es', now, send)
    {
      if r != row {
        assert b.rows[r] == m.rows[r];
        var es' :| Settled(a, m.rows[r], r, es', now, send);
        assert Settled(a, b.rows[r], r, es', now, send);
      }
    }
  }

  // ---- a row over many passes ------------------------------------------------------------------

  /** One call of Tick. */
  datatype Pass = Pass(batch: seq<nat>, now: int, send: Sender)

  /** The snapshots before, between and after a sequence of passes, other calls in between left out. */
  ghost predicate Passes(states: seq<Snapshot>, passes: seq<Pass>) {
    |states| == |passes| + 1 &&
    forall i | 0 <= i < |passes| ::
      Passed(states[i], states[i + 1], passes[i].batch, passes[i].batch, passes[i].now, passes[i].send)
  }

  /** The times of the passes that claim the row. */
  function ClaimTimes(passes: seq<Pass>, row: nat): seq<int> {
    if passes == [] then []
    else
      var before, p := ClaimTimes(passes[..|passes| - 1], row), passes[|passes| - 1];
      if row in p.batch then before + [p.now] else before
  }

  /** A pass claims only pending rows. */
  ghost predicate ClaimsPending(states: seq<Snapshot>, passes: seq<Pass>, row: nat)
    requires |states| == |passes| + 1
  {
    forall i | 0 <= i < |passes| && row in passes[i].batch ::
      row in states[i].rows && states[i].rows[row].status.Pending?
  }

  lemma PassedRow(a: Snapshot, b: Snapshot, p: Pass, row: nat) returns (failed: bool)
    requires Passed(a, b, p.batch, p.batch, p.now, p.send) && row in a.rows
    ensures row in b.rows
    ensures b.rows[row] == if row in p.batch then AfterClaim(a.rows[row], failed, p.now) else a.rows[row]
  {
    failed := false;
    if row in p.batch {
      var es :| Settled(a, b.rows[row], row, es, p.now, p.send);
      failed := Failed(row, es, p.send);
    }
  }

  /** Over any sequence of passes a row lives the life of its claims, each of which failed or did not. */
  lemma {:induction false} RowLivesItsLife(states: seq<Snapshot>, passes: seq<Pass>, row: nat)
    returns (failed: seq<bool>)
    requires Passes(states, passes) && row in states[0].rows && ClaimsPending(states, passes, row)
    ensures |failed| == |ClaimTimes(passes, row)| && row in states[|passes|].rows
    ensures states[|passes|].rows[row] == Life(states[0].rows[row], failed, ClaimTimes(passes, row))
  {
    hide AfterClaim, Passed;
    if passes == [] {
      failed := [];
    } else {
      var n := |passes| - 1;
      assert forall i | 0 <= i < n :: passes[..n][i] == passes[i] && states[..n + 1][i] == states[i];
      failed := RowLivesItsLife(states[..n + 1], passes[..n], row);
      var last := PassedRow(states[n], states[n + 1], passes[n], row);
      var times := ClaimTimes(passes[..n], row);
      if row in passes[n].batch {
        assert (failed + [last])[..|failed|] == failed && (times + [passes[n].now])[..|times|] == times;
        failed := failed + [last];
      }
    }
  }

  /** So a new row is claimed at most six times, and six claims leave it sent or dead. */
  lemma SixClaimsSettle(states: seq<Snapshot>, passes: seq<Pass>, row: nat)
    requires Passes(states, passes) && row in states[0].rows && ClaimsPending(states, passes, row)
    requires states[0].rows[row].status.Pending? && states[0].rows[row].attempts == 0
    ensures row in states[|passes|].rows && |ClaimTimes(passes, row)| <= MAX_ATTEMPTS
    ensures |ClaimTimes(passes, row)| == MAX_ATTEMPTS ==> !states[|passes|].rows[row].status.Pending?
    ensures states[|passes|].rows[row].status.Dead? ==> |ClaimTimes(passes, row)| == MAX_ATTEMPTS
  {
    var failed := RowLivesItsLife(states, passes, row);
    SettledWithinSix(states[0].rows[row], failed, ClaimTimes(passes, row));
    ClaimsAreCounted(states, passes, row);
  }

  /** Each claim is counted in the row. */
  lemma {:induction false} ClaimsAreCounted(states: seq<Snapshot>, passes: seq<Pass>, row: nat)
    requires Passes(states, passes) && row in states[0].rows && ClaimsPending(states, passes, row)
    ensures row in states[|passes|].rows
    ensures states[|passes|].rows[row].attempts == states[0].rows[row].attempts + |ClaimTimes(passes, row)|
  {
    hide Passed;
    if passes != [] {
      var n := |passes| - 1;
      assert forall i | 0 <= i < n :: passes[..n][i] == passes[i] && states[..n + 1][i] == states[i];
      ClaimsAreCounted(states[..n + 1], passes[..n], row);
      var _ := PassedRow(states[n], states[n + 1], passes[n], row);
    }
  }

  method PickFrom(s: set<nat>) returns (e: nat)
    requires s != {}
    ensures e in s
  {
    e :| e in s;
  }
}
