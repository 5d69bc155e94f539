/**
 * Runs in which sequence numbers are handed out twice: lost keys, failed floor reads, losses and
 * restarts in the middle of next(); and what follows an outage that leaves the key behind.
 */
module SeqLimits {
  import opened Wrappers
  import opened SeqProtocol

  // ---- whole sends ---------------------------------------------------------------------------

  function Advances(p: nat, n: nat): seq<Step> {
    if n == 0 then [] else [Advance(p)] + Advances(p, n - 1)
  }

  lemma ExecAdvances(s: State, p: nat, n: nat)
    requires p in s.senders && n > 0
    ensures Exec(s, Advances(p, n)) == Exec(AdvanceSender(s, p), Advances(p, n - 1))
    ensures n == 1 ==> Exec(s, Advances(p, n)) == AdvanceSender(s, p)
  {
    assert Advances(p, n)[1..] == Advances(p, n - 1);
  }

  lemma ExecFirst(s: State, a: Step, rest: seq<Step>)
    ensures Exec(s, [a] + rest) == Exec(Do(s, a), rest)
    ensures TameRun(s, [a] + rest) <==> Tame(s, a) && TameRun(Do(s, a), rest)
  {
    assert ([a] + rest)[1..] == rest;
  }

  lemma {:induction false} ExecConcat(s: State, a: seq<Step>, b: seq<Step>)
    ensures Exec(s, a + b) == Exec(Exec(s, a), b)
    ensures TameRun(s, a + b) <==> TameRun(s, a) && TameRun(Exec(s, a), b)
    decreases |a|
  {
    if a == [] {
      assert a + b == b;
    } else {
      ExecConcat(Do(s, a[0]), a[1..], b);
      assert (a + b)[1..] == a[1..] + b;
    }
  }

  lemma {:induction false} AdvancesTame(s: State, p: nat, n: nat)
    ensures TameRun(s, Advances(p, n))
    decreases n
  {
    if n > 0 {
      AdvancesTame(Do(s, Advance(p)), p, n - 1);
      ExecFirst(s, Advance(p), Advances(p, n - 1));
    }
  }

  /** A fresh sender's call of next() that finds no key and keeps its number: four calls. */
  function ColdStart(p: nat): seq<Step> {
    [Begin(p)] + Advances(p, 4)
  }

  lemma MoveTwice(s: State, p: nat, a: Phase, b: Phase)
    ensures Move(Move(s, p, a), p, b) == Move(s, p, b)
  {
    assert s.senders[p := a][p := b] == s.senders[p := b];
  }

  /** One call of a sender that only changes its phase. */
  lemma CallMoves(s: State, p: nat, a: Phase, b: Phase, n: nat)
    requires n > 0 && AdvanceSender(Move(s, p, a), p) == Move(Move(s, p, a), p, b)
    ensures Exec(Move(s, p, a), Advances(p, n)) == Exec(Move(s, p, b), Advances(p, n - 1))
  {
    hide AdvanceSender, Exec;
    MoveTwice(s, p, a, b);
    ExecAdvances(Move(s, p, a), p, n);
  }

  lemma ColdStartIssues(s: State, p: nat)
    requires s.redisUp && s.key.None? && p !in s.senders
    ensures var q := Floor(s) + 1;
            Exec(s, ColdStart(p)) == Move(Issue(s.(key := Some(q)), q), p, Seeded(q))
    ensures TameRun(s, ColdStart(p))
  {
    hide Exec, TameRun, Advances, MaxOf, Max;
    ExecFirst(s, Begin(p), Advances(p, 4));
    AdvancesTame(Move(s, p, Ready), p, 4);
    CallMoves(s, p, Ready, Cold, 4);
    CallMoves(s, p, Cold, CounterRead(s.counter), 3);
    CallMoves(s, p, CounterRead(s.counter), FloorRead(Floor(s)), 2);
    FreshSeedIssues(s, p);
    ExecAdvances(Move(s, p, FloorRead(Floor(s))), p, 1);
  }

  lemma FreshSeedIssues(s: State, p: nat)
    requires s.redisUp && s.key.None?
    ensures var q := Floor(s) + 1;
            AdvanceSender(Move(s, p, FloorRead(Floor(s))), p) == Move(Issue(s.(key := Some(q)), q), p, Seeded(q))
  {
    hide MaxOf;
    MoveTwice(Issue(s.(key := Some(Floor(s) + 1)), Floor(s) + 1), p, FloorRead(Floor(s)), Seeded(Floor(s) + 1));
  }

  /** The first send of a conversation, from start to finish, and what it leaves. */
  function ColdSend(p: nat): seq<Step> {
    ColdStart(p) + Advances(p, 2)
  }

  lemma ColdSendStores(s: State, p: nat)
    requires s.redisUp && s.key.None? && p !in s.senders
    ensures var q := Floor(s) + 1;
            Exec(s, ColdSend(p)) ==
            Move(Issue(s.(key := Some(q), counter := q, messages := s.messages + [q]), q), p, Finished)
    ensures TameRun(s, ColdSend(p))
  {
    hide Exec, TameRun, Advances, MaxOf;
    var q := Floor(s) + 1;
    ColdStartIssues(s, p);
    ExecConcat(s, ColdStart(p), Advances(p, 2));
    var s1 := Exec(s, ColdStart(p));
    AdvancesTame(s1, p, 2);
    ExecAdvances(s1, p, 2);
    var s2 := Move(s1.(counter := q), p, Holding(q));
    assert AdvanceSender(s1, p) == s2;
    ExecAdvances(s2, p, 1);
    assert s2.senders[p := Finished] == s.senders[p := Finished];
  }

  /** A send while Redis has the key and its next number is not taken. */
  function WarmSend(p: nat): seq<Step> {
    [Begin(p)] + Advances(p, 2)
  }

  lemma WarmSendStores(s: State, p: nat, v: nat)
    requires s.redisUp && s.key == Some(v) && p !in s.senders && v + 1 !in s.messages
    ensures Exec(s, WarmSend(p)) ==
            Move(Issue(s.(key := Some(v + 1), messages := s.messages + [v + 1]), v + 1), p, Finished)
  {
    hide Exec, Advances, MaxOf, AdvanceSender;
    ExecFirst(s, Begin(p), Advances(p, 2));
    Attempt(Move(s, p, Ready), p, v + 1);
    var t := Issue(s.(key := Some(v + 1), messages := s.messages + [v + 1]), v + 1);
    MoveTwice(t, p, Ready, Holding(v + 1));
    MoveTwice(t, p, Holding(v + 1), Finished);
  }

  /** next() from a warm key, then insert. */
  lemma Attempt(t: State, p: nat, q: nat)
    requires t.redisUp && q > 0 && t.key == Some(q - 1) && p in t.senders && t.senders[p] == Ready
    ensures var h := Move(Issue(t.(key := Some(q)), q), p, Holding(q));
            Exec(t, Advances(p, 2)) ==
            if q in t.messages then Collide(h, p) else Move(h.(messages := t.messages + [q]), p, Finished)
  {
    hide Exec, Advances, MaxOf;
    var h := Move(Issue(t.(key := Some(q)), q), p, Holding(q));
    assert AdvanceSender(t, p) == h;
    hide Collide;
    ExecAdvances(t, p, 2);
    ExecAdvances(h, p, 1);
    Inserts(h, p, q);
  }

  lemma Inserts(h: State, p: nat, q: nat)
    requires p in h.senders && h.senders[p] == Holding(q)
    ensures AdvanceSender(h, p) ==
            if q in h.messages then Collide(h, p) else Move(h.(messages := h.messages + [q]), p, Finished)
  {
  }

  /** A send served by Mongo alone. */
  function FallbackSend(p: nat): seq<Step> {
    [Begin(p)] + Advances(p, 5)
  }

  lemma FallbackReads(s: State, p: nat)
    requires !s.redisUp && p !in s.senders
    ensures Exec(s, FallbackSend(p)) == Exec(Move(s, p, DurableFloorRead(Floor(s))), Advances(p, 2))
  {
    hide Exec, Advances, MaxOf, Max;
    ExecFirst(s, Begin(p), Advances(p, 5));
    CallMoves(s, p, Ready, Durable, 5);
    CallMoves(s, p, Durable, DurableCounterRead(s.counter), 4);
    CallMoves(s, p, DurableCounterRead(s.counter), DurableFloorRead(Floor(s)), 3);
  }

  lemma FallbackSendStores(s: State, p: nat)
    requires !s.redisUp && p !in s.senders
    ensures var q := Floor(s) + 1;
            Exec(s, FallbackSend(p)) ==
            Move(Issue(s.(counter := q, messages := s.messages + [q]), q), p, Finished)
  {
    hide Exec, Advances, AdvanceSender, FallbackSend;
    var q := Floor(s) + 1;
    FallbackReads(s, p);
    FreshFallbackIssues(s, p);
    ExecAdvances(Move(s, p, DurableFloorRead(Floor(s))), p, 2);
    FallbackInserts(s, p);
    ExecAdvances(Move(Issue(s.(counter := q), q), p, Holding(q)), p, 1);
  }

  lemma FreshFallbackIssues(s: State, p: nat)
    ensures var q := Floor(s) + 1;
            AdvanceSender(Move(s, p, DurableFloorRead(Floor(s))), p) == Move(Issue(s.(counter := q), q), p, Holding(q))
  {
    hide MaxOf;
    MoveTwice(Issue(s.(counter := Floor(s) + 1), Floor(s) + 1), p, DurableFloorRead(Floor(s)), Holding(Floor(s) + 1));
  }

  lemma FallbackInserts(s: State, p: nat)
    ensures var q := Floor(s) + 1;
            AdvanceSender(Move(Issue(s.(counter := q), q), p, Holding(q)), p) ==
            Move(Issue(s.(counter := q, messages := s.messages + [q]), q), p, Finished)
  {
    var q := Floor(s) + 1;
    MoveTwice(Issue(s.(counter := q, messages := s.messages + [q]), q), p, Holding(q), Finished);
  }

  // ---- where the guarantee stops: losing a key -----------------------------------------------

  /** A conversation in which nothing has been sent; and after its first number, and its first send. */
  const EMPTY := State(true, None, 0, [], map[], map[], [], 0, false)
  const SEEDED := State(true, Some(1), 0, [], map[0 := Seeded(1)], map[], [1], 0, false)
  const SENT := State(true, Some(1), 1, [1], map[0 := Finished], map[], [1], 0, false)

  lemma EmptyIsInitial()
    ensures Initial(EMPTY) && Floor(EMPTY) == 0
  {
  }

  lemma FirstNumber()
    ensures Exec(EMPTY, ColdStart(0)) == SEEDED && TameRun(EMPTY, ColdStart(0))
  {
    EmptyIsInitial();
    hide Exec, TameRun, ColdStart, Floor;
    ColdStartIssues(EMPTY, 0);
  }

  lemma FirstSend()
    ensures Exec(EMPTY, ColdSend(0)) == SENT && TameRun(EMPTY, ColdSend(0))
  {
    EmptyIsInitial();
    hide Exec, TameRun, ColdSend, Floor;
    ColdSendStores(EMPTY, 0);
  }

  /** A first send gets 1, its best-effort write fails, and it stops before storing; then Redis loses
      the key. No read fails, nothing is in flight, and 1 is handed out a second time. */
  function ReissueAfterLoss(): seq<Step> {
    ColdStart(0) + ([SkipPersist(0)] + ([Quit(0)] + ([Lose] + ColdStart(1))))
  }

  lemma LossReissues()
    ensures TameRun(EMPTY, ReissueAfterLoss()) && Exec(EMPTY, ReissueAfterLoss()).issued == [1, 1]
  {
    hide Exec, TameRun, ColdStart, MaxOf;
    FirstNumber();
    var s2 := Do(SEEDED, SkipPersist(0));
    var s3 := Do(s2, Quit(0));
    assert s3 == State(true, Some(1), 0, [], map[0 := Finished], map[], [1], 0, false);
    assert Tame(s3, Lose);
    var s4 := Do(s3, Lose);
    assert s4.redisUp && s4.key.None? && 1 !in s4.senders && s4.issued == [1];
    FloorIsZero(s4);
    hide Do, Floor, Tame;
    ExecConcat(EMPTY, ColdStart(0), [SkipPersist(0)] + ([Quit(0)] + ([Lose] + ColdStart(1))));
    ExecFirst(SEEDED, SkipPersist(0), [Quit(0)] + ([Lose] + ColdStart(1)));
    ExecFirst(s2, Quit(0), [Lose] + ColdStart(1));
    ExecFirst(s3, Lose, ColdStart(1));
    ColdStartIssues(s4, 1);
    SimpleStepsTame(SEEDED, s2);
  }

  lemma SimpleStepsTame(s: State, t: State)
    ensures Tame(s, SkipPersist(0)) && Tame(t, Quit(0))
  {
  }

  lemma FloorIsZero(s: State)
    requires s.counter == 0 && s.messages == []
    ensures Floor(s) == 0
  {
  }

  // ---- where the guarantee stops: failed floor reads ------------------------------------------

  /** next() of a fresh sender whose read of the floor fails, with no key or with Redis down. */
  function BlindNext(p: nat): seq<Step> {
    [Begin(p)] + ([Advance(p)] + ([FailRead(p)] + Advances(p, 1)))
  }

  lemma BlindIssues(s: State, p: nat)
    requires p !in s.senders && (s.redisUp ==> s.key.None?)
    ensures Exec(s, BlindNext(p)).messages == s.messages
    ensures Exec(s, BlindNext(p)).issued == s.issued + [if s.redisUp then 1 else s.counter + 1]
  {
    hide Exec, Advances, MaxOf;
    var into := if s.redisUp then Cold else Durable;
    var read := if s.redisUp then FloorRead(0) else DurableFloorRead(0);
    ExecFirst(s, Begin(p), [Advance(p)] + ([FailRead(p)] + Advances(p, 1)));
    ExecFirst(Move(s, p, Ready), Advance(p), [FailRead(p)] + Advances(p, 1));
    MoveTwice(s, p, Ready, into);
    ExecFirst(Move(s, p, into), FailRead(p), Advances(p, 1));
    MoveTwice(s, p, into, read);
    ExecAdvances(Move(s, p, read), p, 1);
    FloorOfZero(s, p);
  }

  lemma FloorOfZero(s: State, p: nat)
    ensures s.redisUp && s.key.None? ==>
              var t := AdvanceSender(Move(s, p, FloorRead(0)), p);
              t.issued == s.issued + [1] && t.messages == s.messages
    ensures var t := AdvanceSender(Move(s, p, DurableFloorRead(0)), p);
            t.issued == s.issued + [s.counter + 1] && t.messages == s.messages
  {
  }

  /** With nothing else amiss, such a read hands out a number that is already stored. */
  lemma FailedReadReissues()
    ensures var s := Exec(EMPTY, ColdSend(0) + ([Lose] + BlindNext(1)));
            s.issued == [1, 1] && s.messages == [1]
  {
    hide Exec, TameRun, ColdSend, BlindNext, MaxOf;
    FirstSend();
    var s2 := Do(SENT, Lose);
    assert s2.redisUp && s2.key.None? && s2.messages == [1] && s2.issued == [1] && 1 !in s2.senders;
    hide Do;
    ExecConcat(EMPTY, ColdSend(0), [Lose] + BlindNext(1));
    ExecFirst(SENT, Lose, BlindNext(1));
    BlindIssues(s2, 1);
  }

  /** ... and so it does on the fallback path. */
  lemma FailedFallbackReadReissues()
    ensures var s := Exec(EMPTY, ColdSend(0) + (WarmSend(1) + ([Lose] + ([GoDown] + BlindNext(2)))));
            s.issued == [1, 2, 2] && s.messages == [1, 2]
  {
    FirstSend();
    WarmSendStores(SENT, 1, 1);
    AfterTwoSends(Exec(SENT, WarmSend(1)));
    hide Exec, TameRun, ColdSend, BlindNext, WarmSend;
    ExecConcat(EMPTY, ColdSend(0), WarmSend(1) + ([Lose] + ([GoDown] + BlindNext(2))));
    ExecConcat(SENT, WarmSend(1), [Lose] + ([GoDown] + BlindNext(2)));
  }

  lemma AfterTwoSends(s: State)
    requires s.counter == 1 && s.messages == [1, 2] && s.issued == [1, 2] && 2 !in s.senders
    ensures var t := Exec(s, [Lose] + ([GoDown] + BlindNext(2)));
            t.issued == [1, 2, 2] && t.messages == [1, 2]
  {
    hide Exec, BlindNext, MaxOf;
    ExecFirst(s, Lose, [GoDown] + BlindNext(2));
    ExecFirst(Do(s, Lose), GoDown, BlindNext(2));
    BlindIssues(Do(Do(s, Lose), GoDown), 2);
  }

  // ---- where the guarantee stops: losses and restarts in the middle of next() ------------------

  /** A key lost before its number is durable is handed out to a second sender. */
  lemma LossInFlightReissues()
    ensures var s := Exec(EMPTY, ColdStart(0) + ([Lose] + ColdStart(1)));
            s.issued == [1, 1] && s.senders == map[0 := Seeded(1), 1 := Seeded(1)]
  {
    hide Exec, TameRun, ColdStart, MaxOf;
    FirstNumber();
    var s2 := Do(SEEDED, Lose);
    assert s2.redisUp && s2.key.None? && s2.senders == map[0 := Seeded(1)] && s2.issued == [1];
    FloorIsZero(s2);
    hide Do, Floor;
    ExecConcat(EMPTY, ColdStart(0), [Lose] + ColdStart(1));
    ExecFirst(SEEDED, Lose, ColdStart(1));
    ColdStartIssues(s2, 1);
  }

  /** A sender that has read the floor, and another that sends completely before the key is lost: the
      first then hands out the number the second has stored, although the key was not ahead. */
  function StaleReader(): seq<Step> {
    ([Begin(0)] + Advances(0, 3)) + (ColdSend(1) + ([Lose] + Advances(0, 1)))
  }

  lemma StaleReaderReissues()
    ensures var s := Exec(EMPTY, StaleReader());
            s.issued == [1, 1] && s.messages == [1] && !s.gap
  {
    hide Exec, ColdSend, Advances;
    EmptyIsInitial();
    OneMessage();
    hide MaxOf;
    ReadsFloor(EMPTY, 0);
    var s1 := State(true, None, 0, [], map[0 := FloorRead(0)], map[], [], 0, false);
    assert Move(EMPTY, 0, FloorRead(0)) == s1;
    FloorIsZero(s1);
    var s2 := State(true, Some(1), 1, [1], map[0 := FloorRead(0), 1 := Finished], map[], [1], 0, false);
    ColdSendStores(s1, 1);
    assert Exec(s1, ColdSend(1)) == s2;
    var s3 := Do(s2, Lose);
    assert s3 == State(true, None, 1, [1], map[0 := FloorRead(0), 1 := Finished], map[], [1], 1, false);
    var s4 := AdvanceSender(s3, 0);
    hide Do, AdvanceSender, Floor;
    ExecConcat(EMPTY, [Begin(0)] + Advances(0, 3), ColdSend(1) + ([Lose] + Advances(0, 1)));
    ExecConcat(s1, ColdSend(1), [Lose] + Advances(0, 1));
    ExecFirst(s2, Lose, Advances(0, 1));
    ExecAdvances(s3, 0, 1);
  }

  lemma ReadsFloor(s: State, p: nat)
    requires s.redisUp && s.key.None? && p !in s.senders
    ensures Exec(s, [Begin(p)] + Advances(p, 3)) == Move(s, p, FloorRead(Floor(s)))
  {
    hide Exec, Advances, MaxOf, Max;
    ExecFirst(s, Begin(p), Advances(p, 3));
    CallMoves(s, p, Ready, Cold, 3);
    CallMoves(s, p, Cold, CounterRead(s.counter), 2);
    MoveTwice(s, p, CounterRead(s.counter), FloorRead(Floor(s)));
    ExecAdvances(Move(s, p, CounterRead(s.counter)), p, 1);
  }

  /** A restart while a fallback is between its read and its increment lets both paths issue 1. */
  function RestartInFlight(): seq<Step> {
    [GoDown] + ([Begin(0)] + (Advances(0, 3) + ([ComeUp] + (ColdStart(1) + Advances(0, 1)))))
  }

  lemma RestartInFlightReissues()
    ensures var s := Exec(EMPTY, RestartInFlight());
            s.issued == [1, 1] && s.senders == map[0 := Holding(1), 1 := Seeded(1)]
  {
    hide Exec, ColdStart, Advances, MaxOf;
    EmptyIsInitial();
    var s1 := Do(EMPTY, GoDown);
    assert s1 == EMPTY.(redisUp := false);
    var s2 := State(false, None, 0, [], map[0 := DurableFloorRead(0)], map[], [], 0, false);
    var s3 := Do(s2, ComeUp);
    FloorIsZero(s1);
    FloorIsZero(s3);
    var s4 := State(true, Some(1), 0, [], map[0 := DurableFloorRead(0), 1 := Seeded(1)], map[], [1], 0, false);
    ColdStartIssues(s3, 1);
    assert Exec(s3, ColdStart(1)) == s4;
    var s5 := AdvanceSender(s4, 0);
    assert s5.issued == [1, 1] && s5.senders == map[0 := Holding(1), 1 := Seeded(1)];
    assert Move(s1, 0, DurableFloorRead(0)) == s2;
    hide Do, AdvanceSender, Floor;
    ExecFirst(EMPTY, GoDown, [Begin(0)] + (Advances(0, 3) + ([ComeUp] + (ColdStart(1) + Advances(0, 1)))));
    FallbackPauses(s1, 0, [ComeUp] + (ColdStart(1) + Advances(0, 1)));
    ExecFirst(s2, ComeUp, ColdStart(1) + Advances(0, 1));
    ExecConcat(s3, ColdStart(1), Advances(0, 1));
    ExecAdvances(s4, 0, 1);
  }

  /** A fallback up to its increment, and what follows. */
  lemma FallbackPauses(s: State, p: nat, rest: seq<Step>)
    requires !s.redisUp && p !in s.senders
    ensures Exec(s, [Begin(p)] + (Advances(p, 3) + rest)) == Exec(Move(s, p, DurableFloorRead(Floor(s))), rest)
  {
    hide Exec, Advances, MaxOf, Max;
    ExecFirst(s, Begin(p), Advances(p, 3) + rest);
    ExecConcat(Move(s, p, Ready), Advances(p, 3), rest);
    CallMoves(s, p, Ready, Durable, 3);
    CallMoves(s, p, Durable, DurableCounterRead(s.counter), 2);
    MoveTwice(s, p, DurableCounterRead(s.counter), DurableFloorRead(Floor(s)));
    ExecAdvances(Move(s, p, DurableCounterRead(s.counter)), p, 1);
  }

  // ---- where the guarantee stops: an outage that keeps the key ---------------------------------

  /**
   * Redis is back with its key at v while the fallback stored v+1..v+k in the meantime; the senders
   * seen so far are over.
   */
  ghost predicate Behind(s: State, v: nat, k: nat) {
    s.redisUp && s.key == Some(v) && Quiescent(s) && s.collisions == map[] &&
    forall m: nat :: v < m ==> (m in s.messages <==> m <= v + k)
  }

  /** Whatever k, a run from an empty conversation gets there. */
  function Outage(k: nat): seq<Step> {
    if k == 0 then [GoDown] else Outage(k - 1) + FallbackSend(k)
  }

  /** After k fallback sends with Redis away. */
  ghost predicate InOutage(s: State, k: nat) {
    && !s.redisUp && s.key == Some(1) && s.collisions == map[] && Floor(s) == k + 1
    && (forall m: nat :: m in s.messages <==> 1 <= m <= k + 1)
    && (forall p: nat :: p in s.senders <==> p <= k) && Quiescent(s)
  }

  lemma {:induction false} OutageStores(s: State, k: nat)
    requires s.redisUp && s.key == Some(1) && s.counter == 1 && s.messages == [1] && s.collisions == map[]
    requires s.senders == map[0 := Finished]
    ensures InOutage(Exec(s, Outage(k)), k)
  {
    hide Exec, Advances;
    if k == 0 {
      ExecFirst(s, GoDown, []);
      assert [GoDown] + [] == [GoDown];
      ExecNone(Do(s, GoDown));
      OneMessage();
      var t := Do(s, GoDown);
      assert Exec(s, Outage(0)) == t && t.messages == [1] && t.senders.Keys == {0};
    } else {
      hide InOutage;
      OutageStores(s, k - 1);
      ExecConcat(s, Outage(k - 1), FallbackSend(k));
      OneMoreStored(Exec(s, Outage(k - 1)), k);
    }
  }

  lemma OneMessage()
    ensures MaxOf([1]) == 1
  {
  }

  lemma OneMoreStored(t: State, k: nat)
    requires k > 0 && InOutage(t, k - 1)
    ensures InOutage(Exec(t, FallbackSend(k)), k)
  {
    hide Exec, Advances, MaxOf;
    FallbackSendStores(t, k);
    MaxOfSnoc(t.messages, k + 1);
  }

  lemma ExecNone(s: State)
    ensures Exec(s, []) == s
  {
  }

  function IntoOutage(k: nat): seq<Step> {
    ColdSend(0) + (Outage(k) + [ComeUp])
  }

  lemma BehindIsReachable(k: nat)
    ensures Behind(Exec(EMPTY, IntoOutage(k)), 1, k)
  {
    hide Exec, TameRun, Outage, ColdSend;
    FirstSend();
    OutageStores(SENT, k);
    ExecConcat(EMPTY, ColdSend(0), Outage(k) + [ComeUp]);
    ExecConcat(SENT, Outage(k), [ComeUp]);
    var s2 := Exec(SENT, Outage(k));
    ExecFirst(s2, ComeUp, []);
    assert [ComeUp] + [] == [ComeUp];
    ExecNone(Do(s2, ComeUp));
  }

  /** After the outage Redis keeps working. */
  predicate Calm(step: Step) {
    step.Begin? || step.Advance? || step.SkipPersist? || step.Quit?
  }

  /** A sender that began after the outage: each collision used up one of the k numbers. */
  ghost predicate SenderBehind(s: State, v: nat, k: nat, p: nat)
    requires p in s.senders && s.key.Some?
  {
    var n, w := CollisionsOf(s, p), s.key.value;
    match s.senders[p]
    case Ready => v + n <= w && n <= k && n < MAX_SEQ_ATTEMPTS
    case Holding(q) => v + n + 1 <= q <= w && n <= k && n < MAX_SEQ_ATTEMPTS && (q > v + k ==> q !in s.messages)
    case Exhausted => n == MAX_SEQ_ATTEMPTS <= k
    case Finished => n <= k
    case _ => false
  }

  ghost predicate CatchingUp(s: State, v: nat, k: nat, earlier: set<nat>) {
    s.redisUp && s.key.Some? && s.key.value >= v && HeldOnce(s) &&
    s.collisions.Keys <= s.senders.Keys - earlier &&
    (forall p | p in s.senders && p in earlier :: Over(s.senders[p])) && earlier <= s.senders.Keys &&
    (forall m: nat | v < m <= v + k :: m in s.messages) &&
    (forall m: nat | m in s.messages && m > v + k :: m <= s.key.value) &&
    (forall p | p in s.senders && p !in earlier :: SenderBehind(s, v, k, p))
  }

  lemma StepCatchesUp(s: State, step: Step, v: nat, k: nat, earlier: set<nat>)
    requires CatchingUp(s, v, k, earlier) && Calm(step)
    ensures CatchingUp(Do(s, step), v, k, earlier)
  {
    hide MaxOf;
    var p := step.p;
    if p in s.senders && p !in earlier {
      assert SenderBehind(s, v, k, p);
      if step.Advance? && s.senders[p].Ready? {
        NextCatchesUp(s, p, v, k, earlier);
      } else if step.Advance? && s.senders[p].Holding? {
        InsertCatchesUp(s, p, v, k, earlier);
      } else if step.Quit? && !Over(s.senders[p]) {
        MoveCatchesUp(s, p, Finished, v, k, earlier);
      }
    } else if p !in s.senders && step.Begin? {
      MoveCatchesUp(s, p, Ready, v, k, earlier);
    }
  }

  lemma MoveCatchesUp(s: State, p: nat, ph: Phase, v: nat, k: nat, earlier: set<nat>)
    requires CatchingUp(s, v, k, earlier) && p !in earlier
    requires if p in s.senders then ph == Finished && CollisionsOf(s, p) <= k else ph == Ready
    ensures CatchingUp(Move(s, p, ph), v, k, earlier)
  {
    var t := Move(s, p, ph);
    forall p' | p' in t.senders && p' !in earlier
      ensures SenderBehind(t, v, k, p')
    {
      assert p' != p ==> SenderBehind(s, v, k, p');
    }
  }

  lemma NextCatchesUp(s: State, p: nat, v: nat, k: nat, earlier: set<nat>)
    requires CatchingUp(s, v, k, earlier) && p in s.senders && p !in earlier && s.senders[p] == Ready
    ensures CatchingUp(AdvanceSender(s, p), v, k, earlier)
  {
    var q := s.key.value + 1;
    var t := Move(Issue(s.(key := Some(q)), q), p, Holding(q));
    assert AdvanceSender(s, p) == t;
    hide AdvanceSender;
    assert SenderBehind(s, v, k, p);
    forall p' | p' in t.senders && p' !in earlier
      ensures SenderBehind(t, v, k, p') && (p' != p ==> !Holds(t.senders[p'], q))
    {
      assert SenderBehind(s, v, k, p');
    }
    assert forall p' | p' in t.senders && p' in earlier :: !Holds(t.senders[p'], q);
    assert HeldOnce(t);
  }

  lemma InsertCatchesUp(s: State, p: nat, v: nat, k: nat, earlier: set<nat>)
    requires CatchingUp(s, v, k, earlier) && p in s.senders && p !in earlier && s.senders[p].Holding?
    ensures CatchingUp(AdvanceSender(s, p), v, k, earlier)
  {
    assert SenderBehind(s, v, k, p) && Holds(s.senders[p], s.senders[p].taken);
    if s.senders[p].taken in s.messages {
      CollideCatchesUp(s, p, v, k, earlier);
    } else {
      StoreCatchesUp(s, p, s.senders[p].taken, v, k, earlier);
    }
  }

  lemma CollideCatchesUp(s: State, p: nat, v: nat, k: nat, earlier: set<nat>)
    requires CatchingUp(s, v, k, earlier) && p in s.senders && p !in earlier && SenderBehind(s, v, k, p)
    requires s.senders[p].Holding? && s.senders[p].taken in s.messages
    ensures CatchingUp(Collide(s, p), v, k, earlier)
  {
    var t := Collide(s, p);
    forall p' | p' in t.senders && p' !in earlier
      ensures SenderBehind(t, v, k, p')
    {
      assert p' != p ==> SenderBehind(s, v, k, p') && CollisionsOf(t, p') == CollisionsOf(s, p');
    }
  }

  lemma StoreCatchesUp(s: State, p: nat, q: nat, v: nat, k: nat, earlier: set<nat>)
    requires CatchingUp(s, v, k, earlier) && p in s.senders && p !in earlier && SenderBehind(s, v, k, p)
    requires s.senders[p] == Holding(q) && q !in s.messages
    ensures CatchingUp(Move(s.(messages := s.messages + [q]), p, Finished), v, k, earlier)
  {
    var t := Move(s.(messages := s.messages + [q]), p, Finished);
    forall p' | p' in t.senders && p' !in earlier
      ensures SenderBehind(t, v, k, p')
    {
      assert SenderBehind(s, v, k, p') && Holds(s.senders[p], q);
      assert p' != p ==> !Holds(s.senders[p'], q);
    }
  }

  lemma {:induction false} RunCatchesUp(s: State, steps: seq<Step>, v: nat, k: nat, earlier: set<nat>)
    requires CatchingUp(s, v, k, earlier) && forall step | step in steps :: Calm(step)
    ensures CatchingUp(Exec(s, steps), v, k, earlier)
    decreases |steps|
  {
    if steps != [] {
      StepCatchesUp(s, steps[0], v, k, earlier);
      RunCatchesUp(Do(s, steps[0]), steps[1..], v, k, earlier);
    }
  }

  /** However many senders interleave after the outage, each collides at most k times. */
  lemma CollisionsBounded(s: State, steps: seq<Step>, v: nat, k: nat, p: nat)
    requires Behind(s, v, k) && (forall step | step in steps :: Calm(step))
    requires p in Exec(s, steps).senders && p !in s.senders
    ensures CollisionsOf(Exec(s, steps), p) <= k
    ensures Exec(s, steps).senders[p].Exhausted? ==> k >= MAX_SEQ_ATTEMPTS
  {
    RunCatchesUp(s, steps, v, k, s.senders.Keys);
    assert SenderBehind(Exec(s, steps), v, k, p);
  }

  /** Where the n-th attempt of a lone sender leaves it. */
  ghost predicate AfterAttempts(s: State, t: State, p: nat, v: nat, n: nat) {
    t.redisUp && t.key == Some(v + n) && CollisionsOf(t, p) == n && t.messages == s.messages &&
    p in t.senders && t.senders[p] == if n < MAX_SEQ_ATTEMPTS then Ready else Exhausted
  }

  function Solo(p: nat, n: nat): seq<Step> {
    [Begin(p)] + Attempts(p, n)
  }

  /** n attempts: next(), then insert. */
  function Attempts(p: nat, n: nat): seq<Step> {
    if n == 0 then [] else Attempts(p, n - 1) + Advances(p, 2)
  }

  lemma {:induction false} Collisions(s: State, p: nat, v: nat, k: nat, n: nat)
    requires Behind(s, v, k) && p !in s.senders && n <= k && n <= MAX_SEQ_ATTEMPTS
    ensures AfterAttempts(s, Exec(s, Solo(p, n)), p, v, n)
    decreases n
  {
    hide Exec, Advances, MaxOf;
    if n == 0 {
      ExecFirst(s, Begin(p), []);
      ExecNone(Do(s, Begin(p)));
    } else {
      Collisions(s, p, v, k, n - 1);
      var t := Exec(s, Solo(p, n - 1));
      assert Solo(p, n) == Solo(p, n - 1) + Advances(p, 2);
      ExecConcat(s, Solo(p, n - 1), Advances(p, 2));
      assert v + n in s.messages;
      Attempt(t, p, v + n);
    }
  }

  /**
   * An outage that keeps the key at v while the fallback stores v+1..v+k: with k below three the next
   * send, if alone, collides exactly k times and then stores v+k+1; otherwise it throws.
   */
  lemma WarmKeyBehind(s: State, p: nat, v: nat, k: nat)
    requires Behind(s, v, k) && p !in s.senders
    ensures k < 3 ==>
              var t := Exec(s, Solo(p, k + 1));
              p in t.senders && t.senders[p] == Finished && CollisionsOf(t, p) == k &&
              t.messages == s.messages + [v + k + 1]
    ensures k >= 3 ==>
              var t := Exec(s, Solo(p, 3));
              p in t.senders && t.senders[p] == Exhausted && t.messages == s.messages
  {
    hide Exec, Advances, MaxOf;
    if k < MAX_SEQ_ATTEMPTS {
      Collisions(s, p, v, k, k);
      var t := Exec(s, Solo(p, k));
      assert Solo(p, k + 1) == Solo(p, k) + Advances(p, 2);
      ExecConcat(s, Solo(p, k), Advances(p, 2));
      Attempt(t, p, v + k + 1);
    } else {
      Collisions(s, p, v, k, MAX_SEQ_ATTEMPTS);
    }
  }

  /** So after such an outage three attempts are enough for every send of every run exactly when fewer
      than three messages were stored meanwhile. */
  lemma ThreeAttemptsSufficeExactly(s: State, v: nat, k: nat)
    requires Behind(s, v, k)
    ensures k < 3 <==>
            forall steps, p | (forall step | step in steps :: Calm(step)) && p !in s.senders ::
              NotExhausted(Exec(s, steps), p)
  {
    hide Exec;
    if k < MAX_SEQ_ATTEMPTS {
      forall steps, p | (forall step | step in steps :: Calm(step)) && p !in s.senders
        ensures NotExhausted(Exec(s, steps), p)
      {
        if p in Exec(s, steps).senders {
          CollisionsBounded(s, steps, v, k, p);
        }
      }
    } else {
      var p := UnusedNat(s.senders.Keys);
      WarmKeyBehind(s, p, v, k);
      SoloIsCalm(p, MAX_SEQ_ATTEMPTS);
      assert !NotExhausted(Exec(s, Solo(p, MAX_SEQ_ATTEMPTS)), p);
    }
  }

  ghost predicate NotExhausted(s: State, p: nat) {
    p in s.senders ==> !s.senders[p].Exhausted?
  }

  lemma {:induction false} AdvancesCalm(p: nat, n: nat)
    ensures forall step | step in Advances(p, n) :: Calm(step)
  {
    if n > 0 {
      AdvancesCalm(p, n - 1);
    }
  }

  lemma {:induction false} SoloIsCalm(p: nat, n: nat)
    ensures forall step | step in Solo(p, n) :: Calm(step)
  {
    if n > 0 {
      SoloIsCalm(p, n - 1);
      AdvancesCalm(p, 2);
      assert Solo(p, n) == Solo(p, n - 1) + Advances(p, 2);
    }
  }
}
