/**
 * Exactly when sequence numbers keep rising: which steps of the machine are safe at which states. The
 * conditions are those of Tame, and that no key above the durable floor is lost; none can be left out.
 */
module SeqExact {
  import opened Wrappers
  import opened SeqProtocol
  import opened SeqLimits

  /** Above everything stored, counted, held or ever handed out. */
  ghost predicate Rises(s: State, q: nat) {
    Fresh(s, q) && forall i | 0 <= i < |s.issued| :: s.issued[i] < q
  }

  ghost predicate RisingStep(s: State, a: Step) {
    Issues(s, a) ==> Do(s, a).issued != [] && Rises(s, Latest(Do(s, a)))
  }

  /** Each number the run hands out rises. */
  ghost predicate RisingRun(s: State, steps: seq<Step>)
    decreases |steps|
  {
    steps == [] || (RisingStep(s, steps[0]) && RisingRun(Do(s, steps[0]), steps[1..]))
  }

  /** A tame step that does not lose a key above the durable floor. */
  predicate Careful(s: State, a: Step) {
    Tame(s, a) && (a.Lose? ==> !KeyAhead(s))
  }

  predicate CarefulRun(s: State, steps: seq<Step>)
    decreases |steps|
  {
    steps == [] || (Careful(s, steps[0]) && CarefulRun(Do(s, steps[0]), steps[1..]))
  }

  /** However it goes on with careful steps, numbers keep rising. */
  ghost predicate RisesFrom(s: State) {
    forall more :: CarefulRun(s, more) ==> RisingRun(s, more)
  }

  // ---- careful steps are safe ----------------------------------------------------------------

  lemma CarefulKeepsInv(s: State, a: Step)
    requires Inv(s) && !s.gap && Careful(s, a)
    ensures Inv(Do(s, a)) && !Do(s, a).gap
  {
    StepKeepsInv(s, a);
    GapOnlyByLoss(s, a);
  }

  lemma GapOnlyByLoss(s: State, a: Step)
    ensures Do(s, a).gap <==> s.gap || (a.Lose? && KeyAhead(s))
  {
    if a.Advance? && a.p in s.senders {
      AdvanceKeepsGap(s, a.p);
    }
    hide AdvanceSender, Floor;
  }

  lemma AdvanceKeepsGap(s: State, p: nat)
    requires p in s.senders
    ensures AdvanceSender(s, p).gap == s.gap
  {
    hide MaxOf, Max;
  }

  lemma InvRises(s: State, a: Step)
    requires Inv(s) && !s.gap
    ensures RisingStep(s, a)
  {
    if Issues(s, a) {
      IssuesByAdvance(s, a);
      IssuesAboveBound(s, a.p);
      FreshExactlyAboveBound(s, Latest(Do(s, a)));
    }
  }

  lemma IssuesByAdvance(s: State, a: Step)
    requires Issues(s, a)
    ensures a.Advance? && a.p in s.senders && Do(s, a) == AdvanceSender(s, a.p)
  {
  }

  lemma {:induction false} CarefulRunRises(s: State, more: seq<Step>)
    requires Inv(s) && !s.gap && CarefulRun(s, more)
    ensures RisingRun(s, more)
    decreases |more|
  {
    hide Do, Inv, RisingStep, Careful;
    if more != [] {
      InvRises(s, more[0]);
      CarefulKeepsInv(s, more[0]);
      CarefulRunRises(Do(s, more[0]), more[1..]);
    }
  }

  lemma InvIsSafe(s: State)
    requires Inv(s) && !s.gap
    ensures RisesFrom(s)
  {
    forall more | CarefulRun(s, more)
      ensures RisingRun(s, more)
    {
      CarefulRunRises(s, more);
    }
  }

  // ---- from a bad end back to the start ------------------------------------------------------

  lemma StepBack(s: State, a: Step)
    requires Careful(s, a) && (!RisingStep(s, a) || !RisesFrom(Do(s, a)))
    ensures !RisesFrom(s)
  {
    hide Careful, RisingStep, Do;
    var more := if RisingStep(s, a) then BadRun(Do(s, a)) else [];
    assert ([a] + more)[1..] == more;
    assert CarefulRun(s, [a] + more) && !RisingRun(s, [a] + more);
  }

  ghost function BadRun(s: State): (more: seq<Step>)
    requires !RisesFrom(s)
    ensures CarefulRun(s, more) && !RisingRun(s, more)
  {
    var more :| CarefulRun(s, more) && !RisingRun(s, more);
    more
  }

  lemma {:induction false} RunBack(s: State, steps: seq<Step>)
    requires (forall a | a in steps :: Calm(a)) && !RisesFrom(Exec(s, steps))
    ensures !RisesFrom(s)
    decreases |steps|
  {
    hide Do, RisesFrom;
    if steps != [] {
      RunBack(Do(s, steps[0]), steps[1..]);
      CalmIsCareful(s, steps[0]);
      StepBack(s, steps[0]);
    }
  }

  lemma CalmIsCareful(s: State, a: Step)
    requires Calm(a)
    ensures Careful(s, a)
  {
  }

  // ---- numbers that do not rise --------------------------------------------------------------

  lemma RisesAboveFloor(s: State, q: nat)
    requires Rises(s, q) && q > 0
    ensures Floor(s) < q
  {
  }

  /** The next call of sender p hands out q, which does not rise. */
  lemma BadNumber(s: State, p: nat, q: nat)
    requires p in s.senders && AdvanceSender(s, p).issued == s.issued + [q] && !Rises(s, q)
    ensures !RisesFrom(s)
  {
    hide AdvanceSender, Rises, RisesFrom;
    CalmIsCareful(s, Advance(p));
    StepBack(s, Advance(p));
  }

  lemma StaleFloor(s: State, p: nat, f: nat)
    requires s.redisUp && s.key.None? && p in s.senders && s.senders[p] == FloorRead(f) && !Rises(s, f + 1)
    ensures !RisesFrom(s)
  {
    hide Rises, RisesFrom;
    SeqProtocol.SeedIssues(s, p, f);
    BadNumber(s, p, f + 1);
  }

  lemma FloorBelow(s: State, p: nat, f: nat)
    requires s.redisUp && s.key.None? && p in s.senders && s.senders[p] == FloorRead(f) && f < Floor(s)
    ensures !RisesFrom(s)
  {
    hide RisesFrom;
    if Rises(s, f + 1) {
      RisesAboveFloor(s, f + 1);
    }
    StaleFloor(s, p, f);
  }

  lemma StaleCounter(s: State, p: nat, c: nat)
    requires s.redisUp && s.key.None? && p in s.senders && s.senders[p] == CounterRead(c)
    requires Max(c, MaxOf(s.messages)) < Floor(s)
    ensures !RisesFrom(s)
  {
    hide RisesFrom, MaxOf;
    var t := Move(s, p, FloorRead(Max(c, MaxOf(s.messages))));
    assert AdvanceSender(s, p) == t && Floor(t) == Floor(s);
    FloorBelow(t, p, Max(c, MaxOf(s.messages)));
    CalmIsCareful(s, Advance(p));
    StepBack(s, Advance(p));
  }

  lemma StaleRace(s: State, p: nat)
    requires s.redisUp && s.key.None? && p in s.senders && s.senders[p] == LostRace
    requires s.issued != [] && Latest(s) > 0
    ensures !RisesFrom(s)
  {
    hide RisesFrom;
    assert s.issued[|s.issued| - 1] >= 1;
    BadNumber(s, p, 1);
  }

  /** A cold start hands out one more than the floor. */
  lemma ColdStartLow(s: State)
    requires s.redisUp && s.key.None? && !Rises(s, Floor(s) + 1)
    ensures !RisesFrom(s)
  {
    hide RisesFrom, Exec, Floor, Advances;
    var q := UnusedNat(s.senders.Keys);
    var t := Move(s, q, FloorRead(Floor(s)));
    ReadsFloor(s, q);
    NotHeldEither(s, t, q, Floor(s) + 1);
    StaleFloor(t, q, Floor(s));
    AdvancesCalm(q, 3);
    RunBack(s, [Begin(q)] + Advances(q, 3));
  }

  lemma NotHeldEither(s: State, t: State, p: nat, n: nat)
    requires !Rises(s, n) && p !in s.senders && p in t.senders && t == Move(s, p, t.senders[p])
    ensures !Rises(t, n)
  {
    assert forall r, h: nat | r in s.senders && Holds(s.senders[r], h) :: r in t.senders && Holds(t.senders[r], h);
  }

  /** Redis is back while a fallback knows the floor: a cold start and the fallback both take the next. */
  lemma FallbackDoubles(s: State, p: nat, f: nat)
    requires s.redisUp && s.key.None? && p in s.senders && s.senders[p] == DurableFloorRead(f)
    requires Max(s.counter, f) == Floor(s)
    ensures !RisesFrom(s)
  {
    var q := UnusedNat(s.senders.Keys);
    var n := Floor(s) + 1;
    var t := Move(Issue(s.(key := Some(n)), n), q, Seeded(n));
    ColdStartIssues(s, q);
    assert t.issued[|t.issued| - 1] == n;
    assert AdvanceSender(t, p).issued == t.issued + [n];
    hide Exec, Floor, RisesFrom, AdvanceSender;
    BadNumber(t, p, n);
    AdvancesCalm(q, 4);
    RunBack(s, ColdStart(q));
  }

  lemma FallbackReaderDoubles(s: State, p: nat, c: nat)
    requires s.redisUp && s.key.None? && p in s.senders && s.senders[p] == DurableCounterRead(c) && c <= s.counter
    ensures !RisesFrom(s)
  {
    hide RisesFrom, MaxOf;
    var f := Max(c, MaxOf(s.messages));
    var t := Move(s, p, DurableFloorRead(f));
    assert AdvanceSender(s, p) == t && Max(t.counter, f) == Floor(t);
    FallbackDoubles(t, p, f);
    CalmIsCareful(s, Advance(p));
    StepBack(s, Advance(p));
  }

  lemma FallbackStarterDoubles(s: State, p: nat)
    requires s.redisUp && s.key.None? && p in s.senders && s.senders[p] == Durable
    ensures !RisesFrom(s)
  {
    hide RisesFrom;
    var t := Move(s, p, DurableCounterRead(s.counter));
    assert AdvanceSender(s, p) == t;
    FallbackReaderDoubles(t, p, s.counter);
    CalmIsCareful(s, Advance(p));
    StepBack(s, Advance(p));
  }

  // ---- careless steps are not ----------------------------------------------------------------

  /** Without a key but with Redis up, a sender that is not current can spoil the numbers. */
  lemma NotCurrent(s: State, p: nat)
    requires s.redisUp && s.key.None? && p in s.senders && !PhaseCurrent(s, s.senders[p])
    requires match s.senders[p]
             case CounterRead(c) => c <= s.counter
             case FloorRead(f) => f <= Floor(s)
             case LostRace => s.issued != [] && Latest(s) > 0
             case DurableCounterRead(c) => c <= s.counter
             case DurableFloorRead(f) => Max(s.counter, f) == Floor(s)
             case ph => ph.Durable?
    ensures !RisesFrom(s)
  {
    hide RisesFrom, MaxOf;
    match s.senders[p]
    case CounterRead(c) => StaleCounter(s, p, c);
    case FloorRead(f) => FloorBelow(s, p, f);
    case LostRace => StaleRace(s, p);
    case Durable => FallbackStarterDoubles(s, p);
    case DurableCounterRead(c) => FallbackReaderDoubles(s, p, c);
    case DurableFloorRead(f) => FallbackDoubles(s, p, f);
  }

  lemma CarelessLoss(s: State)
    requires Inv(s) && !Careful(s, Lose)
    ensures !RisesFrom(Do(s, Lose))
  {
    hide MaxOf, RisesFrom;
    var t := Do(s, Lose);
    assert s.key.Some? && s.redisUp;
    assert t.issued[|t.issued| - 1] == s.key.value > 0;
    if KeyAhead(s) {
      assert !Rises(t, Floor(t) + 1);
      ColdStartLow(t);
    } else {
      var p :| p in s.senders && !PhaseCurrent(s, s.senders[p]);
      assert PhaseOk(s, s.senders[p]);
      NotCurrent(t, p);
    }
  }

  lemma CarelessRestart(s: State)
    requires Inv(s) && !Careful(s, ComeUp)
    ensures !RisesFrom(Do(s, ComeUp))
  {
    hide MaxOf, RisesFrom;
    var p :| p in s.senders && !PhaseCurrent(s, s.senders[p]);
    assert PhaseOk(s, s.senders[p]);
    NotCurrent(Do(s, ComeUp), p);
  }

  lemma CarelessRead(s: State, p: nat)
    requires Inv(s) && !Careful(s, FailRead(p))
    ensures !RisesFrom(Do(s, FailRead(p)))
  {
    hide MaxOf, RisesFrom;
    var t := Do(s, FailRead(p));
    assert PhaseOk(s, s.senders[p]);
    if t.senders[p].FloorRead? {
      FloorBelow(t, p, 0);
    } else {
      var q := t.counter + 1;
      if Rises(t, q) {
        RisesAboveFloor(t, q);
      }
      BadNumber(t, p, q);
    }
  }

  // ---- an outage that keeps the key ----------------------------------------------------------

  function InFlight(s: State): set<nat> {
    set p | p in s.senders && !Over(s.senders[p])
  }

  /** Everybody may quit. */
  lemma {:induction false} QuitAll(s: State)
    requires forall t: State :: Quiescent(t) && t == s.(senders := t.senders) ==> !RisesFrom(t)
    ensures !RisesFrom(s)
    decreases |InFlight(s)|
  {
    if InFlight(s) == {} {
      assert Quiescent(s) by {
        assert forall p | p in s.senders && !Over(s.senders[p]) :: p in InFlight(s);
      }
      assert s == s.(senders := s.senders);
    } else {
      var p :| p in InFlight(s);
      var u := Do(s, Quit(p));
      assert InFlight(u) == InFlight(s) - {p};
      QuitAll(u);
      CalmIsCareful(s, Quit(p));
      StepBack(s, Quit(p));
    }
  }

  /** A fallback and, after the restart, the kept key hand out the same number. */
  lemma KeptKeyDoubles(s: State)
    requires !s.redisUp && s.key.Some? && Quiescent(s) && s.issued != [] && Latest(s) == s.key.value >= Floor(s)
    ensures !RisesFrom(s)
  {
    var p := UnusedNat(s.senders.Keys);
    var n := Floor(s) + 1;
    FallbackSendStores(s, p);
    var t := Move(Issue(s.(counter := n, messages := s.messages + [n]), n), p, Finished);
    AdvancesCalm(p, 5);
    if s.key.value >= n {
      var u := Move(s, p, DurableFloorRead(Floor(s)));
      FreshFallbackIssues(s, p);
      assert u.issued[|u.issued| - 1] >= n;
      hide Exec, Floor, RisesFrom, AdvanceSender;
      BadNumber(u, p, n);
      FallbackPauses(s, p, []);
      ExecNone(u);
      AdvancesCalm(p, 3);
      RunBack(s, [Begin(p)] + (Advances(p, 3) + []));
    } else {
      assert Quiescent(t);
      KeyIsTaken(t.(redisUp := true), s.key.value);
      hide Exec, Floor, RisesFrom, AdvanceSender;
      QuietRestart(t);
      StepBack(t, ComeUp);
      RunBack(s, FallbackSend(p));
    }
  }

  lemma QuietRestart(s: State)
    requires Quiescent(s)
    ensures Careful(s, ComeUp) && Do(s, ComeUp) == s.(redisUp := true)
  {
  }

  lemma KeyIsTaken(s: State, v: nat)
    requires s.redisUp && s.key == Some(v) && v + 1 in s.messages
    ensures !RisesFrom(s)
  {
    hide RisesFrom, MaxOf;
    var q := UnusedNat(s.senders.Keys);
    var t := Move(s, q, Ready);
    BadNumber(t, q, v + 1);
    CalmIsCareful(s, Begin(q));
    StepBack(s, Begin(q));
  }

  lemma CarelessOutage(s: State)
    requires Inv(s) && !Careful(s, GoDown)
    ensures !RisesFrom(Do(s, GoDown))
  {
    hide MaxOf, RisesFrom;
    var u := Do(s, GoDown);
    forall t: State | Quiescent(t) && t == u.(senders := t.senders)
      ensures !RisesFrom(t)
    {
      KeptKeyDoubles(t);
    }
    QuitAll(u);
  }

  // ---- exactly -------------------------------------------------------------------------------

  /** From a state of the invariant, numbers keep rising after a step exactly when it is careful. */
  lemma StepRisesExactly(s: State, a: Step)
    requires Inv(s) && !s.gap
    ensures RisesFrom(Do(s, a)) <==> Careful(s, a)
  {
    hide Do, Inv, RisesFrom;
    if Careful(s, a) {
      CarefulKeepsInv(s, a);
      InvIsSafe(Do(s, a));
    } else {
      match a
      case FailRead(p) => CarelessRead(s, p);
      case Lose => CarelessLoss(s);
      case GoDown => CarelessOutage(s);
      case ComeUp => CarelessRestart(s);
    }
  }

  /**
   * Over whole runs: numbers keep rising from every point of a run, however it goes on with careful
   * steps, if and only if all of its own steps are careful.
   */
  lemma RisesExactlyWhenCareful(s0: State, steps: seq<Step>)
    requires Initial(s0)
    ensures CarefulRun(s0, steps) <==> forall n | 0 <= n <= |steps| :: RisesFrom(Exec(s0, steps[..n]))
  {
    InitialInv(s0);
    RunRisesExactly(s0, steps);
  }

  lemma {:induction false} RunRisesExactly(s: State, steps: seq<Step>)
    requires Inv(s) && !s.gap
    ensures CarefulRun(s, steps) <==> forall n | 0 <= n <= |steps| :: RisesFrom(Exec(s, steps[..n]))
    decreases |steps|
  {
    hide Do, Inv, RisesFrom, Careful;
    InvIsSafe(s);
    assert Exec(s, steps[..0]) == s;
    if steps != [] {
      var a, rest := steps[0], steps[1..];
      forall n | 1 <= n <= |steps|
        ensures Exec(s, steps[..n]) == Exec(Do(s, a), rest[..n - 1])
      {
        assert steps[..n][1..] == rest[..n - 1];
      }
      StepRisesExactly(s, a);
      assert rest[..0] == [] && Exec(Do(s, a), rest[..0]) == Do(s, a);
      if Careful(s, a) {
        CarefulKeepsInv(s, a);
        RunRisesExactly(Do(s, a), rest);
        SplitFirst(s, steps);
      } else {
        assert !RisesFrom(Exec(s, steps[..1]));
      }
    }
  }

  lemma SplitFirst(s: State, steps: seq<Step>)
    requires steps != [] && RisesFrom(s)
    ensures (forall n | 0 <= n <= |steps| :: RisesFrom(Exec(s, steps[..n]))) <==>
            (forall n | 0 <= n <= |steps| - 1 :: RisesFrom(Exec(Do(s, steps[0]), steps[1..][..n])))
  {
    hide Do, RisesFrom;
    forall n: nat | n < |steps|
      ensures Exec(s, steps[..n + 1]) == Exec(Do(s, steps[0]), steps[1..][..n])
    {
      assert steps[..n + 1][1..] == steps[1..][..n];
    }
    assert Exec(s, steps[..0]) == s;
    if forall n | 0 <= n <= |steps| :: RisesFrom(Exec(s, steps[..n])) {
      forall n | 0 <= n <= |steps| - 1
        ensures RisesFrom(Exec(Do(s, steps[0]), steps[1..][..n]))
      {
        assert RisesFrom(Exec(s, steps[..n + 1]));
      }
    }
    if forall n | 0 <= n <= |steps| - 1 :: RisesFrom(Exec(Do(s, steps[0]), steps[1..][..n])) {
      forall n | 0 <= n <= |steps|
        ensures RisesFrom(Exec(s, steps[..n]))
      {
        if n > 0 {
          assert RisesFrom(Exec(Do(s, steps[0]), steps[1..][..n - 1]));
        }
      }
    }
  }

  // ---- the conditions, one by one --------------------------------------------------------------

  /** Losing a key: exactly when it is not above the durable floor and every sender is current. */
  lemma LossIsSafeExactly(s0: State, steps: seq<Step>)
    requires Initial(s0) && TameRun(s0, steps)
    requires !Exec(s0, steps).gap && Exec(s0, steps).key.Some?
    ensures var s := Exec(s0, steps);
            RisesFrom(Do(s, Lose)) <==> s.key.value <= Floor(s) && Current(s)
  {
    InitialInv(s0);
    RunKeepsInv(s0, steps);
    StepRisesExactly(Exec(s0, steps), Lose);
  }

  /** Redis answering again: exactly when every sender is current, so that none is on the fallback. */
  lemma RestartIsSafeExactly(s0: State, steps: seq<Step>)
    requires Initial(s0) && TameRun(s0, steps)
    requires !Exec(s0, steps).gap && !Exec(s0, steps).redisUp
    ensures var s := Exec(s0, steps);
            RisesFrom(Do(s, ComeUp)) <==> Current(s)
  {
    InitialInv(s0);
    RunKeepsInv(s0, steps);
    StepRisesExactly(Exec(s0, steps), ComeUp);
  }

  /** Redis stopping: exactly when it has no key. */
  lemma OutageIsSafeExactly(s0: State, steps: seq<Step>)
    requires Initial(s0) && TameRun(s0, steps) && !Exec(s0, steps).gap
    ensures var s := Exec(s0, steps);
            RisesFrom(Do(s, GoDown)) <==> s.key.None?
  {
    InitialInv(s0);
    RunKeepsInv(s0, steps);
    StepRisesExactly(Exec(s0, steps), GoDown);
  }

  /**
   * A failed read of the floor: on the cold-start path exactly when Redis is down, has a key, or nothing
   * is stored or counted; on the fallback path exactly when the counter has kept up with the messages.
   */
  lemma FailedReadIsSafeExactly(s0: State, steps: seq<Step>, p: nat)
    requires Initial(s0) && TameRun(s0, steps) && !Exec(s0, steps).gap && p in Exec(s0, steps).senders
    ensures var s := Exec(s0, steps);
            var ph := s.senders[p];
            && (ph.Cold? || ph.CounterRead? ==>
                 (RisesFrom(Do(s, FailRead(p))) <==> !s.redisUp || s.key.Some? || Floor(s) == 0))
            && (ph.Durable? || ph.DurableCounterRead? ==>
                 (RisesFrom(Do(s, FailRead(p))) <==> MaxOf(s.messages) <= s.counter))
  {
    InitialInv(s0);
    RunKeepsInv(s0, steps);
    StepRisesExactly(Exec(s0, steps), FailRead(p));
  }

  // ---- a failed read, when its number is handed out --------------------------------------------

  /** The step is not a call of sender p. */
  predicate ByOthers(a: Step, p: nat) {
    a.Lose? || a.GoDown? || a.ComeUp? || a.p != p
  }

  function Leave(s: State, p: nat): State {
    Move(s, p, Finished)
  }

  lemma SamePhase(senders: map<nat, Phase>, r: nat)
    requires r in senders
    ensures senders == senders[r := senders[r]]
  {
  }

  lemma OtherWayRound(senders: map<nat, Phase>, r: nat, ph: Phase, p: nat)
    requires r != p
    ensures senders[r := ph][p := Finished] == senders[p := Finished][r := ph]
  {
  }

  /** A call of sender r depends on no other sender, and changes none. */
  lemma CallIsLocal(s: State, t: State, r: nat)
    requires r in s.senders && r in t.senders && s.senders[r] == t.senders[r] && t == s.(senders := t.senders)
    ensures var a, b := AdvanceSender(s, r), AdvanceSender(t, r);
            && r in a.senders && a.senders == s.senders[r := a.senders[r]]
            && b.senders == t.senders[r := a.senders[r]] && b == a.(senders := b.senders)
  {
    hide MaxOf, Max;
    SamePhase(s.senders, r);
    SamePhase(t.senders, r);
    match s.senders[r]
    case Ready =>
    case Cold =>
    case CounterRead(_) =>
    case FloorRead(_) =>
    case LostRace =>
    case Seeded(_) =>
    case Durable =>
    case DurableCounterRead(_) =>
    case DurableFloorRead(_) =>
    case Holding(_) =>
    case Exhausted =>
    case Finished =>
  }

  /** The others do not notice sender p. */
  lemma OthersDoTheSame(s: State, a: Step, p: nat)
    requires p in s.senders && ByOthers(a, p)
    ensures Leave(Do(s, a), p) == Do(Leave(s, p), a)
    ensures p in Do(s, a).senders && Do(s, a).senders[p] == s.senders[p]
  {
    hide AdvanceSender, MaxOf, Max;
    if a.Advance? && a.p in s.senders {
      var r := a.p;
      CallIsLocal(s, Leave(s, p), r);
      OtherWayRound(s.senders, r, AdvanceSender(s, r).senders[r], p);
    } else if a.Begin? {
      OtherWayRound(s.senders, a.p, Ready, p);
    } else if a.Quit? {
      OtherWayRound(s.senders, a.p, Finished, p);
    } else if a.FailRead? {
      OtherWayRound(s.senders, a.p, FloorRead(0), p);
      OtherWayRound(s.senders, a.p, DurableFloorRead(0), p);
    } else if a.SkipPersist? && a.p in s.senders && s.senders[a.p].Seeded? {
      OtherWayRound(s.senders, a.p, Holding(s.senders[a.p].taken), p);
    }
  }

  lemma {:induction false} OthersKeepInv(s: State, more: seq<Step>, p: nat)
    requires p in s.senders && Inv(Leave(s, p)) && TameRun(Leave(s, p), more)
    requires forall a | a in more :: ByOthers(a, p)
    ensures var t := Exec(s, more);
            p in t.senders && t.senders[p] == s.senders[p] && Inv(Leave(t, p))
    decreases |more|
  {
    hide Do, Inv, Leave;
    if more != [] {
      OthersDoTheSame(s, more[0], p);
      StepKeepsInv(Leave(s, p), more[0]);
      OthersKeepInv(Do(s, more[0]), more[1..], p);
    }
  }

  /**
   * After a failed read of sender p, whatever the others do in between: the number p is handed out when
   * it gets there is fresh exactly when nothing is stored or counted, on the cold-start path, and when
   * the counter is as far as the key, or without one as the messages, on the fallback path.
   */
  lemma BlindNumberIsFreshExactly(s0: State, steps: seq<Step>, p: nat, more: seq<Step>)
    requires Initial(s0) && TameRun(s0, steps) && p in Exec(s0, steps).senders
    requires var ph := Exec(s0, steps).senders[p];
             ph.Cold? || ph.CounterRead? || ph.Durable? || ph.DurableCounterRead?
    requires (forall a | a in more :: ByOthers(a, p)) && TameRun(Leave(Exec(s0, steps), p), more)
    ensures var t := Exec(Do(Exec(s0, steps), FailRead(p)), more);
            Issues(t, Advance(p)) ==>
              var t' := Do(t, Advance(p));
              t'.issued != [] &&
              (Fresh(t, Latest(t')) <==>
               if t.senders[p].FloorRead? then Floor(t) == 0
               else (if t.key.Some? then t.key.value else MaxOf(t.messages)) <= t.counter)
  {
    InitialInv(s0);
    RunKeepsInv(s0, steps);
    var s := Exec(s0, steps);
    var u := Do(s, FailRead(p));
    LeftIsSame(s, u, p);
    hide Exec, Leave, Inv, Fresh;
    OthersKeepInv(u, more, p);
    var t := Exec(u, more);
    if Issues(t, Advance(p)) {
      BlindNumber(t, p);
    }
  }

  lemma LeftIsSame(s: State, u: State, p: nat)
    requires Inv(s) && p in s.senders && u == Do(s, FailRead(p))
    requires var ph := s.senders[p];
             ph.Cold? || ph.CounterRead? || ph.Durable? || ph.DurableCounterRead?
    ensures p in u.senders && (u.senders[p] == FloorRead(0) || u.senders[p] == DurableFloorRead(0))
    ensures Leave(u, p) == Leave(s, p) && Inv(Leave(s, p))
  {
    MoveTwice(s, p, u.senders[p], Finished);
    MoveKeepsInv(s, p, Finished);
  }

  lemma BlindNumber(t: State, p: nat)
    requires p in t.senders && (t.senders[p] == FloorRead(0) || t.senders[p] == DurableFloorRead(0))
    requires Inv(Leave(t, p)) && Issues(t, Advance(p))
    ensures var t' := Do(t, Advance(p));
            t'.issued != [] &&
            (Fresh(t, Latest(t')) <==>
             if t.senders[p].FloorRead? then Floor(t) == 0
             else (if t.key.Some? then t.key.value else MaxOf(t.messages)) <= t.counter)
  {
    var q := if t.senders[p].FloorRead? then 1 else t.counter + 1;
    assert Do(t, Advance(p)).issued == t.issued + [q];
    FreshExactlyAboveBound(Leave(t, p), q);
    FreshWithout(t, p, q);
    hide MaxOf, Do, Inv;
  }

  lemma FreshWithout(t: State, p: nat, q: nat)
    requires p in t.senders && (t.senders[p].FloorRead? || t.senders[p].DurableFloorRead?)
    ensures Fresh(t, q) <==> Fresh(Leave(t, p), q)
  {
    hide MaxOf;
    assert forall r, h: nat | r in t.senders :: Holds(t.senders[r], h) <==> Holds(Leave(t, p).senders[r], h);
  }
}
