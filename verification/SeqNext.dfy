/** What an uninterrupted call of next(), and an uninterrupted send, do: they always get a number. */
module SeqNext {
  import opened Wrappers
  import opened SeqProtocol
  import opened SeqLimits

  /** Calls that the rest of next() takes at most. */
  function CallsLeft(ph: Phase): nat {
    match ph
    case Ready => 7
    case Cold => 6
    case CounterRead(_) => 5
    case FloorRead(_) => 4
    case LostRace => 1
    case Durable => 3
    case DurableCounterRead(_) => 2
    case DurableFloorRead(_) => 1
    case _ => 0
  }

  /**
   * Sender p has been handed the number after the key, or without a key the one after the durable floor.
   * Redis, when up, has it as its key; the counter document has it unless it came from a warm key.
   */
  ghost function HandedOut(s: State, p: nat): State {
    var q := Bound(s) + 1;
    Move(Issue(s.(key := if s.redisUp then Some(q) else s.key,
                  counter := if s.redisUp && s.key.Some? then s.counter else q), q), p, Holding(q))
  }

  /** Whoever lost the race for the key gets the number after it. */
  lemma RaceLoserGetsNext(s: State, p: nat)
    requires Inv(s) && p in s.senders && s.senders[p] == LostRace
    ensures s.redisUp && s.key.Some? &&
            AdvanceSender(s, p) ==
            Move(Issue(s.(key := Some(s.key.value + 1)), s.key.value + 1), p, Holding(s.key.value + 1))
  {
    assert PhaseOk(s, s.senders[p]);
  }

  lemma MovedSame(s: State, p: nat, ph: Phase)
    ensures HandedOut(Move(s, p, ph), p) == HandedOut(s, p)
  {
    hide MaxOf;
    var q := Bound(s) + 1;
    assert Bound(Move(s, p, ph)) == Bound(s);
    MoveTwice(HandedOut(s, p), p, ph, Holding(q));
    assert s.senders[p := ph][p := Holding(q)] == s.senders[p := Holding(q)];
  }

  /** A call that only reads, and the rest. */
  lemma ReadThen(s: State, p: nat, ph: Phase, n: nat)
    requires p in s.senders && AdvanceSender(s, p) == Move(s, p, ph)
    requires Exec(Move(s, p, ph), Advances(p, n)) == HandedOut(Move(s, p, ph), p)
    ensures Exec(s, Advances(p, n + 1)) == HandedOut(s, p)
  {
    hide Exec, AdvanceSender, HandedOut, Advances;
    ExecAdvances(s, p, n + 1);
    MovedSame(s, p, ph);
  }

  lemma {:induction false} NextHandsOut(s: State, p: nat) returns (n: nat)
    requires Inv(s) && p in s.senders && CallsLeft(s.senders[p]) > 0
    ensures 0 < n <= CallsLeft(s.senders[p])
    ensures Exec(s, Advances(p, n)) == HandedOut(s, p)
    decreases CallsLeft(s.senders[p])
  {
    var ph := s.senders[p];
    assert PhaseOk(s, ph);
    match ph
    case Ready =>
      if s.redisUp && s.key.Some? {
        n := LastCall(s, p);
      } else {
        n := ReadsOn(s, p, if s.redisUp then Cold else Durable);
      }
    case Cold => n := ReadsOn(s, p, CounterRead(s.counter));
    case CounterRead(c) => n := ReadsOn(s, p, FloorRead(Max(c, MaxOf(s.messages))));
    case FloorRead(f) =>
      if !s.redisUp {
        n := ReadsOn(s, p, Durable);
      } else if s.key.Some? {
        n := ReadsOn(s, p, LostRace);
      } else {
        n := 2;
        SeedsAndPersists(s, p, f);
      }
    case LostRace => n := LastCall(s, p);
    case Durable => n := ReadsOn(s, p, DurableCounterRead(s.counter));
    case DurableCounterRead(c) => n := ReadsOn(s, p, DurableFloorRead(Max(c, MaxOf(s.messages))));
    case DurableFloorRead(f) => n := LastCall(s, p);
  }

  lemma {:induction false} ReadsOn(s: State, p: nat, ph: Phase) returns (n: nat)
    requires Inv(s) && p in s.senders && AdvanceSender(s, p) == Move(s, p, ph)
    requires 0 < CallsLeft(ph) < CallsLeft(s.senders[p]) && PhaseOk(s, ph)
    ensures 0 < n <= CallsLeft(s.senders[p])
    ensures Exec(s, Advances(p, n)) == HandedOut(s, p)
    decreases CallsLeft(s.senders[p]), 0
  {
    MoveKeepsInv(s, p, ph);
    hide Exec, AdvanceSender, HandedOut, Advances, Inv, PhaseOk;
    n := NextHandsOut(Move(s, p, ph), p);
    ReadThen(s, p, ph, n);
    n := n + 1;
  }

  /** The call that hands the number out. */
  lemma LastCall(s: State, p: nat) returns (n: nat)
    requires Inv(s) && p in s.senders
    requires match s.senders[p]
             case Ready => s.redisUp && s.key.Some?
             case ph => ph.LostRace? || ph.DurableFloorRead?
    ensures n == 1 && Exec(s, Advances(p, 1)) == HandedOut(s, p)
  {
    n := 1;
    assert PhaseOk(s, s.senders[p]);
    if s.senders[p].DurableFloorRead? {
      ReadKnowsFloor(s, p, s.senders[p].floor);
      FallbackIssues(s, p, s.senders[p].floor);
    }
    hide Exec, Advances, Max, MaxOf, Floor, Inv, PhaseOk;
    ExecAdvances(s, p, 1);
  }

  lemma SeedsAndPersists(s: State, p: nat, f: nat)
    requires Inv(s) && p in s.senders && s.senders[p] == FloorRead(f) && s.redisUp && s.key.None?
    ensures Exec(s, Advances(p, 2)) == HandedOut(s, p)
  {
    SeedIsAbove(s, p, f);
    SeqProtocol.SeedIssues(s, p, f);
    var q := f + 1;
    var t := Move(Issue(s.(key := Some(q)), q), p, Seeded(q));
    CounterBelow(s);
    assert AdvanceSender(t, p) == Move(t.(counter := q), p, Holding(q));
    hide Exec, Advances, MaxOf, AdvanceSender, Bound;
    ExecAdvances(s, p, 2);
    ExecAdvances(t, p, 1);
    MoveTwice(Issue(s.(key := Some(q), counter := q), q), p, Seeded(q), Holding(q));
  }

  lemma CounterBelow(s: State)
    ensures s.key.None? ==> s.counter <= Bound(s)
  {
    hide MaxOf;
  }

  /**
   * From every state a tame run reaches: a sender left to itself in the middle of next(), or before it,
   * is handed the next number within seven calls, and one more call stores its message.
   */
  lemma NextAlwaysHandsOut(s0: State, steps: seq<Step>, p: nat) returns (n: nat)
    requires Initial(s0) && TameRun(s0, steps)
    requires p in Exec(s0, steps).senders && CallsLeft(Exec(s0, steps).senders[p]) > 0
    ensures var s := Exec(s0, steps);
            var q, t := Bound(s) + 1, HandedOut(s, p);
            && 0 < n <= CallsLeft(s.senders[p]) && Exec(s, Advances(p, n)) == t
            && Exec(t, Advances(p, 1)) == Move(t.(messages := s.messages + [q]), p, Finished)
  {
    InitialInv(s0);
    RunKeepsInv(s0, steps);
    var s := Exec(s0, steps);
    hide Exec, Advances, MaxOf;
    n := NextHandsOut(s, p);
    AboveBoundIsUnstored(s, Bound(s) + 1);
    var t := HandedOut(s, p);
    ExecAdvances(t, p, 1);
    Inserts(t, p, Bound(s) + 1);
  }
}
