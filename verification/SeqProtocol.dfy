/**
 * Per-conversation sequence numbers: any number of senders interleave single Redis and Mongo calls
 * on a volatile counter, a durable counter and the stored messages of one conversation.
 */
module SeqProtocol {
  import opened Wrappers

  const MAX_SEQ_ATTEMPTS: nat := 3

  /** Where one send stands: which call it makes next. */
  datatype Phase =
    | Ready                         // EXISTS + INCR, one script
    | Cold                          // read the counter document
    | CounterRead(counter: nat)     // read the last message
    | FloorRead(floor: nat)         // SET NX
    | LostRace                      // INCR
    | Seeded(taken: nat)            // $max on the counter document
    | Durable                       // fallback: read the counter document
    | DurableCounterRead(counter: nat)
    | DurableFloorRead(floor: nat)  // raise to the floor and increment, one update
    | Holding(taken: nat)           // insert the message
    | Exhausted                     // threw after its last attempt collided
    | Finished

  /**
   * `collisions` counts a sender's refused inserts. `issued` lists every number handed out; those from
   * `epoch` on were handed out since Redis last lost the key. `gap` records a loss of a key that was
   * above everything durable.
   */
  datatype State = State(
    redisUp: bool,
    key: Option<nat>,
    counter: nat,
    messages: seq<nat>,
    senders: map<nat, Phase>,
    collisions: map<nat, nat>,
    issued: seq<nat>,
    epoch: nat,
    gap: bool)

  datatype Step =
    | Begin(p: nat)
    | Advance(p: nat)
    | SkipPersist(p: nat)   // the best-effort $max failed
    | FailRead(p: nat)      // a read of the durable floor failed, which counts as zero
    | Quit(p: nat)          // crash, error, or duplicate client message id
    | Lose                  // Redis loses the key
    | GoDown                // Redis stops answering; the key stays
    | ComeUp

  function Max(a: nat, b: nat): nat {
    if a < b then b else a
  }

  function MaxOf(ms: seq<nat>): (m: nat)
    ensures forall x | x in ms :: x <= m
    ensures ms != [] ==> m in ms
  {
    if ms == [] then 0
    else
      assert ms == ms[..|ms| - 1] + [ms[|ms| - 1]];
      Max(MaxOf(ms[..|ms| - 1]), ms[|ms| - 1])
  }

  /** The durable floor: max(counters.seq, max(messages.seq)). */
  function Floor(s: State): nat {
    Max(s.counter, MaxOf(s.messages))
  }

  predicate Over(ph: Phase) {
    ph.Finished? || ph.Exhausted?
  }

  predicate Quiescent(s: State) {
    forall p | p in s.senders :: Over(s.senders[p])
  }

  /** The key is above everything durable, so losing it loses numbers. */
  predicate KeyAhead(s: State) {
    s.key.Some? && s.key.value > Floor(s)
  }

  function CollisionsOf(s: State, p: nat): nat {
    if p in s.collisions then s.collisions[p] else 0
  }

  function Move(s: State, p: nat, phase: Phase): State {
    s.(senders := s.senders[p := phase])
  }

  function Issue(s: State, q: nat): State {
    s.(issued := s.issued + [q])
  }

  /** The next call of sender p. */
  function AdvanceSender(s: State, p: nat): State
    requires p in s.senders
  {
    match s.senders[p]
    case Ready =>
      if !s.redisUp then Move(s, p, Durable)
      else if s.key.Some? then
        Move(Issue(s.(key := Some(s.key.value + 1)), s.key.value + 1), p, Holding(s.key.value + 1))
      else Move(s, p, Cold)
    case Cold => Move(s, p, CounterRead(s.counter))
    case CounterRead(c) => Move(s, p, FloorRead(Max(c, MaxOf(s.messages))))
    case FloorRead(f) =>
      if !s.redisUp then Move(s, p, Durable)
      else if s.key.Some? then Move(s, p, LostRace)
      else Move(Issue(s.(key := Some(f + 1)), f + 1), p, Seeded(f + 1))
    case LostRace =>
      // This call is returned, not awaited, so its failure is not caught. INCR of a missing key yields 1.
      if !s.redisUp then Move(s, p, Finished)
      else
        var q := if s.key.Some? then s.key.value + 1 else 1;
        Move(Issue(s.(key := Some(q)), q), p, Holding(q))
    case Seeded(q) => Move(s.(counter := Max(s.counter, q)), p, Holding(q))
    case Durable => Move(s, p, DurableCounterRead(s.counter))
    case DurableCounterRead(c) => Move(s, p, DurableFloorRead(Max(c, MaxOf(s.messages))))
    case DurableFloorRead(f) =>
      var q := Max(s.counter, f) + 1;
      Move(Issue(s.(counter := q), q), p, Holding(q))
    case Holding(q) =>
      if q in s.messages then Collide(s, p)
      else Move(s.(messages := s.messages + [q]), p, Finished)
    case Exhausted => s
    case Finished => s
  }

  /** The unique index refused the number: try again, or throw after the last attempt. */
  function Collide(s: State, p: nat): State {
    var n := CollisionsOf(s, p) + 1;
    Move(s.(collisions := s.collisions[p := n]), p, if n < MAX_SEQ_ATTEMPTS then Ready else Exhausted)
  }

  /** One step; a step that cannot be taken changes nothing. */
  function Do(s: State, step: Step): State {
    match step
    case Begin(p) => if p in s.senders then s else Move(s, p, Ready)
    case Advance(p) => if p in s.senders then AdvanceSender(s, p) else s
    case SkipPersist(p) =>
      if p in s.senders && s.senders[p].Seeded? then Move(s, p, Holding(s.senders[p].taken)) else s
    case FailRead(p) =>
      if p !in s.senders then s
      else if s.senders[p].Cold? || s.senders[p].CounterRead? then Move(s, p, FloorRead(0))
      else if s.senders[p].Durable? || s.senders[p].DurableCounterRead? then Move(s, p, DurableFloorRead(0))
      else s
    case Quit(p) => if p in s.senders && !Over(s.senders[p]) then Move(s, p, Finished) else s
    case Lose => s.(key := None, epoch := |s.issued|, gap := s.gap || KeyAhead(s))
    case GoDown => s.(redisUp := false)
    case ComeUp => s.(redisUp := true)
  }

  function Exec(s: State, steps: seq<Step>): State
    decreases |steps|
  {
    if steps == [] then s else Exec(Do(s, steps[0]), steps[1..])
  }

  /** What the sender has read or holds would still be right if Redis had no key. */
  predicate PhaseCurrent(s: State, ph: Phase) {
    match ph
    case CounterRead(c) => Max(c, MaxOf(s.messages)) == Floor(s)
    case FloorRead(f) => f == Floor(s)
    case LostRace => false
    case Seeded(q) => q <= Floor(s)
    case Holding(q) => q <= Floor(s)
    case _ => !ph.Durable? && !ph.DurableCounterRead? && !ph.DurableFloorRead?
  }

  predicate Current(s: State) {
    forall p | p in s.senders :: PhaseCurrent(s, s.senders[p])
  }

  /** A failed read of sender p is harmless: its number comes from elsewhere, or zero will do. */
  predicate ReadMayFail(s: State, p: nat) {
    p in s.senders ==>
      var ph := s.senders[p];
      && ((ph.Cold? || ph.CounterRead?) && s.redisUp && s.key.None? ==> Floor(s) == 0)
      && (ph.Durable? || ph.DurableCounterRead? ==> MaxOf(s.messages) <= s.counter)
  }

  /**
   * Redis stops only without a key, loses a key and restarts only while every sender is current, and
   * floor reads fail only harmlessly. SeqExact shows that none of this can be left out.
   */
  predicate Tame(s: State, step: Step) {
    match step
    case FailRead(p) => ReadMayFail(s, p)
    case Lose => s.key.Some? ==> Current(s)
    case GoDown => s.key.None?
    case ComeUp => s.redisUp || Current(s)
    case _ => true
  }

  predicate TameRun(s: State, steps: seq<Step>)
    decreases |steps|
  {
    steps == [] || (Tame(s, steps[0]) && TameRun(Do(s, steps[0]), steps[1..]))
  }

  ghost predicate Initial(s: State) {
    s.redisUp && s.key.None? && s.senders == map[] && s.collisions == map[] && s.issued == [] &&
    s.epoch == 0 && !s.gap
  }

  // ---- the invariant -------------------------------------------------------------------------

  ghost predicate Holds(ph: Phase, q: nat) {
    ph == Holding(q) || ph == Seeded(q)
  }

  /** Everything handed out since the last loss is at most this. */
  ghost function Bound(s: State): nat {
    if s.key.Some? then s.key.value else Floor(s)
  }

  ghost predicate PhaseOk(s: State, ph: Phase) {
    match ph
    case Ready => true
    case Cold => true
    case CounterRead(c) =>
      c <= s.counter && (s.redisUp && s.key.None? ==> Max(c, MaxOf(s.messages)) == Floor(s))
    case FloorRead(f) => f <= Floor(s) && (s.redisUp && s.key.None? ==> f == Floor(s))
    case LostRace => s.redisUp && s.key.Some?
    case Seeded(q) => q <= Bound(s) && q !in s.messages
    case Durable => !s.redisUp
    case DurableCounterRead(c) => !s.redisUp && c <= s.counter
    case DurableFloorRead(f) => !s.redisUp && MaxOf(s.messages) <= Max(s.counter, f) && f <= Floor(s)
    case Holding(q) => q <= Bound(s) && q !in s.messages
    case Exhausted => false
    case Finished => true
  }

  ghost predicate Phases(s: State) {
    forall p | p in s.senders :: PhaseOk(s, s.senders[p])
  }

  ghost predicate HeldOnce(s: State) {
    forall p, p', q | p in s.senders && p' in s.senders && Holds(s.senders[p], q) && Holds(s.senders[p'], q) ::
      p == p'
  }

  function Latest(s: State): nat
    requires s.issued != []
  {
    s.issued[|s.issued| - 1]
  }

  /** From index `from`, the numbers handed out increase and stay within the bound. */
  ghost predicate Increasing(s: State, from: nat) {
    (forall i, j | from <= i < j < |s.issued| :: s.issued[i] < s.issued[j]) &&
    (forall i | from <= i < |s.issued| :: s.issued[i] <= Bound(s))
  }

  ghost predicate Inv(s: State) {
    (!s.redisUp ==> s.key.None?) &&
    (s.key.Some? ==> Floor(s) <= s.key.value) &&
    (s.key.Some? ==> s.epoch < |s.issued| && Latest(s) == s.key.value > 0) &&
    s.epoch <= |s.issued| && s.collisions == map[] &&
    Phases(s) && HeldOnce(s) &&
    Increasing(s, s.epoch) && (!s.gap ==> Increasing(s, 0))
  }

  lemma MaxOfSnoc(ms: seq<nat>, q: nat)
    ensures MaxOf(ms + [q]) == Max(MaxOf(ms), q)
  {
    assert (ms + [q])[..|ms|] == ms;
  }

  lemma StepKeepsInv(s: State, step: Step)
    requires Inv(s) && Tame(s, step)
    ensures Inv(Do(s, step))
  {
    match step
    case Begin(p) => MoveKeepsInv(s, p, Ready);
    case Advance(p) => if p in s.senders { AdvanceKeepsInv(s, p); }
    case SkipPersist(p) => if p in s.senders && s.senders[p].Seeded? { SkipKeepsInv(s, p, s.senders[p].taken); }
    case FailRead(p) => if p in s.senders { FailedReadKeepsInv(s, p); }
    case Quit(p) => MoveKeepsInv(s, p, Finished);
    case Lose => LoseKeepsInv(s);
    case GoDown => SwitchKeepsInv(s, false);
    case ComeUp => if !s.redisUp { SwitchKeepsInv(s, true); }
  }

  lemma FailedReadKeepsInv(s: State, p: nat)
    requires Inv(s) && p in s.senders && ReadMayFail(s, p)
    ensures Inv(Do(s, FailRead(p)))
  {
    assert PhaseOk(s, s.senders[p]);
    if s.senders[p].Cold? || s.senders[p].CounterRead? {
      MoveKeepsInv(s, p, FloorRead(0));
    } else if s.senders[p].Durable? || s.senders[p].DurableCounterRead? {
      MoveKeepsInv(s, p, DurableFloorRead(0));
    }
  }

  lemma SwitchKeepsInv(s: State, up: bool)
    requires Inv(s) && s.key.None? && (up ==> Current(s))
    ensures Inv(s.(redisUp := up))
  {
    hide MaxOf;
    var s' := s.(redisUp := up);
    forall p | p in s'.senders
      ensures PhaseOk(s', s'.senders[p])
    {
      assert PhaseOk(s, s.senders[p]);
      assert up ==> PhaseCurrent(s, s.senders[p]);
    }
  }

  lemma LoseKeepsInv(s: State)
    requires Inv(s) && (s.key.Some? ==> Current(s))
    ensures Inv(Do(s, Lose))
  {
    hide MaxOf;
    var s' := Do(s, Lose);
    forall p | p in s'.senders
      ensures PhaseOk(s', s'.senders[p])
    {
      assert PhaseOk(s, s.senders[p]);
      assert s.key.Some? ==> PhaseCurrent(s, s.senders[p]);
    }
    assert !s'.gap ==> Increasing(s', 0);
  }

  lemma SkipKeepsInv(s: State, p: nat, q: nat)
    requires Inv(s) && p in s.senders && s.senders[p] == Seeded(q)
    ensures Inv(Move(s, p, Holding(q)))
  {
    assert PhaseOk(s, s.senders[p]) && Holds(s.senders[p], q);
    assert HeldOnce(Move(s, p, Holding(q)));
  }

  lemma AdvanceKeepsInv(s: State, p: nat)
    requires Inv(s) && p in s.senders
    ensures Inv(AdvanceSender(s, p))
  {
    assert PhaseOk(s, s.senders[p]);
    match s.senders[p]
    case Ready =>
      if s.redisUp && s.key.Some? {
        IncrementKeepsInv(s, p);
      } else {
        MoveKeepsInv(s, p, if s.redisUp then Cold else Durable);
      }
    case Cold => MoveKeepsInv(s, p, CounterRead(s.counter));
    case CounterRead(c) => MoveKeepsInv(s, p, FloorRead(Max(c, MaxOf(s.messages))));
    case FloorRead(f) =>
      if !s.redisUp {
        MoveKeepsInv(s, p, Durable);
      } else if s.key.None? {
        SeedKeepsInv(s, p, f);
      } else {
        MoveKeepsInv(s, p, LostRace);
      }
    case LostRace => IncrementKeepsInv(s, p);
    case Seeded(q) => PersistKeepsInv(s, p, q);
    case Durable => MoveKeepsInv(s, p, DurableCounterRead(s.counter));
    case DurableCounterRead(c) => MoveKeepsInv(s, p, DurableFloorRead(Max(c, MaxOf(s.messages))));
    case DurableFloorRead(f) => FallbackKeepsInv(s, p, f);
    case Holding(q) => InsertKeepsInv(s, p, q);
    case Finished =>
  }

  lemma MoveKeepsInv(s: State, p: nat, ph: Phase)
    requires Inv(s) && PhaseOk(s, ph) && !ph.Holding? && !ph.Seeded?
    ensures Inv(Move(s, p, ph))
  {
    hide MaxOf;
  }

  lemma PersistKeepsInv(s: State, p: nat, q: nat)
    requires Inv(s) && p in s.senders && s.senders[p] == Seeded(q)
    ensures Inv(AdvanceSender(s, p))
  {
    assert PhaseOk(s, s.senders[p]) && Holds(s.senders[p], q);
    hide MaxOf, HeldOnce;
    var s' := s.(counter := Max(s.counter, q));
    forall p' | p' in s'.senders
      ensures PhaseOk(s', s'.senders[p'])
    {
      assert PhaseOk(s, s.senders[p']);
    }
    assert Inv(s') by { HeldSame(s, s'); }
    hide Inv;
    SkipKeepsInv(s', p, q);
  }

  lemma HeldSame(s: State, s': State)
    requires HeldOnce(s) && s'.senders == s.senders
    ensures HeldOnce(s')
  {
  }

  /** Handing out a number above the bound, which becomes the new bound. */
  lemma IssueIncreases(s: State, s': State, q: nat, from: nat)
    requires Increasing(s, from) && Bound(s) < q == Bound(s') && s'.issued == s.issued + [q]
    ensures Increasing(s', from)
  {
    hide Bound;
  }

  lemma IssueKeepsPhases(s: State, p: nat, q: nat, ph: Phase)
    requires Inv(s) && s.redisUp && Bound(s) < q && (ph == Holding(q) || ph == Seeded(q))
    ensures var s' := Move(Issue(s.(key := Some(q)), q), p, ph);
            Phases(s') && HeldOnce(s')
  {
    hide MaxOf, Increasing;
    var s' := Move(Issue(s.(key := Some(q)), q), p, ph);
    AboveBoundIsUnstored(s, q);
    forall p' | p' in s'.senders
      ensures PhaseOk(s', s'.senders[p']) && (p' != p ==> !Holds(s'.senders[p'], q))
    {
      assert p' != p ==> PhaseOk(s, s.senders[p']);
    }
  }

  lemma AboveBoundIsUnstored(s: State, q: nat)
    requires (s.key.Some? ==> Floor(s) <= s.key.value) && Bound(s) < q
    ensures q !in s.messages
  {
  }

  lemma IssueKeepsInv(s: State, p: nat, q: nat, ph: Phase)
    requires Inv(s) && s.redisUp && Bound(s) < q && (ph == Holding(q) || ph == Seeded(q))
    ensures Inv(Move(Issue(s.(key := Some(q)), q), p, ph))
  {
    var s' := Move(Issue(s.(key := Some(q)), q), p, ph);
    IssueKeepsPhases(s, p, q, ph);
    IssueIncreases(s, s', q, s.epoch);
    if !s.gap {
      IssueIncreases(s, s', q, 0);
    }
    hide Phases, HeldOnce, Increasing, MaxOf;
  }

  lemma IncrementKeepsInv(s: State, p: nat)
    requires Inv(s) && p in s.senders && s.redisUp && s.key.Some? && s.senders[p] in {Ready, LostRace}
    ensures Inv(AdvanceSender(s, p))
  {
    hide Inv;
    IssueKeepsInv(s, p, s.key.value + 1, Holding(s.key.value + 1));
  }

  lemma SeedKeepsInv(s: State, p: nat, f: nat)
    requires Inv(s) && p in s.senders && s.redisUp && s.key.None? && s.senders[p] == FloorRead(f)
    ensures Inv(AdvanceSender(s, p))
  {
    SeedIsAbove(s, p, f);
    SeedIssues(s, p, f);
    hide *;
    IssueKeepsInv(s, p, f + 1, Seeded(f + 1));
  }

  lemma SeedIssues(s: State, p: nat, f: nat)
    requires p in s.senders && s.redisUp && s.key.None? && s.senders[p] == FloorRead(f)
    ensures AdvanceSender(s, p) == Move(Issue(s.(key := Some(f + 1)), f + 1), p, Seeded(f + 1))
  {
  }

  lemma SeedIsAbove(s: State, p: nat, f: nat)
    requires Phases(s) && p in s.senders && s.redisUp && s.key.None? && s.senders[p] == FloorRead(f)
    ensures Bound(s) == f
  {
    hide MaxOf;
    assert PhaseOk(s, s.senders[p]);
  }

  lemma FallbackKeepsInv(s: State, p: nat, f: nat)
    requires Inv(s) && p in s.senders && s.senders[p] == DurableFloorRead(f)
    ensures Inv(AdvanceSender(s, p))
  {
    ReadKnowsFloor(s, p, f);
    FallbackIssues(s, p, f);
    hide AdvanceSender, Max, MaxOf;
    var q := Floor(s) + 1;
    var s' := Move(Issue(s.(counter := q), q), p, Holding(q));
    FallbackKeepsPhases(s, p);
    FallbackBound(s, s');
    hide Phases, HeldOnce, Floor, Bound;
    IssueIncreases(s, s', q, s.epoch);
    if !s.gap {
      IssueIncreases(s, s', q, 0);
    }
    hide Increasing;
  }

  lemma ReadKnowsFloor(s: State, p: nat, f: nat)
    requires Inv(s) && p in s.senders && s.senders[p] == DurableFloorRead(f)
    ensures !s.redisUp && s.key.None? && Max(s.counter, f) == Floor(s)
  {
    hide MaxOf;
    assert PhaseOk(s, s.senders[p]);
  }

  lemma FallbackIssues(s: State, p: nat, f: nat)
    requires p in s.senders && s.senders[p] == DurableFloorRead(f) && Max(s.counter, f) == Floor(s)
    ensures var q := Floor(s) + 1;
            AdvanceSender(s, p) == Move(Issue(s.(counter := q), q), p, Holding(q))
  {
    hide Floor;
  }

  lemma FallbackBound(s: State, s': State)
    requires s.key.None? && s'.key.None? && s'.messages == s.messages && s'.counter == Floor(s) + 1
    ensures Bound(s) == Floor(s) && Bound(s') == Floor(s) + 1
  {
  }

  lemma FallbackKeepsPhases(s: State, p: nat)
    requires Inv(s) && !s.redisUp && p in s.senders
    ensures var q := Floor(s) + 1;
            var s' := Move(Issue(s.(counter := q), q), p, Holding(q));
            Phases(s') && HeldOnce(s')
  {
    hide MaxOf, Increasing;
    var q := Floor(s) + 1;
    var s' := Move(Issue(s.(counter := q), q), p, Holding(q));
    assert q !in s.messages by { AboveBoundIsUnstored(s, q); }
    forall p' | p' in s'.senders
      ensures PhaseOk(s', s'.senders[p']) && (p' != p ==> !Holds(s'.senders[p'], q))
    {
      assert PhaseOk(s, s.senders[p']);
    }
  }

  lemma InsertKeepsInv(s: State, p: nat, q: nat)
    requires Inv(s) && p in s.senders && s.senders[p] == Holding(q)
    ensures Inv(AdvanceSender(s, p))
  {
    assert PhaseOk(s, s.senders[p]);
    var s' := AdvanceSender(s, p);
    MaxOfSnoc(s.messages, q);
    InsertKeepsPhases(s, p, q);
    IncreasingGrows(s, s', s.epoch);
    if !s.gap {
      IncreasingGrows(s, s', 0);
    }
    hide Increasing, MaxOf, PhaseOk;
  }

  lemma IncreasingGrows(s: State, s': State, from: nat)
    requires Increasing(s, from) && s'.issued == s.issued && Bound(s) <= Bound(s')
    ensures Increasing(s', from)
  {
  }

  lemma InsertKeepsPhases(s: State, p: nat, q: nat)
    requires Phases(s) && HeldOnce(s) && (!s.redisUp ==> s.key.None?)
    requires p in s.senders && s.senders[p] == Holding(q) && q !in s.messages
    ensures Phases(AdvanceSender(s, p)) && HeldOnce(AdvanceSender(s, p))
  {
    var s' := AdvanceSender(s, p);
    assert PhaseOk(s, Holding(q)) && Holds(s.senders[p], q);
    forall p' | p' in s'.senders && p' != p
      ensures PhaseOk(s', s'.senders[p'])
    {
      assert !Holds(s.senders[p'], q);
      PhaseAfterInsert(s, s', s.senders[p'], q);
    }
  }

  /** An insert by another sender leaves a phase right. */
  lemma PhaseAfterInsert(s: State, s': State, ph: Phase, q: nat)
    requires PhaseOk(s, ph) && PhaseOk(s, Holding(q)) && !Holds(ph, q) && (!s.redisUp ==> s.key.None?)
    requires s'.messages == s.messages + [q] && s'.key == s.key && s'.redisUp == s.redisUp && s'.counter == s.counter
    ensures PhaseOk(s', ph)
  {
    hide MaxOf;
    MaxOfSnoc(s.messages, q);
  }

  lemma {:induction false} RunKeepsInv(s: State, steps: seq<Step>)
    requires Inv(s) && TameRun(s, steps)
    ensures Inv(Exec(s, steps))
    decreases |steps|
  {
    if steps != [] {
      StepKeepsInv(s, steps[0]);
      RunKeepsInv(Do(s, steps[0]), steps[1..]);
    }
  }

  lemma InitialInv(s: State)
    requires Initial(s)
    ensures Inv(s)
  {
  }

  // ---- what every run guarantees -------------------------------------------------------------

  /** Step `step` of a run hands out a number; s is the state before it. */
  ghost predicate Issues(s: State, step: Step) {
    Do(s, step).issued != s.issued
  }

  /** Above everything stored, the counter document, everything still held, everything since the last
      loss, and, unless a loss left a gap, everything ever handed out. */
  ghost predicate Fresh(s: State, q: nat) {
    (forall m | m in s.messages :: m < q) && s.counter < q &&
    (forall p, h: nat | p in s.senders && Holds(s.senders[p], h) :: h < q) &&
    (forall i | s.epoch <= i < |s.issued| :: s.issued[i] < q) &&
    (!s.gap ==> forall i | 0 <= i < |s.issued| :: s.issued[i] < q)
  }

  /** In terms of the two counters: above the key, or, without one, above the durable floor. */
  lemma FreshExactlyAboveBound(s: State, q: nat)
    requires Inv(s)
    ensures Fresh(s, q) <==> Bound(s) < q
  {
    if Bound(s) < q {
      hide MaxOf;
      forall p, h: nat | p in s.senders && Holds(s.senders[p], h)
        ensures h < q
      {
        assert PhaseOk(s, s.senders[p]);
      }
    } else if s.key.Some? {
      assert s.issued[|s.issued| - 1] >= q;
    }
  }

  lemma IssuesAboveBound(s: State, p: nat)
    requires Inv(s) && p in s.senders && AdvanceSender(s, p).issued != s.issued
    ensures AdvanceSender(s, p).issued != [] && Latest(AdvanceSender(s, p)) > Bound(s)
  {
    assert PhaseOk(s, s.senders[p]);
    if s.senders[p].DurableFloorRead? {
      ReadKnowsFloor(s, p, s.senders[p].floor);
    }
    hide Max, MaxOf, Inv, HeldOnce, Phases, Increasing, Floor, Collide;
  }

  /**
   * In every interleaving, each number handed out is above every number stored, above every number
   * another send is still holding, and above every number handed out since Redis last lost its key;
   * and above every number ever handed out, unless a loss took a key that was above the floor.
   */
  lemma FreshInEveryRun(s0: State, steps: seq<Step>, step: Step)
    requires Initial(s0) && TameRun(s0, steps) && Issues(Exec(s0, steps), step)
    ensures var s, s' := Exec(s0, steps), Do(Exec(s0, steps), step);
            s'.issued != [] && Fresh(s, Latest(s'))
  {
    InitialInv(s0);
    RunKeepsInv(s0, steps);
    var s := Exec(s0, steps);
    IssuesAboveBound(s, step.p);
    FreshExactlyAboveBound(s, Latest(Do(s, step)));
  }

  /**
   * So an insert never meets a sequence number already stored, no two sends share one, and the first
   * of a send's three attempts goes through: no send ever exhausts them.
   */
  lemma InsertNeverCollides(s0: State, steps: seq<Step>, p: nat)
    requires Initial(s0) && TameRun(s0, steps)
    requires p in Exec(s0, steps).senders
    ensures var s := Exec(s0, steps);
            CollisionsOf(s, p) == 0 && !s.senders[p].Exhausted? &&
            (s.senders[p].Holding? ==>
              Do(s, Advance(p)).messages == s.messages + [s.senders[p].taken] &&
              s.senders[p].taken !in s.messages &&
              forall p' | p' in s.senders && p' != p :: !Holds(s.senders[p'], s.senders[p].taken))
  {
    InitialInv(s0);
    RunKeepsInv(s0, steps);
    var s := Exec(s0, steps);
    assert PhaseOk(s, s.senders[p]);
    if s.senders[p].Holding? {
      assert Holds(s.senders[p], s.senders[p].taken);
    }
  }
}
