/**
 * One stream of the event bus and the consumer groups that read it: delivery, bounded retry,
 * mark-after-success, dead-lettering, acknowledgement, reclaim and crashes, one Redis call or one
 * handler run at a time. The dedupe marks are shared by all groups, as in the source.
 */
module StreamBus {
  import opened Wrappers

  const MAX_HANDLER_ATTEMPTS: nat := 3

  /** An entry carries an event id, or a payload that does not parse. */
  datatype Entry = Entry(event: Option<string>)

  datatype Reason = Marked | DeadLettered | NoHandler

  /** What the handling of one delivery does next. */
  datatype Stage =
    | Parse
    | Check
    | Run(attempt: nat)
    | Mark(attempt: nat)
    | DeadLetter
    | Acknowledge(reason: Reason)

  /** One call of handleEntry; `runs` counts its handler runs. */
  datatype Delivery = Delivery(group: string, entry: nat, stage: Stage, runs: nat)

  /** `completed` and `deadLettered` record, per entry, a finished handler run and a DLQ attempt. */
  datatype Group = Group(
    handles: bool,
    start: nat,
    next: nat,
    pending: set<nat>,
    acked: map<nat, Reason>,
    completed: set<nat>,
    deadLettered: set<nat>)

  datatype Bus = Bus(
    log: seq<Entry>,
    groups: map<string, Group>,
    marks: set<string>,
    deliveries: map<nat, Delivery>)

  datatype Step =
    | Publish(event: Option<string>)
    | CreateGroup(g: string, handles: bool)
    | Read(g: string, did: nat)
    | Reclaim(g: string, entry: nat, did: nat)
    | Advance(did: nat, ok: bool)
    | Drop(did: nat)   // a crash, or an error that abandons the delivery

  function Put(s: Bus, did: nat, d: Delivery): Bus {
    s.(deliveries := s.deliveries[did := d])
  }

  function SetGroup(s: Bus, g: string, group: Group): Bus {
    s.(groups := s.groups[g := group])
  }

  function Forget(s: Bus, did: nat): Bus {
    s.(deliveries := s.deliveries - {did})
  }

  /** A failed attempt: try again, or give the entry up. */
  function AfterFailure(attempt: nat): Stage {
    if attempt < MAX_HANDLER_ATTEMPTS then Run(attempt + 1) else DeadLetter
  }

  /** The next action of a delivery; `ok` says whether the handler, SET or XACK succeeds. */
  function AdvanceDelivery(s: Bus, did: nat, ok: bool): Bus
    requires did in s.deliveries && s.deliveries[did].group in s.groups && s.deliveries[did].entry < |s.log|
  {
    var d := s.deliveries[did];
    var g := s.groups[d.group];
    var event := s.log[d.entry].event;
    match d.stage
    case Parse => Put(s, did, d.(stage := if event.None? then DeadLetter else Check))
    case Check =>
      Put(s, did, d.(stage :=
        if event.Some? && event.value in s.marks then Acknowledge(Marked)
        else if !g.handles then Acknowledge(NoHandler)
        else Run(1)))
    case Run(attempt) =>
      var ran := d.(runs := d.runs + 1);
      if ok then
        Put(SetGroup(s, d.group, g.(completed := g.completed + {d.entry})), did, ran.(stage := Mark(attempt)))
      else Put(s, did, ran.(stage := AfterFailure(attempt)))
    case Mark(attempt) =>
      if ok && event.Some? then
        Put(s.(marks := s.marks + {event.value}), did, d.(stage := Acknowledge(Marked)))
      else Put(s, did, d.(stage := AfterFailure(attempt)))
    case DeadLetter =>
      Put(SetGroup(s, d.group, g.(deadLettered := g.deadLettered + {d.entry})), did,
        d.(stage := Acknowledge(DeadLettered)))
    case Acknowledge(reason) =>
      if ok && d.entry in g.pending then
        Forget(SetGroup(s, d.group,
          g.(pending := g.pending - {d.entry}, acked := g.acked[d.entry := reason])), did)
      else Forget(s, did)
  }

  function Do(s: Bus, step: Step): Bus {
    match step
    case Publish(event) => s.(log := s.log + [Entry(event)])
    case CreateGroup(g, handles) =>
      if g in s.groups then s
      else SetGroup(s, g, Group(handles, |s.log|, |s.log|, {}, map[], {}, {}))
    case Read(g, did) =>
      if g in s.groups && s.groups[g].next < |s.log| && did !in s.deliveries then
        var group := s.groups[g];
        var e := group.next;
        Put(SetGroup(s, g, group.(next := e + 1, pending := group.pending + {e})), did, Delivery(g, e, Parse, 0))
      else s
    case Reclaim(g, e, did) =>
      if g in s.groups && e in s.groups[g].pending && did !in s.deliveries then
        Put(s, did, Delivery(g, e, Parse, 0))
      else s
    case Advance(did, ok) =>
      if did in s.deliveries && s.deliveries[did].group in s.groups && s.deliveries[did].entry < |s.log|
      then AdvanceDelivery(s, did, ok)
      else s
    case Drop(did) => Forget(s, did)
  }

  function Exec(s: Bus, steps: seq<Step>): Bus
    decreases |steps|
  {
    if steps == [] then s else Exec(Do(s, steps[0]), steps[1..])
  }

  const EMPTY := Bus([], map[], {}, map[])

  // ---- the invariant -------------------------------------------------------------------------

  /** Since the group was created, every entry is undelivered, pending or acknowledged. */
  ghost predicate Partitioned(log: seq<Entry>, g: Group) {
    g.start <= g.next <= |log| &&
    (forall e | e in g.pending :: g.start <= e < g.next && e !in g.acked) &&
    (forall e | e in g.acked :: g.start <= e < g.next) &&
    (forall e | g.start <= e < g.next :: e in g.pending || e in g.acked) &&
    (forall e | e in g.completed :: g.start <= e < g.next && g.handles) &&
    (forall e | e in g.deadLettered :: g.start <= e < g.next)
  }

  /** Some group finished a handler run for this event. */
  ghost predicate Handled(s: Bus, event: string) {
    exists g, e :: g in s.groups && HandledBy(s, g, e, event)
  }

  ghost predicate HandledBy(s: Bus, g: string, e: nat, event: string)
    requires g in s.groups
  {
    e in s.groups[g].completed && e < |s.log| && s.log[e].event == Some(event)
  }

  ghost predicate ReasonOk(s: Bus, g: Group, e: nat, reason: Reason) {
    e < |s.log| &&
    match reason
    case Marked => s.log[e].event.Some? && s.log[e].event.value in s.marks
    case DeadLettered => e in g.deadLettered
    case NoHandler => !g.handles
  }

  ghost predicate DeliveryOk(s: Bus, d: Delivery) {
    d.group in s.groups && d.entry < |s.log| && d.runs <= MAX_HANDLER_ATTEMPTS &&
    s.groups[d.group].start <= d.entry < s.groups[d.group].next &&
    var g, event := s.groups[d.group], s.log[d.entry].event;
    match d.stage
    case Parse => d.runs == 0
    case Check => d.runs == 0 && event.Some?
    case Run(a) => 1 <= a <= MAX_HANDLER_ATTEMPTS && d.runs == a - 1 && event.Some? && g.handles
    case Mark(a) => 1 <= a <= MAX_HANDLER_ATTEMPTS && d.runs == a && event.Some? && d.entry in g.completed
    case DeadLetter => event.None? || d.runs == MAX_HANDLER_ATTEMPTS
    case Acknowledge(reason) => ReasonOk(s, g, d.entry, reason)
  }

  ghost predicate GroupOk(s: Bus, g: Group) {
    Partitioned(s.log, g) && forall e | e in g.acked :: ReasonOk(s, g, e, g.acked[e])
  }

  ghost predicate Inv(s: Bus) {
    (forall g | g in s.groups :: GroupOk(s, s.groups[g])) &&
    (forall event | event in s.marks :: Handled(s, event)) &&
    (forall did | did in s.deliveries :: DeliveryOk(s, s.deliveries[did]))
  }

  /** s' has grown from s: nothing recorded about a group is taken back. */
  ghost predicate Grown(s: Bus, s': Bus) {
    s.log <= s'.log && s.marks <= s'.marks &&
    forall g | g in s.groups :: g in s'.groups && GroupGrown(s.groups[g], s'.groups[g])
  }

  ghost predicate GroupGrown(g: Group, g': Group) {
    g'.handles == g.handles && g'.start == g.start && g.next <= g'.next &&
    g.completed <= g'.completed && g.deadLettered <= g'.deadLettered
  }

  lemma GrownKeeps(s: Bus, s': Bus)
    requires Grown(s, s')
    ensures forall event | Handled(s, event) :: Handled(s', event)
    ensures forall d | DeliveryOk(s, d) :: DeliveryOk(s', d)
    ensures forall g, e, r | g in s.groups && ReasonOk(s, s.groups[g], e, r) :: ReasonOk(s', s'.groups[g], e, r)
  {
    forall event | Handled(s, event)
      ensures Handled(s', event)
    {
      var g, e :| g in s.groups && HandledBy(s, g, e, event);
      assert HandledBy(s', g, e, event);
    }
  }

  lemma PutKeepsInv(s: Bus, did: nat, d: Delivery)
    requires Inv(s) && DeliveryOk(s, d)
    ensures Inv(Put(s, did, d))
  {
    var s' := Put(s, did, d);
    GrownKeeps(s, s');
    assert forall g | g in s'.groups :: GroupOk(s, s.groups[g]);
  }

  lemma SetGroupKeepsInv(s: Bus, g: string, group: Group)
    requires Inv(s) && (g in s.groups ==> GroupGrown(s.groups[g], group))
    requires GroupOk(SetGroup(s, g, group), group)
    ensures Inv(SetGroup(s, g, group))
  {
    var s' := SetGroup(s, g, group);
    GrownKeeps(s, s');
    assert forall g | g in s.groups :: GroupOk(s, s.groups[g]);
  }

  lemma ForgetKeepsInv(s: Bus, did: nat)
    requires Inv(s)
    ensures Inv(Forget(s, did))
  {
    GrownKeeps(s, Forget(s, did));
    assert forall g | g in s.groups :: GroupOk(s, s.groups[g]);
  }

  lemma PublishKeepsInv(s: Bus, event: Option<string>)
    requires Inv(s)
    ensures Inv(s.(log := s.log + [Entry(event)]))
  {
    GrownKeeps(s, s.(log := s.log + [Entry(event)]));
    assert forall g | g in s.groups :: GroupOk(s, s.groups[g]);
  }

  lemma MarkKeepsInv(s: Bus, event: string)
    requires Inv(s) && Handled(s, event)
    ensures Inv(s.(marks := s.marks + {event}))
  {
    GrownKeeps(s, s.(marks := s.marks + {event}));
    assert forall g | g in s.groups :: GroupOk(s, s.groups[g]);
  }

  lemma StepKeepsInv(s: Bus, step: Step)
    requires Inv(s)
    ensures Inv(Do(s, step))
  {
    hide AdvanceDelivery;
    match step
    case Publish(event) => PublishKeepsInv(s, event);
    case CreateGroup(g, handles) =>
      if g !in s.groups {
        SetGroupKeepsInv(s, g, Group(handles, |s.log|, |s.log|, {}, map[], {}, {}));
      }
    case Read(g, did) => ReadKeepsInv(s, g, did);
    case Reclaim(g, e, did) =>
      if g in s.groups && e in s.groups[g].pending {
        assert GroupOk(s, s.groups[g]);
        PutKeepsInv(s, did, Delivery(g, e, Parse, 0));
      }
    case Advance(did, ok) =>
      if did in s.deliveries {
        assert DeliveryOk(s, s.deliveries[did]);
        AdvanceKeepsInv(s, did, ok);
      }
    case Drop(did) => ForgetKeepsInv(s, did);
  }

  lemma InvGroup(s: Bus, g: string)
    requires Inv(s) && g in s.groups
    ensures GroupOk(s, s.groups[g])
  {
  }

  lemma ReadKeepsInv(s: Bus, g: string, did: nat)
    requires Inv(s)
    ensures Inv(Do(s, Read(g, did)))
  {
    hide Inv;
    if g in s.groups && s.groups[g].next < |s.log| && did !in s.deliveries {
      var group := s.groups[g];
      var e := group.next;
      InvGroup(s, g);
      var group' := group.(next := e + 1, pending := group.pending + {e});
      var s1 := SetGroup(s, g, group');
      assert GroupOk(s1, group');
      SetGroupKeepsInv(s, g, group');
      PutKeepsInv(s1, did, Delivery(g, e, Parse, 0));
    }
  }

  lemma AdvanceKeepsInv(s: Bus, did: nat, ok: bool)
    requires Inv(s) && did in s.deliveries && DeliveryOk(s, s.deliveries[did])
    ensures Inv(AdvanceDelivery(s, did, ok))
  {
    hide Inv;
    var d, s' := s.deliveries[did], AdvanceDelivery(s, did, ok);
    var g, event := s.groups[d.group], s.log[d.entry].event;
    InvGroup(s, d.group);
    match d.stage
    case Parse => PutKeepsInv(s, did, s'.deliveries[did]);
    case Check => PutKeepsInv(s, did, s'.deliveries[did]);
    case Run(attempt) => RunStageKeepsInv(s, did, attempt, ok);
    case Mark(attempt) =>
      if ok {
        assert HandledBy(s, d.group, d.entry, event.value);
        MarkKeepsInv(s, event.value);
        PutKeepsInv(s.(marks := s.marks + {event.value}), did, s'.deliveries[did]);
      } else {
        PutKeepsInv(s, did, s'.deliveries[did]);
      }
    case DeadLetter =>
      var g' := g.(deadLettered := g.deadLettered + {d.entry});
      SetGroupKeepsInv(s, d.group, g');
      PutKeepsInv(SetGroup(s, d.group, g'), did, s'.deliveries[did]);
    case Acknowledge(reason) =>
      if ok && d.entry in g.pending {
        var g' := g.(pending := g.pending - {d.entry}, acked := g.acked[d.entry := reason]);
        SetGroupKeepsInv(s, d.group, g');
        ForgetKeepsInv(SetGroup(s, d.group, g'), did);
      } else {
        ForgetKeepsInv(s, did);
      }
  }

  lemma RunStageKeepsInv(s: Bus, did: nat, attempt: nat, ok: bool)
    requires Inv(s) && did in s.deliveries && DeliveryOk(s, s.deliveries[did])
    requires s.deliveries[did].stage == Run(attempt)
    ensures Inv(AdvanceDelivery(s, did, ok))
  {
    hide Inv;
    var d := s.deliveries[did];
    var g := s.groups[d.group];
    InvGroup(s, d.group);
    if ok {
      var g' := g.(completed := g.completed + {d.entry});
      SetGroupKeepsInv(s, d.group, g');
      PutKeepsInv(SetGroup(s, d.group, g'), did, d.(runs := d.runs + 1, stage := Mark(attempt)));
    } else {
      PutKeepsInv(s, did, d.(runs := d.runs + 1, stage := AfterFailure(attempt)));
    }
  }

  lemma {:induction false} RunKeepsInv(s: Bus, steps: seq<Step>)
    requires Inv(s)
    ensures Inv(Exec(s, steps))
    decreases |steps|
  {
    if steps != [] {
      StepKeepsInv(s, steps[0]);
      RunKeepsInv(Do(s, steps[0]), steps[1..]);
    }
  }

  // ---- what every run guarantees -------------------------------------------------------------

  /** The entries of the log are the events published, in order. */
  function PublishedBy(steps: seq<Step>): seq<Entry> {
    if steps == [] then []
    else
      var last := steps[|steps| - 1];
      PublishedBy(steps[..|steps| - 1]) + if last.Publish? then [Entry(last.event)] else []
  }

  lemma ExecLast(s: Bus, steps: seq<Step>)
    requires steps != []
    ensures Exec(s, steps) == Do(Exec(s, steps[..|steps| - 1]), steps[|steps| - 1])
  {
    var init, last := steps[..|steps| - 1], steps[|steps| - 1];
    assert steps == init + [last];
    ExecConcat(s, init, [last]);
    ExecOne(Exec(s, init), last);
  }

  lemma {:induction false} LogIsPublished(steps: seq<Step>)
    ensures Exec(EMPTY, steps).log == PublishedBy(steps)
  {
    if steps != [] {
      LogIsPublished(steps[..|steps| - 1]);
      ExecLast(EMPTY, steps);
      LogGrows(Exec(EMPTY, steps[..|steps| - 1]), steps[|steps| - 1]);
      hide Exec, Do;
    }
  }

  lemma LogGrows(s: Bus, step: Step)
    ensures Do(s, step).log == s.log + if step.Publish? then [Entry(step.event)] else []
  {
  }

  /** The step creates group g. */
  predicate Creates(step: Step, g: string) {
    step.CreateGroup? && step.g == g
  }

  /** The i-th step is the first to create group g. */
  ghost predicate FirstCreates(steps: seq<Step>, i: nat, g: string) {
    i < |steps| && Creates(steps[i], g) && forall j | 0 <= j < i :: !Creates(steps[j], g)
  }

  /** A step makes a group only by creating it, at the end of the log; later ones leave it as created. */
  lemma StepKeepsCreation(s: Bus, step: Step, g: string)
    ensures g in Do(s, step).groups <==> g in s.groups || Creates(step, g)
    ensures g in s.groups ==> GroupGrown(s.groups[g], Do(s, step).groups[g])
    ensures g !in s.groups && Creates(step, g) ==>
              Do(s, step).groups[g].handles == step.handles && Do(s, step).groups[g].start == |s.log|
  {
    if step.Advance? && step.did in s.deliveries && s.deliveries[step.did].group in s.groups
        && s.deliveries[step.did].entry < |s.log| {
      AdvanceKeepsCreation(s, step.did, step.ok, g);
    }
    hide AdvanceDelivery;
  }

  lemma AdvanceKeepsCreation(s: Bus, did: nat, ok: bool, g: string)
    requires did in s.deliveries && s.deliveries[did].group in s.groups && s.deliveries[did].entry < |s.log|
    ensures g in AdvanceDelivery(s, did, ok).groups <==> g in s.groups
    ensures g in s.groups ==> GroupGrown(s.groups[g], AdvanceDelivery(s, did, ok).groups[g])
  {
  }

  /** The first step that creates group g. */
  function FirstCreation(steps: seq<Step>, g: string): (i: Option<nat>)
    ensures i.Some? ==> i.value < |steps|
  {
    if steps == [] then None
    else
      var n := |steps| - 1;
      var before := FirstCreation(steps[..n], g);
      if before.Some? then before else if Creates(steps[n], g) then Some(n) else None
  }

  lemma {:induction false} FirstCreationIsFirst(steps: seq<Step>, g: string)
    ensures forall i: nat :: FirstCreation(steps, g) == Some(i) <==> FirstCreates(steps, i, g)
    ensures FirstCreation(steps, g) == None <==> forall i | 0 <= i < |steps| :: !Creates(steps[i], g)
  {
    if steps != [] {
      var init := steps[..|steps| - 1];
      FirstCreationIsFirst(init, g);
      assert forall i | 0 <= i < |init| :: init[i] == steps[i];
      assert forall i: nat | i < |init| :: FirstCreates(init, i, g) <==> FirstCreates(steps, i, g);
    }
  }

  /** The group's handler and start are those of its creation at step i. */
  ghost predicate AsCreated(steps: seq<Step>, i: nat, group: Group) {
    i < |steps| && steps[i].CreateGroup? && group.handles == steps[i].handles &&
    group.start == |PublishedBy(steps[..i])|
  }

  lemma {:induction false} CreatedOnce(steps: seq<Step>, g: string)
    ensures var s := Exec(EMPTY, steps);
            (g in s.groups <==> FirstCreation(steps, g).Some?) &&
            (g in s.groups ==> AsCreated(steps, FirstCreation(steps, g).value, s.groups[g]))
  {
    if steps != [] {
      var init, n := steps[..|steps| - 1], |steps| - 1;
      CreatedOnce(init, g);
      ExecLast(EMPTY, steps);
      StepKeepsCreation(Exec(EMPTY, init), steps[n], g);
      LogIsPublished(init);
      hide Exec, Do, PublishedBy;
      assert forall i: nat | i < n :: steps[..i] == init[..i];
      assert steps[..n] == init;
    }
  }

  /**
   * Over every run: a group is there exactly if some step created it; its handler is the one its first
   * creation named, and it starts at the end the log had then.
   */
  lemma GroupIsAsCreated(steps: seq<Step>, g: string, i: nat)
    ensures g in Exec(EMPTY, steps).groups <==> exists j :: 0 <= j < |steps| && Creates(steps[j], g)
    ensures FirstCreates(steps, i, g) ==>
              g in Exec(EMPTY, steps).groups && AsCreated(steps, i, Exec(EMPTY, steps).groups[g])
  {
    CreatedOnce(steps, g);
    FirstCreationIsFirst(steps, g);
    hide Exec, FirstCreation;
  }

  /** Nothing published before a group was created ever reaches it. */
  lemma NothingFromBefore(steps: seq<Step>, g: string, i: nat, e: nat)
    requires FirstCreates(steps, i, g) && e < |PublishedBy(steps[..i])|
    ensures var s := Exec(EMPTY, steps);
            g in s.groups && e !in s.groups[g].pending && e !in s.groups[g].acked &&
            e !in s.groups[g].completed && e !in s.groups[g].deadLettered &&
            forall did | did in s.deliveries && s.deliveries[did].group == g :: s.deliveries[did].entry != e
  {
    GroupIsAsCreated(steps, g, i);
    RunKeepsInv(EMPTY, steps);
    var s := Exec(EMPTY, steps);
    hide Exec;
    InvGroup(s, g);
    forall did | did in s.deliveries && s.deliveries[did].group == g
      ensures s.deliveries[did].entry != e
    {
      assert DeliveryOk(s, s.deliveries[did]);
    }
  }

  /** Everything published since does: as many reads as entries are missing deliver them all. */
  lemma EnoughReads(steps: seq<Step>, g: string) returns (more: seq<Step>)
    requires g in Exec(EMPTY, steps).groups
    ensures var s := Exec(EMPTY, steps);
            var t := Exec(s, more);
            && (forall a | a in more :: a.Read? && a.g == g) && |more| == |s.log| - s.groups[g].next
            && t.log == s.log && g in t.groups
            && forall e | s.groups[g].start <= e < |s.log| :: e in t.groups[g].pending || e in t.groups[g].acked
  {
    RunKeepsInv(EMPTY, steps);
    var s := Exec(EMPTY, steps);
    hide Exec, Do;
    more := CatchUp(s, g);
    var t := Exec(s, more);
    InvGroup(t, g);
    ReadsKeepStart(s, more, g);
  }

  lemma {:induction false} ReadsKeepStart(s: Bus, steps: seq<Step>, g: string)
    requires g in s.groups
    ensures g in Exec(s, steps).groups && Exec(s, steps).groups[g].start == s.groups[g].start
    decreases |steps|
  {
    if steps != [] {
      StepKeepsCreation(s, steps[0], g);
      hide Do;
      ReadsKeepStart(Do(s, steps[0]), steps[1..], g);
    }
  }

  /** A read takes the next entry and starts its delivery; a reclaim starts another for a pending one. */
  lemma DeliveryStarts(s: Bus, g: string, e: nat, did: nat)
    requires g in s.groups && did !in s.deliveries
    ensures s.groups[g].next < |s.log| ==>
              var t := Do(s, Read(g, did));
              && did in t.deliveries && t.deliveries[did] == Delivery(g, s.groups[g].next, Parse, 0)
              && g in t.groups && t.groups[g].next == s.groups[g].next + 1
              && t.groups[g].pending == s.groups[g].pending + {s.groups[g].next}
    ensures e in s.groups[g].pending ==>
              var t := Do(s, Reclaim(g, e, did));
              && did in t.deliveries && t.deliveries[did] == Delivery(g, e, Parse, 0) && t.groups == s.groups
  {
  }

  /** A crash forgets the delivery and nothing else: its entry stays pending. */
  lemma CrashIs(s: Bus, did: nat)
    ensures var t := Do(s, Drop(did));
            did !in t.deliveries && t.groups == s.groups && t.marks == s.marks && t.log == s.log &&
            t.deliveries == s.deliveries - {did}
  {
  }

  /** No entry added since a group was created is ever lost to it: it is exactly one of the three. */
  lemma EntriesPartitioned(steps: seq<Step>, g: string, e: nat)
    requires var s := Exec(EMPTY, steps);
             g in s.groups && s.groups[g].start <= e < |s.log|
    ensures var s := Exec(EMPTY, steps);
            var group := s.groups[g];
            && (e >= group.next ==> e !in group.pending && e !in group.acked)
            && (e < group.next ==> (e in group.pending <==> e !in group.acked))
  {
    RunKeepsInv(EMPTY, steps);
    InvGroup(Exec(EMPTY, steps), g);
  }

  /** An event id is marked only after a handler run for it has completed. */
  lemma MarkedOnlyAfterSuccess(steps: seq<Step>, event: string)
    requires event in Exec(EMPTY, steps).marks
    ensures Handled(Exec(EMPTY, steps), event)
  {
    RunKeepsInv(EMPTY, steps);
  }

  /** Why an entry is acknowledged: its event is marked, it went to the DLQ, or nobody handles it. */
  lemma AckedForAReason(steps: seq<Step>, g: string, e: nat)
    requires var s := Exec(EMPTY, steps);
             g in s.groups && e in s.groups[g].acked
    ensures var s := Exec(EMPTY, steps);
            ReasonOk(s, s.groups[g], e, s.groups[g].acked[e])
    ensures var s := Exec(EMPTY, steps);
            s.groups[g].acked[e] == Marked ==> Handled(s, s.log[e].event.value)
  {
    RunKeepsInv(EMPTY, steps);
    InvGroup(Exec(EMPTY, steps), g);
  }

  /** A delivery runs the handler at most three times, and goes to the DLQ only after all three. */
  lemma BoundedRuns(steps: seq<Step>, did: nat)
    requires did in Exec(EMPTY, steps).deliveries
    ensures var s := Exec(EMPTY, steps);
            var d := s.deliveries[did];
            d.runs <= 3 && d.entry < |s.log| &&
            (d.stage.DeadLetter? ==> s.log[d.entry].event.None? || d.runs == 3)
  {
    RunKeepsInv(EMPTY, steps);
    assert DeliveryOk(Exec(EMPTY, steps), Exec(EMPTY, steps).deliveries[did]);
  }

  // ---- one group per event, or more ----------------------------------------------------------

  ghost predicate SoleHandler(s: Bus, g: string) {
    forall g' | g' in s.groups && s.groups[g'].handles :: g' == g
  }

  /**
   * When no other group handles the stream, acknowledged means handled here: this group's own handler
   * completed for the event, or the entry was dead-lettered.
   */
  lemma SoleGroupHandlesItself(steps: seq<Step>, g: string, e: nat)
    requires var s := Exec(EMPTY, steps);
             g in s.groups && s.groups[g].handles && e in s.groups[g].acked && SoleHandler(s, g)
    ensures var s := Exec(EMPTY, steps);
            !Skipped(s, g, e) &&
            (e in s.groups[g].deadLettered ||
             (e < |s.log| && s.log[e].event.Some? && exists e' :: HandledBy(s, g, e', s.log[e].event.value)))
  {
    AckedForAReason(steps, g, e);
    RunKeepsInv(EMPTY, steps);
    var s := Exec(EMPTY, steps);
    if s.groups[g].acked[e] == Marked {
      var g', e' :| g' in s.groups && HandledBy(s, g', e', s.log[e].event.value);
      InvGroup(s, g');
    }
  }

  /** An uneventful handling of a fresh delivery, and that of one already marked. */
  function Handling(did: nat): seq<Step> {
    [Advance(did, true), Advance(did, true), Advance(did, true), Advance(did, true), Advance(did, true)]
  }

  function Skipping(did: nat): seq<Step> {
    [Advance(did, true), Advance(did, true), Advance(did, true)]
  }

  lemma HandlingResult(s: Bus, did: nat, g: string, e: nat, event: string)
    requires did in s.deliveries && s.deliveries[did] == Delivery(g, e, Parse, 0)
    requires g in s.groups && s.groups[g].handles && e in s.groups[g].pending
    requires e < |s.log| && s.log[e].event == Some(event) && event !in s.marks
    ensures var s' := Exec(s, Handling(did));
            && g in s'.groups && e in s'.groups[g].acked && s'.groups[g].acked[e] == Marked
            && e in s'.groups[g].completed && s'.marks == s.marks + {event} && s'.log == s.log
            && s'.deliveries == s.deliveries - {did}
            && forall g' | g' in s.groups && g' != g :: g' in s'.groups && s'.groups[g'] == s.groups[g']
  {
    var h, a := Handling(did), Advance(did, true);
    var group := s.groups[g];
    var s1 := Do(s, a);
    assert s1.deliveries[did] == Delivery(g, e, Check, 0);
    var s2 := Do(s1, a);
    assert s2.deliveries[did] == Delivery(g, e, Run(1), 0);
    var s3 := Do(s2, a);
    assert s3.deliveries[did] == Delivery(g, e, Mark(1), 1);
    assert s3.groups[g] == group.(completed := group.completed + {e});
    var s4 := Do(s3, a);
    assert s4.deliveries[did] == Delivery(g, e, Acknowledge(Marked), 1);
    var s5 := Do(s4, a);
    assert e in s5.groups[g].acked && e in s5.groups[g].completed;
    assert h[1..] == [a, a, a, a] && [a, a, a, a][1..] == [a, a, a] && [a, a, a][1..] == [a, a] && [a, a][1..] == [a];
    assert Exec(s4, [a]) == s5;
    assert Exec(s3, [a, a]) == s5;
    assert Exec(s2, [a, a, a]) == s5;
    assert Exec(s1, [a, a, a, a]) == s5;
  }

  lemma SkippingResult(s: Bus, did: nat, g: string, e: nat, event: string)
    requires did in s.deliveries && s.deliveries[did] == Delivery(g, e, Parse, 0)
    requires g in s.groups && e in s.groups[g].pending
    requires e < |s.log| && s.log[e].event == Some(event) && event in s.marks
    ensures var s' := Exec(s, Skipping(did));
            g in s'.groups && e in s'.groups[g].acked && s'.groups[g].acked[e] == Marked &&
            s'.groups[g].completed == s.groups[g].completed && s'.log == s.log
  {
    var a := Advance(did, true);
    var s1 := Do(s, a);
    assert s1.deliveries[did] == Delivery(g, e, Check, 0);
    var s2 := Do(s1, a);
    assert s2.deliveries[did] == Delivery(g, e, Acknowledge(Marked), 0);
    var s3 := Do(s2, a);
    assert [a, a, a][1..] == [a, a] && [a, a][1..] == [a];
    assert Exec(s2, [a]) == s3;
    assert Exec(s1, [a, a]) == s3;
  }

  /** Why a delivery handled without incident acknowledges its entry. */
  function ReasonFor(s: Bus, g: string, e: nat): Reason
    requires g in s.groups && e < |s.log|
  {
    var event := s.log[e].event;
    if event.None? then DeadLettered
    else if event.value in s.marks || s.groups[g].handles then Marked
    else NoHandler
  }

  /** An entry that needs no handler run is acknowledged in three calls; further calls change nothing. */
  lemma ShortResult(s: Bus, did: nat, g: string, e: nat)
    requires did in s.deliveries && s.deliveries[did] == Delivery(g, e, Parse, 0)
    requires g in s.groups && e in s.groups[g].pending && e < |s.log|
    requires s.log[e].event.None? || s.log[e].event.value in s.marks || !s.groups[g].handles
    ensures var s' := Exec(s, Handling(did));
            g in s'.groups && e in s'.groups[g].acked && s'.groups[g].acked[e] == ReasonFor(s, g, e)
  {
    var a, reason := Advance(did, true), ReasonFor(s, g, e);
    var s1 := Do(s, a);
    var s2 := Do(s1, a);
    assert s2.deliveries[did] == Delivery(g, e, Acknowledge(reason), 0) && e in s2.groups[g].pending;
    var s3 := Do(s2, a);
    assert e in s3.groups[g].acked && s3.groups[g].acked[e] == reason && did !in s3.deliveries;
    assert Do(s3, a) == s3;
    hide Do;
    ExecFive(s, a);
  }

  lemma ExecFive(s: Bus, a: Step)
    ensures Exec(s, [a, a, a, a, a]) == Do(Do(Do(Do(Do(s, a), a), a), a), a)
  {
    hide Do;
    assert [a, a, a, a, a][1..] == [a, a, a, a] && [a, a, a, a][1..] == [a, a, a] && [a, a, a][1..] == [a, a];
    ExecTwo(Do(Do(Do(s, a), a), a), a, a);
    assert Exec(Do(Do(s, a), a), [a, a, a]) == Exec(Do(Do(Do(s, a), a), a), [a, a]);
    assert Exec(Do(s, a), [a, a, a, a]) == Exec(Do(Do(s, a), a), [a, a, a]);
  }

  /**
   * No pending entry is ever stranded: whatever happened before, a reclaim can still finish it, with a
   * handler run unless its event is marked, it carries none, or nobody handles it.
   */
  lemma PendingCanFinish(steps: seq<Step>, g: string, e: nat, did: nat)
    requires var s := Exec(EMPTY, steps);
             g in s.groups && e in s.groups[g].pending && did !in s.deliveries
    ensures var s := Exec(EMPTY, steps);
            var s' := Exec(Do(s, Reclaim(g, e, did)), Handling(did));
            && g in s'.groups && e < |s.log| && e in s'.groups[g].acked && s'.groups[g].acked[e] == ReasonFor(s, g, e)
            && (s.groups[g].handles && s.log[e].event.Some? && s.log[e].event.value !in s.marks ==>
                 e in s'.groups[g].completed)
  {
    RunKeepsInv(EMPTY, steps);
    var s := Exec(EMPTY, steps);
    InvGroup(s, g);
    var r := Do(s, Reclaim(g, e, did));
    hide Exec, AdvanceDelivery;
    if s.groups[g].handles && s.log[e].event.Some? && s.log[e].event.value !in s.marks {
      HandlingResult(r, did, g, e, s.log[e].event.value);
    } else {
      ShortResult(r, did, g, e);
    }
  }

  /** `g` has acknowledged the entry although its handler never ran for the entry's event. */
  ghost predicate Skipped(s: Bus, g: string, e: nat) {
    g in s.groups && e in s.groups[g].acked && s.groups[g].acked[e] == Marked &&
    e < |s.log| && s.log[e].event.Some? &&
    forall e' :: !HandledBy(s, g, e', s.log[e].event.value)
  }

  /**
   * With a second group on the stream the mark of the first makes the second skip the event: from any
   * reachable state in which two groups with handlers have read everything, publishing a new event
   * and letting both read it leaves it acknowledged but never handled by the second.
   */
  lemma SecondGroupSkips(s: Bus, g1: string, g2: string, event: string, d1: nat, d2: nat)
    requires Inv(s) && TwoReaders(s, g1, g2)
    requires event !in s.marks && (forall e | e in s.log :: e.event != Some(event))
    requires d1 != d2 && d1 !in s.deliveries && d2 !in s.deliveries
    ensures exists steps :: NoNewGroup(steps) && Skipped(Exec(s, steps), g2, |s.log|)
  {
    hide Do, Inv, TwoReaders, Skipped;
    var first := [Publish(Some(event)), Read(g1, d1)];
    var steps := first + Handling(d1) + [Read(g2, d2)] + Skipping(d2);
    ExecTwo(s, Publish(Some(event)), Read(g1, d1));
    ExecConcat(s, first, Handling(d1));
    ExecConcat(s, first + Handling(d1), [Read(g2, d2)]);
    ExecOne(Exec(s, first + Handling(d1)), Read(g2, d2));
    ExecConcat(s, first + Handling(d1) + [Read(g2, d2)], Skipping(d2));
    SkipRun(s, g1, g2, event, d1, d2);
    assert NoNewGroup(steps) && Skipped(Exec(s, steps), g2, |s.log|);
  }

  ghost predicate NoNewGroup(steps: seq<Step>) {
    forall step | step in steps :: !step.CreateGroup?
  }

  ghost predicate TwoReaders(s: Bus, g1: string, g2: string) {
    g1 != g2 && g1 in s.groups && g2 in s.groups && s.groups[g1].handles && s.groups[g2].handles &&
    s.groups[g1].next == |s.log| && s.groups[g2].next == |s.log|
  }

  lemma SkipRun(s: Bus, g1: string, g2: string, event: string, d1: nat, d2: nat)
    requires Inv(s) && TwoReaders(s, g1, g2)
    requires event !in s.marks && (forall e | e in s.log :: e.event != Some(event))
    requires d1 != d2 && d1 !in s.deliveries && d2 !in s.deliveries
    ensures var sH := Exec(Do(Do(s, Publish(Some(event))), Read(g1, d1)), Handling(d1));
            Skipped(Exec(Do(sH, Read(g2, d2)), Skipping(d2)), g2, |s.log|)
  {
    hide AdvanceDelivery, Exec;
    var e := |s.log|;
    var sR := Do(Do(s, Publish(Some(event))), Read(g1, d1));
    InvGroup(s, g2);
    HandlingResult(sR, d1, g1, e, event);
    var sH := Exec(sR, Handling(d1));
    assert sH.groups[g2] == s.groups[g2];
    var sS := Do(sH, Read(g2, d2));
    SkippingResult(sS, d2, g2, e, event);
    var sF := Exec(sS, Skipping(d2));
    forall e': nat
      ensures !HandledBy(sF, g2, e', event)
    {
      if e' in s.groups[g2].completed {
        assert s.log[e'] in s.log && sF.log[e'] == s.log[e'];
      }
    }
  }

  /** Only what group g has read and recorded differs. */
  ghost predicate OnlyReads(s: Bus, t: Bus, g: string) {
    && t.log == s.log && t.marks == s.marks && t.groups.Keys == s.groups.Keys
    && forall k | k in s.groups ::
         t.groups[k].handles == s.groups[k].handles && (k != g ==> t.groups[k] == s.groups[k])
  }

  lemma OnlyReadsTrans(s: Bus, t: Bus, u: Bus, g: string)
    requires OnlyReads(s, t, g) && OnlyReads(t, u, g)
    ensures OnlyReads(s, u, g)
  {
  }

  lemma ReadOne(s: Bus, g: string, did: nat)
    requires Inv(s) && g in s.groups && s.groups[g].next < |s.log| && did !in s.deliveries
    ensures var t := Do(s, Read(g, did));
            Inv(t) && OnlyReads(s, t, g) && g in t.groups && t.groups[g].next == s.groups[g].next + 1
  {
    hide Inv, Do, OnlyReads;
    ReadKeepsInv(s, g, did);
    ReadOnlyReads(s, g, did);
  }

  lemma ReadOnlyReads(s: Bus, g: string, did: nat)
    requires g in s.groups && s.groups[g].next < |s.log| && did !in s.deliveries
    ensures var t := Do(s, Read(g, did));
            OnlyReads(s, t, g) && g in t.groups && t.groups[g].next == s.groups[g].next + 1
  {
  }

  /** Reading alone, a group gets to the end of the log. */
  lemma {:induction false} CatchUp(s: Bus, g: string) returns (steps: seq<Step>)
    requires Inv(s) && g in s.groups
    ensures var t := Exec(s, steps);
            NoNewGroup(steps) && Inv(t) && OnlyReads(s, t, g) && g in t.groups && t.groups[g].next == |t.log|
    ensures |steps| == |s.log| - s.groups[g].next && forall a | a in steps :: a.Read? && a.g == g
    decreases |s.log| - s.groups[g].next
  {
    InvGroup(s, g);
    hide Do, Inv, Exec, OnlyReads;
    if s.groups[g].next == |s.log| {
      steps := [];
      ExecNone(s);
      assert OnlyReads(s, s, g) by { ReadsNothing(s, g); }
    } else {
      var did := UnusedNat(s.deliveries.Keys);
      var t := Do(s, Read(g, did));
      ReadOne(s, g, did);
      assert t.log == s.log by { SameLog(s, t, g); }
      var rest := CatchUp(t, g);
      steps := [Read(g, did)] + rest;
      ExecConcat(s, [Read(g, did)], rest);
      ExecOne(s, Read(g, did));
      OnlyReadsTrans(s, t, Exec(t, rest), g);
    }
  }

  lemma ReadsNothing(s: Bus, g: string)
    ensures OnlyReads(s, s, g)
  {
  }

  lemma SameLog(s: Bus, t: Bus, g: string)
    requires OnlyReads(s, t, g)
    ensures t.log == s.log
  {
  }

  /** With another handling group, some run publishes an event this group then skips. */
  lemma OtherGroupMakesSkip(s: Bus, g: string, other: string)
    requires Inv(s) && g in s.groups && other in s.groups && g != other
    requires s.groups[g].handles && s.groups[other].handles
    ensures exists steps :: NoNewGroup(steps) && Skipped(Exec(s, steps), g, |s.log|)
  {
    hide Inv, Exec, Skipped;
    var first := CatchUp(s, other);
    var s1 := Exec(s, first);
    var second := CatchUp(s1, g);
    var s2 := Exec(s1, second);
    var inLog := set i | 0 <= i < |s2.log| && s2.log[i].event.Some? :: s2.log[i].event.value;
    var event := UnusedString(s2.marks + inLog);
    forall e | e in s2.log
      ensures e.event != Some(event)
    {
      var i :| 0 <= i < |s2.log| && s2.log[i] == e;
      assert e.event.Some? ==> e.event.value in inLog;
    }
    var d1 := UnusedNat(s2.deliveries.Keys);
    var d2 := UnusedNat(s2.deliveries.Keys + {d1});
    SecondGroupSkips(s2, other, g, event, d1, d2);
    var third :| NoNewGroup(third) && Skipped(Exec(s2, third), g, |s2.log|);
    ExecConcat(s, first, second);
    ExecConcat(s, first + second, third);
    assert NoNewGroup(first + second + third);
  }

  lemma {:induction false} StaysSole(s: Bus, steps: seq<Step>, g: string)
    requires SoleHandler(s, g) && NoNewGroup(steps) && g in s.groups && s.groups[g].handles
    ensures var t := Exec(s, steps);
            SoleHandler(t, g) && g in t.groups && t.groups[g].handles
    decreases |steps|
  {
    if steps != [] {
      StepStaysSole(s, steps[0], g);
      hide Do;
      StaysSole(Do(s, steps[0]), steps[1..], g);
    }
  }

  lemma StepStaysSole(s: Bus, step: Step, g: string)
    requires SoleHandler(s, g) && !step.CreateGroup? && g in s.groups && s.groups[g].handles
    ensures var t := Do(s, step);
            SoleHandler(t, g) && g in t.groups && t.groups[g].handles
  {
    if step.Advance? && step.did in s.deliveries && s.deliveries[step.did].group in s.groups
        && s.deliveries[step.did].entry < |s.log| {
      AdvanceKeepsHandlers(s, step.did, step.ok);
    }
    hide AdvanceDelivery;
  }

  lemma AdvanceKeepsHandlers(s: Bus, did: nat, ok: bool)
    requires did in s.deliveries && s.deliveries[did].group in s.groups && s.deliveries[did].entry < |s.log|
    ensures AdvanceDelivery(s, did, ok).groups.Keys == s.groups.Keys
    ensures forall g | g in s.groups :: AdvanceDelivery(s, did, ok).groups[g].handles == s.groups[g].handles
  {
  }

  lemma SoleNeverSkips(s: Bus, g: string, e: nat)
    requires Inv(s) && SoleHandler(s, g) && g in s.groups
    ensures !Skipped(s, g, e)
  {
    InvGroup(s, g);
    if e in s.groups[g].acked && s.groups[g].acked[e] == Marked {
      assert ReasonOk(s, s.groups[g], e, Marked);
      var g', e' :| g' in s.groups && HandledBy(s, g', e', s.log[e].event.value);
      InvGroup(s, g');
    }
  }

  /**
   * From any reachable state and for a group with a handler: in no later run without new groups does it
   * skip an event published from then on, exactly when no other group handles the stream.
   */
  lemma NeverSkipsExactlyWhenSole(before: seq<Step>, g: string)
    requires g in Exec(EMPTY, before).groups && Exec(EMPTY, before).groups[g].handles
    ensures var s := Exec(EMPTY, before);
            SoleHandler(s, g) <==>
            forall steps, e: nat | NoNewGroup(steps) && e >= |s.log| :: !Skipped(Exec(s, steps), g, e)
  {
    hide Exec, Skipped;
    RunKeepsInv(EMPTY, before);
    var s := Exec(EMPTY, before);
    if SoleHandler(s, g) {
      forall steps, e: nat | NoNewGroup(steps) && e >= |s.log|
        ensures !Skipped(Exec(s, steps), g, e)
      {
        RunKeepsInv(s, steps);
        StaysSole(s, steps, g);
        SoleNeverSkips(Exec(s, steps), g, e);
      }
    } else {
      var other :| other in s.groups && s.groups[other].handles && other != g;
      OtherGroupMakesSkip(s, g, other);
    }
  }

  lemma ExecOne(s: Bus, a: Step)
    ensures Exec(s, [a]) == Do(s, a)
  {
  }

  lemma ExecTwo(s: Bus, a: Step, b: Step)
    ensures Exec(s, [a, b]) == Do(Do(s, a), b)
  {
    assert [a, b][1..] == [b];
    ExecOne(Do(s, a), b);
  }

  lemma {:induction false} ExecConcat(s: Bus, a: seq<Step>, b: seq<Step>)
    ensures Exec(s, a + b) == Exec(Exec(s, a), b)
    decreases |a|
  {
    if a == [] {
      assert a + b == b;
    } else {
      ExecConcat(Do(s, a[0]), a[1..], b);
      assert (a + b)[1..] == a[1..] + b;
    }
  }

  // ---- handleEntry ---------------------------------------------------------------------------

  /** The attempt finishes the handler and records the mark. */
  predicate Works(handlerOk: nat -> bool, markOk: nat -> bool, a: nat) {
    handlerOk(a) && markOk(a)
  }

  /** How many attempts are made: up to the first that works, or all three. */
  function AttemptsMade(handlerOk: nat -> bool, markOk: nat -> bool): nat {
    if Works(handlerOk, markOk, 1) then 1 else if Works(handlerOk, markOk, 2) then 2 else 3
  }

  ghost predicate Succeeds(handlerOk: nat -> bool, markOk: nat -> bool) {
    exists a: nat :: 1 <= a <= 3 && Works(handlerOk, markOk, a)
  }

  lemma SucceedsAt(handlerOk: nat -> bool, markOk: nat -> bool, a: nat)
    requires 1 <= a <= MAX_HANDLER_ATTEMPTS && (forall b: nat | 1 <= b < a :: !Works(handlerOk, markOk, b))
    ensures Works(handlerOk, markOk, a) ==> Succeeds(handlerOk, markOk) && AttemptsMade(handlerOk, markOk) == a
    ensures a == MAX_HANDLER_ATTEMPTS && !Works(handlerOk, markOk, a) ==>
              !Succeeds(handlerOk, markOk) && AttemptsMade(handlerOk, markOk) == a
  {
    assert a > 1 ==> !Works(handlerOk, markOk, 1);
    assert a > 2 ==> !Works(handlerOk, markOk, 2);
  }

  /** The handler is to run for the entry: it parses, is not marked, and somebody handles it. */
  ghost predicate NeedsHandler(s: Bus, g: string, e: nat)
    requires g in s.groups && e < |s.log|
  {
    s.log[e].event.Some? && s.log[e].event.value !in s.marks && s.groups[g].handles
  }

  /** Why handling the entry ends in acknowledging it. */
  ghost function Verdict(s: Bus, g: string, e: nat, handlerOk: nat -> bool, markOk: nat -> bool): Reason
    requires g in s.groups && e < |s.log|
  {
    if NeedsHandler(s, g, e) && !Succeeds(handlerOk, markOk) then DeadLettered else ReasonFor(s, g, e)
  }

  /** Delivery `did`, of entry e to group g, is about to do `stage`. */
  ghost predicate At(s: Bus, did: nat, g: string, e: nat, stage: Stage, runs: nat) {
    did in s.deliveries && s.deliveries[did] == Delivery(g, e, stage, runs) && g in s.groups && e < |s.log|
  }

  /** s' differs from s only in the delivery, the marks and what group g has recorded. */
  ghost predicate SameElse(s: Bus, s': Bus, did: nat, g: string) {
    s'.log == s.log && g in s.groups && g in s'.groups && GroupGrown(s.groups[g], s'.groups[g]) &&
    s'.groups == s.groups[g := s'.groups[g]] && s'.deliveries - {did} == s.deliveries - {did}
  }

  /** ... and the group still waits for the same entries. */
  ghost predicate SameStream(s: Bus, s': Bus, did: nat, g: string) {
    SameElse(s, s', did, g) && s'.groups[g].pending == s.groups[g].pending && s'.groups[g].acked == s.groups[g].acked
  }

  lemma SameElseTrans(s: Bus, m: Bus, s': Bus, did: nat, g: string)
    requires SameElse(s, m, did, g) && SameElse(m, s', did, g)
    ensures SameElse(s, s', did, g)
  {
    assert s'.groups == s.groups[g := s'.groups[g]];
  }

  /** The entry has been acknowledged for this reason if XACK succeeded, and is still pending if not. */
  ghost predicate Settled(before: Group, after: Group, e: nat, reason: Reason, ackOk: bool) {
    if ackOk && e in before.pending then
      after.pending == before.pending - {e} && after.acked == before.acked[e := reason]
    else after.pending == before.pending && after.acked == before.acked
  }

  /** The delivery is over. */
  ghost predicate Finished(s: Bus, s': Bus, did: nat, g: string, e: nat, reason: Reason, ackOk: bool) {
    SameElse(s, s', did, g) && did !in s'.deliveries && Settled(s.groups[g], s'.groups[g], e, reason, ackOk)
  }

  lemma FinishedAfter(s: Bus, m: Bus, s': Bus, did: nat, g: string, e: nat, reason: Reason, ackOk: bool)
    requires SameStream(s, m, did, g) && Finished(m, s', did, g, e, reason, ackOk)
    ensures Finished(s, s', did, g, e, reason, ackOk) && g in s'.groups
  {
    SameElseTrans(s, m, s', did, g);
  }

  lemma SameStreamTrans(s: Bus, m: Bus, s': Bus, did: nat, g: string)
    requires SameStream(s, m, did, g) && SameStream(m, s', did, g)
    ensures SameStream(s, s', did, g)
  {
    SameElseTrans(s, m, s', did, g);
  }

  lemma PutSame(s: Bus, did: nat, d: Delivery, g: string)
    requires g in s.groups
    ensures SameStream(s, Put(s, did, d), did, g)
  {
    assert Put(s, did, d).deliveries - {did} == s.deliveries - {did};
    assert s.groups == s.groups[g := s.groups[g]];
  }

  lemma AfterParse(s: Bus, did: nat, g: string, e: nat)
    requires At(s, did, g, e, Parse, 0)
    ensures var s' := Do(s, Advance(did, true));
            SameStream(s, s', did, g) && s'.marks == s.marks &&
            At(s', did, g, e, if s.log[e].event.None? then DeadLetter else Check, 0)
  {
    PutSame(s, did, Do(s, Advance(did, true)).deliveries[did], g);
  }

  lemma AfterCheck(s: Bus, did: nat, g: string, e: nat)
    requires At(s, did, g, e, Check, 0) && s.log[e].event.Some?
    ensures var s' := Do(s, Advance(did, true));
            SameStream(s, s', did, g) && s'.marks == s.marks &&
            At(s', did, g, e,
              if s.log[e].event.value in s.marks then Acknowledge(Marked)
              else if !s.groups[g].handles then Acknowledge(NoHandler) else Run(1), 0)
  {
    PutSame(s, did, Do(s, Advance(did, true)).deliveries[did], g);
  }

  lemma AfterRun(s: Bus, did: nat, g: string, e: nat, a: nat, runs: nat, ok: bool)
    requires At(s, did, g, e, Run(a), runs)
    ensures var s' := Do(s, Advance(did, ok));
            SameStream(s, s', did, g) && s'.marks == s.marks &&
            At(s', did, g, e, if ok then Mark(a) else AfterFailure(a), runs + 1) &&
            (ok ==> e in s'.groups[g].completed)
  {
    PutSame(s, did, Do(s, Advance(did, ok)).deliveries[did], g);
  }

  lemma AfterMark(s: Bus, did: nat, g: string, e: nat, a: nat, runs: nat, ok: bool)
    requires At(s, did, g, e, Mark(a), runs) && s.log[e].event.Some?
    ensures var s' := Do(s, Advance(did, ok));
            SameStream(s, s', did, g) &&
            s'.marks == (if ok then s.marks + {s.log[e].event.value} else s.marks) &&
            At(s', did, g, e, if ok then Acknowledge(Marked) else AfterFailure(a), runs)
  {
    PutSame(s, did, Do(s, Advance(did, ok)).deliveries[did], g);
  }

  lemma AfterDeadLetter(s: Bus, did: nat, g: string, e: nat, runs: nat)
    requires At(s, did, g, e, DeadLetter, runs)
    ensures var s' := Do(s, Advance(did, true));
            SameStream(s, s', did, g) && s'.marks == s.marks &&
            At(s', did, g, e, Acknowledge(DeadLettered), runs) && e in s'.groups[g].deadLettered
  {
    PutSame(s, did, Do(s, Advance(did, true)).deliveries[did], g);
  }

  lemma AfterAck(s: Bus, did: nat, g: string, e: nat, reason: Reason, runs: nat, ok: bool)
    requires At(s, did, g, e, Acknowledge(reason), runs)
    ensures var s' := Do(s, Advance(did, ok));
            Finished(s, s', did, g, e, reason, ok) && s'.marks == s.marks
  {
    var s' := Do(s, Advance(did, ok));
    assert s'.deliveries - {did} == s.deliveries - {did};
    assert s'.groups == s.groups[g := s'.groups[g]];
  }

  /** One consumer handling one delivery without interruption, in the source's own control flow. */
  class Consumer {
    var bus: Bus
    ghost var taken: seq<Step>

    constructor (bus: Bus)
      ensures this.bus == bus && taken == []
    {
      this.bus := bus;
      taken := [];
    }

    /** One handler run or Redis call. */
    method Call(did: nat, ok: bool, ghost start: Bus)
      requires bus == Exec(start, taken)
      modifies this
      ensures bus == Do(old(bus), Advance(did, ok)) && bus == Exec(start, taken)
    {
      ExecConcat(start, taken, [Advance(did, ok)]);
      ExecOne(bus, Advance(did, ok));
      bus := Do(bus, Advance(did, ok));
      taken := taken + [Advance(did, ok)];
    }

    /**
     * `handlerOk` and `markOk` give the outcome of each attempt, `ackOk` that of XACK. The calls made
     * are steps of the bus. When they are over the delivery is gone; its entry is acknowledged, with
     * the reason that fits, if XACK succeeded, and else pending as before; the handler has run up to
     * the first attempt that worked, or three times and then the entry was dead-lettered. Nothing else
     * has changed.
     */
    method HandleEntry(did: nat, handlerOk: nat -> bool, markOk: nat -> bool, ackOk: bool) returns (runs: nat)
      requires Inv(bus) && taken == [] && did in bus.deliveries && bus.deliveries[did].stage.Parse?
      modifies this
      ensures bus == Exec(old(bus), taken)
      ensures var d := old(bus).deliveries[did];
              var g, e := d.group, d.entry;
              g in old(bus).groups && e < |old(bus).log| &&
              var reason := Verdict(old(bus), g, e, handlerOk, markOk);
              var works := NeedsHandler(old(bus), g, e) && Succeeds(handlerOk, markOk);
              && Finished(old(bus), bus, did, g, e, reason, ackOk) && g in bus.groups
              && runs == (if NeedsHandler(old(bus), g, e) then AttemptsMade(handlerOk, markOk) else 0)
              && bus.marks == old(bus).marks + (if works then {old(bus).log[e].event.value} else {})
              && (works ==> e in bus.groups[g].completed)
              && (reason == DeadLettered ==> e in bus.groups[g].deadLettered)
    {
      ghost var start := bus;
      assert DeliveryOk(bus, bus.deliveries[did]);
      runs := 0;
      var g, e := bus.deliveries[did].group, bus.deliveries[did].entry;
      assert At(bus, did, g, e, Parse, 0);
      hide Inv, DeliveryOk, Exec, Do, Succeeds, AttemptsMade, Finished, SameElse, Works, GroupGrown;
      var event := bus.log[e].event;
      assert bus == Exec(start, []) by { ExecNone(start); }
      AfterParse(bus, did, g, e);
      Call(did, true, start);
      ghost var parsed := bus;
      SameElseMeans(start, parsed, did, g);
      if event.None? {
        GiveUp(did, ackOk, g, e, 0, start);
        FinishedAfter(start, parsed, bus, did, g, e, DeadLettered, ackOk);
        return;
      }
      var known := event.value in bus.marks;
      AfterCheck(bus, did, g, e);
      Call(did, true, start);
      ghost var checked := bus;
      SameStreamTrans(start, parsed, checked, did, g);
      SameElseMeans(start, checked, did, g);
      if known || !bus.groups[g].handles {
        ghost var reason := if known then Marked else NoHandler;
        Ack(did, reason, ackOk, g, e, 0, start);
        FinishedAfter(start, checked, bus, did, g, e, reason, ackOk);
        return;
      }
      runs := RunAttempts(did, handlerOk, markOk, ackOk, g, e, start);
      ghost var reason := if Succeeds(handlerOk, markOk) then Marked else DeadLettered;
      FinishedAfter(start, checked, bus, did, g, e, reason, ackOk);
    }

    /** One attempt: the handler, and after it the mark and the acknowledgement. */
    method Attempt(did: nat, a: nat, handlerOk: bool, markOk: bool, ackOk: bool,
                   g: string, e: nat, ghost start: Bus) returns (over: bool)
      requires 1 <= a && bus == Exec(start, taken)
      requires At(bus, did, g, e, Run(a), a - 1) && bus.log[e].event.Some?
      modifies this
      ensures bus == Exec(start, taken) && bus.log == old(bus).log && over == (handlerOk && markOk)
      ensures if over then
                Finished(old(bus), bus, did, g, e, Marked, ackOk) && Handed(old(bus), bus, g, e)
              else
                At(bus, did, g, e, AfterFailure(a), a) && bus.marks == old(bus).marks &&
                SameStream(old(bus), bus, did, g)
    {
      hide Exec, Do, Finished, SameElse;
      ghost var s := bus;
      AfterRun(bus, did, g, e, a, a - 1, handlerOk);
      Call(did, handlerOk, start);
      ghost var ran := bus;
      SameElseMeans(s, ran, did, g);
      if handlerOk {
        AfterMark(bus, did, g, e, a, a, markOk);
        Call(did, markOk, start);
        ghost var marked := bus;
        SameStreamTrans(s, ran, marked, did, g);
        SameElseMeans(ran, marked, did, g);
        if markOk {
          Ack(did, Marked, ackOk, g, e, a, start);
          FinishedMeans(marked, bus, did, g, e, Marked, ackOk);
          FinishedAfter(s, marked, bus, did, g, e, Marked, ackOk);
          return true;
        }
      }
      over := false;
    }

    /** XACK. */
    method Ack(did: nat, ghost reason: Reason, ackOk: bool, g: string, e: nat, ghost runs: nat, ghost start: Bus)
      requires bus == Exec(start, taken) && At(bus, did, g, e, Acknowledge(reason), runs)
      modifies this
      ensures bus == Exec(start, taken) && bus.marks == old(bus).marks
      ensures Finished(old(bus), bus, did, g, e, reason, ackOk)
    {
      hide Exec, Do, Finished, SameElse;
      AfterAck(bus, did, g, e, reason, runs, ackOk);
      Call(did, ackOk, start);
    }

    /** The DLQ write and the acknowledgement after it. */
    method GiveUp(did: nat, ackOk: bool, g: string, e: nat, runs: nat, ghost start: Bus)
      requires bus == Exec(start, taken) && At(bus, did, g, e, DeadLetter, runs)
      modifies this
      ensures bus == Exec(start, taken) && bus.marks == old(bus).marks
      ensures Finished(old(bus), bus, did, g, e, DeadLettered, ackOk)
      ensures g in bus.groups && e in bus.groups[g].deadLettered
    {
      hide Exec, Do, Finished, SameElse;
      ghost var s := bus;
      AfterDeadLetter(bus, did, g, e, runs);
      Call(did, true, start);
      ghost var written := bus;
      Ack(did, DeadLettered, ackOk, g, e, runs, start);
      FinishedMeans(written, bus, did, g, e, DeadLettered, ackOk);
      FinishedAfter(s, written, bus, did, g, e, DeadLettered, ackOk);
    }

    /** The bounded retry loop. */
    method RunAttempts(did: nat, handlerOk: nat -> bool, markOk: nat -> bool, ackOk: bool,
                       g: string, e: nat, ghost start: Bus) returns (runs: nat)
      requires bus == Exec(start, taken) && At(bus, did, g, e, Run(1), 0) && bus.log[e].event.Some?
      modifies this
      ensures bus == Exec(start, taken) && runs == AttemptsMade(handlerOk, markOk)
      ensures if Succeeds(handlerOk, markOk) then
                Finished(old(bus), bus, did, g, e, Marked, ackOk) && Handed(old(bus), bus, g, e)
              else
                Finished(old(bus), bus, did, g, e, DeadLettered, ackOk) && bus.marks == old(bus).marks &&
                g in bus.groups && e in bus.groups[g].deadLettered
    {
      hide Exec, Do, Succeeds, AttemptsMade, Handed, Finished, SameElse, Works;
      ghost var before := bus;
      runs := 0;
      SameAsItself(bus, did, g);
      while true
        invariant runs < MAX_HANDLER_ATTEMPTS
        invariant bus == Exec(start, taken) && bus.log == before.log && bus.marks == before.marks
        invariant SameStream(before, bus, did, g)
        invariant At(bus, did, g, e, Run(runs + 1), runs)
        invariant forall a: nat | 1 <= a <= runs :: !Works(handlerOk, markOk, a)
        decreases MAX_HANDLER_ATTEMPTS - runs
      {
        ghost var s := bus;
        runs := runs + 1;
        SucceedsAt(handlerOk, markOk, runs);
        WorksMeans(handlerOk, markOk, runs);
        var over := Attempt(did, runs, handlerOk(runs), markOk(runs), ackOk, g, e, start);
        if over {
          FinishedAfter(before, s, bus, did, g, e, Marked, ackOk);
          HandedFrom(before, s, bus, g, e);
          return;
        }
        SameStreamTrans(before, s, bus, did, g);
        if runs == MAX_HANDLER_ATTEMPTS {
          ghost var tried := bus;
          GiveUp(did, ackOk, g, e, runs, start);
          FinishedAfter(before, tried, bus, did, g, e, DeadLettered, ackOk);
          return;
        }
      }
    }
  }

  /** Group g's handler completed for entry e, and its event has been marked. */
  ghost predicate Handed(s: Bus, s': Bus, g: string, e: nat) {
    e < |s.log| && s.log[e].event.Some? && s'.marks == s.marks + {s.log[e].event.value} &&
    g in s'.groups && e in s'.groups[g].completed
  }

  lemma HandedFrom(s: Bus, m: Bus, s': Bus, g: string, e: nat)
    requires m.log == s.log && m.marks == s.marks && Handed(m, s', g, e)
    ensures Handed(s, s', g, e)
  {
  }

  lemma WorksMeans(handlerOk: nat -> bool, markOk: nat -> bool, a: nat)
    ensures Works(handlerOk, markOk, a) == (handlerOk(a) && markOk(a))
  {
  }

  lemma SameAsItself(s: Bus, did: nat, g: string)
    requires g in s.groups
    ensures SameStream(s, s, did, g)
  {
    assert s.groups == s.groups[g := s.groups[g]];
  }

  lemma SameElseMeans(s: Bus, s': Bus, did: nat, g: string)
    requires SameElse(s, s', did, g)
    ensures s'.log == s.log && g in s.groups && g in s'.groups && GroupGrown(s.groups[g], s'.groups[g])
  {
  }

  lemma FinishedMeans(s: Bus, s': Bus, did: nat, g: string, e: nat, reason: Reason, ackOk: bool)
    requires Finished(s, s', did, g, e, reason, ackOk)
    ensures s'.log == s.log && g in s.groups && g in s'.groups && GroupGrown(s.groups[g], s'.groups[g])
  {
  }

  lemma ExecNone(s: Bus)
    ensures Exec(s, []) == s
  {
  }
}
