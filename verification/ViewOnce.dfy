/** Concurrent view-once consumes: any number of callers interleave the find, claim and purge calls. */
module ViewOnce {
  datatype Phase = Finding | Claiming | Purging | Served | Refused
  datatype Caller = Caller(media: string, phase: Phase)

  /** `rows` holds the viewed mark of each view-once row; `used` every id ever created. */
  datatype State = State(rows: map<string, bool>, used: set<string>, callers: map<nat, Caller>)

  datatype Step =
    | Create(media: string)
    | Remove(media: string)
    | Begin(caller: nat, media: string)
    | Advance(caller: nat)

  function Move(s: State, c: nat, phase: Phase): State
    requires c in s.callers
  {
    s.(callers := s.callers[c := s.callers[c].(phase := phase)])
  }

  function AdvanceCaller(s: State, c: nat): State
    requires c in s.callers
  {
    var m := s.callers[c].media;
    match s.callers[c].phase
    case Finding => Move(s, c, if m in s.rows then Claiming else Refused)
    case Claiming =>
      // UPDATE ... SET viewed_at WHERE viewed_at IS NULL
      if m in s.rows && !s.rows[m] then Move(s.(rows := s.rows[m := true]), c, Purging)
      else Move(s, c, Refused)
    case Purging => Move(s.(rows := s.rows - {m}), c, Served)
    case Served => s
    case Refused => s
  }

  function Do(s: State, step: Step): State {
    match step
    case Create(m) => if m in s.used then s else s.(rows := s.rows[m := false], used := s.used + {m})
    case Remove(m) => s.(rows := s.rows - {m})
    case Begin(c, m) => if c in s.callers then s else s.(callers := s.callers[c := Caller(m, Finding)])
    case Advance(c) => if c in s.callers then AdvanceCaller(s, c) else s
  }

  function Exec(steps: seq<Step>): State {
    if steps == [] then State(map[], {}, map[]) else Do(Exec(steps[..|steps| - 1]), steps[|steps| - 1])
  }

  /** The caller holds, or has used, the single view. */
  predicate Won(caller: Caller) {
    caller.phase.Purging? || caller.phase.Served?
  }

  ghost predicate Inv(s: State) {
    s.rows.Keys <= s.used &&
    (forall c | c in s.callers && Won(s.callers[c]) ::
      var m := s.callers[c].media;
      m in s.used && (m in s.rows ==> s.rows[m])) &&
    (forall c, d | c in s.callers && d in s.callers && Won(s.callers[c]) && Won(s.callers[d]) &&
      s.callers[c].media == s.callers[d].media :: c == d)
  }

  lemma StepKeepsInv(s: State, step: Step)
    requires Inv(s)
    ensures Inv(Do(s, step))
  {
    match step
    case Advance(c) => if c in s.callers { AdvanceKeepsInv(s, c); }
    case _ =>
  }

  lemma AdvanceKeepsInv(s: State, c: nat)
    requires Inv(s) && c in s.callers
    ensures Inv(AdvanceCaller(s, c))
  {
  }

  lemma {:induction false} RunKeepsInv(steps: seq<Step>)
    ensures Inv(Exec(steps))
  {
    if steps != [] {
      hide Do, Inv;
      RunKeepsInv(steps[..|steps| - 1]);
      StepKeepsInv(Exec(steps[..|steps| - 1]), steps[|steps| - 1]);
    }
  }

  /** In every interleaving at most one consume of a media id succeeds. */
  lemma AtMostOneView(steps: seq<Step>, c: nat, d: nat)
    requires var s := Exec(steps);
             c in s.callers && d in s.callers && s.callers[c].phase.Served? && s.callers[d].phase.Served? &&
             s.callers[c].media == s.callers[d].media
    ensures c == d
  {
    RunKeepsInv(steps);
  }

  /** A caller left to itself is served exactly when the row is there unviewed, and takes it away. */
  lemma LoneConsume(s: State, c: nat, m: string)
    requires c !in s.callers
    ensures var a := Advance(c);
            var t := Do(Do(Do(Do(s, Begin(c, m)), a), a), a);
            c in t.callers && t.callers[c] == Caller(m, if m in s.rows && !s.rows[m] then Served else Refused) &&
            t.rows == if m in s.rows && !s.rows[m] then s.rows - {m} else s.rows
  {
  }
}
