/** The bounded per-connection send queue: durable frames are kept, ephemeral ones coalesced or dropped. */
module SendQueue {
  import opened Wrappers

  datatype Kind = Durable | Ephemeral
  datatype Frame = Frame(kind: Kind, frameType: string, data: string)

  function DurableOnly(fs: seq<Frame>): seq<Frame> {
    if fs == [] then []
    else
      var rest, f := DurableOnly(fs[..|fs| - 1]), fs[|fs| - 1];
      if f.kind.Durable? then rest + [f] else rest
  }

  /** The last ephemeral frame of a type. */
  function LastOf(fs: seq<Frame>, frameType: string): Option<Frame> {
    if fs == [] then None
    else
      var f := fs[|fs| - 1];
      if f.kind.Ephemeral? && f.frameType == frameType then Some(f) else LastOf(fs[..|fs| - 1], frameType)
  }

  predicate SameType(f: Frame, g: Frame) {
    f.kind.Ephemeral? && g.kind.Ephemeral? && f.frameType == g.frameType
  }

  lemma {:induction false} DurableConcat(fs: seq<Frame>, gs: seq<Frame>)
    ensures DurableOnly(fs + gs) == DurableOnly(fs) + DurableOnly(gs)
  {
    if gs == [] {
      assert fs + gs == fs;
    } else {
      DurableConcat(fs, gs[..|gs| - 1]);
      assert (fs + gs)[..|fs + gs| - 1] == fs + gs[..|gs| - 1];
    }
  }

  /** Replacing an ephemeral frame by another leaves the durable frames as they are. */
  lemma ReplaceEphemeral(q: seq<Frame>, i: nat, f: Frame)
    requires i < |q| && q[i].kind.Ephemeral? && f.kind.Ephemeral?
    ensures DurableOnly(q[i := f]) == DurableOnly(q)
  {
    assert q == q[..i] + [q[i]] + q[i + 1..];
    assert q[i := f] == q[..i] + [f] + q[i + 1..];
    DurableConcat(q[..i] + [q[i]], q[i + 1..]);
    DurableConcat(q[..i] + [f], q[i + 1..]);
    assert (q[..i] + [q[i]])[..i] == q[..i] && (q[..i] + [f])[..i] == q[..i];
  }

  /**
   * No durable frame is ever lost, duplicated or reordered; a type has at most one ephemeral frame
   * waiting, and that is the latest one accepted.
   */
  ghost predicate QueueOk(queue: seq<Frame>, offered: seq<Frame>, accepted: seq<Frame>, drained: seq<Frame>) {
    DurableOnly(drained + queue) == DurableOnly(offered) && OnePerType(queue) && Latest(queue, accepted)
  }

  ghost predicate OnePerType(queue: seq<Frame>) {
    forall i, j | 0 <= i < j < |queue| :: !SameType(queue[i], queue[j])
  }

  ghost predicate Latest(queue: seq<Frame>, accepted: seq<Frame>) {
    forall i | 0 <= i < |queue| && queue[i].kind.Ephemeral? ::
      LastOf(accepted, queue[i].frameType) == Some(queue[i])
  }

  lemma Snoc(fs: seq<Frame>, f: Frame)
    ensures DurableOnly(fs + [f]) == DurableOnly(fs) + if f.kind.Durable? then [f] else []
    ensures forall t :: LastOf(fs + [f], t) == if f.kind.Ephemeral? && f.frameType == t then Some(f) else LastOf(fs, t)
  {
    assert (fs + [f])[..|fs|] == fs;
  }

  ghost predicate NoneLike(queue: seq<Frame>, f: Frame) {
    forall i | 0 <= i < |queue| :: !SameType(queue[i], f)
  }

  lemma AppendKeepsOk(queue: seq<Frame>, offered: seq<Frame>, accepted: seq<Frame>, drained: seq<Frame>, f: Frame)
    requires QueueOk(queue, offered, accepted, drained) && NoneLike(queue, f)
    ensures QueueOk(queue + [f], offered + [f], accepted + [f], drained)
  {
    hide DurableOnly, LastOf, OnePerType, Latest, NoneLike;
    Snoc(offered, f);
    Snoc(drained + queue, f);
    assert drained + (queue + [f]) == drained + queue + [f];
    AppendLatest(queue, accepted, f);
    AppendOnePerType(queue, f);
  }

  lemma AppendOnePerType(queue: seq<Frame>, f: Frame)
    requires OnePerType(queue) && NoneLike(queue, f)
    ensures OnePerType(queue + [f])
  {
    hide SameType;
  }

  lemma AppendLatest(queue: seq<Frame>, accepted: seq<Frame>, f: Frame)
    requires Latest(queue, accepted) && NoneLike(queue, f)
    ensures Latest(queue + [f], accepted + [f])
  {
    Snoc(accepted, f);
    hide LastOf;
    forall i | 0 <= i < |queue| && queue[i].kind.Ephemeral?
      ensures LastOf(accepted + [f], queue[i].frameType) == Some(queue[i])
    {
      assert !SameType(queue[i], f);
    }
  }

  lemma ReplaceKeepsOk(queue: seq<Frame>, offered: seq<Frame>, accepted: seq<Frame>, drained: seq<Frame>,
                       f: Frame, i: nat)
    requires QueueOk(queue, offered, accepted, drained) && i < |queue| && SameType(queue[i], f)
    ensures QueueOk(queue[i := f], offered + [f], accepted + [f], drained)
  {
    Snoc(offered, f);
    ReplaceEphemeral(queue, i, f);
    DurableConcat(drained, queue);
    DurableConcat(drained, queue[i := f]);
    ReplaceLatest(queue, accepted, f, i);
    ReplaceOnePerType(queue, f, i);
  }

  lemma ReplaceOnePerType(queue: seq<Frame>, f: Frame, i: nat)
    requires OnePerType(queue) && i < |queue| && SameType(queue[i], f)
    ensures OnePerType(queue[i := f])
  {
  }

  lemma ReplaceLatest(queue: seq<Frame>, accepted: seq<Frame>, f: Frame, i: nat)
    requires Latest(queue, accepted) && OnePerType(queue) && i < |queue| && SameType(queue[i], f)
    ensures Latest(queue[i := f], accepted + [f])
  {
    Snoc(accepted, f);
    hide LastOf;
    forall j | 0 <= j < |queue| && j != i && queue[j].kind.Ephemeral?
      ensures LastOf(accepted + [f], queue[j].frameType) == Some(queue[j])
    {
      assert !SameType(queue[if i < j then i else j], queue[if i < j then j else i]);
    }
  }

  /** The frame went to the end, or took the place of the ephemeral frame of its type. */
  ghost predicate Placed(before: seq<Frame>, after: seq<Frame>, frame: Frame) {
    if exists i :: 0 <= i < |before| && SameType(before[i], frame)
    then exists i :: 0 <= i < |before| && SameType(before[i], frame) && after == before[i := frame]
    else after == before + [frame]
  }

  class Queue {
    const highWatermark: int
    var queue: seq<Frame>
    /** Every frame offered, every frame accepted, every frame handed out, in order. */
    ghost var offered: seq<Frame>
    ghost var accepted: seq<Frame>
    ghost var drained: seq<Frame>

    constructor (highWatermark: int)
      ensures Valid() && queue == [] && offered == [] && accepted == [] && drained == []
      ensures this.highWatermark == highWatermark
    {
      this.highWatermark := highWatermark;
      queue, offered, accepted, drained := [], [], [], [];
    }

    ghost predicate Valid()
      reads this
    {
      QueueOk(queue, offered, accepted, drained)
    }

    method FindEphemeral(frame: Frame) returns (existing: int)
      ensures existing >= 0 ==> existing < |queue| && SameType(queue[existing], frame)
      ensures existing < 0 ==> NoneLike(queue, frame)
    {
      for i := 0 to |queue|
        invariant forall j | 0 <= j < i :: !SameType(queue[j], frame)
      {
        if SameType(queue[i], frame) {
          return i;
        }
      }
      existing := -1;
    }

    /** A frame is refused only when ephemeral, with none of its type to replace, at the watermark. */
    method Enqueue(frame: Frame) returns (ok: bool)
      requires Valid()
      modifies this
      ensures Valid() && offered == old(offered) + [frame] && drained == old(drained)
      ensures accepted == if ok then old(accepted) + [frame] else old(accepted)
      ensures !ok <==> frame.kind.Ephemeral? && |old(queue)| >= highWatermark && NoneLike(old(queue), frame)
      ensures !ok ==> queue == old(queue)
      ensures ok ==> Placed(old(queue), queue, frame)
    {
      offered := offered + [frame];
      if frame.kind.Ephemeral? {
        var existing := FindEphemeral(frame);
        if existing >= 0 {
          ReplaceKeepsOk(queue, old(offered), accepted, drained, frame, existing);
          queue := queue[existing := frame];
          accepted := accepted + [frame];
          return true;
        }
        if |queue| >= highWatermark {
          Snoc(old(offered), frame);
          return false;
        }
      }
      AppendKeepsOk(queue, old(offered), accepted, drained, frame);
      queue := queue + [frame];
      accepted := accepted + [frame];
      return true;
    }

    method Drain() returns (out: seq<Frame>)
      requires Valid()
      modifies this`queue, this`drained
      ensures Valid() && out == old(queue) && queue == [] && drained == old(drained) + out
    {
      out := queue;
      drained := drained + out;
      queue := [];
      assert drained + queue == old(drained) + old(queue);
    }
  }
}
