/**
 * Idempotent send: any number of send calls of one conversation interleave single store calls. The
 * store has two unique indexes, on the client message id and on the sequence number; the numbers
 * supplied to a call are arbitrary, so collisions of every kind are covered.
 */
module SendProtocol {
  import opened Wrappers

  const MAX_SEQ_ATTEMPTS: nat := 3

  datatype Doc = Doc(id: nat, client: string, number: nat, serverTs: nat)
  datatype Ack = Ack(id: nat, number: nat, serverTs: nat)

  /** Where one call stands: which store call it makes next. */
  datatype Phase =
    | Lookup
    | Take(attempt: nat)
    | Insert(attempt: nat, number: nat)
    | FindWinner(attempt: nat)
    | Publish(doc: Doc)
    | Acked(ack: Ack)
    | Failed

  /** A call's key in `sends` is the message id it generates for its document. */
  datatype Send = Send(client: string, now: nat, phase: Phase)
  datatype State = State(docs: seq<Doc>, sends: map<nat, Send>, published: seq<nat>)

  datatype Step =
    | Begin(id: nat, client: string, now: nat)
    | Advance(id: nat, supplied: nat)
    | Crash(id: nat)

  function FindByClient(docs: seq<Doc>, client: string): (r: Option<Doc>)
    ensures r.Some? ==> r.value in docs && r.value.client == client
    ensures r.None? ==> forall d | d in docs :: d.client != client
  {
    if docs == [] then None
    else if docs[0].client == client then Some(docs[0])
    else FindByClient(docs[1..], client)
  }

  /** Either unique index refuses the document. */
  predicate DuplicateKey(docs: seq<Doc>, doc: Doc) {
    exists d | d in docs :: d.client == doc.client || d.number == doc.number
  }

  function AckOf(d: Doc): Ack {
    Ack(d.id, d.number, d.serverTs)
  }

  function Move(s: State, id: nat, phase: Phase): State
    requires id in s.sends
  {
    s.(sends := s.sends[id := s.sends[id].(phase := phase)])
  }

  function AdvanceSend(s: State, id: nat, supplied: nat): State
    requires id in s.sends
  {
    var send := s.sends[id];
    match send.phase
    case Lookup =>
      var existing := FindByClient(s.docs, send.client);
      Move(s, id, if existing.Some? then Acked(AckOf(existing.value)) else Take(1))
    case Take(attempt) => Move(s, id, Insert(attempt, supplied))
    case Insert(attempt, number) =>
      var doc := Doc(id, send.client, number, send.now);
      if DuplicateKey(s.docs, doc) then Move(s, id, FindWinner(attempt))
      else Move(s.(docs := s.docs + [doc]), id, Publish(doc))
    case FindWinner(attempt) =>
      var winner := FindByClient(s.docs, send.client);
      Move(s, id,
        if winner.Some? then Acked(AckOf(winner.value))
        else if attempt == MAX_SEQ_ATTEMPTS then Failed
        else Take(attempt + 1))
    case Publish(doc) => Move(s.(published := s.published + [doc.id]), id, Acked(AckOf(doc)))
    case Acked(_) => s
    case Failed => s
  }

  function Do(s: State, step: Step): State {
    match step
    case Begin(id, client, now) =>
      if id in s.sends then s else s.(sends := s.sends[id := Send(client, now, Lookup)])
    case Advance(id, supplied) => if id in s.sends then AdvanceSend(s, id, supplied) else s
    case Crash(id) => if id in s.sends && !s.sends[id].phase.Acked? then Move(s, id, Failed) else s
  }

  function Exec(steps: seq<Step>): State {
    if steps == [] then State([], map[], []) else Do(Exec(steps[..|steps| - 1]), steps[|steps| - 1])
  }

  // ---- the invariant -------------------------------------------------------------------------

  ghost predicate IndexesUnique(docs: seq<Doc>) {
    forall i, j | 0 <= i < j < |docs| ::
      docs[i].client != docs[j].client && docs[i].number != docs[j].number && docs[i].id != docs[j].id
  }

  ghost predicate Stored(s: State, id: nat) {
    exists d :: d in s.docs && d.id == id
  }

  /** The acknowledgement is that of the stored document; of the call's own one only when published. */
  ghost predicate AckOk(s: State, id: nat, client: string, ack: Ack) {
    (exists d :: d in s.docs && d.client == client && ack == AckOf(d)) && (ack.id == id ==> id in s.published)
  }

  /** A stored document is published, or about to be, or its call was cut off. */
  ghost predicate Announced(s: State, d: Doc) {
    d.id in s.published || (d.id in s.sends && s.sends[d.id].phase in {Publish(d), Failed})
  }

  ghost predicate SendOk(s: State, id: nat, send: Send) {
    match send.phase
    case Lookup => !Stored(s, id)
    case Publish(doc) => doc in s.docs && doc.id == id && doc.client == send.client && id !in s.published
    case Acked(ack) => AckOk(s, id, send.client, ack)
    case Failed => true
    case ph => !Stored(s, id) && 1 <= ph.attempt <= MAX_SEQ_ATTEMPTS
  }

  ghost predicate Inv(s: State) {
    IndexesUnique(s.docs) &&
    (forall d | d in s.docs :: d.id in s.sends && s.sends[d.id].client == d.client && Announced(s, d)) &&
    (forall id | id in s.sends :: SendOk(s, id, s.sends[id])) &&
    (forall id | id in s.published :: Stored(s, id)) &&
    (forall i, j | 0 <= i < j < |s.published| :: s.published[i] != s.published[j])
  }

  lemma StepKeepsInv(s: State, step: Step)
    requires Inv(s)
    ensures Inv(Do(s, step))
  {
    match step
    case Advance(id, supplied) => if id in s.sends { AdvanceKeepsInv(s, id, supplied); }
    case _ =>
  }

  lemma AdvanceKeepsInv(s: State, id: nat, supplied: nat)
    requires Inv(s) && id in s.sends
    ensures Inv(AdvanceSend(s, id, supplied))
  {
    var send := s.sends[id];
    assert SendOk(s, id, send);
    hide Inv, DuplicateKey;
    match send.phase
    case Lookup =>
      var existing := FindByClient(s.docs, send.client);
      MoveKeepsInv(s, id, if existing.Some? then Acked(AckOf(existing.value)) else Take(1));
    case Take(attempt) => MoveKeepsInv(s, id, Insert(attempt, supplied));
    case Insert(attempt, number) =>
      var doc := Doc(id, send.client, number, send.now);
      if DuplicateKey(s.docs, doc) {
        MoveKeepsInv(s, id, FindWinner(attempt));
      } else {
        InsertKeepsInv(s, id, doc);
      }
    case FindWinner(attempt) =>
      var winner := FindByClient(s.docs, send.client);
      MoveKeepsInv(s, id,
        if winner.Some? then Acked(AckOf(winner.value))
        else if attempt == MAX_SEQ_ATTEMPTS then Failed else Take(attempt + 1));
    case Publish(doc) => PublishKeepsInv(s, id, doc);
    case Acked(_) =>
    case Failed =>
  }

  lemma MoveKeepsInv(s: State, id: nat, phase: Phase)
    requires Inv(s) && id in s.sends && SendOk(s, id, s.sends[id].(phase := phase))
    ensures Inv(Move(s, id, phase))
  {
    var s' := Move(s, id, phase);
    forall id' | id' in s'.sends
      ensures SendOk(s', id', s'.sends[id'])
    {
      assert SendOk(s, id', s'.sends[id']);
    }
  }

  lemma PublishKeepsInv(s: State, id: nat, doc: Doc)
    requires Inv(s) && id in s.sends && s.sends[id].phase == Publish(doc)
    ensures Inv(Move(s.(published := s.published + [doc.id]), id, Acked(AckOf(doc))))
  {
    var s' := Move(s.(published := s.published + [doc.id]), id, Acked(AckOf(doc)));
    assert SendOk(s, id, s.sends[id]);
    assert Stored(s', id);
    forall id' | id' in s'.sends
      ensures SendOk(s', id', s'.sends[id'])
    {
      assert SendOk(s, id', s.sends[id']);
    }
  }

  lemma IndexesSnoc(docs: seq<Doc>, doc: Doc)
    requires IndexesUnique(docs) && !DuplicateKey(docs, doc) && forall d | d in docs :: d.id != doc.id
    ensures IndexesUnique(docs + [doc])
  {
    assert forall i | 0 <= i < |docs| :: docs[i] in docs;
  }

  lemma InsertKeepsInv(s: State, id: nat, doc: Doc)
    requires Inv(s) && id in s.sends && s.sends[id].phase.Insert?
    requires doc.id == id && doc.client == s.sends[id].client && !DuplicateKey(s.docs, doc)
    ensures Inv(Move(s.(docs := s.docs + [doc]), id, Publish(doc)))
  {
    var s' := Move(s.(docs := s.docs + [doc]), id, Publish(doc));
    assert SendOk(s, id, s.sends[id]);
    assert id !in s.published;
    IndexesSnoc(s.docs, doc);
    hide IndexesUnique;
    forall id' | id' in s'.sends
      ensures SendOk(s', id', s'.sends[id'])
    {
      assert SendOk(s, id', s.sends[id']);
      assert forall d | d in s.docs :: d in s'.docs;
    }
    forall id' | id' in s'.published
      ensures Stored(s', id')
    {
      var d :| d in s.docs && d.id == id';
      assert d in s'.docs;
    }
  }

  lemma {:induction false} RunKeepsInv(steps: seq<Step>)
    ensures Inv(Exec(steps))
  {
    if steps != [] {
      RunKeepsInv(steps[..|steps| - 1]);
      StepKeepsInv(Exec(steps[..|steps| - 1]), steps[|steps| - 1]);
    }
  }

  // ---- what every run guarantees -------------------------------------------------------------

  /**
   * In every interleaving: a client message id has at most one stored document, and every successful
   * acknowledgement of that id is the same and names that document.
   */
  lemma AtMostOneMessage(steps: seq<Step>, d: Doc, id: nat)
    requires var s := Exec(steps);
             d in s.docs && id in s.sends && s.sends[id].client == d.client
    ensures var s := Exec(steps);
            (forall d' | d' in s.docs && d'.client == d.client :: d' == d) &&
            (s.sends[id].phase.Acked? ==> s.sends[id].phase.ack == AckOf(d))
  {
    RunKeepsInv(steps);
    assert SendOk(Exec(steps), id, Exec(steps).sends[id]);
  }

  /** An acknowledged send is stored. */
  lemma AckedIsStored(steps: seq<Step>, id: nat)
    requires id in Exec(steps).sends && Exec(steps).sends[id].phase.Acked?
    ensures FindByClient(Exec(steps).docs, Exec(steps).sends[id].client).Some?
  {
    RunKeepsInv(steps);
    assert SendOk(Exec(steps), id, Exec(steps).sends[id]);
  }

  /**
   * `message.sent` is published at most once per document, and only by the call that inserted it: two
   * publications for one client message id are the same one.
   */
  lemma PublishedOnce(steps: seq<Step>, i: nat, j: nat)
    requires var s := Exec(steps);
             i < |s.published| && j < |s.published| &&
             s.published[i] in s.sends && s.published[j] in s.sends &&
             s.sends[s.published[i]].client == s.sends[s.published[j]].client
    ensures i == j && Stored(Exec(steps), Exec(steps).published[i])
  {
    RunKeepsInv(steps);
    var s := Exec(steps);
    assert s.published[i] in s.published && s.published[j] in s.published;
    var d :| d in s.docs && d.id == s.published[i];
    var e :| e in s.docs && e.id == s.published[j];
    assert d == e;
  }

  lemma OnlyInserterPublishes(steps: seq<Step>, step: Step)
    requires Do(Exec(steps), step).published != Exec(steps).published
    ensures var s := Exec(steps);
            step.Advance? && Do(s, step).published == s.published + [step.id] &&
            Stored(s, step.id) && step.id in s.sends && s.sends[step.id].phase.Publish?
  {
    RunKeepsInv(steps);
    var s := Exec(steps);
    assert SendOk(s, step.id, s.sends[step.id]);
  }

  /** A call that acknowledged its own document has published it, once. */
  lemma OwnAckIsPublished(steps: seq<Step>, id: nat) returns (i: nat)
    requires id in Exec(steps).sends && Exec(steps).sends[id].phase.Acked? && Exec(steps).sends[id].phase.ack.id == id
    ensures var published := Exec(steps).published;
            i < |published| && published[i] == id && forall j | 0 <= j < |published| && published[j] == id :: j == i
  {
    RunKeepsInv(steps);
    var s := Exec(steps);
    assert SendOk(s, id, s.sends[id]);
    i :| 0 <= i < |s.published| && s.published[i] == id;
  }

  /** A stored document that is not published belongs to a call that is about to, or was cut off. */
  lemma UnpublishedIsUnfinished(steps: seq<Step>, d: Doc)
    requires d in Exec(steps).docs && d.id !in Exec(steps).published
    ensures var s := Exec(steps);
            d.id in s.sends && (s.sends[d.id].phase == Publish(d) || s.sends[d.id].phase == Failed)
  {
    RunKeepsInv(steps);
    assert Announced(Exec(steps), d);
  }

  // ---- a call left to itself -------------------------------------------------------------------

  /** The next n calls of a send, which draws number `numbers(a)` for its attempt a. */
  function Alone(s: State, id: nat, numbers: nat -> nat, n: nat): State
    decreases n
  {
    if n == 0 || id !in s.sends then s
    else
      var ph := s.sends[id].phase;
      Alone(Do(s, Advance(id, if ph.Take? then numbers(ph.attempt) else 0)), id, numbers, n - 1)
  }

  ghost predicate Free(docs: seq<Doc>, number: nat) {
    forall d | d in docs :: d.number != number
  }

  ghost predicate NewClient(docs: seq<Doc>, client: string) {
    forall d | d in docs :: d.client != client
  }

  /** Attempt a is the first to draw a number that is free. */
  ghost predicate FirstFree(docs: seq<Doc>, numbers: nat -> nat, from: nat, a: nat) {
    from <= a <= 3 && Free(docs, numbers(a)) && forall b | from <= b < a :: !Free(docs, numbers(b))
  }

  function Phased(s: State, id: nat, client: string, now: nat, phase: Phase): State {
    s.(sends := s.sends[id := Send(client, now, phase)])
  }

  /** The document is stored, announced and acknowledged. */
  function Delivered(s: State, id: nat, client: string, now: nat, number: nat): State {
    Phased(s.(docs := s.docs + [Doc(id, client, number, now)], published := s.published + [id]), id, client, now,
      Acked(Ack(id, number, now)))
  }

  lemma Again(s: State, id: nat, client: string, now: nat, a: Phase, b: Phase)
    ensures Phased(Phased(s, id, client, now, a), id, client, now, b) == Phased(s, id, client, now, b)
  {
    assert s.sends[id := Send(client, now, a)][id := Send(client, now, b)] == s.sends[id := Send(client, now, b)];
  }

  lemma AloneNext(s: State, id: nat, client: string, now: nat, ph: Phase, numbers: nat -> nat, n: nat)
    requires n > 0
    ensures Alone(Phased(s, id, client, now, ph), id, numbers, n) ==
            Alone(AdvanceSend(Phased(s, id, client, now, ph), id, if ph.Take? then numbers(ph.attempt) else 0),
              id, numbers, n - 1)
  {
    hide AdvanceSend;
  }

  lemma {:induction false} AloneIsOver(s: State, id: nat, numbers: nat -> nat, n: nat)
    requires id in s.sends && (s.sends[id].phase.Acked? || s.sends[id].phase.Failed?)
    ensures Alone(s, id, numbers, n) == s
    decreases n
  {
    if n > 0 {
      AloneIsOver(s, id, numbers, n - 1);
    }
  }

  /** One attempt with a free number delivers. */
  lemma AttemptDelivers(s: State, id: nat, client: string, now: nat, a: nat, numbers: nat -> nat, n: nat)
    requires NewClient(s.docs, client) && Free(s.docs, numbers(a)) && n >= 3
    ensures Alone(Phased(s, id, client, now, Take(a)), id, numbers, n) == Delivered(s, id, client, now, numbers(a))
  {
    var k := numbers(a);
    var doc := Doc(id, client, k, now);
    var t := s.(docs := s.docs + [doc]);
    TakeMoves(s, id, client, now, a, k);
    InsertStores(s, id, client, now, a, k);
    PublishAcks(t, id, client, now, doc);
    hide AdvanceSend, Alone, Phased;
    AloneNext(s, id, client, now, Take(a), numbers, n);
    AloneNext(s, id, client, now, Insert(a, k), numbers, n - 1);
    AloneNext(t, id, client, now, Publish(doc), numbers, n - 2);
    DeliveredIsOver(s, id, client, now, k);
    AloneIsOver(Delivered(s, id, client, now, k), id, numbers, n - 3);
  }

  lemma DeliveredIsOver(s: State, id: nat, client: string, now: nat, number: nat)
    ensures var t := Delivered(s, id, client, now, number);
            id in t.sends && t.sends[id].phase.Acked?
  {
  }

  lemma TakeMoves(s: State, id: nat, client: string, now: nat, a: nat, k: nat)
    ensures AdvanceSend(Phased(s, id, client, now, Take(a)), id, k) == Phased(s, id, client, now, Insert(a, k))
  {
    Again(s, id, client, now, Take(a), Insert(a, k));
  }

  lemma InsertStores(s: State, id: nat, client: string, now: nat, a: nat, k: nat)
    requires NewClient(s.docs, client) && Free(s.docs, k)
    ensures var doc := Doc(id, client, k, now);
            AdvanceSend(Phased(s, id, client, now, Insert(a, k)), id, 0) ==
            Phased(s.(docs := s.docs + [doc]), id, client, now, Publish(doc))
  {
    var doc := Doc(id, client, k, now);
    Again(s.(docs := s.docs + [doc]), id, client, now, Insert(a, k), Publish(doc));
  }

  lemma PublishAcks(t: State, id: nat, client: string, now: nat, doc: Doc)
    requires doc.id == id
    ensures AdvanceSend(Phased(t, id, client, now, Publish(doc)), id, 0) ==
            Phased(t.(published := t.published + [id]), id, client, now, Acked(Ack(id, doc.number, doc.serverTs)))
  {
    Again(t.(published := t.published + [id]), id, client, now, Publish(doc), Acked(AckOf(doc)));
  }

  /** One attempt with a used number draws another, or gives up after the last. */
  lemma AttemptCollides(s: State, id: nat, client: string, now: nat, a: nat, numbers: nat -> nat, n: nat)
    requires NewClient(s.docs, client) && !Free(s.docs, numbers(a)) && n >= 3
    ensures Alone(Phased(s, id, client, now, Take(a)), id, numbers, n) ==
            Alone(Phased(s, id, client, now, if a == MAX_SEQ_ATTEMPTS then Failed else Take(a + 1)), id, numbers, n - 3)
  {
    var k := numbers(a);
    TakeMoves(s, id, client, now, a, k);
    InsertCollides(s, id, client, now, a, k);
    FindsNobody(s, id, client, now, a);
    hide AdvanceSend, Alone, Phased;
    AloneNext(s, id, client, now, Take(a), numbers, n);
    AloneNext(s, id, client, now, Insert(a, k), numbers, n - 1);
    AloneNext(s, id, client, now, FindWinner(a), numbers, n - 2);
  }

  lemma InsertCollides(s: State, id: nat, client: string, now: nat, a: nat, k: nat)
    requires !Free(s.docs, k) || !NewClient(s.docs, client)
    ensures AdvanceSend(Phased(s, id, client, now, Insert(a, k)), id, 0) == Phased(s, id, client, now, FindWinner(a))
  {
    Again(s, id, client, now, Insert(a, k), FindWinner(a));
    var d :| d in s.docs && (d.number == k || d.client == client);
  }

  lemma FindsNobody(s: State, id: nat, client: string, now: nat, a: nat)
    requires NewClient(s.docs, client)
    ensures AdvanceSend(Phased(s, id, client, now, FindWinner(a)), id, 0) ==
            Phased(s, id, client, now, if a == MAX_SEQ_ATTEMPTS then Failed else Take(a + 1))
  {
    Again(s, id, client, now, FindWinner(a), if a == MAX_SEQ_ATTEMPTS then Failed else Take(a + 1));
  }

  lemma {:induction false} AttemptsFrom(s: State, id: nat, client: string, now: nat, a: nat, numbers: nat -> nat,
                                        n: nat)
    requires NewClient(s.docs, client) && 1 <= a <= MAX_SEQ_ATTEMPTS && n >= 3 * (MAX_SEQ_ATTEMPTS + 1 - a)
    ensures var t := Alone(Phased(s, id, client, now, Take(a)), id, numbers, n);
            (forall k | FirstFree(s.docs, numbers, a, k) :: t == Delivered(s, id, client, now, numbers(k))) &&
            ((forall k | a <= k <= 3 :: !Free(s.docs, numbers(k))) ==>
              t == Phased(s, id, client, now, Failed))
    decreases MAX_SEQ_ATTEMPTS - a
  {
    hide Alone, Phased, Delivered, Free, NewClient;
    if Free(s.docs, numbers(a)) {
      AttemptDelivers(s, id, client, now, a, numbers, n);
    } else {
      AttemptCollides(s, id, client, now, a, numbers, n);
      if a < MAX_SEQ_ATTEMPTS {
        AttemptsFrom(s, id, client, now, a + 1, numbers, n - 3);
        assert forall k | FirstFree(s.docs, numbers, a, k) :: FirstFree(s.docs, numbers, a + 1, k);
      } else {
        assert id in Phased(s, id, client, now, Failed).sends
            && Phased(s, id, client, now, Failed).sends[id].phase.Failed? by { FailedIsOver(s, id, client, now); }
        AloneIsOver(Phased(s, id, client, now, Failed), id, numbers, n - 3);
      }
    }
  }

  lemma FailedIsOver(s: State, id: nat, client: string, now: nat)
    ensures var t := Phased(s, id, client, now, Failed);
            id in t.sends && t.sends[id].phase.Failed?
  {
  }

  /**
   * From every reachable state, a send left to itself: if its client message id is stored, it
   * acknowledges that document and changes nothing; if not, the first of its three numbers that is free
   * is stored, announced and acknowledged; with none free it throws and changes nothing.
   */
  lemma SendAlone(steps: seq<Step>, id: nat, client: string, now: nat, numbers: nat -> nat)
    requires id !in Exec(steps).sends
    ensures var s := Exec(steps);
            var t := Alone(Do(s, Begin(id, client, now)), id, numbers, 11);
            && (forall d | d in s.docs && d.client == client ::
                 t == Phased(s, id, client, now, Acked(Ack(d.id, d.number, d.serverTs))))
            && (NewClient(s.docs, client) ==>
                 (forall a | FirstFree(s.docs, numbers, 1, a) :: t == Delivered(s, id, client, now, numbers(a))) &&
                 ((forall a | 1 <= a <= 3 :: !Free(s.docs, numbers(a))) ==> t == Phased(s, id, client, now, Failed)))
  {
    RunKeepsInv(steps);
    var s := Exec(steps);
    assert Do(s, Begin(id, client, now)) == Phased(s, id, client, now, Lookup);
    hide Alone, Phased, Delivered, Free, FirstFree, Do, AdvanceSend;
    AloneNext(s, id, client, now, Lookup, numbers, 11);
    if NewClient(s.docs, client) {
      LooksUpNobody(s, id, client, now);
      AttemptsFrom(s, id, client, now, 1, numbers, 10);
    } else {
      forall d | d in s.docs && d.client == client
        ensures Alone(Phased(s, id, client, now, Lookup), id, numbers, 11) ==
                Phased(s, id, client, now, Acked(Ack(d.id, d.number, d.serverTs)))
      {
        FindsWinner(s, id, client, now, Lookup, d);
        AckedIsOver(s, id, client, now, AckOf(d));
        AloneIsOver(Phased(s, id, client, now, Acked(AckOf(d))), id, numbers, 10);
      }
    }
  }

  lemma AckedIsOver(s: State, id: nat, client: string, now: nat, ack: Ack)
    ensures var t := Phased(s, id, client, now, Acked(ack));
            id in t.sends && t.sends[id].phase.Acked?
  {
  }

  lemma LooksUpNobody(s: State, id: nat, client: string, now: nat)
    requires NewClient(s.docs, client)
    ensures AdvanceSend(Phased(s, id, client, now, Lookup), id, 0) == Phased(s, id, client, now, Take(1))
  {
    Again(s, id, client, now, Lookup, Take(1));
  }

  lemma OneDocument(docs: seq<Doc>, d: Doc)
    requires IndexesUnique(docs) && d in docs
    ensures FindByClient(docs, d.client) == Some(d)
  {
  }

  lemma FindsWinner(s: State, id: nat, client: string, now: nat, ph: Phase, d: Doc)
    requires Inv(s) && d in s.docs && d.client == client && (ph.Lookup? || ph.FindWinner?)
    ensures AdvanceSend(Phased(s, id, client, now, ph), id, 0) ==
            Phased(s, id, client, now, Acked(Ack(d.id, d.number, d.serverTs)))
  {
    OneDocument(s.docs, d);
    hide Inv, FindByClient;
    Again(s, id, client, now, ph, Acked(AckOf(d)));
  }

  /** A crashed call makes no further call; what it stored stays, and is not announced by it any more. */
  lemma CrashIs(s: State, id: nat, numbers: nat -> nat, n: nat)
    requires id in s.sends && !s.sends[id].phase.Acked?
    ensures Alone(Do(s, Crash(id)), id, numbers, n) == s.(sends := s.sends[id := s.sends[id].(phase := Failed)])
  {
    AloneIsOver(Do(s, Crash(id)), id, numbers, n);
  }

  /** A call that meets the document of another send of its message acknowledges that one. */
  lemma LoserAcksWinner(steps: seq<Step>, id: nat, d: Doc, numbers: nat -> nat)
    requires var s := Exec(steps);
             id in s.sends && s.sends[id].phase.Insert? && d in s.docs && d.client == s.sends[id].client
    ensures var s := Exec(steps);
            Alone(s, id, numbers, 2) ==
            s.(sends := s.sends[id := s.sends[id].(phase := Acked(Ack(d.id, d.number, d.serverTs)))])
  {
    RunKeepsInv(steps);
    var s := Exec(steps);
    var send := s.sends[id];
    var ph := send.phase;
    assert Phased(s, id, send.client, send.now, ph) == s by {
      assert s.sends[id := send] == s.sends;
    }
    InsertCollides(s, id, send.client, send.now, ph.attempt, ph.number);
    FindsWinner(s, id, send.client, send.now, FindWinner(ph.attempt), d);
    AloneNext(s, id, send.client, send.now, ph, numbers, 2);
    AloneNext(s, id, send.client, send.now, FindWinner(ph.attempt), numbers, 1);
    hide Do, AdvanceSend, Inv;
  }

  // ---- every call ends -----------------------------------------------------------------------

  /** Store calls a send may still make. */
  function CallsLeft(ph: Phase): int {
    match ph
    case Lookup => 11
    case Take(a) => 13 - 3 * a
    case Insert(a, _) => 12 - 3 * a
    case FindWinner(a) => 11 - 3 * a
    case Publish(_) => 1
    case Acked(_) => 0
    case Failed => 0
  }

  function Calls(steps: seq<Step>, id: nat): nat {
    if steps == [] then 0
    else
      var last := steps[|steps| - 1];
      Calls(steps[..|steps| - 1], id) +
      if last.Advance? && last.id == id && id in Exec(steps[..|steps| - 1]).sends then 1 else 0
  }

  /** Eleven store calls (three attempts) and the call has returned or thrown. */
  lemma {:induction false} EveryCallEnds(steps: seq<Step>, id: nat)
    requires id in Exec(steps).sends
    ensures var ph := Exec(steps).sends[id].phase;
            CallsLeft(ph) >= 0 &&
            (ph.Acked? || ph.Failed? || Calls(steps, id) + CallsLeft(ph) <= 11)
    ensures Calls(steps, id) >= 11 ==>
              Exec(steps).sends[id].phase.Acked? || Exec(steps).sends[id].phase.Failed?
  {
    var before := steps[..|steps| - 1];
    RunKeepsInv(before);
    RunKeepsInv(steps);
    assert SendOk(Exec(steps), id, Exec(steps).sends[id]);
    if id in Exec(before).sends {
      EveryCallEnds(before, id);
      assert SendOk(Exec(before), id, Exec(before).sends[id]);
      CallCounts(Exec(before), steps[|steps| - 1], id);
    } else {
      NoCallsYet(before, id);
    }
  }

  /** A call of an unfinished send brings it nearer to its end; other steps leave it where it is. */
  lemma CallCounts(s: State, step: Step, id: nat)
    requires id in s.sends && SendOk(s, id, s.sends[id])
    ensures id in Do(s, step).sends
    ensures var ph, ph' := s.sends[id].phase, Do(s, step).sends[id].phase;
            ph'.Acked? || ph'.Failed? ||
            CallsLeft(ph') <= CallsLeft(ph) - (if step.Advance? && step.id == id then 1 else 0)
    ensures var ph, ph' := s.sends[id].phase, Do(s, step).sends[id].phase;
            ph.Acked? || ph.Failed? ==> ph'.Acked? || ph'.Failed?
  {
  }

  lemma SendsGrow(s: State, step: Step)
    ensures s.sends.Keys <= Do(s, step).sends.Keys
  {
  }

  lemma {:induction false} NoCallsYet(steps: seq<Step>, id: nat)
    requires id !in Exec(steps).sends
    ensures Calls(steps, id) == 0
  {
    if steps != [] {
      SendsGrow(Exec(steps[..|steps| - 1]), steps[|steps| - 1]);
      hide Do;
      NoCallsYet(steps[..|steps| - 1], id);
    }
  }
}
