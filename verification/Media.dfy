/**
 * Media metadata rows over content-addressed blobs: deduplicated upload, reference-counted removal,
 * view-once consumption, and what streamed uploads do to all of it.
 */
module Media {
  import opened Wrappers

  type Bytes = seq<bv8>

  const MAX_BYTES: nat := 100 * 1024 * 1024

  /** A row is ready once its bytes are stored under its key. */
  datatype Row = Row(
    owner: string,
    ready: bool,
    contentHash: Option<string>,
    storageKey: Option<string>,
    viewOnce: bool,
    viewed: bool)

  datatype State = State(rows: map<string, Row>, blobs: map<string, Bytes>)
  datatype Error = NotFound | Validation | Forbidden | Gone | Broken
  datatype Outcome = Outcome(state: State, error: Option<Error>)

  datatype Op =
    | Init(id: string, owner: string, viewOnce: bool)
    | Complete(id: string, bytes: Bytes)
    | Stream(id: string, declared: Option<nat>, bytes: Bytes, intact: bool)
    | Delete(id: string, actor: string)
    | Consume(id: string)

  type Hash = Bytes -> string

  function StorageKey(name: string): string {
    "media/" + name
  }

  lemma StorageKeyInjective(a: string, b: string)
    ensures StorageKey(a) == StorageKey(b) <==> a == b
  {
    assert StorageKey(a)[6..] == a && StorageKey(b)[6..] == b;
  }

  predicate ReadyWithHash(s: State, h: string) {
    exists id | id in s.rows :: s.rows[id].ready && s.rows[id].contentHash == Some(h)
  }

  /** Rows that name a blob; the count of the others decides whether it may go. */
  function Referring(rows: map<string, Row>, key: string): set<string> {
    set id | id in rows && rows[id].storageKey == Some(key)
  }

  function MarkReady(s: State, id: string, hash: string, key: string): State
    requires id in s.rows
  {
    s.(rows := s.rows[id := s.rows[id].(ready := true, contentHash := Some(hash), storageKey := Some(key))])
  }

  function CompleteUpload(s: State, id: string, bytes: Bytes, hash: Hash): Outcome {
    if id !in s.rows then Outcome(s, Some(NotFound))
    else if |bytes| == 0 || |bytes| > MAX_BYTES then Outcome(s, Some(Validation))
    else
      var key := StorageKey(hash(bytes));
      var deduped := ReadyWithHash(s, hash(bytes)) || key in s.blobs;
      var stored := if deduped then s else s.(blobs := s.blobs[key := bytes]);
      Outcome(MarkReady(stored, id, hash(bytes), key), None)
  }

  predicate SizeOk(bytes: Bytes) {
    0 < |bytes| <= MAX_BYTES
  }

  /**
   * A streamed upload is stored under the media id. When it breaks off, is empty or grows too large,
   * whatever is stored there is removed; a too large declared length is refused before that.
   */
  function StreamUpload(s: State, id: string, declared: Option<nat>, bytes: Bytes, intact: bool, hash: Hash): Outcome {
    var key := StorageKey(id);
    if id !in s.rows then Outcome(s, Some(NotFound))
    else if declared.Some? && declared.value > MAX_BYTES then Outcome(s, Some(Validation))
    else if !intact then Outcome(s.(blobs := s.blobs - {key}), Some(Broken))
    else if !SizeOk(bytes) then Outcome(s.(blobs := s.blobs - {key}), Some(Validation))
    else Outcome(MarkReady(s.(blobs := s.blobs[key := bytes]), id, hash(bytes), key), None)
  }

  /** Remove the row, and its blob when no other row refers to it. */
  function Purge(s: State, id: string): State
    requires id in s.rows
  {
    var row := s.rows[id];
    var s' := s.(rows := s.rows - {id});
    if row.storageKey.Some? && Referring(s'.rows, row.storageKey.value) == {} then
      s'.(blobs := s'.blobs - {row.storageKey.value})
    else s'
  }

  function Apply(s: State, op: Op, hash: Hash): Outcome {
    match op
    case Init(id, owner, viewOnce) =>
      // Ids are generated, so a used id never comes up.
      if owner == "" || id in s.rows then Outcome(s, Some(Validation))
      else Outcome(s.(rows := s.rows[id := Row(owner, false, None, None, viewOnce, false)]), None)
    case Complete(id, bytes) => CompleteUpload(s, id, bytes, hash)
    case Stream(id, declared, bytes, intact) => StreamUpload(s, id, declared, bytes, intact, hash)
    case Delete(id, actor) =>
      if id !in s.rows then Outcome(s, Some(NotFound))
      else if s.rows[id].owner != actor then Outcome(s, Some(Forbidden))
      else Outcome(Purge(s, id), None)
    case Consume(id) =>
      if id !in s.rows || !s.rows[id].ready || s.rows[id].storageKey.None? then Outcome(s, Some(NotFound))
      else if !s.rows[id].viewOnce then Outcome(s, Some(Validation))
      else if s.rows[id].viewed then Outcome(s, Some(Gone))
      else Outcome(Purge(s.(rows := s.rows[id := s.rows[id].(viewed := true)]), id), None)
  }

  function Exec(ops: seq<Op>, hash: Hash): State {
    if ops == [] then State(map[], map[]) else Apply(Exec(ops[..|ops| - 1], hash), ops[|ops| - 1], hash).state
  }

  // ---- buffered uploads ----------------------------------------------------------------------

  /** A ready row's blob is stored, under the key of its hash, and has that hash. */
  ghost predicate RowOk(s: State, row: Row, hash: Hash) {
    (row.ready <==> row.storageKey.Some?) && (row.ready <==> row.contentHash.Some?) &&
    (row.ready ==>
      row.storageKey == Some(StorageKey(row.contentHash.value)) &&
      row.storageKey.value in s.blobs && hash(s.blobs[row.storageKey.value]) == row.contentHash.value)
  }

  ghost predicate Inv(s: State, hash: Hash) {
    (forall id | id in s.rows :: RowOk(s, s.rows[id], hash)) &&
    (forall h | StorageKey(h) in s.blobs :: hash(s.blobs[StorageKey(h)]) == h)
  }

  lemma CompleteKeepsInv(s: State, id: string, bytes: Bytes, hash: Hash)
    requires Inv(s, hash)
    ensures Inv(CompleteUpload(s, id, bytes, hash).state, hash)
  {
    if id in s.rows && 0 < |bytes| <= MAX_BYTES {
      var h := hash(bytes);
      var key := StorageKey(h);
      var stored := if ReadyWithHash(s, h) || key in s.blobs then s else s.(blobs := s.blobs[key := bytes]);
      if ReadyWithHash(s, h) {
        var o :| o in s.rows && s.rows[o].ready && s.rows[o].contentHash == Some(h);
        assert RowOk(s, s.rows[o], hash);
      }
      assert key in stored.blobs;
      forall h' | StorageKey(h') in stored.blobs
        ensures hash(stored.blobs[StorageKey(h')]) == h'
      {
        StorageKeyInjective(h, h');
      }
      var s' := MarkReady(stored, id, h, key);
      forall o | o in s'.rows
        ensures RowOk(s', s'.rows[o], hash)
      {
        if o != id {
          assert RowOk(s, s.rows[o], hash);
        }
      }
    }
  }

  lemma PurgeKeepsInv(s: State, id: string, hash: Hash)
    requires Inv(s, hash) && id in s.rows
    ensures Inv(Purge(s, id), hash)
  {
    var s' := Purge(s, id);
    forall o | o in s'.rows
      ensures RowOk(s', s'.rows[o], hash)
    {
      assert RowOk(s, s.rows[o], hash);
      if s.rows[id].storageKey.Some? && s.rows[o].storageKey == s.rows[id].storageKey {
        assert o in Referring(s.rows - {id}, s.rows[id].storageKey.value);
      }
    }
  }

  lemma StepKeepsInv(s: State, op: Op, hash: Hash)
    requires Inv(s, hash) && !op.Stream?
    ensures Inv(Apply(s, op, hash).state, hash)
  {
    match op
    case Init(id, owner, viewOnce) =>
      var s' := Apply(s, op, hash).state;
      forall o | o in s'.rows
        ensures RowOk(s', s'.rows[o], hash)
      {
        assert o in s.rows ==> RowOk(s, s.rows[o], hash);
      }
    case Complete(id, bytes) => CompleteKeepsInv(s, id, bytes, hash);
    case Delete(id, actor) => if id in s.rows { PurgeKeepsInv(s, id, hash); }
    case Consume(id) =>
      if id in s.rows {
        assert RowOk(s, s.rows[id], hash);
        ViewedKeepsInv(s, id, hash);
        PurgeKeepsInv(s.(rows := s.rows[id := s.rows[id].(viewed := true)]), id, hash);
      }
  }

  lemma ViewedKeepsInv(s: State, id: string, hash: Hash)
    requires Inv(s, hash) && id in s.rows
    ensures Inv(s.(rows := s.rows[id := s.rows[id].(viewed := true)]), hash)
  {
    var s' := s.(rows := s.rows[id := s.rows[id].(viewed := true)]);
    forall o | o in s'.rows
      ensures RowOk(s', s'.rows[o], hash)
    {
      assert RowOk(s, s.rows[o], hash);
    }
  }

  lemma {:induction false} RunKeepsInv(ops: seq<Op>, hash: Hash)
    requires forall op | op in ops :: !op.Stream?
    ensures Inv(Exec(ops, hash), hash)
  {
    if ops != [] {
      RunKeepsInv(ops[..|ops| - 1], hash);
      StepKeepsInv(Exec(ops[..|ops| - 1], hash), ops[|ops| - 1], hash);
    }
  }

  /** In every run without streaming, a ready row's bytes are in storage and hash to the row's hash. */
  lemma ReadyRowsHaveBlobs(ops: seq<Op>, hash: Hash, id: string)
    requires forall op | op in ops :: !op.Stream?
    requires id in Exec(ops, hash).rows && Exec(ops, hash).rows[id].ready
    ensures var s := Exec(ops, hash);
            s.rows[id].storageKey.Some? && s.rows[id].storageKey.value in s.blobs &&
            s.rows[id].contentHash == Some(hash(s.blobs[s.rows[id].storageKey.value]))
  {
    RunKeepsInv(ops, hash);
    assert RowOk(Exec(ops, hash), Exec(ops, hash).rows[id], hash);
  }

  lemma RemovedOnlyUnreferenced(s: State, op: Op, hash: Hash, key: string)
    requires !op.Stream? && key in s.blobs && key !in Apply(s, op, hash).state.blobs
    ensures Referring(Apply(s, op, hash).state.rows, key) == {}
  {
  }

  /** Without streaming, a stored blob outlives every run that always leaves a row referring to it. */
  lemma {:induction false} StoredWhileReferenced(before: seq<Op>, more: seq<Op>, hash: Hash, key: string)
    requires forall op | op in more :: !op.Stream?
    requires key in Exec(before, hash).blobs
    requires forall n | 0 < n <= |more| :: Referring(Exec(before + more[..n], hash).rows, key) != {}
    ensures key in Exec(before + more, hash).blobs
  {
    if more == [] {
      assert before + more == before;
    } else {
      var init, op := more[..|more| - 1], more[|more| - 1];
      forall n | 0 < n <= |init|
        ensures Referring(Exec(before + init[..n], hash).rows, key) != {}
      {
        assert init[..n] == more[..n];
      }
      StoredWhileReferenced(before, init, hash, key);
      assert more[..|more|] == more;
      ExecMore(before, more, hash);
      if key !in Exec(before + more, hash).blobs {
        RemovedOnlyUnreferenced(Exec(before + init, hash), op, hash, key);
      }
    }
  }

  lemma ExecMore(before: seq<Op>, more: seq<Op>, hash: Hash)
    requires more != []
    ensures Exec(before + more, hash) ==
            Apply(Exec(before + more[..|more| - 1], hash), more[|more| - 1], hash).state
  {
    hide Apply;
    assert (before + more)[|before + more| - 1] == more[|more| - 1];
    assert (before + more)[..|before + more| - 1] == before + more[..|more| - 1];
  }

  /** The row's owner deletes it, or it is for one view and somebody takes it. */
  ghost predicate Removes(op: Op, id: string, row: Row) {
    op == Delete(id, row.owner) || (op == Consume(id) && row.viewOnce)
  }

  lemma RowStaysOnce(s: State, op: Op, hash: Hash, id: string)
    requires id in s.rows && !Removes(op, id, s.rows[id])
    ensures var s' := Apply(s, op, hash).state;
            id in s'.rows && s'.rows[id].owner == s.rows[id].owner && s'.rows[id].viewOnce == s.rows[id].viewOnce
  {
  }

  /** Nothing but these can make a row go, and while it stays its owner and view-once mark stay. */
  lemma {:induction false} RowStays(before: seq<Op>, more: seq<Op>, hash: Hash, id: string)
    requires id in Exec(before, hash).rows
    requires forall op | op in more :: !Removes(op, id, Exec(before, hash).rows[id])
    ensures var row, s' := Exec(before, hash).rows[id], Exec(before + more, hash);
            id in s'.rows && s'.rows[id].owner == row.owner && s'.rows[id].viewOnce == row.viewOnce
  {
    hide Apply, Exec;
    if more == [] {
      assert before + more == before;
    } else {
      var init, last := more[..|more| - 1], more[|more| - 1];
      RowStays(before, init, hash, id);
      ExecMore(before, more, hash);
      assert last in more;
      RowStaysOnce(Exec(before + init, hash), last, hash, id);
    }
  }

  // ---- with streamed uploads -----------------------------------------------------------------

  ghost predicate BlobsPresent(s: State) {
    forall id | id in s.rows && s.rows[id].storageKey.Some? :: s.rows[id].storageKey.value in s.blobs
  }

  /**
   * A buffered upload deduplicates against a row whose bytes are stored under another key, or a
   * streamed upload fails for an id whose key a row refers to.
   */
  predicate LosesBlob(s: State, op: Op, hash: Hash) {
    match op
    case Complete(id, bytes) =>
      id in s.rows && SizeOk(bytes) && ReadyWithHash(s, hash(bytes)) && StorageKey(hash(bytes)) !in s.blobs
    case Stream(id, declared, bytes, intact) =>
      id in s.rows && (declared.Some? ==> declared.value <= MAX_BYTES) && !(intact && SizeOk(bytes)) &&
      Referring(s.rows, StorageKey(id)) != {}
    case _ => false
  }

  /** These are exactly the operations after which some row's blob is missing. */
  lemma KeepsBlobsExactly(s: State, op: Op, hash: Hash)
    requires BlobsPresent(s)
    ensures BlobsPresent(Apply(s, op, hash).state) <==> !LosesBlob(s, op, hash)
  {
    match op
    case Complete(id, bytes) => CompleteKeepsBlobs(s, id, bytes, hash);
    case Stream(id, declared, bytes, intact) => StreamKeepsBlobs(s, op, hash);
    case Delete(id, _) => if id in s.rows { PurgeKeepsBlobs(s, id); }
    case Consume(id) =>
      if id in s.rows {
        var viewed := s.(rows := s.rows[id := s.rows[id].(viewed := true)]);
        assert BlobsPresent(viewed);
        PurgeKeepsBlobs(viewed, id);
      }
    case Init(_, _, _) =>
  }

  lemma CompleteKeepsBlobs(s: State, id: string, bytes: Bytes, hash: Hash)
    requires BlobsPresent(s)
    ensures BlobsPresent(CompleteUpload(s, id, bytes, hash).state) <==> !LosesBlob(s, Complete(id, bytes), hash)
  {
    if id in s.rows && SizeOk(bytes) {
      var s' := CompleteUpload(s, id, bytes, hash).state;
      assert s'.rows[id].storageKey == Some(StorageKey(hash(bytes)));
    }
  }

  lemma StreamKeepsBlobs(s: State, op: Op, hash: Hash)
    requires BlobsPresent(s) && op.Stream?
    ensures BlobsPresent(Apply(s, op, hash).state) <==> !LosesBlob(s, op, hash)
  {
    var key, s' := StorageKey(op.id), Apply(s, op, hash).state;
    if LosesBlob(s, op, hash) {
      var id :| id in Referring(s.rows, key);
      assert id in s'.rows && key !in s'.blobs;
    } else if s' != s && !(op.intact && SizeOk(op.bytes)) {
      forall id | id in s'.rows && s'.rows[id].storageKey.Some?
        ensures s'.rows[id].storageKey.value in s'.blobs
      {
        assert id !in Referring(s.rows, key);
      }
    }
  }

  lemma PurgeKeepsBlobs(s: State, id: string)
    requires BlobsPresent(s) && id in s.rows
    ensures BlobsPresent(Purge(s, id))
  {
    var s' := Purge(s, id);
    forall o | o in s'.rows && s'.rows[o].storageKey.Some?
      ensures s'.rows[o].storageKey.value in s'.blobs
    {
      if s'.rows[o].storageKey == s.rows[id].storageKey {
        assert o in Referring(s'.rows, s.rows[id].storageKey.value);
      }
    }
  }

  /** After the first n operations every row's blob is there. */
  ghost predicate PresentAfter(ops: seq<Op>, n: nat, hash: Hash) {
    n <= |ops| ==> BlobsPresent(Exec(ops[..n], hash))
  }

  ghost predicate LosesAt(ops: seq<Op>, n: nat, hash: Hash) {
    n < |ops| && LosesBlob(Exec(ops[..n], hash), ops[n], hash)
  }

  /** Over a whole run, streaming included: no row's blob is ever missing if and only if no operation
      of the run is one of those two. */
  lemma {:induction false} BlobsPresentExactly(ops: seq<Op>, hash: Hash)
    ensures (forall n: nat :: PresentAfter(ops, n, hash)) <==> (forall n: nat :: !LosesAt(ops, n, hash))
  {
    hide BlobsPresent, LosesBlob, Apply;
    if ops == [] {
      assert BlobsPresent(Exec([], hash)) by { NoRowsNoBlobs(hash); }
      assert forall n: nat | n <= |ops| :: ops[..n] == [];
    } else {
      var init, last := ops[..|ops| - 1], |ops| - 1;
      BlobsPresentExactly(init, hash);
      assert forall n: nat | n <= last :: init[..n] == ops[..n];
      forall n: nat | n <= last
        ensures PresentAfter(ops, n, hash) <==> PresentAfter(init, n, hash)
        ensures n < last ==> (LosesAt(ops, n, hash) <==> LosesAt(init, n, hash))
      {
      }
      assert PresentAfter(init, last, hash) <==> BlobsPresent(Exec(init, hash)) by { assert init[..last] == init; }
      assert PresentAfter(ops, |ops|, hash) <==> BlobsPresent(Exec(ops, hash)) by { assert ops[..|ops|] == ops; }
      if BlobsPresent(Exec(init, hash)) {
        KeepsBlobsExactly(Exec(init, hash), ops[last], hash);
      }
      hide PresentAfter, LosesAt, Exec;
      LastOne(ops, hash);
    }
  }

  lemma LastOne(ops: seq<Op>, hash: Hash)
    ensures forall n: nat | n > |ops| :: PresentAfter(ops, n, hash)
    ensures forall n: nat | n >= |ops| :: !LosesAt(ops, n, hash)
    ensures ops != [] ==>
              (LosesAt(ops, |ops| - 1, hash) <==> LosesBlob(Exec(ops[..|ops| - 1], hash), ops[|ops| - 1], hash))
  {
  }

  lemma NoRowsNoBlobs(hash: Hash)
    ensures BlobsPresent(Exec([], hash))
  {
  }

  /** The same bytes streamed first and buffered later leave a ready row whose blob does not exist. */
  lemma StreamThenBuffered(m1: string, m2: string, owner: string, bytes: Bytes, hash: Hash)
    requires m1 != m2 && owner != "" && SizeOk(bytes) && m1 != hash(bytes)
    ensures var s := Exec([Init(m1, owner, false), Init(m2, owner, false), Stream(m1, None, bytes, true),
                           Complete(m2, bytes)], hash);
            m2 in s.rows && s.rows[m2].ready && s.rows[m2].storageKey == Some(StorageKey(hash(bytes))) &&
            StorageKey(hash(bytes)) !in s.blobs
  {
    var a, b := Init(m1, owner, false), Init(m2, owner, false);
    var c, d := Stream(m1, None, bytes, true), Complete(m2, bytes);
    ExecMore([], [a], hash);
    ExecMore([a], [b], hash);
    ExecMore([a, b], [c], hash);
    ExecMore([a, b, c], [d], hash);
    ConcatLast(a, b, c, d);
    StorageKeyInjective(m1, hash(bytes));
    var s3 := Exec([a, b, c], hash);
    assert s3.rows[m1].ready && s3.rows[m1].contentHash == Some(hash(bytes));
    assert ReadyWithHash(s3, hash(bytes));
  }

  lemma ConcatLast(a: Op, b: Op, c: Op, d: Op)
    ensures [] + [a] == [a] && [a][..0] == [] && [b][..0] == [] && [c][..0] == [] && [d][..0] == []
    ensures [a] + [b] == [a, b] && [a, b] + [c] == [a, b, c] && [a, b, c] + [d] == [a, b, c, d]
    ensures [a] + [] == [a] && [a, b] + [] == [a, b] && [a, b, c] + [] == [a, b, c]
  {
  }

  /** Streaming again to a ready row and failing leaves the row ready without its blob. */
  lemma FailedRestream(m: string, owner: string, bytes: Bytes, hash: Hash)
    requires owner != "" && SizeOk(bytes)
    ensures var s := Exec([Init(m, owner, false), Stream(m, None, bytes, true), Stream(m, None, [], true)], hash);
            m in s.rows && s.rows[m].ready && s.rows[m].storageKey == Some(StorageKey(m)) && StorageKey(m) !in s.blobs
  {
    var a, b, c := Init(m, owner, false), Stream(m, None, bytes, true), Stream(m, None, [], true);
    ExecMore([], [a], hash);
    ExecMore([a], [b], hash);
    ExecMore([a, b], [c], hash);
    ConcatLast(a, b, c, c);
  }

  // ---- when an operation succeeds, and what it leaves --------------------------------------------

  ghost predicate MaySucceed(s: State, op: Op) {
    match op
    case Init(id, owner, _) => owner != "" && id !in s.rows
    case Complete(id, bytes) => id in s.rows && 0 < |bytes| <= 104_857_600
    case Stream(id, declared, bytes, intact) =>
      id in s.rows && (forall n | declared == Some(n) :: n <= 104_857_600) && intact && 0 < |bytes| <= 104_857_600
    case Delete(id, actor) => id in s.rows && s.rows[id].owner == actor
    case Consume(id) => id in s.rows && Viewable(s.rows[id])
  }

  /** Creation, uploads with bytes of a legal size, the owner's delete, and the one view succeed. */
  lemma SucceedsExactly(s: State, op: Op, hash: Hash)
    ensures Apply(s, op, hash).error == None <==> MaySucceed(s, op)
  {
  }

  ghost function RowIn(s: State, id: string): Option<Row> {
    if id in s.rows then Some(s.rows[id]) else None
  }

  /** Each row afterwards; only the operation's own row changes. */
  lemma RowsAre(s: State, op: Op, hash: Hash, id: string)
    ensures RowIn(Apply(s, op, hash).state, id) ==
            if id != op.id || !MaySucceed(s, op) then RowIn(s, id)
            else
              (match op
               case Init(_, owner, viewOnce) => Some(Row(owner, false, None, None, viewOnce, false))
               case Complete(_, bytes) =>
                 Some(s.rows[id].(ready := true, contentHash := Some(hash(bytes)),
                                  storageKey := Some("media/" + hash(bytes))))
               case Stream(_, _, bytes, _) =>
                 Some(s.rows[id].(ready := true, contentHash := Some(hash(bytes)), storageKey := Some("media/" + id)))
               case Delete(_, _) => None
               case Consume(_) => None)
  {
    SucceedsExactly(s, op, hash);
  }

  ghost function BlobIn(s: State, key: string): Option<Bytes> {
    if key in s.blobs then Some(s.blobs[key]) else None
  }

  ghost predicate HashReady(s: State, h: string) {
    exists other :: other in s.rows && s.rows[other].ready && s.rows[other].contentHash == Some(h)
  }

  /** Somebody else's row refers to the key. */
  ghost predicate SharedKey(s: State, id: string, key: string) {
    exists other :: other in s.rows && other != id && s.rows[other].storageKey == Some(key)
  }

  /**
   * Each blob afterwards. A buffered upload stores its bytes unless they are there or some ready row has
   * their hash; a streamed one stores its bytes, or removes what is there when it fails on the way; a row
   * that goes takes its blob along unless another row refers to it.
   */
  lemma BlobsAre(s: State, op: Op, hash: Hash, key: string)
    ensures BlobIn(Apply(s, op, hash).state, key) ==
            (match op
             case Init(_, _, _) => BlobIn(s, key)
             case Complete(_, bytes) =>
               if MaySucceed(s, op) && key == "media/" + hash(bytes) && key !in s.blobs && !HashReady(s, hash(bytes))
               then Some(bytes) else BlobIn(s, key)
             case Stream(id, declared, bytes, _) =>
               if key != "media/" + id || id !in s.rows || (exists n :: declared == Some(n) && n > 104_857_600)
               then BlobIn(s, key) else if MaySucceed(s, op) then Some(bytes) else None
             case _ =>
               if MaySucceed(s, op) && s.rows[op.id].storageKey == Some(key) && !SharedKey(s, op.id, key)
               then None else BlobIn(s, key))
  {
    SucceedsExactly(s, op, hash);
    if op.Delete? || op.Consume? {
      if op.id in s.rows {
        PurgedBlobs(s, op.id, key);
        PurgedBlobs(s.(rows := s.rows[op.id := s.rows[op.id].(viewed := true)]), op.id, key);
        ViewedShares(s, op.id, key);
      }
      hide Purge, SharedKey;
    }
  }

  lemma PurgedBlobs(s: State, id: string, key: string)
    requires id in s.rows
    ensures BlobIn(Purge(s, id), key) ==
            if s.rows[id].storageKey == Some(key) && !SharedKey(s, id, key) then None else BlobIn(s, key)
  {
    var rest := s.rows - {id};
    assert Referring(rest, key) == {} <==> !SharedKey(s, id, key) by {
      assert forall other :: other in Referring(rest, key) <==>
          other in s.rows && other != id && s.rows[other].storageKey == Some(key);
    }
  }

  lemma ViewedShares(s: State, id: string, key: string)
    requires id in s.rows
    ensures SharedKey(s.(rows := s.rows[id := s.rows[id].(viewed := true)]), id, key) <==> SharedKey(s, id, key)
  {
    var t := s.(rows := s.rows[id := s.rows[id].(viewed := true)]);
    assert forall other | other != id :: other in t.rows && t.rows[other].storageKey == Some(key) <==>
        other in s.rows && s.rows[other].storageKey == Some(key);
  }

  // ---- the service's steps -------------------------------------------------------------------

  class Service {
    var rows: map<string, Row>
    var blobs: map<string, Bytes>

    function Now(): State
      reads this
    {
      State(rows, blobs)
    }

    method UploadBuffered(id: string, bytes: Bytes, hash: Hash) returns (deduped: bool, error: Option<Error>)
      modifies this
      ensures Outcome(Now(), error) == CompleteUpload(old(Now()), id, bytes, hash)
      ensures error.None? ==> deduped == (blobs == old(blobs))
    {
      deduped := false;
      if id !in rows {
        return false, Some(NotFound);
      }
      if |bytes| == 0 || |bytes| > MAX_BYTES {
        return false, Some(Validation);
      }
      var contentHash := hash(bytes);
      var key := StorageKey(contentHash);
      deduped := ReadyWithHash(Now(), contentHash) || key in blobs;
      if !deduped {
        blobs := blobs[key := bytes];
        assert key in blobs && key !in old(blobs);
      }
      rows := rows[id := rows[id].(ready := true, contentHash := Some(contentHash), storageKey := Some(key))];
      error := None;
    }

    method PurgeRow(id: string) returns (blobRemoved: bool)
      requires id in rows
      modifies this
      ensures Now() == Purge(old(Now()), id)
      ensures var key := old(rows)[id].storageKey;
              blobRemoved <==> (key.Some? && Referring(rows, key.value) == {})
    {
      var media := rows[id];
      rows := rows - {id};
      blobRemoved := false;
      if media.storageKey.Some? {
        var others := Referring(rows, media.storageKey.value);
        if |others| == 0 {
          blobs := blobs - {media.storageKey.value};
          blobRemoved := true;
        }
      }
    }

    /** UPDATE ... SET viewed_at WHERE media_id = id AND viewed_at IS NULL; whether a row changed. */
    method ClaimViewOnce(id: string) returns (won: bool)
      modifies this`rows
      ensures won <==> id in old(rows) && !old(rows)[id].viewed
      ensures rows == if won then old(rows)[id := old(rows)[id].(viewed := true)] else old(rows)
    {
      won := id in rows && !rows[id].viewed;
      if won {
        rows := rows[id := rows[id].(viewed := true)];
      }
    }

    /**
     * One view: it succeeds exactly for a ready, view-once row nobody has viewed, and takes the row
     * away, so a second call finds nothing; its blob goes unless another row refers to it, and no
     * other row loses its blob. A failing call changes nothing.
     */
    method ConsumeViewOnce(id: string, ghost hash: Hash) returns (error: Option<Error>)
      modifies this
      ensures Outcome(Now(), error) == Apply(old(Now()), Consume(id), hash)
      ensures error.None? <==> id in old(rows) && Viewable(old(rows)[id])
      ensures error.Some? ==> Now() == old(Now())
      ensures error.None? ==>
                var key := old(rows)[id].storageKey.value;
                rows == old(rows) - {id} &&
                blobs == if Referring(rows, key) == {} then old(blobs) - {key} else old(blobs)
      ensures BlobsPresent(old(Now())) ==> BlobsPresent(Now())
    {
      KeepsIfPresent(Now(), Consume(id), hash);
      if id !in rows || !rows[id].ready || rows[id].storageKey.None? {
        return Some(NotFound);
      }
      if !rows[id].viewOnce {
        return Some(Validation);
      }
      var won := ClaimViewOnce(id);
      if !won {
        return Some(Gone);
      }
      var _ := PurgeRow(id);
      error := None;
    }
  }

  predicate Viewable(row: Row) {
    row.ready && row.storageKey.Some? && row.viewOnce && !row.viewed
  }

  lemma KeepsIfPresent(s: State, op: Op, hash: Hash)
    requires !LosesBlob(s, op, hash)
    ensures BlobsPresent(s) ==> BlobsPresent(Apply(s, op, hash).state)
  {
    if BlobsPresent(s) {
      KeepsBlobsExactly(s, op, hash);
    }
  }
}
