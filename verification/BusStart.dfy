/**
 * Starting the event bus again after more consumers have subscribed: which subscriptions have no
 * reader yet, and the readers a start adds for them.
 */
module BusStart {
  import opened Wrappers

  /** The identity of a handler. */
  type Handler = int

  datatype Subscription = Subscription(topic: string, groupId: string, handler: Handler)

  /** One reader of a consumer group, over several topics. */
  datatype Reader = Reader(groupId: string, topics: seq<string>, handlers: map<string, Handler>)

  // ---- pendingSubscriptions ------------------------------------------------------------------

  function Key(groupId: string, topic: string): string {
    groupId + " " + topic
  }

  /** `h` is `g`, a space, and something more. */
  predicate Continues(g: string, h: string) {
    |g| < |h| && h[..|g|] == g && h[|g|] == ' '
  }

  /** The joined key identifies the pair, unless one group id continues the other. */
  lemma KeyInjective(g: string, t: string, h: string, u: string)
    requires !Continues(g, h) && !Continues(h, g)
    ensures Key(g, t) == Key(h, u) <==> g == h && t == u
  {
    var k, l := Key(g, t), Key(h, u);
    assert k[..|g|] == g && k[|g|] == ' ' && l[..|h|] == h && l[|h|] == ' ';
    assert |g| < |h| ==> l[..|g|] == h[..|g|] && l[|g|] == h[|g|];
    assert |h| < |g| ==> k[..|h|] == g[..|h|] && k[|h|] == g[|h|];
    if k == l {
      assert t == k[|g| + 1..] && u == l[|h| + 1..];
    }
  }

  lemma ContinuedKey(g: string, h: string, u: string)
    requires Continues(g, h)
    ensures Key(g, h[|g| + 1..] + " " + u) == Key(h, u)
  {
    assert h == g + " " + h[|g| + 1..];
  }

  /** Two group ids can share a key, for some topics, exactly when one continues the other. */
  lemma KeysCollideExactly(g: string, h: string)
    requires g != h
    ensures (exists t, u :: Key(g, t) == Key(h, u)) <==> Continues(g, h) || Continues(h, g)
  {
    if Continues(g, h) {
      ContinuedKey(g, h, "");
    } else if Continues(h, g) {
      ContinuedKey(h, g, "");
    } else {
      forall t, u
        ensures Key(g, t) != Key(h, u)
      {
        KeyInjective(g, t, h, u);
      }
    }
  }

  function KeyOf(s: Subscription): string {
    Key(s.groupId, s.topic)
  }

  function KeysOf(subs: seq<Subscription>): set<string> {
    set s | s in subs :: KeyOf(s)
  }

  function TopicKeys(g: string, topics: seq<string>): set<string> {
    set t | t in topics :: Key(g, t)
  }

  function CoveredKeys(readers: seq<Reader>): set<string> {
    if readers == [] then {}
    else
      var r := readers[|readers| - 1];
      CoveredKeys(readers[..|readers| - 1]) + TopicKeys(r.groupId, r.topics)
  }

  /** The first subscription for each key that is not covered, in order. */
  function Pending(all: seq<Subscription>, covered: set<string>): seq<Subscription> {
    if all == [] then []
    else
      var rest, s := Pending(all[..|all| - 1], covered), all[|all| - 1];
      if KeyOf(s) in covered || KeyOf(s) in KeysOf(rest) then rest else rest + [s]
  }

  method PendingSubscriptions(all: seq<Subscription>, readers: seq<Reader>) returns (pending: seq<Subscription>)
    ensures pending == Pending(all, CoveredKeys(readers))
  {
    var covered: set<string> := {};
    for i := 0 to |readers|
      invariant covered == CoveredKeys(readers[..i])
    {
      var g, topics := readers[i].groupId, readers[i].topics;
      for j := 0 to |topics|
        invariant covered == CoveredKeys(readers[..i]) + TopicKeys(g, topics[..j])
      {
        covered := covered + {Key(g, topics[j])};
        assert topics[..j + 1] == topics[..j] + [topics[j]];
        TopicKeysSnoc(g, topics[..j], topics[j]);
      }
      assert topics[..|topics|] == topics;
      assert readers[..i + 1][..i] == readers[..i];
    }
    assert readers[..|readers|] == readers;
    var seen: set<string> := {};
    pending := [];
    for i := 0 to |all|
      invariant pending == Pending(all[..i], covered) && seen == KeysOf(pending)
    {
      assert all[..i + 1][..i] == all[..i];
      var key := KeyOf(all[i]);
      if key in covered || key in seen {
        continue;
      }
      seen := seen + {key};
      KeysSnoc(pending, all[i]);
      pending := pending + [all[i]];
    }
    assert all[..|all|] == all;
  }

  lemma TopicKeysSnoc(g: string, topics: seq<string>, t: string)
    ensures TopicKeys(g, topics + [t]) == TopicKeys(g, topics) + {Key(g, t)}
  {
  }

  lemma KeysSnoc(subs: seq<Subscription>, s: Subscription)
    ensures KeysOf(subs + [s]) == KeysOf(subs) + {KeyOf(s)}
  {
  }

  lemma {:induction false} PendingKeys(all: seq<Subscription>, covered: set<string>)
    ensures KeysOf(Pending(all, covered)) == KeysOf(all) - covered
    ensures forall p | p in Pending(all, covered) :: p in all
    ensures forall p, q | p in Pending(all, covered) && q in Pending(all, covered) && KeyOf(p) == KeyOf(q) :: p == q
  {
    if all != [] {
      var init, s := all[..|all| - 1], all[|all| - 1];
      var rest := Pending(init, covered);
      PendingKeys(init, covered);
      assert all == init + [s];
      assert Pending(all, covered) == if KeyOf(s) in covered || KeyOf(s) in KeysOf(rest) then rest else rest + [s];
      hide Pending;
      KeysSnoc(init, s);
      KeysSnoc(rest, s);
      KeysHave(rest);
      hide KeysOf, KeyOf;
    }
  }

  lemma KeysHave(subs: seq<Subscription>)
    ensures forall p | p in subs :: KeyOf(p) in KeysOf(subs)
  {
  }

  // ---- what the readers cover ----------------------------------------------------------------

  predicate Reads(r: Reader, g: string, t: string) {
    r.groupId == g && t in r.topics
  }

  predicate Covered(readers: seq<Reader>, g: string, t: string) {
    exists i | 0 <= i < |readers| :: Reads(readers[i], g, t)
  }

  ghost predicate ReadsKey(r: Reader, k: string) {
    k in TopicKeys(r.groupId, r.topics)
  }

  lemma {:induction false} CoveredKeysAre(readers: seq<Reader>, k: string)
    ensures k in CoveredKeys(readers) <==> exists i | 0 <= i < |readers| :: ReadsKey(readers[i], k)
  {
    if readers != [] {
      var n := |readers| - 1;
      CoveredKeysAre(readers[..n], k);
      if k in CoveredKeys(readers[..n]) {
        var i :| 0 <= i < n && ReadsKey(readers[..n][i], k);
        assert ReadsKey(readers[i], k);
      }
      if i :| 0 <= i < |readers| && ReadsKey(readers[i], k) {
        assert i < n ==> ReadsKey(readers[..n][i], k);
      }
    }
  }

  /** `pending.some((p) => p.groupId === sub.groupId && p.topic === sub.topic)`. */
  predicate IsPending(pending: seq<Subscription>, g: string, t: string) {
    exists p | p in pending :: p.groupId == g && p.topic == t
  }

  /** Different pairs have different keys. */
  ghost predicate KeysDistinct(subs: seq<Subscription>) {
    forall s, s' | s in subs && s' in subs && KeyOf(s) == KeyOf(s') :: s.groupId == s'.groupId && s.topic == s'.topic
  }

  /** It is enough that no group id continues another. */
  lemma PlainIdsAreDistinct(subs: seq<Subscription>)
    requires forall s, s' | s in subs && s' in subs :: !Continues(s.groupId, s'.groupId)
    ensures KeysDistinct(subs)
  {
    forall s, s' | s in subs && s' in subs && KeyOf(s) == KeyOf(s')
      ensures s.groupId == s'.groupId && s.topic == s'.topic
    {
      KeyInjective(s.groupId, s.topic, s'.groupId, s'.topic);
    }
  }

  /** Each key has at most one reader. */
  ghost predicate OneReaderPerKey(readers: seq<Reader>) {
    forall i, j, k | 0 <= i < |readers| && 0 <= j < |readers| && ReadsKey(readers[i], k) && ReadsKey(readers[j], k) ::
      i == j
  }

  ghost predicate AllCovered(subs: seq<Subscription>, readers: seq<Reader>) {
    forall s | s in subs :: Covered(readers, s.groupId, s.topic)
  }

  /** Once every key has a reader, every pair has one exactly when no two pairs share a key. */
  lemma CoveredExactlyWhenDistinct(subs: seq<Subscription>, readers: seq<Reader>)
    requires OneReaderPerKey(readers) && KeysOf(subs) <= CoveredKeys(readers)
    requires forall i, t | 0 <= i < |readers| && t in readers[i].topics :: HasPair(subs, readers[i].groupId, t)
    ensures AllCovered(subs, readers) <==> KeysDistinct(subs)
  {
    hide KeysDistinct, AllCovered, OneReaderPerKey;
    if KeysDistinct(subs) {
      DistinctAreCovered(subs, readers);
    }
    if AllCovered(subs, readers) {
      CoveredAreDistinct(subs, readers);
    }
  }

  lemma DistinctAreCovered(subs: seq<Subscription>, readers: seq<Reader>)
    requires KeysDistinct(subs) && KeysOf(subs) <= CoveredKeys(readers)
    requires forall i, t | 0 <= i < |readers| && t in readers[i].topics :: HasPair(subs, readers[i].groupId, t)
    ensures AllCovered(subs, readers)
  {
    hide CoveredKeys;
    forall s | s in subs
      ensures Covered(readers, s.groupId, s.topic)
    {
      assert KeyOf(s) in KeysOf(subs);
      CoveredKeysAre(readers, KeyOf(s));
      var i :| 0 <= i < |readers| && ReadsKey(readers[i], KeyOf(s));
      var t :| t in readers[i].topics && Key(readers[i].groupId, t) == KeyOf(s);
      assert HasPair(subs, readers[i].groupId, t);
      var s' :| s' in subs && s'.groupId == readers[i].groupId && s'.topic == t;
      assert KeyOf(s') == KeyOf(s);
      assert Reads(readers[i], s.groupId, s.topic);
    }
  }

  lemma CoveredAreDistinct(subs: seq<Subscription>, readers: seq<Reader>)
    requires OneReaderPerKey(readers) && AllCovered(subs, readers)
    ensures KeysDistinct(subs)
  {
    forall s, s' | s in subs && s' in subs && KeyOf(s) == KeyOf(s')
      ensures s.groupId == s'.groupId && s.topic == s'.topic
    {
      assert Covered(readers, s.groupId, s.topic) && Covered(readers, s'.groupId, s'.topic);
      var i :| 0 <= i < |readers| && Reads(readers[i], s.groupId, s.topic);
      var j :| 0 <= j < |readers| && Reads(readers[j], s'.groupId, s'.topic);
      assert ReadsKey(readers[i], KeyOf(s)) && ReadsKey(readers[j], KeyOf(s));
      KeyInjective(s.groupId, s.topic, s.groupId, s'.topic);
    }
  }

  // ---- start() -------------------------------------------------------------------------------

  /** The last handler registered for a pair. */
  function LastHandler(subs: seq<Subscription>, g: string, t: string): Option<Handler> {
    if subs == [] then None
    else
      var s := subs[|subs| - 1];
      if s.groupId == g && s.topic == t then Some(s.handler) else LastHandler(subs[..|subs| - 1], g, t)
  }

  /** The pending subscriptions of one group, in order, repeats included. */
  function Select(subs: seq<Subscription>, pending: seq<Subscription>, g: string): seq<Subscription> {
    if subs == [] then []
    else
      var rest, s := Select(subs[..|subs| - 1], pending, g), subs[|subs| - 1];
      if IsPending(pending, s.groupId, s.topic) && s.groupId == g then rest + [s] else rest
  }

  /** `[...new Set(subs.map((s) => s.topic))]`. */
  function TopicsOf(subs: seq<Subscription>): (ts: seq<string>)
    ensures forall i, j | 0 <= i < j < |ts| :: ts[i] != ts[j]
  {
    if subs == [] then []
    else
      var rest, t := TopicsOf(subs[..|subs| - 1]), subs[|subs| - 1].topic;
      if t in rest then rest else rest + [t]
  }

  /** `new Map(subs.map((s) => [s.topic, s.handler]))`. */
  function HandlersOf(subs: seq<Subscription>): (m: map<string, Handler>)
    ensures m.Keys == set t | t in TopicsOf(subs)
  {
    if subs == [] then map[] else HandlersOf(subs[..|subs| - 1])[subs[|subs| - 1].topic := subs[|subs| - 1].handler]
  }

  function ReaderFor(subs: seq<Subscription>, pending: seq<Subscription>, g: string): Reader {
    var mine := Select(subs, pending, g);
    Reader(g, TopicsOf(mine), HandlersOf(mine))
  }

  ghost predicate HasPair(subs: seq<Subscription>, g: string, t: string) {
    exists s :: s in subs && s.groupId == g && s.topic == t
  }

  lemma HasPairSnoc(subs: seq<Subscription>, s: Subscription, g: string, t: string)
    ensures HasPair(subs + [s], g, t) <==> HasPair(subs, g, t) || (s.groupId == g && s.topic == t)
  {
    assert s in subs + [s];
  }

  lemma SelectSnoc(subs: seq<Subscription>, pending: seq<Subscription>, g: string, s: Subscription)
    ensures Select(subs + [s], pending, g) ==
            if IsPending(pending, s.groupId, s.topic) && s.groupId == g
            then Select(subs, pending, g) + [s] else Select(subs, pending, g)
  {
    assert (subs + [s])[..|subs|] == subs;
  }

  lemma ReaderSnoc(mine: seq<Subscription>, s: Subscription, t: string)
    ensures t in TopicsOf(mine + [s]) <==> t in TopicsOf(mine) || t == s.topic
    ensures HandlersOf(mine + [s]) == HandlersOf(mine)[s.topic := s.handler]
  {
    assert (mine + [s])[..|mine|] == mine;
  }

  lemma {:induction false} ReaderForReads(subs: seq<Subscription>, pending: seq<Subscription>, g: string, t: string)
    ensures t in TopicsOf(Select(subs, pending, g)) <==> IsPending(pending, g, t) && HasPair(subs, g, t)
    ensures t in TopicsOf(Select(subs, pending, g)) ==>
              LastHandler(subs, g, t) == Some(HandlersOf(Select(subs, pending, g))[t])
  {
    hide IsPending, HasPair;
    if subs == [] {
      assert !HasPair([], g, t) by { NoPair(g, t); }
    } else {
      var init, s := subs[..|subs| - 1], subs[|subs| - 1];
      ReaderForReads(init, pending, g, t);
      assert subs == init + [s];
      HasPairSnoc(init, s, g, t);
      SelectSnoc(init, pending, g, s);
      ReaderSnoc(Select(init, pending, g), s, t);
    }
  }

  lemma NoPair(g: string, t: string)
    ensures !HasPair([], g, t)
  {
  }

  function ReadersFor(subs: seq<Subscription>, pending: seq<Subscription>, order: seq<string>): seq<Reader> {
    seq(|order|, i requires 0 <= i < |order| => ReaderFor(subs, pending, order[i]))
  }

  /** The groups with a pending subscription, in first-appearance order. */
  method GroupOrder(subs: seq<Subscription>, pending: seq<Subscription>) returns (order: seq<string>)
    ensures InOrder(subs, pending, order)
  {
    order := [];
    for i := 0 to |subs|
      invariant InOrder(subs[..i], pending, order)
    {
      assert subs[..i + 1] == subs[..i] + [subs[i]];
      if IsPending(pending, subs[i].groupId, subs[i].topic) && subs[i].groupId !in order {
        order := order + [subs[i].groupId];
      }
    }
    assert subs[..|subs|] == subs;
  }

  /** Each group with a pending subscription, once. */
  ghost predicate InOrder(subs: seq<Subscription>, pending: seq<Subscription>, order: seq<string>) {
    (forall i, j | 0 <= i < j < |order| :: order[i] != order[j]) &&
    (forall s | s in subs && IsPending(pending, s.groupId, s.topic) :: s.groupId in order) &&
    (forall g | g in order :: exists s :: s in subs && IsPending(pending, s.groupId, s.topic) && s.groupId == g)
  }

  // ---- what holds between starts -------------------------------------------------------------

  /** Each topic once, with the last handler registered for it among `known`. */
  ghost predicate ReaderOk(known: seq<Subscription>, r: Reader) {
    (forall a, b | 0 <= a < b < |r.topics| :: r.topics[a] != r.topics[b]) &&
    (forall t | t in r.topics ::
      HasPair(known, r.groupId, t) && t in r.handlers && LastHandler(known, r.groupId, t) == Some(r.handlers[t]))
  }

  ghost predicate ReadersOk(subs: seq<Subscription>, readers: seq<Reader>, asOf: seq<nat>) {
    |asOf| == |readers| &&
    forall i | 0 <= i < |readers| :: asOf[i] <= |subs| && ReaderOk(subs[..asOf[i]], readers[i])
  }

  lemma ReadersOkMore(subs: seq<Subscription>, before: seq<Reader>, asOf: seq<nat>, added: seq<Reader>, asOf': seq<nat>)
    requires ReadersOk(subs, before, asOf) && forall i | 0 <= i < |added| :: ReaderOk(subs, added[i])
    requires |asOf'| == |before| + |added| && asOf <= asOf'
    requires forall i | |asOf| <= i < |asOf'| :: asOf'[i] == |subs|
    ensures ReadersOk(subs, before + added, asOf')
  {
    assert subs[..|subs|] == subs;
  }

  lemma ReadersHavePairs(subs: seq<Subscription>, readers: seq<Reader>, asOf: seq<nat>)
    requires ReadersOk(subs, readers, asOf)
    ensures |asOf| == |readers|
    ensures forall i, t | 0 <= i < |readers| && t in readers[i].topics :: HasPair(subs, readers[i].groupId, t)
  {
    forall i, t | 0 <= i < |readers| && t in readers[i].topics
      ensures HasPair(subs, readers[i].groupId, t)
    {
      assert ReaderOk(subs[..asOf[i]], readers[i]);
      var s :| s in subs[..asOf[i]] && s.groupId == readers[i].groupId && s.topic == t;
      assert s in subs;
    }
  }

  /** A new reader's topics are the pending ones of its group. */
  lemma NewReader(subs: seq<Subscription>, pending: seq<Subscription>, g: string)
    requires forall p | p in pending :: p in subs
    ensures var r := ReaderFor(subs, pending, g);
            ReaderOk(subs, r) && forall t :: t in r.topics <==> IsPending(pending, g, t)
  {
    var r := ReaderFor(subs, pending, g);
    forall t
      ensures t in r.topics <==> IsPending(pending, g, t)
      ensures t in r.topics ==> HasPair(subs, g, t) && LastHandler(subs, g, t) == Some(r.handlers[t])
    {
      ReaderForReads(subs, pending, g, t);
    }
  }

  /** So it reads a key exactly when a pending subscription of its group has it. */
  lemma NewReaderKeys(subs: seq<Subscription>, pending: seq<Subscription>, g: string, k: string)
    requires forall p | p in pending :: p in subs
    ensures ReadsKey(ReaderFor(subs, pending, g), k) <==> exists p | p in pending :: p.groupId == g && KeyOf(p) == k
  {
    hide ReaderFor;
    NewReader(subs, pending, g);
    var r := ReaderFor(subs, pending, g);
    assert r.groupId == g by { ReaderGroup(subs, pending, g); }
    if t :| t in r.topics && Key(g, t) == k {
      assert IsPending(pending, g, t);
    }
    if p :| p in pending && p.groupId == g && KeyOf(p) == k {
      assert IsPending(pending, g, p.topic);
    }
  }

  lemma ReaderGroup(subs: seq<Subscription>, pending: seq<Subscription>, g: string)
    ensures ReaderFor(subs, pending, g).groupId == g
  {
  }

  /** The pending subscriptions are those of the first uncovered keys. */
  ghost predicate PendingFor(subs: seq<Subscription>, pending: seq<Subscription>, before: seq<Reader>) {
    KeysOf(pending) == KeysOf(subs) - CoveredKeys(before) && (forall p | p in pending :: p in subs) &&
    forall p, q | p in pending && q in pending && KeyOf(p) == KeyOf(q) :: p == q
  }

  lemma AfterStart(subs: seq<Subscription>, pending: seq<Subscription>, order: seq<string>, before: seq<Reader>)
    requires OneReaderPerKey(before) && PendingFor(subs, pending, before) && InOrder(subs, pending, order)
    ensures var after := before + ReadersFor(subs, pending, order);
            OneReaderPerKey(after) && KeysOf(subs) <= CoveredKeys(after)
  {
    hide ReaderFor, InOrder, IsPending;
    var added := ReadersFor(subs, pending, order);
    var after := before + added;
    forall i, j, k | 0 <= i < |after| && 0 <= j < |after| && ReadsKey(after[i], k) && ReadsKey(after[j], k)
      ensures i == j
    {
      CoveredKeysAre(before, k);
      if i >= |before| {
        AddedReads(subs, pending, order, before, i - |before|, k);
      }
      if j >= |before| {
        AddedReads(subs, pending, order, before, j - |before|, k);
      }
      if i >= |before| && j >= |before| {
        assert order[i - |before|] == order[j - |before|];
        OrderOnce(subs, pending, order, i - |before|, j - |before|);
      }
    }
    forall k | k in KeysOf(subs)
      ensures k in CoveredKeys(after)
    {
      CoveredKeysAre(before, k);
      CoveredKeysAre(after, k);
      if k in CoveredKeys(before) {
        var i :| 0 <= i < |before| && ReadsKey(before[i], k);
        assert ReadsKey(after[i], k);
      } else {
        var i := PendingIsAdded(subs, pending, order, k);
        assert ReadsKey(after[|before| + i], k);
      }
    }
  }

  lemma OrderOnce(subs: seq<Subscription>, pending: seq<Subscription>, order: seq<string>, i: nat, j: nat)
    requires InOrder(subs, pending, order) && i < |order| && j < |order| && order[i] == order[j]
    ensures i == j
  {
  }

  /** A new reader's key had no reader, and belongs to the reader's own group. */
  lemma AddedReads(subs: seq<Subscription>, pending: seq<Subscription>, order: seq<string>, before: seq<Reader>,
                   i: nat, k: string)
    requires PendingFor(subs, pending, before) && i < |order| && ReadsKey(ReadersFor(subs, pending, order)[i], k)
    ensures k !in CoveredKeys(before) && exists p | p in pending :: KeyOf(p) == k && p.groupId == order[i]
  {
    NewReaderKeys(subs, pending, order[i], k);
    var p :| p in pending && p.groupId == order[i] && KeyOf(p) == k;
    assert KeyOf(p) in KeysOf(pending);
  }

  lemma PendingIsAdded(subs: seq<Subscription>, pending: seq<Subscription>, order: seq<string>, k: string)
    returns (i: nat)
    requires InOrder(subs, pending, order) && k in KeysOf(pending) && forall p | p in pending :: p in subs
    ensures i < |order| && ReadsKey(ReadersFor(subs, pending, order)[i], k)
  {
    var p :| p in pending && KeyOf(p) == k;
    assert IsPending(pending, p.groupId, p.topic);
    i :| 0 <= i < |order| && order[i] == p.groupId;
    NewReaderKeys(subs, pending, p.groupId, k);
  }

  /** Every group that gets a reader has something pending. */
  lemma NewReadersBusy(subs: seq<Subscription>, pending: seq<Subscription>, order: seq<string>)
    requires InOrder(subs, pending, order) && forall p | p in pending :: p in subs
    ensures forall i | 0 <= i < |order| ::
              ReaderOk(subs, ReadersFor(subs, pending, order)[i]) && ReadersFor(subs, pending, order)[i].topics != []
  {
    forall i | 0 <= i < |order|
      ensures ReaderOk(subs, ReaderFor(subs, pending, order[i])) && ReaderFor(subs, pending, order[i]).topics != []
    {
      assert order[i] in order;
      NewReader(subs, pending, order[i]);
      var s :| s in subs && IsPending(pending, s.groupId, s.topic) && s.groupId == order[i];
      assert s.topic in ReaderFor(subs, pending, order[i]).topics;
    }
  }

  lemma Started(subs: seq<Subscription>, pending: seq<Subscription>, order: seq<string>, before: seq<Reader>,
                asOf: seq<nat>, asOf': seq<nat>)
    requires ReadersOk(subs, before, asOf) && PendingFor(subs, pending, before) && InOrder(subs, pending, order)
    requires |asOf'| == |before| + |order| && asOf <= asOf'
    requires forall i | |before| <= i < |asOf'| :: asOf'[i] == |subs|
    requires var after := before + ReadersFor(subs, pending, order);
             OneReaderPerKey(after) && KeysOf(subs) <= CoveredKeys(after)
    ensures var after := before + ReadersFor(subs, pending, order);
            && ReadersOk(subs, after, asOf')
            && (AllCovered(subs, after) <==> KeysDistinct(subs))
            && (forall i | |before| <= i < |after| :: after[i].topics != [])
            && forall i, k | |before| <= i < |after| && ReadsKey(after[i], k) :: k !in CoveredKeys(before)
  {
    hide IsPending, OneReaderPerKey, ReaderFor, InOrder, CoveredKeys, KeysOf, ReadsKey, ReadersOk;
    hide KeysDistinct, AllCovered, ReaderOk;
    var after := before + ReadersFor(subs, pending, order);
    ReadersHavePairs(subs, before, asOf);
    NewReadersBusy(subs, pending, order);
    ReadersOkMore(subs, before, asOf, ReadersFor(subs, pending, order), asOf');
    ReadersHavePairs(subs, after, asOf');
    CoveredExactlyWhenDistinct(subs, after);
    forall i, k | |before| <= i < |after| && ReadsKey(after[i], k)
      ensures k !in CoveredKeys(before)
    {
      AddedReads(subs, pending, order, before, i - |before|, k);
    }
  }

  class Bus {
    var running: bool
    var subscriptions: seq<Subscription>
    var groups: seq<Reader>
    /** How many subscriptions the last start knew, and how many each reader's own start knew. */
    ghost var started: nat
    ghost var asOf: seq<nat>

    constructor ()
      ensures Valid() && subscriptions == [] && groups == [] && !running
    {
      running, subscriptions, groups := false, [], [];
      started, asOf := 0, [];
    }

    /** Each reader has the handlers its own start knew, no key has two readers, and every key
        subscribed before the last start has one. */
    ghost predicate Valid()
      reads this
    {
      started <= |subscriptions| && ReadersOk(subscriptions, groups, asOf) && OneReaderPerKey(groups) &&
      KeysOf(subscriptions[..started]) <= CoveredKeys(groups)
    }

    method Subscribe(topic: string, groupId: string, handler: Handler)
      requires Valid()
      modifies this`subscriptions
      ensures Valid() && subscriptions == old(subscriptions) + [Subscription(topic, groupId, handler)]
    {
      subscriptions := subscriptions + [Subscription(topic, groupId, handler)];
      assert subscriptions[..started] == old(subscriptions)[..started];
      assert forall i | 0 <= i < |groups| :: subscriptions[..asOf[i]] == old(subscriptions)[..asOf[i]];
    }

    /**
     * After a start every key subscribed so far has one reader, so every pair has one exactly when no
     * two pairs share a key. Readers already running are left alone, new readers take only keys nobody
     * read, and if there are none no reader is added.
     */
    method Start()
      requires Valid()
      modifies this
      ensures Valid() && running && subscriptions == old(subscriptions)
      ensures started == |subscriptions|
      ensures AllCovered(subscriptions, groups) <==> KeysDistinct(subscriptions)
      ensures old(groups) <= groups && old(asOf) <= asOf
      ensures forall i | |old(groups)| <= i < |groups| :: asOf[i] == |subscriptions| && groups[i].topics != []
      ensures forall i, k | |old(groups)| <= i < |groups| && ReadsKey(groups[i], k) :: k !in CoveredKeys(old(groups))
      ensures KeysOf(subscriptions) <= CoveredKeys(old(groups)) ==> groups == old(groups)
    {
      hide IsPending, OneReaderPerKey, ReaderFor, InOrder, Pending, CoveredKeys, KeysOf, ReadsKey, ReadersOk;
      hide KeysDistinct, AllCovered;
      running := true;
      var pending := PendingSubscriptions(subscriptions, groups);
      PendingKeys(subscriptions, CoveredKeys(groups));
      SomeKey(pending);
      ReadersHavePairs(subscriptions, groups, asOf);
      assert subscriptions[..|subscriptions|] == subscriptions;
      started := |subscriptions|;
      if |pending| == 0 {
        assert pending == [];
        NoneLeft(KeysOf(subscriptions), CoveredKeys(groups));
        CoveredExactlyWhenDistinct(subscriptions, groups);
        return;
      }
      var order := GroupOrder(subscriptions, pending);
      AfterStart(subscriptions, pending, order, groups);
      AddReaders(pending, order);
      Started(subscriptions, pending, order, old(groups), old(asOf), asOf);
    }

    method AddReaders(pending: seq<Subscription>, order: seq<string>)
      requires |asOf| == |groups|
      modifies this`groups, this`asOf
      ensures groups == old(groups) + ReadersFor(subscriptions, pending, order)
      ensures |asOf| == |groups| && old(asOf) <= asOf
      ensures forall i | |old(asOf)| <= i < |asOf| :: asOf[i] == |subscriptions|
    {
      for k := 0 to |order|
        invariant groups == old(groups) + ReadersFor(subscriptions, pending, order)[..k]
        invariant |asOf| == |groups| && old(asOf) <= asOf
        invariant forall i | |old(asOf)| <= i < |asOf| :: asOf[i] == |subscriptions|
      {
        groups := groups + [ReaderFor(subscriptions, pending, order[k])];
        asOf := asOf + [|subscriptions|];
      }
    }
  }

  lemma NoneLeft(keys: set<string>, covered: set<string>)
    requires keys - covered == {}
    ensures keys <= covered
  {
    assert forall k | k in keys :: k in covered || k in keys - covered;
  }

  lemma SomeKey(pending: seq<Subscription>)
    ensures pending == [] <==> KeysOf(pending) == {}
  {
    if pending != [] {
      assert KeyOf(pending[0]) in KeysOf(pending);
    }
  }

  // ---- two ids, one continuing the other -------------------------------------------------------

  /**
   * With one group id continuing the other, and only then, there are topics for which the second of
   * two subscriptions never gets a reader.
   */
  lemma SecondIsLostExactly(g: string, h: string)
    requires g != h
    ensures (exists t, u :: Lost(Subscription(t, g, 1), Subscription(u, h, 2))) <==> Continues(g, h) || Continues(h, g)
  {
    forall t, u
      ensures Lost(Subscription(t, g, 1), Subscription(u, h, 2)) <==> Key(g, t) == Key(h, u)
    {
      LostExactly(Subscription(t, g, 1), Subscription(u, h, 2));
    }
    KeysCollideExactly(g, h);
    if t, u :| Key(g, t) == Key(h, u) {
      assert Lost(Subscription(t, g, 1), Subscription(u, h, 2));
    }
    if t, u :| Lost(Subscription(t, g, 1), Subscription(u, h, 2)) {
      assert Key(g, t) == Key(h, u);
    }
  }

  /** A start that knows both leaves the second without a reader. */
  ghost predicate Lost(first: Subscription, second: Subscription) {
    second !in Pending([first, second], {})
  }

  lemma LostExactly(x: Subscription, y: Subscription)
    requires x != y
    ensures Lost(x, y) <==> KeyOf(x) == KeyOf(y)
  {
    assert [x, y][..1] == [x] && [x][..0] == [];
    assert Pending([x], {}) == [x];
    assert KeyOf(x) in KeysOf([x]);
  }
}
