/** What the winner of a competition does with its own record and with the requests handed to it:
    try_put_to_existing_node, help_others, put10, put12, put14, put16, eager_morph and
    out_of_place_split_node (src/components/node/compute_node). */
module PutPaths {
  import opened Keys
  import opened DataLayer
  import opened Split

  // ---------------------------------------------------------------- batches of records

  /** The records of a batch inserted one after the other, an existing key keeping its value. */
  function PutAll(m: map<Key, Value>, kvs: seq<KV>): map<Key, Value> {
    if kvs == [] then m
    else InsertIfAbsent(PutAll(m, kvs[..|kvs| - 1]), kvs[|kvs| - 1].key, kvs[|kvs| - 1].value)
  }

  lemma PutAllAppend(m: map<Key, Value>, kvs: seq<KV>, kv: KV)
    ensures PutAll(m, kvs + [kv]) == InsertIfAbsent(PutAll(m, kvs), kv.key, kv.value)
  {
    assert (kvs + [kv])[..|kvs|] == kvs;
  }

  lemma {:induction false} PutAllConcat(m: map<Key, Value>, a: seq<KV>, b: seq<KV>)
    ensures PutAll(m, a + b) == PutAll(PutAll(m, a), b)
  {
    if b == [] {
      assert a + b == a;
    } else {
      var n := |b| - 1;
      PutAllConcat(m, a, b[..n]);
      assert a + b == (a + b[..n]) + [b[n]] && b == b[..n] + [b[n]];
      PutAllAppend(m, a + b[..n], b[n]);
    }
  }

  /** The answer to a request. */
  datatype Reply = Reply(kv: KV, succeed: bool, retry: bool)

  function Asked(replies: seq<Reply>): (r: seq<KV>)
    ensures |r| == |replies|
  {
    if replies == [] then [] else Asked(replies[..|replies| - 1]) + [replies[|replies| - 1].kv]
  }

  /** The records stored on the winner's own node, in order. */
  function Kept(replies: seq<Reply>, anchor: Key): seq<KV> {
    if replies == [] then []
    else
      var r := replies[|replies| - 1];
      Kept(replies[..|replies| - 1], anchor) + if anchor <= r.kv.key && r.succeed then [r.kv] else []
  }

  /** The records stored on the predecessor, in order. */
  function Passed(replies: seq<Reply>, anchor: Key): seq<KV> {
    if replies == [] then []
    else
      var r := replies[|replies| - 1];
      Passed(replies[..|replies| - 1], anchor) + if r.kv.key < anchor && r.succeed then [r.kv] else []
  }

  lemma OneMoreReply(replies: seq<Reply>, r: Reply, anchor: Key)
    ensures Asked(replies + [r]) == Asked(replies) + [r.kv]
    ensures Kept(replies + [r], anchor) ==
            Kept(replies, anchor) + if anchor <= r.kv.key && r.succeed then [r.kv] else []
    ensures Passed(replies + [r], anchor) ==
            Passed(replies, anchor) + if r.kv.key < anchor && r.succeed then [r.kv] else []
  {
    assert (replies + [r])[..|replies|] == replies;
  }

  lemma LastReply(a: seq<Reply>, b: seq<Reply>)
    requires b != []
    ensures var n := |b| - 1;
            a + b == (a + b[..n]) + [b[n]] && b == b[..n] + [b[n]]
  {
  }

  lemma {:induction false} KeptConcat(a: seq<Reply>, b: seq<Reply>, anchor: Key)
    ensures Kept(a + b, anchor) == Kept(a, anchor) + Kept(b, anchor)
    ensures Passed(a + b, anchor) == Passed(a, anchor) + Passed(b, anchor)
    ensures Asked(a + b) == Asked(a) + Asked(b)
  {
    if b == [] {
      assert a + b == a;
    } else {
      var n := |b| - 1;
      KeptConcat(a, b[..n], anchor);
      LastReply(a, b);
      OneMoreReply(a + b[..n], b[n], anchor);
      OneMoreReply(b[..n], b[n], anchor);
      hide Asked, Kept, Passed;
      Assoc(Kept(a, anchor), Kept(b[..n], anchor), if anchor <= b[n].kv.key && b[n].succeed then [b[n].kv] else []);
      Assoc(Passed(a, anchor), Passed(b[..n], anchor), if b[n].kv.key < anchor && b[n].succeed then [b[n].kv] else []);
      Assoc(Asked(a), Asked(b[..n]), [b[n].kv]);
    }
  }

  lemma Assoc(a: seq<KV>, b: seq<KV>, c: seq<KV>)
    ensures a + b + c == a + (b + c)
  {
  }

  // ---------------------------------------------------------------- serving requests

  /** The room help_pred sees in a node of type t: a data node's, and none in anything else. */
  function StoreCapacity(t: LinkedNodeType): (c: nat)
    ensures c == match t
                 case Type10 => 10
                 case Type12 => 12
                 case Type14 => 14
                 case Type16 => 16
                 case _ => 0
  {
    if t == TypeHead then 0 else Capacity(t)
  }

  /** A request fails only on a full predecessor, or on a full node. */
  predicate ReplyOk(r: Reply, anchor: Key, predFull: bool, full: bool) {
    r.retry == !r.succeed && (!r.succeed ==> if anchor <= r.kv.key then full else predFull)
  }

  ghost predicate RepliesOk(replies: seq<Reply>, anchor: Key, predFull: bool, full: bool) {
    forall i {:trigger replies[i]} :: 0 <= i < |replies| ==> ReplyOk(replies[i], anchor, predFull, full)
  }

  /** No request is lost or doubled. */
  ghost predicate AllAsked(queue: seq<KV>, rest: seq<KV>, replies: seq<Reply>) {
    multiset(Asked(replies)) + multiset(rest) == multiset(queue) && |replies| + |rest| == |queue|
  }

  lemma AskedNext(queue: seq<KV>, rest: seq<KV>, replies: seq<Reply>, succeed: bool)
    requires AllAsked(queue, rest, replies) && rest != []
    ensures AllAsked(queue, rest[1..], replies + [Reply(rest[0], succeed, !succeed)])
  {
    assert rest == [rest[0]] + rest[1..];
    OneMoreReply(replies, Reply(rest[0], succeed, !succeed), 0);
  }

  /** What serving part of a queue has come to: no request is lost; the node holds what it held and
      what was granted in its own range; the predecessor holds what it held and what was granted
      below that range; only a full predecessor makes a request fail, or a full node, if full says
      that the node is. */
  ghost predicate Helped(anchor: Key, queue: seq<KV>, rest: seq<KV>, replies: seq<Reply>, full: bool, predCap: nat,
                         pred: seq<KV>, pred': seq<KV>, recs: seq<KV>, recs': seq<KV>)
  {
    && AllAsked(queue, rest, replies) && RepliesOk(replies, anchor, |pred'| >= predCap, full)
    && Contents(recs') == PutAll(Contents(recs), Kept(replies, anchor))
    && Contents(pred') == PutAll(Contents(pred), Passed(replies, anchor))
    && |recs| <= |recs'| <= |recs| + |replies| && |pred| <= |pred'|
  }

  /** One more request served on the node itself. */
  lemma HelpedOnNode(anchor: Key, queue: seq<KV>, rest: seq<KV>, replies: seq<Reply>, full: bool, predCap: nat,
                     pred: seq<KV>, pred': seq<KV>, recs: seq<KV>, recs': seq<KV>, cap: nat)
    requires Helped(anchor, queue, rest, replies, full, predCap, pred, pred', recs, recs') && Distinct(recs')
    requires rest != [] && anchor <= rest[0].key && |recs'| < cap
    ensures Helped(anchor, queue, rest[1..], replies + [Reply(rest[0], true, false)], full, predCap, pred, pred',
                   recs, AfterStore(cap, recs', rest[0].key, rest[0].value))
  {
    var kv, reply := rest[0], Reply(rest[0], true, false);
    AskedNext(queue, rest, replies, true);
    KeptNext(Contents(recs), Contents(pred), replies, reply, anchor);
    AfterStoreInserts(cap, recs', kv.key, kv.value);
    RepliesOneMore(replies, reply, anchor, |pred'| >= predCap, full);
    AfterStoreGrows(cap, recs', kv.key, kv.value);
    hide PutAll, Kept, Passed, Contents, Distinct, AfterStore, Asked, InsertIfAbsent;
  }

  /** One more request passed on to the predecessor, which may be full. */
  lemma HelpedOnPred(anchor: Key, queue: seq<KV>, rest: seq<KV>, replies: seq<Reply>, full: bool, predCap: nat,
                     pred: seq<KV>, pred': seq<KV>, recs: seq<KV>, recs': seq<KV>)
    requires Helped(anchor, queue, rest, replies, full, predCap, pred, pred', recs, recs') && Distinct(pred')
    requires rest != [] && rest[0].key < anchor
    ensures var ok := |pred'| < predCap;
            Helped(anchor, queue, rest[1..], replies + [Reply(rest[0], ok, !ok)], full, predCap, pred,
                   AfterStore(predCap, pred', rest[0].key, rest[0].value), recs, recs')
  {
    var kv, ok := rest[0], |pred'| < predCap;
    var reply := Reply(kv, ok, !ok);
    AskedNext(queue, rest, replies, ok);
    KeptNext(Contents(recs), Contents(pred), replies, reply, anchor);
    AfterStoreInserts(predCap, pred', kv.key, kv.value);
    AfterStoreGrows(predCap, pred', kv.key, kv.value);
    RepliesOneMore(replies, reply, anchor, |pred'| >= predCap, full);
    hide PutAll, Kept, Passed, Contents, Distinct, AfterStore, Asked, InsertIfAbsent;
  }

  /** One more request refused, because the node is full. */
  lemma HelpedRefused(anchor: Key, queue: seq<KV>, rest: seq<KV>, replies: seq<Reply>, full: bool, predCap: nat,
                      pred: seq<KV>, pred': seq<KV>, recs: seq<KV>, recs': seq<KV>)
    requires Helped(anchor, queue, rest, replies, full, predCap, pred, pred', recs, recs')
    requires rest != [] && anchor <= rest[0].key
    ensures Helped(anchor, queue, rest[1..], replies + [Reply(rest[0], false, true)], true, predCap, pred, pred',
            recs, recs')
  {
    var reply := Reply(rest[0], false, true);
    AskedNext(queue, rest, replies, false);
    KeptNext(Contents(recs), Contents(pred), replies, reply, anchor);
    RepliesOneMore(replies, reply, anchor, |pred'| >= predCap, full);
    hide PutAll, Kept, Passed, Contents, Asked, InsertIfAbsent;
  }

  /** What one more reply adds to the two nodes. */
  lemma KeptNext(m: map<Key, Value>, mp: map<Key, Value>, replies: seq<Reply>, r: Reply, anchor: Key)
    ensures PutAll(m, Kept(replies + [r], anchor)) ==
              if anchor <= r.kv.key && r.succeed then
                  InsertIfAbsent(PutAll(m, Kept(replies, anchor)), r.kv.key, r.kv.value)
              else PutAll(m, Kept(replies, anchor))
    ensures PutAll(mp, Passed(replies + [r], anchor)) ==
              if r.kv.key < anchor && r.succeed then
                  InsertIfAbsent(PutAll(mp, Passed(replies, anchor)), r.kv.key, r.kv.value)
              else PutAll(mp, Passed(replies, anchor))
  {
    OneMoreReply(replies, r, anchor);
    PutAllAppend(m, Kept(replies, anchor), r.kv);
    PutAllAppend(mp, Passed(replies, anchor), r.kv);
    assert Kept(replies, anchor) + [] == Kept(replies, anchor);
    assert Passed(replies, anchor) + [] == Passed(replies, anchor);
  }

  lemma AfterStoreGrows(capacity: nat, recs: seq<KV>, k: Key, v: Value)
    ensures |recs| >= capacity ==> AfterStore(capacity, recs, k, v) == recs
    ensures |recs| <= |AfterStore(capacity, recs, k, v)| <= |recs| + 1
  {
  }

  lemma RepliesOneMore(replies: seq<Reply>, r: Reply, anchor: Key, predFull: bool, full: bool)
    requires RepliesOk(replies, anchor, predFull, full)
    ensures forall pf: bool, f: bool :: (predFull ==> pf) && (full ==> f) && ReplyOk(r, anchor, pf, f) ==>
              RepliesOk(replies + [r], anchor, pf, f)
  {
  }

  /** help_pred: by the type of the predecessor's image. */
  method HelpPred(pred: LinkedNode, k: Key, v: Value) returns (ok: bool)
    requires pred.Valid() && StoreCapacity(pred.typ) <= pred.pairs.Length
    requires pred.typ != TypeHead ==> pred.next <= Capacity(pred.typ)
    modifies pred`next, pred.fingerprints, pred.pairs
    ensures pred.Valid() && ok == (old(pred.next) < StoreCapacity(pred.typ))
    ensures pred.typ == Type10 ==> ok == (old(pred.next) < 10)
    ensures pred.typ == Type12 ==> ok == (old(pred.next) < 12)
    ensures pred.typ == Type14 ==> ok == (old(pred.next) < 14)
    ensures pred.typ == Type16 ==> ok == (old(pred.next) < 16)
    ensures pred.typ in {NotSet, TypeHead} ==> !ok
    ensures if ok then Has(pred.Records(), k) else pred.Records() == old(pred.Records())
    ensures pred.typ != TypeHead ==> pred.next <= Capacity(pred.typ)
    ensures pred.Records() == AfterStore(StoreCapacity(pred.typ), old(pred.Records()), k, v)
  {
    match pred.typ {
      case Type16 => ok := pred.Store(16, k, v);
      case Type14 => ok := pred.Store(14, k, v);
      case Type12 => ok := pred.Store(12, k, v);
      case Type10 => ok := pred.Store(10, k, v);
      case _ => ok := false;
    }
    HasAppend(old(pred.Records()), KV(k, v));
  }

  /** A predecessor's buffer, as fetched. */
  ghost predicate PredReady(pred: LinkedNode)
    reads pred, pred.fingerprints, pred.pairs
  {
    && pred.Valid() && StoreCapacity(pred.typ) <= pred.pairs.Length
    && (pred.typ != TypeHead ==> pred.next <= Capacity(pred.typ))
  }

  /** What becomes of the two nodes, and the answer, when the request req is dealt with. */
  ghost predicate Answered(anchor: Key, req: KV, predCap: nat, cap: nat, p: seq<KV>, p': seq<KV>,
                           r: seq<KV>, r': seq<KV>, reply: Option<Reply>)
  {
    if anchor <= req.key && |r| >= cap then reply == None && p' == p && r' == r
    else
      var ok := anchor <= req.key || |p| < predCap;
      && reply == Some(Reply(req, ok, !ok))
      && p' == (if req.key < anchor then AfterStore(predCap, p, req.key, req.value) else p)
      && r' == (if req.key < anchor then r else AfterStore(cap, r, req.key, req.value))
  }

  /** One more request put back, to the end of the queue. */
  lemma HelpedPutBack(anchor: Key, queue: seq<KV>, rest: seq<KV>, replies: seq<Reply>, full: bool, predCap: nat,
                      pred: seq<KV>, pred': seq<KV>, recs: seq<KV>, recs': seq<KV>)
    requires Helped(anchor, queue, rest, replies, full, predCap, pred, pred', recs, recs') && rest != []
    ensures Helped(anchor, queue, rest[1..] + [rest[0]], replies, full, predCap, pred, pred', recs, recs')
  {
    hide PutAll, Kept, Passed, Contents, Asked, RepliesOk;
    assert rest == [rest[0]] + rest[1..];
  }

  lemma HelpedNext(anchor: Key, queue: seq<KV>, rest: seq<KV>, replies: seq<Reply>, full: bool, predCap: nat, cap: nat,
                   pred: seq<KV>, p: seq<KV>, p': seq<KV>, recs: seq<KV>, r: seq<KV>, r': seq<KV>, reply: Option<Reply>)
    requires Helped(anchor, queue, rest, replies, full, predCap, pred, p, recs, r) && rest != []
    requires Distinct(p) && Distinct(r) && Answered(anchor, rest[0], predCap, cap, p, p', r, r', reply)
    ensures if reply == None then Helped(anchor, queue, rest[1..] + [rest[0]], replies, full, predCap, pred, p', recs,
            r')
            else Helped(anchor, queue, rest[1..], replies + [reply.value], full, predCap, pred, p', recs, r')
  {
    hide Helped;
    if reply == None {
      HelpedPutBack(anchor, queue, rest, replies, full, predCap, pred, p, recs, r);
    } else if rest[0].key < anchor {
      HelpedOnPred(anchor, queue, rest, replies, full, predCap, pred, p, recs, r);
    } else {
      HelpedOnNode(anchor, queue, rest, replies, full, predCap, pred, p, recs, r, cap);
    }
  }

  /** One turn of help_others: the request is answered, unless it belongs on the node and finds it
      full. */
  method HelpNext(anchor: Key, pred: LinkedNode, node: LinkedNode, capacity: nat,
                  req: KV) returns (reply: Option<Reply>)
    requires PredReady(pred) && node.Valid() && Apart(pred, node)
    requires node.next <= capacity <= node.pairs.Length
    modifies pred`next, pred.fingerprints, pred.pairs, node`next, node.fingerprints, node.pairs
    ensures PredReady(pred) && node.Valid() && node.next <= capacity
    ensures Answered(anchor, req, StoreCapacity(pred.typ), capacity, old(pred.Records()), pred.Records(),
                     old(node.Records()), node.Records(), reply)
    ensures reply == None ==> node.next == capacity
  {
    var s;
    if req.key < anchor {
      s := HelpPred(pred, req.key, req.value);
      reply := Some(Reply(req, s, !s));
    } else {
      s := node.Store(capacity, req.key, req.value);
      reply := if s then Some(Reply(req, s, false)) else None;
    }
  }

  /** How many requests of the queue help_others leaves: it stops at the first one of the node's range
      that finds the node full. */
  function Pending(anchor: Key, recs: seq<KV>, cap: nat, queue: seq<KV>): nat
    decreases |queue|
  {
    if queue == [] then 0
    else if queue[0].key < anchor then Pending(anchor, recs, cap, queue[1..])
    else if |recs| >= cap then |queue|
    else Pending(anchor, AfterStore(cap, recs, queue[0].key, queue[0].value), cap, queue[1..])
  }

  lemma PendingNext(anchor: Key, cap: nat, predCap: nat, p: seq<KV>, p': seq<KV>, r: seq<KV>, r': seq<KV>,
                    queue: seq<KV>, reply: Option<Reply>)
    requires queue != [] && Answered(anchor, queue[0], predCap, cap, p, p', r, r', reply)
    ensures Pending(anchor, r, cap, queue) == if reply == None then |queue| else Pending(anchor, r', cap, queue[1..])
  {
    hide AfterStore;
  }

  /** The pending records a put counts, with its own record if the node has no room for that. */
  function Counted(anchor: Key, recs: seq<KV>, cap: nat, kv: KV, queue: seq<KV>): nat {
    if |recs| >= cap then |queue| + 1
    else Pending(anchor, AfterStore(cap, recs, kv.key, kv.value), cap, queue)
  }

  lemma {:induction false} StoredHas(replies: seq<Reply>, anchor: Key, i: nat)
    requires i < |replies| && replies[i].succeed
    ensures Has(if replies[i].kv.key < anchor then Passed(replies, anchor) else Kept(replies, anchor),
                replies[i].kv.key)
  {
    var n := |replies| - 1;
    HasAppend(Kept(replies[..n], anchor), replies[n].kv);
    HasAppend(Passed(replies[..n], anchor), replies[n].kv);
    assert Kept(replies[..n], anchor) + [] == Kept(replies[..n], anchor);
    assert Passed(replies[..n], anchor) + [] == Passed(replies[..n], anchor);
    if i < n {
      StoredHas(replies[..n], anchor, i);
    }
  }

  /** The predecessor holds as many records as a node of its type can, or is no data node. */
  predicate NoRoom(t: LinkedNodeType, next: nat) {
    match t
    case Type10 => next >= 10
    case Type12 => next >= 12
    case Type14 => next >= 14
    case Type16 => next >= 16
    case _ => true
  }

  /** What the answers say: a granted request is on the node of its range, and one below the anchor is
      refused only by a predecessor without room. */
  lemma AnswersMean(anchor: Key, queue: seq<KV>, rest: seq<KV>, replies: seq<Reply>, full: bool, t: LinkedNodeType,
                    pred: seq<KV>, pred': seq<KV>, recs: seq<KV>, recs': seq<KV>)
    requires Helped(anchor, queue, rest, replies, full, StoreCapacity(t), pred, pred', recs, recs')
    ensures forall i {:trigger replies[i]} :: 0 <= i < |replies| && replies[i].succeed ==>
              Has(if replies[i].kv.key < anchor then pred' else recs', replies[i].kv.key)
    ensures forall i {:trigger replies[i]} ::
              0 <= i < |replies| && replies[i].kv.key < anchor && !replies[i].succeed ==> NoRoom(t, |pred'|)
  {
    forall i | 0 <= i < |replies| && replies[i].succeed
      ensures Has(if replies[i].kv.key < anchor then pred' else recs', replies[i].kv.key)
    {
      var k := replies[i].kv.key;
      StoredHas(replies, anchor, i);
      PutAllKeys(Contents(recs), Kept(replies, anchor), k);
      PutAllKeys(Contents(pred), Passed(replies, anchor), k);
      ContentsHas(recs', k);
      ContentsHas(pred', k);
    }
    forall i | 0 <= i < |replies| && replies[i].kv.key < anchor && !replies[i].succeed
      ensures NoRoom(t, |pred'|)
    {
      assert ReplyOk(replies[i], anchor, |pred'| >= StoreCapacity(t), full);
    }
  }

  /** The requests answered so far, in their order, and those left, in theirs, are the whole queue. */
  ghost predicate InTurn(queue: seq<KV>, rest: seq<KV>, replies: seq<Reply>) {
    Asked(replies) + rest == queue
  }

  /** The requests were answered in their order; the first one that was not has gone back to the end. */
  ghost predicate TakenInTurn(queue: seq<KV>, rest: seq<KV>, replies: seq<Reply>) {
    var n := |replies|;
    && n <= |queue| && Asked(replies) == queue[..n]
    && rest == if n == |queue| then [] else queue[n + 1..] + [queue[n]]
  }

  lemma InTurnFrom(queue: seq<KV>)
    ensures InTurn(queue, queue, [])
  {
  }

  lemma InTurnTo(queue: seq<KV>, replies: seq<Reply>)
    requires InTurn(queue, [], replies)
    ensures TakenInTurn(queue, [], replies)
  {
  }

  lemma HelpedFrom(anchor: Key, queue: seq<KV>, full: bool, predCap: nat, pred: seq<KV>, recs: seq<KV>)
    ensures Helped(anchor, queue, queue, [], full, predCap, pred, pred, recs, recs)
  {
  }

  lemma InTurnNext(queue: seq<KV>, rest: seq<KV>, replies: seq<Reply>, reply: Option<Reply>)
    requires InTurn(queue, rest, replies) && rest != [] && (reply.Some? ==> reply.value.kv == rest[0])
    ensures if reply == None then TakenInTurn(queue, rest[1..] + [rest[0]], replies)
            else InTurn(queue, rest[1..], replies + [reply.value])
  {
    var n := |replies|;
    assert queue[..n] == Asked(replies) && queue[n..] == rest && queue[n + 1..] == rest[1..];
    if reply.Some? {
      assert (replies + [reply.value])[..n] == replies;
      assert [rest[0]] + rest[1..] == rest;
    }
  }

  /** help_others: requests are taken from the queue until it is empty, or until one that belongs
      on the node finds it full and goes back to the end of the queue. */
  method HelpOthers(anchor: Key, pred: LinkedNode, node: LinkedNode, capacity: nat, queue: seq<KV>)
    returns (rest: seq<KV>, replies: seq<Reply>)
    requires PredReady(pred) && node.Valid() && Apart(pred, node)
    requires node.next <= capacity <= node.pairs.Length
    modifies pred`next, pred.fingerprints, pred.pairs, node`next, node.fingerprints, node.pairs
    ensures PredReady(pred) && node.Valid() && node.next <= capacity
    ensures Helped(anchor, queue, rest, replies, false, StoreCapacity(pred.typ), old(pred.Records()), pred.Records(),
                   old(node.Records()), node.Records())
    ensures rest != [] ==> node.next == capacity
    ensures |rest| == Pending(anchor, old(node.Records()), capacity, queue)
    ensures pred.typ == old(pred.typ)
    ensures TakenInTurn(queue, rest, replies)
    ensures forall i {:trigger replies[i]} :: 0 <= i < |replies| && replies[i].succeed ==>
              Has(if replies[i].kv.key < anchor then pred.Records() else node.Records(), replies[i].kv.key)
    ensures forall i {:trigger replies[i]} ::
              0 <= i < |replies| && replies[i].kv.key < anchor && !replies[i].succeed ==> NoRoom(pred.typ, pred.next)
  {
    hide Helped, InTurn, TakenInTurn, StoreCapacity, NoRoom, Answered, Distinct;
    rest, replies := queue, [];
    InTurnFrom(queue);
    HelpedFrom(anchor, queue, false, StoreCapacity(pred.typ), pred.Records(), node.Records());
    ghost var predCap, pred0, recs0 := StoreCapacity(pred.typ), pred.Records(), node.Records();
    ghost var p, r := pred0, recs0;
    while rest != []
      invariant PredReady(pred) && node.Valid() && node.next <= capacity
      invariant p == pred.Records() && r == node.Records() && InTurn(queue, rest, replies)
      invariant Helped(anchor, queue, rest, replies, false, predCap, pred0, p, recs0, r)
      invariant Pending(anchor, r, capacity, rest) == Pending(anchor, recs0, capacity, queue)
      decreases |rest|
    {
      var reply := HelpNext(anchor, pred, node, capacity, rest[0]);
      HelpedNext(anchor, queue, rest, replies, false, predCap, capacity, pred0, p, pred.Records(), recs0, r,
                 node.Records(), reply);
      PendingNext(anchor, capacity, predCap, p, pred.Records(), r, node.Records(), rest, reply);
      p, r := pred.Records(), node.Records();
      InTurnNext(queue, rest, replies, reply);
      if reply == None {
        rest := rest[1..] + [rest[0]];
        break;
      }
      rest, replies := rest[1..], replies + [reply.value];
    }
    if rest == [] {
      InTurnTo(queue, replies);
    }
    AnswersMean(anchor, queue, rest, replies, false, pred.typ, pred0, p, recs0, r);
  }

  // ---------------------------------------------------------------- the winner's own record

  /** As Helped, with the records own stored before those of the requests. */
  ghost predicate Progress(anchor: Key, own: seq<KV>, queue: seq<KV>, rest: seq<KV>, replies: seq<Reply>, full: bool,
                           predCap: nat, pred: seq<KV>, pred': seq<KV>, recs: seq<KV>, recs': seq<KV>)
  {
    && AllAsked(queue, rest, replies) && RepliesOk(replies, anchor, |pred'| >= predCap, full)
    && Contents(recs') == PutAll(Contents(recs), own + Kept(replies, anchor))
    && Contents(pred') == PutAll(Contents(pred), Passed(replies, anchor))
    && |recs| <= |recs'| <= |recs| + |own| + |replies|
  }

  /** The winner's own record goes in first. */
  lemma OwnFirst(anchor: Key, kv: KV, queue: seq<KV>, predCap: nat, pred: seq<KV>, recs: seq<KV>, cap: nat)
    requires Distinct(recs) && |recs| < cap
    ensures Progress(anchor, [kv], queue, queue, [], false, predCap, pred, pred, recs,
            AfterStore(cap, recs, kv.key, kv.value))
  {
    AfterStoreInserts(cap, recs, kv.key, kv.value);
    PutAllAppend(Contents(recs), [], kv);
    assert [] + [kv] == [kv] && [kv] + Kept([], anchor) == [kv];
  }

  /** Serving goes on where it stopped. */
  lemma GoOn(anchor: Key, own: seq<KV>, queue: seq<KV>, rest: seq<KV>, replies: seq<Reply>, rest': seq<KV>,
             replies': seq<Reply>, full: bool, predCap: nat, pred: seq<KV>, p: seq<KV>, p': seq<KV>,
             recs: seq<KV>, r: seq<KV>, r': seq<KV>)
    requires Progress(anchor, own, queue, rest, replies, false, predCap, pred, p, recs, r)
    requires Helped(anchor, rest, rest', replies', full, predCap, p, p', r, r')
    ensures Progress(anchor, own, queue, rest', replies + replies', full, predCap, pred, p', recs, r')
  {
    AskedConcat(queue, rest, replies, rest', replies');
    StoredConcat(Contents(recs), own, replies, replies', anchor);
    PassedConcat(Contents(pred), replies, replies', anchor);
    RepliesConcat(replies, replies', anchor, |p| >= predCap, |p'| >= predCap, full);
    hide PutAll, Kept, Passed, Contents, Asked, AllAsked, RepliesOk;
  }

  lemma AskedConcat(queue: seq<KV>, rest: seq<KV>, replies: seq<Reply>, rest': seq<KV>, replies': seq<Reply>)
    requires AllAsked(queue, rest, replies) && AllAsked(rest, rest', replies')
    ensures AllAsked(queue, rest', replies + replies')
  {
    KeptConcat(replies, replies', 0);
    assert multiset(Asked(replies) + Asked(replies')) == multiset(Asked(replies)) + multiset(Asked(replies'));
  }

  lemma PutAllConcat3(m: map<Key, Value>, own: seq<KV>, a: seq<KV>, b: seq<KV>)
    ensures PutAll(m, own + (a + b)) == PutAll(PutAll(m, own + a), b)
  {
    hide PutAll;
    PutAllConcat(m, own + a, b);
    assert own + (a + b) == (own + a) + b;
  }

  lemma StoredConcat(m: map<Key, Value>, own: seq<KV>, a: seq<Reply>, b: seq<Reply>, anchor: Key)
    ensures PutAll(m, own + Kept(a + b, anchor)) == PutAll(PutAll(m, own + Kept(a, anchor)), Kept(b, anchor))
  {
    KeptConcat(a, b, anchor);
    PutAllConcat3(m, own, Kept(a, anchor), Kept(b, anchor));
  }

  lemma PassedConcat(m: map<Key, Value>, a: seq<Reply>, b: seq<Reply>, anchor: Key)
    ensures PutAll(m, Passed(a + b, anchor)) == PutAll(PutAll(m, Passed(a, anchor)), Passed(b, anchor))
  {
    KeptConcat(a, b, anchor);
    PutAllConcat(m, Passed(a, anchor), Passed(b, anchor));
  }

  lemma RepliesConcat(a: seq<Reply>, b: seq<Reply>, anchor: Key, predFull: bool, predFull': bool, full: bool)
    requires RepliesOk(a, anchor, predFull, false) && RepliesOk(b, anchor, predFull', full) && (predFull ==> predFull')
    ensures RepliesOk(a + b, anchor, predFull', full)
  {
    forall i | 0 <= i < |a + b|
      ensures ReplyOk((a + b)[i], anchor, predFull', full)
    {
      assert (a + b)[i] == if i < |a| then a[i] else b[i - |a|];
    }
  }

  /** try_put_to_existing_node: the winner's record, then the requests, as far as there is room.  The
      requests slipped arrive when help_others has found the queue empty and the count is still to
      come; they are counted, although the node may have room. */
  method TryPutToExistingNode(anchor: Key, pred: LinkedNode, node: LinkedNode, capacity: nat, kv: KV, queue: seq<KV>,
                              slipped: seq<KV>)
    returns (done: bool, pendings: nat, rest: seq<KV>, replies: seq<Reply>)
    requires PredReady(pred) && node.Valid() && Apart(pred, node)
    requires node.next <= capacity <= node.pairs.Length
    modifies pred`next, pred.fingerprints, pred.pairs, node`next, node.fingerprints, node.pairs
    ensures PredReady(pred) && node.Valid() && node.next <= capacity
    ensures done == (old(node.next) < capacity) && pendings == |rest| + (if done then 0 else 1)
    ensures pendings == Counted(anchor, old(node.Records()), capacity, kv, queue) + |slipped|
    ensures pendings > |slipped| ==> node.next == capacity
    ensures Handed(anchor, kv, done, queue + slipped, rest, replies, StoreCapacity(pred.typ), old(pred.Records()),
                   pred.Records(), old(node.Records()), node.Records())
  {
    done := node.Store(capacity, kv.key, kv.value);
    if !done {
      return false, |queue + slipped| + 1, queue + slipped, [];
    }
    ghost var predCap, recs := StoreCapacity(pred.typ), node.Records();
    OwnFirst(anchor, kv, queue, predCap, pred.Records(), old(node.Records()), capacity);
    rest, replies := HelpOthers(anchor, pred, node, capacity, queue);
    GoOn(anchor, [kv], queue, queue, [], rest, replies, false, predCap, old(pred.Records()), old(pred.Records()),
        pred.Records(), old(node.Records()), recs, node.Records());
    assert [] + replies == replies;
    LateComers(anchor, kv, true, queue, rest, replies, predCap, old(pred.Records()), pred.Records(),
        old(node.Records()), node.Records(), slipped);
    rest := rest + slipped;
    pendings := |rest|;
  }

  /** One turn of put10's own loop over the queue: a request that finds no room is told to retry. */
  method HelpNow(anchor: Key, pred: LinkedNode, node: LinkedNode, capacity: nat, req: KV) returns (reply: Reply)
    requires PredReady(pred) && node.Valid() && Apart(pred, node)
    requires node.next <= capacity <= node.pairs.Length
    modifies pred`next, pred.fingerprints, pred.pairs, node`next, node.fingerprints, node.pairs
    ensures PredReady(pred) && node.Valid() && node.next <= capacity
    ensures var refused := anchor <= req.key && old(node.next) >= capacity;
            && Answered(anchor, req, StoreCapacity(pred.typ), capacity, old(pred.Records()), pred.Records(),
                        old(node.Records()), node.Records(), if refused then None else Some(reply))
            && (refused ==> reply == Reply(req, false, true))
  {
    var s;
    if anchor <= req.key {
      s := node.Store(capacity, req.key, req.value);
    } else {
      s := HelpPred(pred, req.key, req.value);
    }
    reply := Reply(req, s, !s);
  }

  lemma HelpedNow(anchor: Key, queue: seq<KV>, rest: seq<KV>, replies: seq<Reply>, predCap: nat, cap: nat,
                  pred: seq<KV>, p: seq<KV>, p': seq<KV>, recs: seq<KV>, r: seq<KV>, r': seq<KV>, reply: Reply)
    requires Helped(anchor, queue, rest, replies, |r| >= cap, predCap, pred, p, recs, r) && rest != []
    requires Distinct(p) && Distinct(r)
    requires var refused := anchor <= rest[0].key && |r| >= cap;
             && Answered(anchor, rest[0], predCap, cap, p, p', r, r', if refused then None else Some(reply))
             && (refused ==> reply == Reply(rest[0], false, true))
    ensures Helped(anchor, queue, rest[1..], replies + [reply], |r'| >= cap, predCap, pred, p', recs, r')
  {
    if anchor <= rest[0].key && |r| >= cap {
      hide Helped;
      HelpedRefused(anchor, queue, rest, replies, |r| >= cap, predCap, pred, p, recs, r);
    } else {
      AfterStoreGrows(cap, r, rest[0].key, rest[0].value);
      HelpedMonotone(anchor, queue, rest, replies, |r| >= cap, |r'| >= cap, predCap, pred, p, recs, r);
      hide Helped;
      HelpedNext(anchor, queue, rest, replies, |r'| >= cap, predCap, cap, pred, p, p', recs, r, r', Some(reply));
    }
  }

  lemma HelpedMonotone(anchor: Key, queue: seq<KV>, rest: seq<KV>, replies: seq<Reply>, full: bool, full': bool,
                       predCap: nat, pred: seq<KV>, p: seq<KV>, recs: seq<KV>, r: seq<KV>)
    requires Helped(anchor, queue, rest, replies, full, predCap, pred, p, recs, r) && (full ==> full')
    ensures Helped(anchor, queue, rest, replies, full', predCap, pred, p, recs, r)
  {
    hide PutAll, Kept, Passed, Contents, AllAsked;
  }

  /** put10's own loop over the queue: everything is answered. */
  method HelpAll(anchor: Key, pred: LinkedNode, node: LinkedNode, capacity: nat, queue: seq<KV>)
    returns (replies: seq<Reply>)
    requires PredReady(pred) && node.Valid() && Apart(pred, node)
    requires node.next <= capacity <= node.pairs.Length
    modifies pred`next, pred.fingerprints, pred.pairs, node`next, node.fingerprints, node.pairs
    ensures PredReady(pred) && node.Valid() && node.next <= capacity
    ensures Helped(anchor, queue, [], replies, node.next >= capacity, StoreCapacity(pred.typ), old(pred.Records()),
                   pred.Records(), old(node.Records()), node.Records())
    ensures pred.typ == old(pred.typ) && TakenInTurn(queue, [], replies)
    ensures forall i {:trigger replies[i]} :: 0 <= i < |replies| && replies[i].succeed ==>
              Has(if replies[i].kv.key < anchor then pred.Records() else node.Records(), replies[i].kv.key)
    ensures forall i {:trigger replies[i]} ::
              0 <= i < |replies| && replies[i].kv.key < anchor && !replies[i].succeed ==> NoRoom(pred.typ, pred.next)
  {
    hide Helped, InTurn, TakenInTurn, StoreCapacity, NoRoom, ReplyOk, Distinct;
    var rest := queue;
    replies := [];
    InTurnFrom(queue);
    ghost var predCap, pred0, recs0 := StoreCapacity(pred.typ), pred.Records(), node.Records();
    ghost var p, r := pred0, recs0;
    HelpedFrom(anchor, queue, |r| >= capacity, predCap, p, r);
    while rest != []
      invariant PredReady(pred) && node.Valid() && node.next <= capacity
      invariant p == pred.Records() && r == node.Records() && InTurn(queue, rest, replies)
      invariant Helped(anchor, queue, rest, replies, |r| >= capacity, predCap, pred0, p, recs0, r)
      decreases |rest|
    {
      var reply := HelpNow(anchor, pred, node, capacity, rest[0]);
      HelpedNow(anchor, queue, rest, replies, predCap, capacity, pred0, p, pred.Records(), recs0, r, node.Records(),
          reply);
      InTurnNext(queue, rest, replies, Some(reply));
      p, r := pred.Records(), node.Records();
      rest, replies := rest[1..], replies + [reply];
    }
    InTurnTo(queue, replies);
    AnswersMean(anchor, queue, [], replies, |r| >= capacity, pred.typ, pred0, p, recs0, r);
  }

  // ---------------------------------------------------------------- growing the node

  /** The state between try_put_to_existing_node and the rest of a put. */
  ghost predicate Handed(anchor: Key, kv: KV, done: bool, queue: seq<KV>, rest: seq<KV>, replies: seq<Reply>,
                         predCap: nat, pred: seq<KV>, pred': seq<KV>, recs: seq<KV>, recs': seq<KV>)
  {
    if done then Progress(anchor, [kv], queue, rest, replies, false, predCap, pred, pred', recs, recs')
    else rest == queue && replies == [] && recs' == recs && pred' == pred
  }

  /** The winner's own record goes in, if it is not in yet. */
  lemma HandedOwn(anchor: Key, kv: KV, done: bool, queue: seq<KV>, rest: seq<KV>, replies: seq<Reply>,
                  predCap: nat, pred: seq<KV>, pred': seq<KV>, recs: seq<KV>, recs': seq<KV>, cap: nat)
    requires Handed(anchor, kv, done, queue, rest, replies, predCap, pred, pred', recs, recs')
    requires Distinct(recs') && (!done ==> |recs'| < cap)
    ensures Progress(anchor, [kv], queue, rest, replies, false, predCap, pred, pred', recs,
                     if done then recs' else AfterStore(cap, recs', kv.key, kv.value))
  {
    if !done {
      OwnFirst(anchor, kv, queue, predCap, pred, recs, cap);
    }
  }

  method StoreOwn(node: LinkedNode, capacity: nat, kv: KV, done: bool)
    requires node.Valid() && node.next + (if done then 0 else 1) <= capacity <= node.pairs.Length
    modifies node`next, node.fingerprints, node.pairs
    ensures node.Valid() && node.next <= old(node.next) + (if done then 0 else 1)
    ensures node.Records() == if done then old(node.Records())
            else AfterStore(capacity, old(node.Records()), kv.key, kv.value)
  {
    if !done {
      var ok := node.Store(capacity, kv.key, kv.value);
    }
  }

  /** What eager_morph and out_of_place_split_node begin with: what waits goes into a larger buffer,
      until that is full. */
  method StoreAndHelp(anchor: Key, pred: LinkedNode, node: LinkedNode, capacity: nat, kv: KV, done: bool,
                      ghost queue: seq<KV>, rest: seq<KV>, replies: seq<Reply>, ghost pred0: seq<KV>,
                          ghost recs0: seq<KV>)
    returns (rest': seq<KV>, replies': seq<Reply>)
    requires PredReady(pred) && node.Valid() && Apart(pred, node)
    requires node.next + (if done then 0 else 1) <= capacity <= node.pairs.Length
    requires Handed(anchor, kv, done, queue, rest, replies, StoreCapacity(pred.typ), pred0, pred.Records(), recs0,
             node.Records())
    modifies pred`next, pred.fingerprints, pred.pairs, node`next, node.fingerprints, node.pairs
    ensures PredReady(pred) && node.Valid() && node.next <= capacity
    ensures Progress(anchor, [kv], queue, rest', replies', false, StoreCapacity(pred.typ), pred0, pred.Records(),
            recs0, node.Records())
    ensures old(node.next) <= node.next <= old(node.next) + |rest| - |rest'| + (if done then 0 else 1)
    ensures |rest'| <= |rest| && (rest' != [] ==> node.next == capacity)
  {
    hide Progress, Distinct;
    HandedOwn(anchor, kv, done, queue, rest, replies, StoreCapacity(pred.typ), pred0, pred.Records(), recs0,
        node.Records(), capacity);
    StoreOwn(node, capacity, kv, done);
    ghost var p, r := pred.Records(), node.Records();
    var more;
    rest', more := HelpOthers(anchor, pred, node, capacity, rest);
    GoOn(anchor, [kv], queue, rest, replies, rest', more, false, StoreCapacity(pred.typ), pred0, p, pred.Records(),
        recs0, r, node.Records());
    replies' := replies + more;
  }

  /** put10's way to do the same: what finds no room is told to retry. */
  method StoreAndHelpAll(anchor: Key, pred: LinkedNode, node: LinkedNode, capacity: nat, kv: KV, done: bool,
                         ghost queue: seq<KV>, rest: seq<KV>, replies: seq<Reply>, ghost pred0: seq<KV>,
                             ghost recs0: seq<KV>)
    returns (replies': seq<Reply>)
    requires PredReady(pred) && node.Valid() && Apart(pred, node)
    requires node.next + (if done then 0 else 1) <= capacity <= node.pairs.Length
    requires Handed(anchor, kv, done, queue, rest, replies, StoreCapacity(pred.typ), pred0, pred.Records(), recs0,
             node.Records())
    modifies pred`next, pred.fingerprints, pred.pairs, node`next, node.fingerprints, node.pairs
    ensures PredReady(pred) && node.Valid() && node.next <= capacity
    ensures Progress(anchor, [kv], queue, [], replies', node.next >= capacity, StoreCapacity(pred.typ), pred0,
            pred.Records(), recs0, node.Records())
  {
    hide Progress, Distinct;
    HandedOwn(anchor, kv, done, queue, rest, replies, StoreCapacity(pred.typ), pred0, pred.Records(), recs0,
        node.Records(), capacity);
    StoreOwn(node, capacity, kv, done);
    ghost var p, r := pred.Records(), node.Records();
    var more := HelpAll(anchor, pred, node, capacity, rest);
    GoOn(anchor, [kv], queue, rest, replies, [], more, node.next >= capacity, StoreCapacity(pred.typ), pred0, p,
        pred.Records(), recs0, r, node.Records());
    replies' := replies + more;
  }

  /** What a batch makes of a map: a key that is there keeps its value, and a new key has the value of
      its first record. */
  lemma {:induction false} PutAllMeans(m: map<Key, Value>, kvs: seq<KV>)
    ensures forall k {:trigger k in PutAll(m, kvs)} :: k in PutAll(m, kvs) <==> k in m || Has(kvs, k)
    ensures forall k {:trigger PutAll(m, kvs)[k]} :: k in m ==> PutAll(m, kvs)[k] == m[k]
    ensures forall i {:trigger kvs[i]} :: 0 <= i < |kvs| && kvs[i].key !in m && !Has(kvs[..i], kvs[i].key) ==>
              kvs[i].key in PutAll(m, kvs) && PutAll(m, kvs)[kvs[i].key] == kvs[i].value
  {
    if kvs != [] {
      var n := |kvs| - 1;
      PutAllMeans(m, kvs[..n]);
      assert kvs == kvs[..n] + [kvs[n]];
      HasAppend(kvs[..n], kvs[n]);
      forall i | 0 <= i < |kvs| && kvs[i].key !in m && !Has(kvs[..i], kvs[i].key)
        ensures kvs[i].key in PutAll(m, kvs) && PutAll(m, kvs)[kvs[i].key] == kvs[i].value
      {
        assert kvs[..n][..i] == kvs[..i];
        if i < n {
          assert kvs[..n][i] == kvs[i] && Has(kvs[..n], kvs[i].key);
        }
      }
    }
  }

  // ---------------------------------------------------------------- how many records there are

  lemma {:induction false} PutAllKeys(m: map<Key, Value>, kvs: seq<KV>, k: Key)
    ensures k in PutAll(m, kvs) <==> k in m || Has(kvs, k)
  {
    if kvs != [] {
      var n := |kvs| - 1;
      PutAllKeys(m, kvs[..n], k);
      assert kvs == kvs[..n] + [kvs[n]];
      HasAppend(kvs[..n], kvs[n]);
    }
  }

  lemma {:induction false} PutAllBound(m: map<Key, Value>, kvs: seq<KV>)
    ensures |PutAll(m, kvs)| <= |m| + |kvs|
  {
    if kvs != [] {
      var n := |kvs| - 1;
      PutAllBound(m, kvs[..n]);
      InsertIfAbsentSize(PutAll(m, kvs[..n]), kvs[n].key, kvs[n].value);
    }
  }

  lemma InsertIfAbsentSize(m: map<Key, Value>, k: Key, v: Value)
    ensures |InsertIfAbsent(m, k, v)| == |m| + if k in m then 0 else 1
  {
    if k !in m {
      assert m[k := v].Keys == m.Keys + {k};
    }
  }

  lemma {:induction false} ContentsSize(recs: seq<KV>)
    requires Distinct(recs)
    ensures |Contents(recs)| == |recs|
  {
    if recs != [] {
      var n := |recs| - 1;
      ContentsSize(recs[..n]);
      FreshKey(recs, n);
      ContentsHas(recs[..n], recs[n].key);
      assert Contents(recs).Keys == Contents(recs[..n]).Keys + {recs[n].key};
    }
  }

  lemma {:induction false} KeptAll(replies: seq<Reply>, anchor: Key)
    ensures |Kept(replies, anchor)| <= |replies|
    ensures |Kept(replies, anchor)| == |replies| ==> Kept(replies, anchor) == Asked(replies)
    ensures |Kept(replies, anchor)| == |replies| <==>
            forall i {:trigger replies[i]} :: 0 <= i < |replies| ==> anchor <= replies[i].kv.key && replies[i].succeed
  {
    if replies != [] {
      KeptAll(replies[..|replies| - 1], anchor);
    }
  }

  lemma {:induction false} AskedAt(replies: seq<Reply>, i: nat)
    requires i < |replies|
    ensures Asked(replies)[i] == replies[i].kv
  {
    if i < |replies| - 1 {
      AskedAt(replies[..|replies| - 1], i);
    }
  }

  ghost predicate InRange(queue: seq<KV>, anchor: Key) {
    forall i {:trigger queue[i]} :: 0 <= i < |queue| ==> anchor <= queue[i].key
  }

  /** The requests of a queue that belong on the node itself. */
  function InRangeOf(queue: seq<KV>, anchor: Key): seq<KV> {
    if queue == [] then []
    else
      var kv := queue[|queue| - 1];
      InRangeOf(queue[..|queue| - 1], anchor) + if anchor <= kv.key then [kv] else []
  }

  /** How many records a node with the records recs would have, had it room for the winner's record
      and for all that is asked of it. */
  ghost function Wanted(anchor: Key, recs: seq<KV>, kv: KV, queue: seq<KV>): nat {
    |PutAll(Contents(recs), [kv] + InRangeOf(queue, anchor))|
  }

  lemma {:induction false} InRangeHas(queue: seq<KV>, anchor: Key, k: Key)
    ensures Has(InRangeOf(queue, anchor), k) <==> Has(queue, k) && anchor <= k
  {
    if queue != [] {
      var n := |queue| - 1;
      InRangeHas(queue[..n], anchor, k);
      assert queue == queue[..n] + [queue[n]];
      HasAppend(queue[..n], queue[n]);
      HasAppend(InRangeOf(queue[..n], anchor), queue[n]);
      assert InRangeOf(queue[..n], anchor) + [] == InRangeOf(queue[..n], anchor);
    }
  }

  /** Reply i is a request of the node's own range that was granted. */
  predicate Granted(replies: seq<Reply>, anchor: Key, i: nat)
    requires i < |replies|
  {
    anchor <= replies[i].kv.key && replies[i].succeed
  }

  lemma KeptHasLast(replies: seq<Reply>, anchor: Key, k: Key)
    requires replies != []
    ensures var n := |replies| - 1;
            Has(Kept(replies, anchor), k) <==>
            Has(Kept(replies[..n], anchor), k) || (Granted(replies, anchor, n) && replies[n].kv.key == k)
  {
    var n := |replies| - 1;
    HasAppend(Kept(replies[..n], anchor), replies[n].kv);
    assert Kept(replies[..n], anchor) + [] == Kept(replies[..n], anchor);
  }

  lemma {:induction false} KeptHas(replies: seq<Reply>, anchor: Key, k: Key)
    ensures Has(Kept(replies, anchor), k) <==>
            exists i {:trigger Granted(replies, anchor, i)} :: 0 <= i < |replies| && Granted(replies, anchor, i) &&
                replies[i].kv.key == k
  {
    if replies != [] {
      var n := |replies| - 1;
      KeptHas(replies[..n], anchor, k);
      KeptHasLast(replies, anchor, k);
      forall i | 0 <= i < n
        ensures Granted(replies, anchor, i) == Granted(replies[..n], anchor, i)
      {
      }
      hide Kept, Has, Granted;
    }
  }

  /** What is granted in the node's range was asked for. */
  lemma KeptInRange(queue: seq<KV>, rest: seq<KV>, replies: seq<Reply>, anchor: Key, k: Key)
    requires AllAsked(queue, rest, replies)
    ensures Has(Kept(replies, anchor), k) ==> Has(InRangeOf(queue, anchor), k)
  {
    KeptHas(replies, anchor, k);
    InRangeHas(queue, anchor, k);
    hide InRangeOf, Kept;
    if Has(Kept(replies, anchor), k) {
      var i :| 0 <= i < |replies| && Granted(replies, anchor, i) && replies[i].kv.key == k;
      AskedAt(replies, i);
      assert Asked(replies)[i] in multiset(queue);
    }
  }

  /** All of it is granted, if nothing is left or refused. */
  lemma InRangeKept(queue: seq<KV>, replies: seq<Reply>, anchor: Key, predFull: bool, k: Key)
    requires AllAsked(queue, [], replies) && RepliesOk(replies, anchor, predFull, false)
    ensures Has(InRangeOf(queue, anchor), k) ==> Has(Kept(replies, anchor), k)
  {
    KeptHas(replies, anchor, k);
    InRangeHas(queue, anchor, k);
    hide InRangeOf, Kept;
    assert multiset(Asked(replies)) == multiset(queue);
    if Has(queue, k) && anchor <= k {
      var j :| 0 <= j < |queue| && queue[j].key == k;
      assert queue[j] in multiset(Asked(replies));
      var i :| 0 <= i < |replies| && Asked(replies)[i] == queue[j];
      AskedAt(replies, i);
      assert Granted(replies, anchor, i);
    }
  }

  lemma MoreKeys(m: map<Key, Value>, m': map<Key, Value>)
    requires m.Keys <= m'.Keys
    ensures |m| <= |m'| && (m'.Keys <= m.Keys ==> |m| == |m'|)
  {
    SubsetSize(m.Keys, m'.Keys);
    assert |m| == |m.Keys| && |m'| == |m'.Keys|;
    if m'.Keys <= m.Keys {
      assert m.Keys == m'.Keys;
    }
  }

  lemma SubsetSize(a: set<Key>, b: set<Key>)
    requires a <= b
    ensures |a| <= |b|
  {
    assert a + (b - a) == b && a * (b - a) == {};
  }

  /** Keys of a batch come from its records. */
  lemma PutAllOwn(m: map<Key, Value>, kv: KV, kvs: seq<KV>, k: Key)
    ensures k in PutAll(m, [kv] + kvs) <==> k in m || k == kv.key || Has(kvs, k)
  {
    PutAllKeys(m, [kv] + kvs, k);
    assert ([kv] + kvs)[0] == kv;
    assert forall i :: 0 <= i < |kvs| ==> ([kv] + kvs)[i + 1] == kvs[i];
  }

  /** A node that serves its requests as long as it has room ends up with what is wanted, or full. */
  lemma SizeIsWanted(anchor: Key, kv: KV, queue: seq<KV>, rest: seq<KV>, replies: seq<Reply>, full: bool, predCap: nat,
                     pred: seq<KV>, pred': seq<KV>, recs: seq<KV>, all: seq<KV>, cap: nat)
    requires Progress(anchor, [kv], queue, rest, replies, full, predCap, pred, pred', recs, all)
    requires Distinct(all) && |all| <= cap && (|all| < cap ==> rest == [] && !full)
    ensures |all| == if Wanted(anchor, recs, kv, queue) < cap then Wanted(anchor, recs, kv, queue) else cap
  {
    var m, kept, asked := Contents(recs), Kept(replies, anchor), InRangeOf(queue, anchor);
    ContentsSize(all);
    forall k
      ensures k in PutAll(m, [kv] + kept) ==> k in PutAll(m, [kv] + asked)
      ensures |all| < cap && k in PutAll(m, [kv] + asked) ==> k in PutAll(m, [kv] + kept)
    {
      PutAllOwn(m, kv, kept, k);
      PutAllOwn(m, kv, asked, k);
      KeptInRange(queue, rest, replies, anchor, k);
      if |all| < cap {
        InRangeKept(queue, replies, anchor, |pred'| >= predCap, k);
      }
    }
    MoreKeys(PutAll(m, [kv] + kept), PutAll(m, [kv] + asked));
  }

  /** With room for everything, nothing is left and nothing of the node's range is refused. */
  lemma RoomForAll(anchor: Key, kv: KV, queue: seq<KV>, rest: seq<KV>, replies: seq<Reply>, full: bool, predCap: nat,
                   pred: seq<KV>, pred': seq<KV>, recs: seq<KV>, all: seq<KV>, cap: nat)
    requires Progress(anchor, [kv], queue, rest, replies, full, predCap, pred, pred', recs, all)
    requires Distinct(recs) && Distinct(all) && (|all| < cap ==> rest == [] && !full)
    requires |recs| + 1 + |queue| <= cap
    ensures rest == [] && (InRange(queue, anchor) ==> |Kept(replies, anchor)| == |replies|)
  {
    var m, kept := Contents(recs), Kept(replies, anchor);
    ContentsSize(recs);
    ContentsSize(all);
    PutAllBound(m, [kv] + kept);
    KeptAll(replies, anchor);
    if InRange(queue, anchor) && |all| < cap {
      forall i | 0 <= i < |replies|
        ensures anchor <= replies[i].kv.key && replies[i].succeed
      {
        AskedAt(replies, i);
        assert Asked(replies)[i] in multiset(queue);
        assert ReplyOk(replies[i], anchor, |pred'| >= predCap, full);
      }
    }
  }

  /** Requests of the node's own range are granted in the order they were answered, whatever the
      anchor below them. */
  lemma {:induction false} KeptAnyAnchor(replies: seq<Reply>, a: Key, b: Key)
    requires InRange(Asked(replies), a) && InRange(Asked(replies), b)
    ensures Kept(replies, a) == Kept(replies, b)
  {
    if replies != [] {
      var n := |replies| - 1;
      assert Asked(replies) == Asked(replies[..n]) + [replies[n].kv];
      forall i | 0 <= i < n
        ensures a <= Asked(replies[..n])[i].key && b <= Asked(replies[..n])[i].key
      {
        assert Asked(replies[..n])[i] == Asked(replies)[i];
      }
      assert Asked(replies)[n] == replies[n].kv;
      KeptAnyAnchor(replies[..n], a, b);
    }
  }

  // ---------------------------------------------------------------- the four put paths

  /** How a put left the node: written back in place; written to a new place under its new type;
      or split, the right half beginning at an anchor and written with so many record slots. */
  datatype Outcome = InPlace | Morphed | SplitAt(anchor: Key, rightSlots: nat)

  /** The records all are what the put made of a node with the records recs: nothing is lost on the
      way, and requests are left, or, if refuses says so, refused, only once the buffer has all its cap
      records. */
  ghost predicate Made(anchor: Key, kv: KV, queue: seq<KV>, rest: seq<KV>, replies: seq<Reply>, predCap: nat,
                       pred: seq<KV>, pred': seq<KV>, recs: seq<KV>, all: seq<KV>, cap: nat, refuses: bool)
  {
    && Progress(anchor, [kv], queue, rest, replies, refuses && |all| == cap, predCap, pred, pred', recs, all)
    && Distinct(all) && |all| <= cap && (|all| < cap ==> rest == [])
  }

  /** The slots of the buffer in which a put on a node of type t gathers everything, if nothing comes
      late. */
  function Gathering(t: LinkedNodeType): nat {
    if t == Type10 then 16 else 21
  }

  /** The requests a put deals with: those that come after the count are served only by a put that
      goes on after it. */
  function Met(out: Outcome, queue: seq<KV>, late: seq<KV>): seq<KV> {
    if out == InPlace then queue else queue + late
  }

  function Slots(out: Outcome): nat {
    if out.SplitAt? then 21 else 16
  }

  /** A put on a node of type t that counts so many pending records splits it. */
  predicate Splits(t: LinkedNodeType, counted: nat) {
    (t == Type12 && counted > 4) || (t == Type14 && counted > 2) || (t == Type16 && counted > 0)
  }

  /** A put on a node of type t that counts so many pending records splits it without slots for all
      records that are wanted on it. */
  predicate LacksSlots(t: LinkedNodeType, counted: nat, wanted: nat) {
    || (t == Type12 && counted > 4 && wanted > 19) || (t == Type14 && counted > 2 && wanted > 18)
    || (t == Type16 && 1 <= counted <= 2 && wanted > 19)
  }

  /** So it is, if nothing comes late, exactly if so many records are wanted. */
  predicate Overfull(t: LinkedNodeType, wanted: nat) {
    (t == Type12 && wanted > 19) || (t == Type14 && wanted > 18)
  }

  lemma MadeSize(anchor: Key, kv: KV, queue: seq<KV>, rest: seq<KV>, replies: seq<Reply>, predCap: nat,
                 pred: seq<KV>, pred': seq<KV>, recs: seq<KV>, all: seq<KV>, cap: nat, refuses: bool)
    requires Made(anchor, kv, queue, rest, replies, predCap, pred, pred', recs, all, cap, refuses)
    ensures |all| == if Wanted(anchor, recs, kv, queue) < cap then Wanted(anchor, recs, kv, queue) else cap
  {
    hide Progress, Distinct;
    SizeIsWanted(anchor, kv, queue, rest, replies, refuses && |all| == cap, predCap, pred, pred', recs, all, cap);
  }

  /** The winner's own record is among what a put has made. */
  lemma OwnIsThere(anchor: Key, kv: KV, queue: seq<KV>, rest: seq<KV>, replies: seq<Reply>, predCap: nat,
                   pred: seq<KV>, pred': seq<KV>, recs: seq<KV>, all: seq<KV>)
    requires Progress(anchor, [kv], queue, rest, replies, false, predCap, pred, pred', recs, all)
    ensures 0 < |all|
  {
    PutAllOwn(Contents(recs), kv, Kept(replies, anchor), kv.key);
    ContentsHas(all, kv.key);
  }

  /** A buffer that is not the last word: so far nothing is left, or it is full. */
  lemma MadeFrom(anchor: Key, kv: KV, queue: seq<KV>, rest: seq<KV>, replies: seq<Reply>, full: bool, predCap: nat,
                 pred: seq<KV>, pred': seq<KV>, recs: seq<KV>, all: seq<KV>, cap: nat, refuses: bool)
    requires Progress(anchor, [kv], queue, rest, replies, full, predCap, pred, pred', recs, all)
    requires (full ==> refuses && |all| == cap) && Distinct(all) && |all| <= cap && (rest != [] ==> |all| == cap)
    ensures Made(anchor, kv, queue, rest, replies, predCap, pred, pred', recs, all, cap, refuses)
  {
    hide PutAll, Kept, Passed, Contents, AllAsked;
  }

  /** With nothing left, the buffer might as well have been larger. */
  lemma MadeLarger(anchor: Key, kv: KV, queue: seq<KV>, replies: seq<Reply>, predCap: nat, pred: seq<KV>,
                   pred': seq<KV>, recs: seq<KV>, all: seq<KV>, cap: nat, cap': nat)
    requires Made(anchor, kv, queue, [], replies, predCap, pred, pred', recs, all, cap, false) && cap <= cap'
    ensures Made(anchor, kv, queue, [], replies, predCap, pred, pred', recs, all, cap', false)
  {
    hide PutAll, Kept, Passed, Contents, AllAsked;
  }

  /** Requests come in after the count. */
  lemma LateComers(anchor: Key, kv: KV, done: bool, queue: seq<KV>, rest: seq<KV>, replies: seq<Reply>,
                   predCap: nat, pred: seq<KV>, pred': seq<KV>, recs: seq<KV>, recs': seq<KV>, late: seq<KV>)
    requires Handed(anchor, kv, done, queue, rest, replies, predCap, pred, pred', recs, recs')
    ensures Handed(anchor, kv, done, queue + late, rest + late, replies, predCap, pred, pred', recs, recs')
  {
    hide PutAll, Kept, Passed, Contents, RepliesOk;
  }

  /** No record has fingerprint zero. */
  ghost predicate NoZeros(finger: Key -> Byte, recs: seq<KV>) {
    forall i {:trigger recs[i]} :: 0 <= i < |recs| ==> finger(recs[i].key) != 0
  }

  /** A thread's transfer buffer: the predecessor, the node itself, and room for the right half of a
      split, each as large as the largest node. */
  class ThreadBuffer {
    const pred: LinkedNode
    const node: LinkedNode
    const right: LinkedNode

    ghost predicate Shaped() {
      && Apart(pred, node) && Apart(pred, right) && Apart(node, right)
      && pred.finger == node.finger == right.finger
      && pred.pairs.Length == node.pairs.Length == right.pairs.Length == 16
      && pred.fingerprints.Length == node.fingerprints.Length == right.fingerprints.Length == 16
    }

    ghost function Repr(): set<object> {
      {pred, pred.fingerprints, pred.pairs, node, node.fingerprints, node.pairs, right, right.fingerprints, right.pairs}
    }

    ghost predicate Valid()
      reads Repr()
    {
      Shaped() && PredReady(pred) && node.Valid() && right.Valid()
    }

    constructor (finger: Key -> Byte)
      ensures Valid() && fresh(Repr()) && node.finger == finger && node.Records() == []
    {
      pred := new LinkedNode(finger, 16, 16, TypeHead);
      node := new LinkedNode(finger, 16, 16, Type10);
      right := new LinkedNode(finger, 16, 16, Type10);
    }

    /** A copy of the node with room for what can be pending (BufferNode). */
    method CopyNode() returns (tmp: LinkedNode)
      requires Valid()
      ensures fresh(tmp) && fresh(tmp.fingerprints) && fresh(tmp.pairs) && tmp.Valid() && tmp.finger == node.finger
      ensures tmp.Records() == node.Records() && tmp.pairs.Length == 21
    {
      tmp := new LinkedNode(node.finger, 21, 21, NotSet);
      forall i | 0 <= i < 16 {
        tmp.fingerprints[i] := node.fingerprints[i];
      }
      forall i | 0 <= i < 16 {
        tmp.pairs[i] := node.pairs[i];
      }
      tmp.next := node.next;
      assert tmp.Records() == node.Records();
    }

    /** out_of_place_split_node: all, the old records with what waited and found room, is divided
        around the new anchor, the leftCap least records staying on the node. */
    method SplitNode(anchor: Key, leftCap: nat, kv: KV, done: bool, ghost queue: seq<KV>, rest: seq<KV>,
                     replies: seq<Reply>, ghost pred0: seq<KV>, ghost recs0: seq<KV>)
      returns (ranchor: Key, rest': seq<KV>, replies': seq<Reply>, ghost all: seq<KV>)
      requires Valid() && 5 <= leftCap <= 16 && node.next <= 16
      requires Handed(anchor, kv, done, queue, rest, replies, StoreCapacity(pred.typ), pred0, pred.Records(), recs0,
               node.Records())
      modifies pred`next, pred.fingerprints, pred.pairs, node`next, node.fingerprints, node.pairs
      modifies right`next, right.fingerprints, right.pairs
      ensures Valid() && Made(anchor, kv, queue, rest', replies', StoreCapacity(pred.typ), pred0, pred.Records(),
              recs0, all, 21, false)
      ensures node.Records() == Below(all, ranchor) && right.Records() == AtOrAbove(all, ranchor) && Has(all, ranchor)
      ensures 0 < |all| && node.next == LeftSize(leftCap, |all|) && right.next == |all| - node.next
      ensures old(node.next) <= |all| <= old(node.next) + |rest| - |rest'| + (if done then 0 else 1)
    {
      hide Progress, Handed, Below, AtOrAbove, Has;
      var tmp := CopyNode();
      rest', replies' := StoreAndHelp(anchor, pred, tmp, 21, kv, done, queue, rest, replies, pred0, recs0);
      all := tmp.Records();
      MadeFrom(anchor, kv, queue, rest', replies', false, StoreCapacity(pred.typ), pred0, pred.Records(), recs0, all,
          21, false);
      OwnIsThere(anchor, kv, queue, rest', replies', StoreCapacity(pred.typ), pred0, pred.Records(), recs0, all);
      hide Made;
      ranchor := SplitBuffer(tmp, node, right, leftCap);
    }

    /** The node, or its two halves, hold exactly the records all. */
    ghost predicate Holds(out: Outcome, all: seq<KV>)
      reads node, node.pairs, right, right.pairs
    {
      && node.next <= node.pairs.Length && right.next <= right.pairs.Length
      && if out.SplitAt? then node.Records() == Below(all, out.anchor) &&
          right.Records() == AtOrAbove(all, out.anchor) &&
                              Has(all, out.anchor) && (1 <= node.next <==> 1 < |all|)
         else node.Records() == all
    }

    /** Every record is in a slot within the capacity of the type its node is given. */
    ghost predicate Fits(out: Outcome)
      reads node, right
    {
      && node.next <= Capacity(node.typ)
      && (out.SplitAt? ==> right.next <= Capacity(right.typ))
    }

    /** A split whose halves are given types. */
    method SplitAs(anchor: Key, leftCap: nat, leftType: LinkedNodeType, rightType: LinkedNodeType, rightSlots: nat,
                   kv: KV, done: bool, ghost queue: seq<KV>, rest: seq<KV>, replies: seq<Reply>,
                   ghost pred0: seq<KV>, ghost recs0: seq<KV>)
      returns (out: Outcome, rest': seq<KV>, replies': seq<Reply>, ghost all: seq<KV>)
      requires Valid() && 5 <= leftCap <= 16 && node.next <= 16 && leftCap <= Capacity(leftType)
      requires Handed(anchor, kv, done, queue, rest, replies, StoreCapacity(pred.typ), pred0, pred.Records(), recs0,
               node.Records())
      modifies pred`next, pred.fingerprints, pred.pairs, node, node.fingerprints, node.pairs
      modifies right, right.fingerprints, right.pairs
      ensures Valid() && Holds(out, all)
      ensures Made(anchor, kv, queue, rest', replies', StoreCapacity(pred.typ), pred0, pred.Records(), recs0, all, 21,
                   false)
      ensures out.SplitAt? && out.rightSlots == rightSlots && node.typ == leftType && right.typ == rightType
      ensures 0 < |all| && node.next == LeftSize(leftCap, |all|) && right.next == |all| - node.next
      ensures old(node.next) <= |all| <= old(node.next) + |rest| + (if done then 0 else 1)
    {
      hide Made, Handed, Below, AtOrAbove, Has;
      var ranchor;
      ranchor, rest', replies', all := SplitNode(anchor, leftCap, kv, done, queue, rest, replies, pred0, recs0);
      node.typ, right.typ := leftType, rightType;
      out := SplitAt(ranchor, rightSlots);
    }

    /** Every record is in a slot that will be written, and the slots are within the capacity of the
        type given to the node. */
    ghost predicate Writable(out: Outcome)
      reads node`typ, node`next, right`typ, right`next
    {
      && node.typ in {Type10, Type12, Type14, Type16} && node.next <= Capacity(node.typ)
      && (out.SplitAt? ==>
          right.typ in {Type10, Type12, Type14, Type16} &&
          right.next <= out.rightSlots <= Capacity(right.typ))
    }

    /** put10: what waits goes into a node of 16, as far as it has room; its type is then chosen by
        counting fingerprints.  Requests that come late are served as well, if the put goes on after the
        count. */
    method Put10(anchor: Key, kv: KV, queue: seq<KV>, slipped: seq<KV>, late: seq<KV>)
      returns (out: Outcome, counted: nat, replies: seq<Reply>, ghost all: seq<KV>)
      requires Valid() && node.typ == Type10 && node.next <= 10
      modifies pred`next, pred.fingerprints, pred.pairs, node, node.fingerprints, node.pairs
      ensures Valid() && Holds(out, all) && !out.SplitAt? && (out == InPlace <==> counted == 0)
      ensures counted == Counted(anchor, old(node.Records()), 10, kv, queue) + |slipped|
      ensures Made(anchor, kv, Met(out, queue + slipped, late), [], replies, StoreCapacity(pred.typ),
                   old(pred.Records()), pred.Records(), old(node.Records()), all, 16, true)
      ensures out == InPlace ==> node.typ == Type10 && |all| <= 10
      ensures out == Morphed ==> node.typ == TypeFor(CountNonzero(node.fingerprints[..]))
      ensures Fits(out) <==> (|all| <= 10 ||
                CountNonzero(node.fingerprints[..]) > (if |all| <= 12 then 10 else if |all| <= 14 then 12 else 14))
      ensures NoZeros(node.finger, all) ==> Fits(out) && Writable(out)
    {
      hide NoZeros, Progress, Distinct, CountNonzero;
      var done, rest;
      ghost var pred0, recs0, full := pred.Records(), node.Records(), false;
      ghost var asked := queue + slipped;
      done, counted, rest, replies := TryPutToExistingNode(anchor, pred, node, 10, kv, queue, slipped);
      out := InPlace;
      if counted > 0 {
        LateComers(anchor, kv, done, asked, rest, replies, StoreCapacity(pred.typ), pred0, pred.Records(), recs0,
            node.Records(), late);
        replies := StoreAndHelpAll(anchor, pred, node, 16, kv, done, asked + late, rest + late, replies, pred0, recs0);
        full := node.next >= 16;
        Morph();
        out := Morphed;
      }
      all := node.Records();
      MadeFrom(anchor, kv, Met(out, asked, late), [], replies, full, StoreCapacity(pred.typ), pred0, pred.Records(),
          recs0, all, 16, true);
    }

    /** morph_node: the type for as many records as there are non-zero fingerprints. */
    method Morph()
      requires Valid()
      modifies node`typ
      ensures Valid() && node.typ == TypeFor(CountNonzero(node.fingerprints[..])) &&
              node.typ in {Type10, Type12, Type14, Type16}
      ensures Fits(Morphed) <==> (node.next <= 10 ||
                CountNonzero(node.fingerprints[..]) > (if node.next <= 12 then 10 else if node.next <= 14 then 12
                    else 14))
      ensures NoZeros(node.finger, node.Records()) ==> Fits(Morphed)
    {
      node.typ := node.MorphNode();
      assert node.fingerprints[..16] == node.fingerprints[..];
      MorphFits(node.fingerprints[..], node.next);
      CountBound(node.fingerprints[..]);
    }

    /** eager_morph: what waits and finds room goes into the node, which becomes one of 16. */
    method EagerMorph(anchor: Key, kv: KV, done: bool, ghost queue: seq<KV>, rest: seq<KV>,
                      replies: seq<Reply>, ghost pred0: seq<KV>, ghost recs0: seq<KV>)
      returns (rest': seq<KV>, replies': seq<Reply>)
      requires Valid() && node.next + (if done then 0 else 1) <= 16
      requires Handed(anchor, kv, done, queue, rest, replies, StoreCapacity(pred.typ), pred0, pred.Records(), recs0,
               node.Records())
      modifies pred`next, pred.fingerprints, pred.pairs, node, node.fingerprints, node.pairs
      ensures Valid() && node.typ == Type16 && node.next <= 16
      ensures Progress(anchor, [kv], queue, rest', replies', false, StoreCapacity(pred.typ), pred0, pred.Records(),
              recs0, node.Records())
      ensures rest' != [] ==> node.next == 16
      ensures old(node.next) + |rest| + (if done then 0 else 1) <= 16 ==> rest' == []
    {
      hide Progress, Handed;
      rest', replies' := StoreAndHelp(anchor, pred, node, 16, kv, done, queue, rest, replies, pred0, recs0);
      node.typ := Type16;
    }

    /** What put12 and put14 do, for nodes of the given capacity: up to threshold pending records turn
        the node into one of 16, more split it. */
    method MorphOrSplit(anchor: Key, kv: KV, queue: seq<KV>, slipped: seq<KV>, late: seq<KV>, capacity: nat,
                        threshold: nat, leftCap: nat, rightType: LinkedNodeType)
      returns (out: Outcome, counted: nat, rest: seq<KV>, replies: seq<Reply>, ghost all: seq<KV>)
      requires Valid() && node.next <= capacity && 5 <= leftCap <= 10 && leftCap < capacity &&
               capacity + threshold == 16
      requires threshold >= 1
      modifies Repr()
      ensures Valid() && Holds(out, all) && (out == InPlace <==> counted == 0) &&
              (out.SplitAt? <==> counted > threshold)
      ensures counted == Counted(anchor, old(node.Records()), capacity, kv, queue) + |slipped|
      ensures Made(anchor, kv, Met(out, queue + slipped, late), rest, replies, StoreCapacity(pred.typ),
                   old(pred.Records()), pred.Records(), old(node.Records()), all, Slots(out), false)
      ensures late == [] && !out.SplitAt? ==> rest == []
      ensures out.SplitAt? ==> node.typ == Type10 && right.typ == rightType && out.rightSlots == 10
      ensures out.SplitAt? ==> 0 < |all| && node.next == LeftSize(leftCap, |all|) && right.next == |all| - node.next
      ensures out.SplitAt? && slipped == [] ==> capacity <= |all|
      ensures out == Morphed ==> node.typ == Type16 && node.next <= 16
      ensures out == InPlace ==> node.typ == old(node.typ) && node.next <= capacity
      ensures pred.typ == old(pred.typ)
    {
      hide Progress, Handed, Distinct, Below, AtOrAbove, Has;
      var done;
      ghost var pred0, recs0, asked := pred.Records(), node.Records(), queue + slipped;
      done, counted, rest, replies := TryPutToExistingNode(anchor, pred, node, capacity, kv, queue, slipped);
      out, all := InPlace, node.Records();
      if counted > 0 {
        LateComers(anchor, kv, done, asked, rest, replies, StoreCapacity(pred.typ), pred0, pred.Records(), recs0,
            node.Records(), late);
        if counted > threshold {
          out, rest, replies, all := SplitAs(anchor, leftCap, Type10, rightType, 10, kv, done, asked + late,
              rest + late, replies, pred0, recs0);
          return;
        }
        rest, replies := EagerMorph(anchor, kv, done, asked + late, rest + late, replies, pred0, recs0);
        out, all := Morphed, node.Records();
      } else {
        HandedIsProgress(anchor, kv, done, asked, rest, replies, StoreCapacity(pred.typ), pred0, pred.Records(), recs0,
            node.Records());
      }
      MadeFrom(anchor, kv, Met(out, asked, late), rest, replies, false, StoreCapacity(pred.typ), pred0, pred.Records(),
          recs0, all, 16, false);
    }

    lemma HandedIsProgress(anchor: Key, kv: KV, done: bool, queue: seq<KV>, rest: seq<KV>, replies: seq<Reply>,
                           predCap: nat, pred: seq<KV>, pred': seq<KV>, recs: seq<KV>, recs': seq<KV>)
      requires Handed(anchor, kv, done, queue, rest, replies, predCap, pred, pred', recs, recs') && done
      ensures Progress(anchor, [kv], queue, rest, replies, false, predCap, pred, pred', recs, recs')
    {
    }

    /** Without late comers, the buffer of a morph has room for all it meets. */
    lemma NoneLate(anchor: Key, kv: KV, out: Outcome, queue: seq<KV>, late: seq<KV>, rest: seq<KV>,
                   replies: seq<Reply>, predCap: nat, pred: seq<KV>, pred': seq<KV>, recs: seq<KV>, all: seq<KV>)
      requires Made(anchor, kv, Met(out, queue, late), rest, replies, predCap, pred, pred', recs, all, Slots(out),
               false)
      requires late == [] && (!out.SplitAt? ==> rest == [])
      ensures Made(anchor, kv, queue, rest, replies, predCap, pred, pred', recs, all, 21, false)
    {
      assert queue + [] == queue;
      if !out.SplitAt? {
        MadeLarger(anchor, kv, queue, replies, predCap, pred, pred', recs, all, 16, 21);
      }
    }

    /** put12: up to 4 pending records turn the node into one of 16, more split it into two of 10.  The
        right half then has no slots for all its records exactly if more than 19 are wanted. */
    method Put12(anchor: Key, kv: KV, queue: seq<KV>, slipped: seq<KV>, late: seq<KV>)
      returns (out: Outcome, counted: nat, rest: seq<KV>, replies: seq<Reply>, ghost all: seq<KV>)
      requires Valid() && node.typ == Type12 && node.next <= 12
      modifies Repr()
      ensures Valid() && Holds(out, all) && (out == InPlace <==> counted == 0) && (out.SplitAt? <==> counted > 4)
      ensures counted == Counted(anchor, old(node.Records()), 12, kv, queue) + |slipped|
      ensures Made(anchor, kv, Met(out, queue + slipped, late), rest, replies, StoreCapacity(pred.typ),
                   old(pred.Records()), pred.Records(), old(node.Records()), all, Slots(out), false)
      ensures out.SplitAt? ==> node.typ == right.typ == Type10 && out.rightSlots == 10
      ensures out.SplitAt? ==> 0 < |all| && node.next == LeftSize(9, |all|) && right.next == |all| - node.next
      ensures out.SplitAt? && slipped == [] ==> 12 <= |all|
      ensures var wanted := Wanted(anchor, old(node.Records()), kv, queue + slipped + late);
              && (Fits(out) <==> Writable(out)) && (Writable(out) <==> !LacksSlots(Type12, counted, wanted))
              && (late == [] ==> (Writable(out) <==> !Overfull(Type12, wanted)))
      ensures late == [] ==>
                Made(anchor, kv, queue + slipped, rest, replies, StoreCapacity(pred.typ), old(pred.Records()),
                     pred.Records(), old(node.Records()), all, 21, false)
      ensures pred.typ == old(pred.typ) && (out == InPlace ==> node.typ == Type12)
      ensures out == Morphed ==> node.typ == Type16
    {
      hide Made, Below, AtOrAbove, Has, Wanted;
      ghost var pred0, recs0, asked := pred.Records(), node.Records(), queue + slipped;
      out, counted, rest, replies, all := MorphOrSplit(anchor, kv, queue, slipped, late, 12, 4, 9, Type10);
      MadeSize(anchor, kv, Met(out, asked, late), rest, replies, StoreCapacity(pred.typ), pred0, pred.Records(), recs0,
          all, Slots(out), false);
      if late == [] {
        NoneLate(anchor, kv, out, asked, late, rest, replies, StoreCapacity(pred.typ), pred0, pred.Records(), recs0,
            all);
        MadeSize(anchor, kv, asked, rest, replies, StoreCapacity(pred.typ), pred0, pred.Records(), recs0, all, 21,
            false);
        assert asked + late == asked;
      }
    }

    /** put14: up to 2 pending records turn the node into one of 16, more split it into one of 10 and
        one of 12.  The right half is written as a node of 10, so it then has no slots for all its
        records exactly if more than 18 are wanted, and no room under its type if more than 20 are. */
    method Put14(anchor: Key, kv: KV, queue: seq<KV>, slipped: seq<KV>, late: seq<KV>)
      returns (out: Outcome, counted: nat, rest: seq<KV>, replies: seq<Reply>, ghost all: seq<KV>)
      requires Valid() && node.typ == Type14 && node.next <= 14
      modifies Repr()
      ensures Valid() && Holds(out, all) && (out == InPlace <==> counted == 0) && (out.SplitAt? <==> counted > 2)
      ensures counted == Counted(anchor, old(node.Records()), 14, kv, queue) + |slipped|
      ensures Made(anchor, kv, Met(out, queue + slipped, late), rest, replies, StoreCapacity(pred.typ),
                   old(pred.Records()), pred.Records(), old(node.Records()), all, Slots(out), false)
      ensures out.SplitAt? ==> node.typ == Type10 && right.typ == Type12 && out.rightSlots == 10
      ensures out.SplitAt? ==> 0 < |all| && node.next == LeftSize(8, |all|) && right.next == |all| - node.next
      ensures out.SplitAt? && slipped == [] ==> 14 <= |all|
      ensures var wanted := Wanted(anchor, old(node.Records()), kv, queue + slipped + late);
              && (Fits(out) <==> !(counted > 2 && wanted > 20))
              && (Writable(out) <==> !LacksSlots(Type14, counted, wanted))
              && (late == [] ==> (Writable(out) <==> !Overfull(Type14, wanted)))
      ensures late == [] ==>
                Made(anchor, kv, queue + slipped, rest, replies, StoreCapacity(pred.typ), old(pred.Records()),
                     pred.Records(), old(node.Records()), all, 21, false)
      ensures pred.typ == old(pred.typ) && (out == InPlace ==> node.typ == Type14)
      ensures out == Morphed ==> node.typ == Type16
    {
      hide Made, Below, AtOrAbove, Has, Wanted;
      ghost var pred0, recs0, asked := pred.Records(), node.Records(), queue + slipped;
      out, counted, rest, replies, all := MorphOrSplit(anchor, kv, queue, slipped, late, 14, 2, 8, Type12);
      MadeSize(anchor, kv, Met(out, asked, late), rest, replies, StoreCapacity(pred.typ), pred0, pred.Records(), recs0,
          all, Slots(out), false);
      if late == [] {
        NoneLate(anchor, kv, out, asked, late, rest, replies, StoreCapacity(pred.typ), pred0, pred.Records(), recs0,
            all);
        MadeSize(anchor, kv, asked, rest, replies, StoreCapacity(pred.typ), pred0, pred.Records(), recs0, all, 21,
            false);
        assert asked + late == asked;
      }
    }

    /** The three ways in which put16 splits. */
    method SplitByCount(anchor: Key, counted: nat, kv: KV, done: bool, ghost queue: seq<KV>, rest: seq<KV>,
                        replies: seq<Reply>, ghost pred0: seq<KV>, ghost recs0: seq<KV>)
      returns (out: Outcome, rest': seq<KV>, replies': seq<Reply>, ghost all: seq<KV>)
      requires Valid() && node.next <= 16
      requires Handed(anchor, kv, done, queue, rest, replies, StoreCapacity(pred.typ), pred0, pred.Records(), recs0,
               node.Records())
      modifies pred`next, pred.fingerprints, pred.pairs, node, node.fingerprints, node.pairs
      modifies right, right.fingerprints, right.pairs
      ensures Valid() && Holds(out, all)
      ensures Made(anchor, kv, queue, rest', replies', StoreCapacity(pred.typ), pred0, pred.Records(), recs0, all, 21,
                   false)
      ensures out.SplitAt? && out.rightSlots == Capacity(right.typ) &&
              right.typ == (if counted <= 2 then Type10 else Type12) &&
              node.typ == (if counted <= 4 then Type10 else Type12)
      ensures 0 < |all| && node.next == LeftSize(if counted <= 4 then 9 else 10, |all|) &&
              right.next == |all| - node.next
      ensures old(node.next) <= |all| <= old(node.next) + |rest| + (if done then 0 else 1)
    {
      hide Made, Handed, Below, AtOrAbove, Has, Valid, Holds;
      if counted <= 2 {
        out, rest', replies', all := SplitAs(anchor, 9, Type10, Type10, 10, kv, done, queue, rest, replies, pred0,
            recs0);
      } else if counted <= 4 {
        out, rest', replies', all := SplitAs(anchor, 9, Type10, Type12, 12, kv, done, queue, rest, replies, pred0,
            recs0);
      } else {
        out, rest', replies', all := SplitAs(anchor, 10, Type12, Type12, 12, kv, done, queue, rest, replies, pred0,
            recs0);
      }
    }

    /** put16: a node that is full, or for which requests slipped in, is split, the halves' types
        depending on how many records wait.  Only where at most two were counted, and more came late,
        can the right half lack slots. */
    method Put16(anchor: Key, kv: KV, queue: seq<KV>, slipped: seq<KV>, late: seq<KV>)
      returns (out: Outcome, counted: nat, rest: seq<KV>, replies: seq<Reply>, ghost all: seq<KV>)
      requires Valid() && node.typ == Type16 && node.next <= 16
      modifies Repr()
      ensures Valid() && Holds(out, all) && out != Morphed && (out == InPlace <==> counted == 0)
      ensures counted == Counted(anchor, old(node.Records()), 16, kv, queue) + |slipped|
      ensures Made(anchor, kv, Met(out, queue + slipped, late), rest, replies, StoreCapacity(pred.typ),
                   old(pred.Records()), pred.Records(), old(node.Records()), all, Slots(out), false)
      ensures out.SplitAt? ==> out.rightSlots == Capacity(right.typ) &&
                               right.typ == (if counted <= 2 then Type10 else Type12) &&
                               node.typ == (if counted <= 4 then Type10 else Type12)
      ensures out.SplitAt? ==> 0 < |all| && node.next == LeftSize(if counted <= 4 then 9 else 10, |all|) &&
                               right.next == |all| - node.next
      ensures out.SplitAt? && slipped == [] ==> 16 <= |all|
      ensures var wanted := Wanted(anchor, old(node.Records()), kv, queue + slipped + late);
              && (Fits(out) <==> Writable(out)) && (Writable(out) <==> !LacksSlots(Type16, counted, wanted))
      ensures late == [] ==> Writable(out)
      ensures late == [] ==>
                Made(anchor, kv, queue + slipped, rest, replies, StoreCapacity(pred.typ), old(pred.Records()),
                     pred.Records(), old(node.Records()), all, 21, false)
      ensures pred.typ == old(pred.typ) && (out == InPlace ==> node.typ == Type16)
    {
      hide Progress, Handed, Distinct, Below, AtOrAbove, Has, Wanted;
      var done;
      ghost var pred0, recs0, asked := pred.Records(), node.Records(), queue + slipped;
      done, counted, rest, replies := TryPutToExistingNode(anchor, pred, node, 16, kv, queue, slipped);
      out, all := InPlace, node.Records();
      LateComers(anchor, kv, done, asked, rest, replies, StoreCapacity(pred.typ), pred0, pred.Records(), recs0,
          node.Records(), late);
      if counted == 0 {
        HandedIsProgress(anchor, kv, done, asked, rest, replies, StoreCapacity(pred.typ), pred0, pred.Records(), recs0,
            node.Records());
        MadeFrom(anchor, kv, asked, rest, replies, false, StoreCapacity(pred.typ), pred0, pred.Records(), recs0, all,
            16, false);
      } else {
        out, rest, replies, all := SplitByCount(anchor, counted, kv, done, asked + late, rest + late, replies, pred0,
            recs0);
      }
      hide Made;
      MadeSize(anchor, kv, Met(out, asked, late), rest, replies, StoreCapacity(pred.typ), pred0, pred.Records(), recs0,
          all, Slots(out), false);
      if late == [] {
        NoneLate(anchor, kv, out, asked, late, rest, replies, StoreCapacity(pred.typ), pred0, pred.Records(), recs0,
            all);
      }
    }

    /** put_dispatcher: the put for the type the node has, with any number of requests waiting, slipped
        in before the count, or late. */
    method PutByType(anchor: Key, kv: KV, queue: seq<KV>, slipped: seq<KV>, late: seq<KV>)
      returns (out: Outcome, counted: nat, rest: seq<KV>, replies: seq<Reply>, ghost all: seq<KV>)
      requires Valid() && node.typ in {Type10, Type12, Type14, Type16} && node.next <= Capacity(node.typ)
      modifies Repr()
      ensures Valid() && Holds(out, all) && (out == InPlace <==> counted == 0)
      ensures counted == Counted(anchor, old(node.Records()), Capacity(old(node.typ)), kv, queue) + |slipped|
      ensures Made(anchor, kv, Met(out, queue + slipped, late), rest, replies, StoreCapacity(pred.typ),
                   old(pred.Records()), pred.Records(), old(node.Records()), all, Slots(out), old(node.typ) == Type10)
      ensures late == [] ==>
                Made(anchor, kv, queue + slipped, rest, replies, StoreCapacity(pred.typ), old(pred.Records()),
                     pred.Records(), old(node.Records()), all, Gathering(old(node.typ)), old(node.typ) == Type10)
      ensures out == InPlace ==> node.typ == old(node.typ)
      ensures out == Morphed && old(node.typ) != Type10 ==> node.typ == Type16
      ensures (out.SplitAt? <==> Splits(old(node.typ), counted)) && (out.SplitAt? ==> 0 < |all|)
      ensures out.SplitAt? && slipped == [] ==> 12 <= |all|
      ensures var wanted := Wanted(anchor, old(node.Records()), kv, queue + slipped + late);
              NoZeros(node.finger, all) ==>
                && (Writable(out) <==> !LacksSlots(old(node.typ), counted, wanted))
                && (late == [] ==> (Writable(out) <==> !Overfull(old(node.typ), wanted)))
    {
      hide Made, NoZeros, Wanted, Holds;
      match node.typ {
        case Type10 =>
          out, counted, replies, all := Put10(anchor, kv, queue, slipped, late);
          rest := [];
          assert queue + slipped + [] == queue + slipped;
        case Type12 => out, counted, rest, replies, all := Put12(anchor, kv, queue, slipped, late);
        case Type14 => out, counted, rest, replies, all := Put14(anchor, kv, queue, slipped, late);
        case Type16 => out, counted, rest, replies, all := Put16(anchor, kv, queue, slipped, late);
      }
    }
  }
}
