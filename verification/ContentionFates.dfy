/** How the operations of threads go on and end, in every run of the contention protocol. */
module ContentionFates {
  import opened Keys
  import opened DataLayer
  import opened Contention
  import opened ContentionSafety

  // ---------------------------------------------------------------- one step

  /** The request a thread waits for has its final answer. */
  ghost predicate Settled(s: State, p: Place) {
    p.Awaiting? && p.rid in s.requests && s.requests[p.rid].status.Answered? && !s.requests[p.rid].status.retry
  }

  /** What the step of a thread may do to its operation. */
  ghost predicate Proceeds(s: State, p: Place, p': Place) {
    && (p == Idle ==> p'.Draining?)
    && (p != Idle && p' != Idle ==> p'.op == p.op)
    && (p != Idle && p' == Idle ==>
          if p.op.kind == Insert then p.Resetting? || Settled(s, p)
          else p.Resetting? || Waiting(p) || (p.op.kind == Get && p.Draining?))
    && (p != Idle && p' != Idle && Waiting(p) ==>
          || (p' == Draining(p.op) && p.op.kind == Insert)
          || (Waiting(p') && p'.owner == p.owner && p'.since == p.since))
  }

  lemma AloneProceeds(s: State, step: Step, s': State)
    requires NextAlone(s, step, s') && !step.Register?
    ensures step.t in s.places && step.t in s'.places && Proceeds(s, s.places[step.t], s'.places[step.t])
  {
  }

  lemma CompeteProceeds(s: State, step: Step, s': State)
    requires NextCompete(s, step, s')
    ensures step.t in s.places && step.t in s'.places && Proceeds(s, s.places[step.t], s'.places[step.t])
  {
  }

  lemma ServeProceeds(s: State, step: Step, s': State)
    requires NextServe(s, step, s')
    ensures step.t in s.places && step.t in s'.places && Proceeds(s, s.places[step.t], s'.places[step.t])
  {
  }

  lemma LoserProceeds(s: State, step: Step, s': State)
    requires NextLoser(s, step, s')
    ensures step.t in s.places && step.t in s'.places && Proceeds(s, s.places[step.t], s'.places[step.t])
  {
  }

  lemma StepProceeds(s: State, step: Step, s': State)
    requires Next(s, step, s') && step.t in s.places
    ensures step.t in s'.places && Proceeds(s, s.places[step.t], s'.places[step.t])
  {
    hide NextCompete, NextServe, NextLoser, Proceeds;
    if NextAlone(s, step, s') {
      AloneProceeds(s, step, s');
    } else if NextCompete(s, step, s') {
      CompeteProceeds(s, step, s');
    } else if NextServe(s, step, s') {
      ServeProceeds(s, step, s');
    } else {
      LoserProceeds(s, step, s');
    }
  }

  /** A thread keeps its operation until that is over.  An insert is over only when its winner has
      released its nodes, or when the request it waits for has been answered and not told to retry.  A
      loser goes on waiting for the same thread, unless its operation is over, as a lost update may be at
      any time; an insert may also begin again with the very same operation. */
  lemma OperationsEnd(s: State, step: Step, s': State, t: Thread)
    requires Next(s, step, s') && t in s.places && s.places[t] != Idle
    ensures t in s'.places
    ensures var p, p' := s.places[t], s'.places[t];
            && (p' != Idle ==> p'.op == p.op)
            && (p' == Idle && p.op.kind == Insert ==>
                  || p.Resetting?
                  || (p.Awaiting? && p.rid in s.requests && s.requests[p.rid].status.Answered? &&
                      !s.requests[p.rid].status.retry))
            && (p' == Idle && p.op.kind != Insert ==>
                  p.Resetting? || Waiting(p) || (p.op.kind == Get && p.Draining?))
            && (p' != Idle && Waiting(p) ==>
                  || (p' == Draining(p.op) && p.op.kind == Insert)
                  || (Waiting(p') && p'.owner == p.owner && p'.since == p.since))
  {
    StepMovesOne(s, step, s');
    if step.t == t {
      StepProceeds(s, step, s');
    }
    hide Next;
  }

  /** The loser's way, place by place: it spins exactly if the context it lost to is of its own kind; it
      sends a request, with its own key and value, exactly if it found a positive depth; and the answer
      alone decides whether an insert is over. */
  lemma LosersTurn(s: State, t: Thread, s': State)
    ensures NextLoser(s, Check(t), s') ==>
              (s'.places[t].Spinning? <==> s.contexts[s.places[t].owner].kind == s.places[t].op.kind)
    ensures NextLoser(s, Subtract(t), s') ==>
              (s'.places[t].Enqueueing? <==> s.contexts[s.places[t].owner].maxDepth > 0)
    ensures forall rid: RequestId :: NextLoser(s, Enqueue(t, rid), s') ==>
              var p, o := s.places[t], s.places[t].owner;
              && rid in s'.requests && s'.requests[rid] == Request(t, o, p.op.key, p.op.value, Pending)
              && s'.contexts[o].queue == s.contexts[o].queue + [rid] && s'.places[t] == Awaiting(p.op, o, p.since, rid)
    ensures NextLoser(s, Finish(t), s') && s.places[t].op.kind == Insert ==>
              (s'.places[t] == Idle <==> !s.requests[s.places[t].rid].status.retry)
  {
  }

  /** What a step may do to the queue of u's context. */
  ghost predicate Fifo(s: State, step: Step, s': State, u: Thread) {
    && u in s.contexts && u in s'.contexts
    && var q, q' := s.contexts[u].queue, s'.contexts[u].queue;
    || q' == q
    || (step.Enqueue? && step.t in s.places && s.places[step.t].Enqueueing? &&
        s.places[step.t].owner == u && q' == q + [step.rid])
    || (step == ServePushBack(u) && u in s.places && s.places[u].Serving? && s.places[u].inHand.Some? &&
        q' == q + [s.places[u].inHand.value])
    || (step == DrainPop(u) && q != [] && q' == q[1..] && u in s'.places && s'.places[u].DrainHand? &&
        s'.places[u].hand == q[0])
    || (step == ServePop(u) && q != [] && q' == q[1..] && u in s'.places && s'.places[u].Serving? &&
        s'.places[u].inHand == Some(q[0]))
  }

  lemma AloneQueues(s: State, step: Step, s': State, u: Thread)
    requires NextAlone(s, step, s') && u in s.contexts
    ensures Fifo(s, step, s', u)
  {
  }

  lemma CompeteQueues(s: State, step: Step, s': State, u: Thread)
    requires NextCompete(s, step, s') && u in s.contexts
    ensures Fifo(s, step, s', u)
  {
  }

  lemma ServeQueues(s: State, step: Step, s': State, u: Thread)
    requires NextServe(s, step, s') && u in s.contexts
    ensures Fifo(s, step, s', u)
  {
  }

  lemma LoserQueues(s: State, step: Step, s': State, u: Thread)
    requires NextLoser(s, step, s') && u in s.contexts
    ensures Fifo(s, step, s', u)
  {
  }

  /** Requests join a queue at its end, and only its owner takes them, from its front. */
  lemma QueuesAreFifo(s: State, step: Step, s': State, u: Thread)
    requires Next(s, step, s') && u in s.contexts
    ensures Fifo(s, step, s', u)
  {
    hide NextAlone, NextCompete, NextServe, NextLoser, Fifo;
    if NextAlone(s, step, s') {
      AloneQueues(s, step, s', u);
    } else if NextCompete(s, step, s') {
      CompeteQueues(s, step, s', u);
    } else if NextServe(s, step, s') {
      ServeQueues(s, step, s', u);
    } else {
      LoserQueues(s, step, s', u);
    }
  }

  // ---------------------------------------------------------------- the winner's record

  /** Past serving, on the way out. */
  predicate Leaving(p: Place) {
    p.ReleasingRight? || p.ReleasingLeft? || p.Resetting?
  }

  ghost predicate LeavesFrom(p: Place, p': Place) {
    Leaving(p') ==> (Leaving(p) || (p.Serving? && p.stored)) && p.op == p'.op
  }

  lemma AloneLeaves(s: State, step: Step, s': State)
    requires NextAlone(s, step, s') && !step.Register?
    ensures step.t in s.places && step.t in s'.places && LeavesFrom(s.places[step.t], s'.places[step.t])
  {
  }

  lemma CompeteLeaves(s: State, step: Step, s': State)
    requires NextCompete(s, step, s')
    ensures step.t in s.places && step.t in s'.places && LeavesFrom(s.places[step.t], s'.places[step.t])
  {
  }

  lemma ServeLeaves(s: State, step: Step, s': State)
    requires NextServe(s, step, s')
    ensures step.t in s.places && step.t in s'.places && LeavesFrom(s.places[step.t], s'.places[step.t])
  {
  }

  lemma LoserLeaves(s: State, step: Step, s': State)
    requires NextLoser(s, step, s')
    ensures step.t in s.places && step.t in s'.places && LeavesFrom(s.places[step.t], s'.places[step.t])
  {
  }

  lemma StepLeaves(s: State, step: Step, s': State, t: Thread)
    requires Next(s, step, s') && t in s'.places && Leaving(s'.places[t])
    ensures t in s.places && LeavesFrom(s.places[t], s'.places[t])
  {
    StepMovesOne(s, step, s');
    if step.t == t {
      if step.Register? {
        assert false;
      }
      hide NextCompete, NextServe, NextLoser, LeavesFrom;
      if NextAlone(s, step, s') {
        AloneLeaves(s, step, s');
      } else if NextCompete(s, step, s') {
        CompeteLeaves(s, step, s');
      } else if NextServe(s, step, s') {
        ServeLeaves(s, step, s');
      } else {
        LoserLeaves(s, step, s');
      }
    }
  }

  /** A winner on its way out was serving before, with the same operation and its own record stored. */
  lemma {:induction false} WinnerHasStored(ss: seq<State>, i: nat, t: Thread) returns (j: nat)
    requires Run(ss) && i < |ss| && t in ss[i].places && Leaving(ss[i].places[t])
    ensures j < i && t in ss[j].places && ss[j].places[t].Serving? && ss[j].places[t].stored
    ensures ss[j].places[t].op == ss[i].places[t].op
    ensures ss[j].places[t].op.kind == Insert ==> Has(ss[j].places[t].realBuffer.recs, ss[j].places[t].op.key)
  {
    hide Next, Inv;
    if i == 0 {
      assert false;
    } else {
      assert StepAt(ss, i - 1);
      var step :| Next(ss[i - 1], step, ss[i]);
      StepLeaves(ss[i - 1], step, ss[i], t);
      if Leaving(ss[i - 1].places[t]) {
        j := WinnerHasStored(ss, i - 1, t);
      } else {
        j := i - 1;
        StoredHas(ss, j, t);
      }
    }
  }

  lemma StoredHas(ss: seq<State>, j: nat, t: Thread)
    requires Run(ss) && j < |ss| && t in ss[j].places && ss[j].places[t].Serving? && ss[j].places[t].stored
    ensures ss[j].places[t].op.kind == Insert ==> Has(ss[j].places[t].realBuffer.recs, ss[j].places[t].op.key)
  {
    RunKeepsInv(ss, j);
    assert PlaceOk(ss[j], ss[j].places[t]);
  }

  // ---------------------------------------------------------------- the loser's record

  lemma NewRequestsPend(s: State, step: Step, s': State, rid: RequestId)
    requires Next(s, step, s') && rid !in s.requests && rid in s'.requests
    ensures s'.requests[rid].status == Pending
  {
    if !step.Enqueue? && !step.DrainAnswer? && !step.ServeAnswer? {
      RequestSteps(s, step, s');
    }
  }

  /** An answered request was answered in one step of the run. */
  lemma {:induction false} AnsweredOnce(ss: seq<State>, i: nat, rid: RequestId) returns (j: nat)
    requires Run(ss) && i < |ss| && rid in ss[i].requests && ss[i].requests[rid].status.Answered?
    ensures j < i && rid in ss[j].requests && rid in ss[j + 1].requests && ss[j].requests[rid].status == Pending
    ensures ss[j + 1].requests[rid] == ss[i].requests[rid]
    ensures ss[j].requests[rid] == ss[i].requests[rid].(status := Pending)
  {
    hide Next, Inv;
    if i == 0 {
      assert false;
    } else {
      assert StepAt(ss, i - 1);
      var step :| Next(ss[i - 1], step, ss[i]);
      if rid !in ss[i - 1].requests {
        NewRequestsPend(ss[i - 1], step, ss[i], rid);
        assert false;
      } else {
        RunKeepsInv(ss, i - 1);
        StepKeepsAnswers(ss[i - 1], step, ss[i], rid);
        if ss[i - 1].requests[rid].status.Answered? {
          j := AnsweredOnce(ss, i - 1, rid);
        } else {
          j := i - 1;
        }
      }
    }
  }

  /** A thread's request has been answered for good: in one step by its winner, in whose buffer the
      record of the sender's operation is from then on, unless its key was there before; or, if that
      winner's own operation is an update, in whose buffer the key has the new value, if it is there. */
  ghost predicate DealtWith(s: State, s': State, p: Place)
    requires p.Awaiting?
  {
    && p.owner in s.places && p.owner in s'.places && s.places[p.owner].Serving? && s'.places[p.owner].Serving?
    && var q, q' := s.places[p.owner], s'.places[p.owner];
    && var (k, v) := (p.op.key, p.op.value);
    && q.op.node in s.nodes
    && if q.op.kind == Insert && k < s.nodes[q.op.node].anchor then
         HasRoom(q.predBuffer) && Granted(q.predBuffer, q'.predBuffer, k, v, true)
       else if q.op.kind == Insert then
         HasRoom(q.realBuffer) && Granted(q.realBuffer, q'.realBuffer, k, v, true)
       else
         Replaced(q.realBuffer, q'.realBuffer, k, v)
  }

  lemma TrulyDealt(s: State, t: Thread, s': State, p: Place)
    requires p.Awaiting? && p.rid in s.requests && p.rid in s'.requests && s'.requests[p.rid].status.Answered?
    requires TrulyAnswered(s, t, s', p.rid) && !s'.requests[p.rid].status.retry
    requires var r := s.requests[p.rid]; r.to == p.owner && r.key == p.op.key && r.value == p.op.value
    ensures DealtWith(s, s', p)
  {
    hide Granted, Replaced, Buffers, HasRoom, Has;
  }

  lemma AnsweredDealt(ss: seq<State>, j: nat, p: Place)
    requires Run(ss) && j + 1 < |ss| && p.Awaiting?
    requires p.rid in ss[j].requests && ss[j].requests[p.rid].status == Pending
    requires p.rid in ss[j + 1].requests && ss[j + 1].requests[p.rid].status.Answered?
    requires !ss[j + 1].requests[p.rid].status.retry
    requires var r := ss[j].requests[p.rid]; r.to == p.owner && r.key == p.op.key && r.value == p.op.value
    ensures DealtWith(ss[j], ss[j + 1], p)
  {
    assert StepAt(ss, j);
    hide Next, Run, TrulyAnswered, DealtWith;
    var step :| Next(ss[j], step, ss[j + 1]);
    AnswersAreTrue(ss, j, step, p.rid);
    TrulyDealt(ss[j], step.t, ss[j + 1], p);
  }

  lemma SettledDealt(ss: seq<State>, i: nat, t: Thread) returns (j: nat)
    requires Run(ss) && i < |ss| && t in ss[i].places && Settled(ss[i], ss[i].places[t])
    ensures j < i && DealtWith(ss[j], ss[j + 1], ss[i].places[t])
  {
    RunKeepsInv(ss, i);
    MailIs(ss[i], t);
    hide Inv, Run, DealtWith;
    j := AnsweredOnce(ss, i, ss[i].places[t].rid);
    AnsweredDealt(ss, j, ss[i].places[t]);
  }

  lemma MailIs(s: State, t: Thread)
    requires Inv(s) && t in s.places && s.places[t].Awaiting?
    ensures var p := s.places[t];
            && p.rid in s.requests
            && var r := s.requests[p.rid]; r.to == p.owner && r.key == p.op.key && r.value == p.op.value
  {
    assert MailOk(s, t);
  }

  /** Where the record of an insert has gone that is over: its thread has won before and had the
      record's key in its buffer, or its request has been dealt with by the winner it lost to. */
  lemma InsertsAreDone(ss: seq<State>, i: nat, t: Thread) returns (j: nat)
    requires Run(ss) && i + 1 < |ss| && t in ss[i].places && t in ss[i + 1].places
    requires ss[i].places[t] != Idle && ss[i].places[t].op.kind == Insert && ss[i + 1].places[t] == Idle
    ensures j <= i
    ensures var p := ss[i].places[t];
            if p.Resetting? then
              && t in ss[j].places && ss[j].places[t].Serving? && ss[j].places[t].op == p.op
              && Has(ss[j].places[t].realBuffer.recs, p.op.key)
            else p.Awaiting? && j + 1 <= i && DealtWith(ss[j], ss[j + 1], p)
  {
    assert StepAt(ss, i);
    hide Next, Inv, DealtWith, Run, Has;
    var step :| Next(ss[i], step, ss[i + 1]);
    OperationsEnd(ss[i], step, ss[i + 1], t);
    if ss[i].places[t].Resetting? {
      j := WinnerHasStored(ss, i, t);
    } else {
      j := SettledDealt(ss, i, t);
    }
  }

  // ---------------------------------------------------------------- what the winner does first

  /** A winner stores its own record before anything else, and no buffer has room it has not been
      given: an insert's record joins the buffer if there is room, an update's value replaces the old
      one. */
  lemma OwnComesFirst(ss: seq<State>, i: nat, t: Thread, s': State)
    requires Run(ss) && i < |ss| && t in ss[i].places
    ensures NextServe(ss[i], ServeOwn(t), s') ==>
              var p, p' := ss[i].places[t], s'.places[t];
              && p'.Serving? && p'.predBuffer == p.predBuffer
              && (p.op.kind == Insert ==>
                    && p'.stored == HasRoom(p.realBuffer)
                    && Granted(p.realBuffer, p'.realBuffer, p.op.key, p.op.value, HasRoom(p.realBuffer)))
              && (p.op.kind != Insert ==>
                    p'.stored && Replaced(p.realBuffer, p'.realBuffer, p.op.key, p.op.value))
    ensures NextServe(ss[i], ServePop(t), s') || NextServe(ss[i], ServeDone(t), s') ==> ss[i].places[t].stored
  {
    RunKeepsInv(ss, i);
    assert PlaceOk(ss[i], ss[i].places[t]);
    if NextServe(ss[i], ServeOwn(t), s') {
      var p := ss[i].places[t];
      PutMeans(p.realBuffer, p.op.key, p.op.value);
      ReplaceMeans(p.realBuffer, p.op.key, p.op.value);
    }
    hide Inv, PlaceOk;
  }

  // ---------------------------------------------------------------- kinds

  /** From the time a thread has said what it competes for until its operation is over, or begins
      again. */
  predicate Typed(p: Place) {
    !(p.Idle? || p.Draining? || p.DrainHand? || p.Preparing? || p.Typing?)
  }

  /** Then its context tells. */
  ghost predicate TypesOk(s: State) {
    forall t {:trigger s.places[t]} :: t in s.places && t in s.contexts && Typed(s.places[t]) ==>
      s.contexts[t].kind == s.places[t].op.kind
  }

  /** A step changes the kind of no other thread's context. */
  ghost predicate TypesOne(s: State, t: Thread, s': State) {
    && t in s'.places && s'.places == s.places[t := s'.places[t]] && s'.contexts.Keys == s.contexts.Keys + {t}
    && (forall u {:trigger s'.contexts[u]} :: u in s.contexts && u != t ==> s'.contexts[u].kind == s.contexts[u].kind)
    && (t in s.contexts && t in s.places && Typed(s'.places[t]) ==>
          if Typed(s.places[t]) then
            s'.contexts[t].kind == s.contexts[t].kind && s'.places[t].op.kind == s.places[t].op.kind
          else s'.contexts[t].kind == s'.places[t].op.kind)
    && (t !in s.places ==> !Typed(s'.places[t]))
  }

  lemma AloneTypes(s: State, step: Step, s': State)
    requires s.contexts.Keys == s.places.Keys && NextAlone(s, step, s')
    ensures TypesOne(s, step.t, s')
  {
  }

  lemma CasTypes(s: State, step: Step, s': State)
    requires s.contexts.Keys == s.places.Keys && NextCompete(s, step, s') && (step.CasNode? || step.CasPred?)
    ensures TypesOne(s, step.t, s')
  {
  }

  lemma ReleaseTypes(s: State, step: Step, s': State)
    requires s.contexts.Keys == s.places.Keys && NextCompete(s, step, s') && !step.CasNode? && !step.CasPred?
    ensures TypesOne(s, step.t, s')
  {
  }

  lemma CompeteTypes(s: State, step: Step, s': State)
    requires s.contexts.Keys == s.places.Keys && NextCompete(s, step, s')
    ensures TypesOne(s, step.t, s')
  {
    hide NextCompete, TypesOne;
    if step.CasNode? || step.CasPred? {
      CasTypes(s, step, s');
    } else {
      ReleaseTypes(s, step, s');
    }
  }

  lemma ServeTypes(s: State, step: Step, s': State)
    requires s.contexts.Keys == s.places.Keys && NextServe(s, step, s')
    ensures TypesOne(s, step.t, s')
  {
  }

  lemma LoserTypes(s: State, step: Step, s': State)
    requires s.contexts.Keys == s.places.Keys && NextLoser(s, step, s')
    ensures TypesOne(s, step.t, s')
  {
  }

  lemma StepTypes(s: State, step: Step, s': State)
    requires s.contexts.Keys == s.places.Keys && TypesOk(s) && Next(s, step, s')
    ensures TypesOk(s')
  {
    hide NextAlone, NextCompete, NextServe, NextLoser;
    if NextAlone(s, step, s') {
      AloneTypes(s, step, s');
    } else if NextCompete(s, step, s') {
      CompeteTypes(s, step, s');
    } else if NextServe(s, step, s') {
      ServeTypes(s, step, s');
    } else {
      LoserTypes(s, step, s');
    }
  }

  lemma {:induction false} RunKeepsTypes(ss: seq<State>, i: nat)
    requires Run(ss) && i < |ss|
    ensures TypesOk(ss[i])
  {
    hide Inv, Next;
    if i > 0 {
      RunKeepsTypes(ss, i - 1);
      RunKeepsInv(ss, i - 1);
      KeysAgree(ss[i - 1]);
      assert StepAt(ss, i - 1);
      var step :| Next(ss[i - 1], step, ss[i]);
      StepTypes(ss[i - 1], step, ss[i]);
    }
  }

  lemma KeysAgree(s: State)
    requires Inv(s)
    ensures s.contexts.Keys == s.places.Keys
  {
  }

  /** A loser spins exactly if the operation of the thread it lost to, as long as that competes or
      holds, is of its own kind. */
  lemma LosersAreOfAKind(ss: seq<State>, i: nat, t: Thread, s': State)
    requires Run(ss) && i < |ss| && NextLoser(ss[i], Check(t), s')
    ensures var p := ss[i].places[t];
            && p.owner in ss[i].places
            && (Typed(ss[i].places[p.owner]) ==>
                  (s'.places[t].Spinning? <==> ss[i].places[p.owner].op.kind == p.op.kind))
  {
    RunKeepsTypes(ss, i);
    RunKeepsInv(ss, i);
    KeysAgree(ss[i]);
    hide Inv;
  }

  // ---------------------------------------------------------------- the door

  /** t can stop spinning. */
  ghost predicate CanPass(s: State, t: Thread) {
    exists s' :: NextLoser(s, Spin(t), s')
  }

  /** t would be admitted, if it subtracted now. */
  ghost predicate WouldEnter(s: State, t: Thread) {
    exists s' :: NextLoser(s, Subtract(t), s') && t in s'.places && s'.places[t].Enqueueing?
  }

  lemma Doorstep(s: State, t: Thread)
    requires t in s.places && Waiting(s.places[t]) && s.places[t].owner in s.contexts
    ensures CanPass(s, t) <==> s.places[t].Spinning? && s.contexts[s.places[t].owner].maxDepth != -1
    ensures WouldEnter(s, t) <==> s.places[t].Subtracting? && s.contexts[s.places[t].owner].maxDepth > 0
  {
    var p := s.places[t];
    if p.Spinning? && s.contexts[p.owner].maxDepth != -1 {
      assert NextLoser(s, Spin(t), Go(s, t, Subtracting(p.op, p.owner, p.since)));
    }
    if p.Subtracting? && s.contexts[p.owner].maxDepth > 0 {
      var c := s.contexts[p.owner];
      assert NextLoser(s, Subtract(t), Go(SetDepth(s, p.owner, c.maxDepth - 1, c.admitted + 1), t,
          Enqueueing(p.op, p.owner, p.since)));
    }
  }

  /** The depth of a thread's context after a step of its own. */
  ghost predicate DepthIs(s: State, step: Step, s': State) {
    && step.t in s.places && step.t in s.contexts && step.t in s'.contexts
    && var d' := s'.contexts[step.t].maxDepth;
    if step.Close? || (step.Prepare? && s.places[step.t] != Idle && s.places[step.t].op.kind == Insert) then d' == -1
    else if step.GiveUp? then d' == 0
    else if step.Open? || step.Reset? then d' == 4 && s'.contexts[step.t].admitted == 0
    else step.Subtract? || d' == s.contexts[step.t].maxDepth
  }

  lemma AloneDepth(s: State, step: Step, s': State)
    requires NextAlone(s, step, s') && s.contexts.Keys == s.places.Keys && step.t in s.places
    ensures DepthIs(s, step, s')
  {
  }

  lemma CompeteDepth(s: State, step: Step, s': State)
    requires NextCompete(s, step, s') && s.contexts.Keys == s.places.Keys && step.t in s.places
    ensures DepthIs(s, step, s')
  {
  }

  lemma ServeDepth(s: State, step: Step, s': State)
    requires NextServe(s, step, s') && s.contexts.Keys == s.places.Keys && step.t in s.places
    ensures DepthIs(s, step, s')
  {
  }

  lemma LoserDepth(s: State, step: Step, s': State)
    requires NextLoser(s, step, s') && s.contexts.Keys == s.places.Keys && step.t in s.places
    ensures DepthIs(s, step, s')
  {
  }

  lemma DepthAfter(s: State, step: Step, s': State)
    requires Next(s, step, s') && s.contexts.Keys == s.places.Keys && step.t in s.places
    ensures DepthIs(s, step, s')
  {
    hide NextAlone, NextCompete, NextServe, NextLoser, DepthIs;
    if NextAlone(s, step, s') {
      AloneDepth(s, step, s');
    } else if NextCompete(s, step, s') {
      CompeteDepth(s, step, s');
    } else if NextServe(s, step, s') {
      ServeDepth(s, step, s');
    } else {
      LoserDepth(s, step, s');
    }
  }

  /** What a thread's step means for those that have lost to it.  An insert about to compete, and every
      winner that has fetched its nodes, shuts the door: nobody stops spinning and nobody enters.  One
      that gives up lets all stop spinning and nobody enter, so that they try again.  One that has just
      won, or is done, lets all stop spinning, and enter, as far as there is room.  No other step of its own
      opens or shuts anything. */
  lemma DoorsOpenAndShut(s: State, step: Step, s': State, t: Thread)
    requires Next(s, step, s') && s.contexts.Keys == s.places.Keys
    requires t in s.places && t != step.t && Waiting(s.places[t]) && s.places[t].owner == step.t && step.t in s.places
    ensures step.Close? || (step.Prepare? && s.places[step.t].op.kind == Insert) ==>
              !CanPass(s', t) && !WouldEnter(s', t)
    ensures step.GiveUp? ==> (CanPass(s', t) <==> s.places[t].Spinning?) && !WouldEnter(s', t)
    ensures step.Open? || step.Reset? ==>
              && (CanPass(s', t) <==> s.places[t].Spinning?) && (WouldEnter(s', t) <==> s.places[t].Subtracting?)
              && s'.contexts[step.t].admitted == 0
    ensures !step.Close? && !step.GiveUp? && !step.Open? && !step.Reset? && !step.Subtract? &&
            !(step.Prepare? && s.places[step.t].op.kind == Insert) ==>
              (CanPass(s', t) <==> CanPass(s, t)) && (WouldEnter(s', t) <==> WouldEnter(s, t))
  {
    StepMovesOne(s, step, s');
    DepthAfter(s, step, s');
    hide Next, CanPass, WouldEnter;
    Doorstep(s, t);
    Doorstep(s', t);
  }

  // ---------------------------------------------------------------- before the competition

  /** What a thread's step before the competition may be. */
  ghost predicate Drains(s: State, t: Thread, s': State) {
    && t in s.places && t in s'.places
    && var p, p' := s.places[t], s'.places[t];
    && (p == Idle && p' != Idle ==> p'.Draining?)
    && (p.Draining? && !p'.Draining? ==>
          && t in s.contexts
          && (if p'.DrainHand? then s.contexts[t].queue != []
              else s.contexts[t].queue == [] && p' == if p.op.kind == Get then Idle else Preparing(p.op)))
    && (p.DrainHand? ==> p' == p || p' == Draining(p.op))
    && (p'.Preparing? ==> p.Preparing? || p.Draining?)
  }

  lemma AloneDrains(s: State, step: Step, s': State)
    requires NextAlone(s, step, s') && !step.Register?
    ensures Drains(s, step.t, s')
  {
  }

  lemma CompeteDrains(s: State, step: Step, s': State)
    requires NextCompete(s, step, s') && !step.Register?
    ensures Drains(s, step.t, s')
  {
  }

  lemma ServeDrains(s: State, step: Step, s': State)
    requires NextServe(s, step, s') && !step.Register?
    ensures Drains(s, step.t, s')
  {
  }

  lemma LoserDrains(s: State, step: Step, s': State)
    requires NextLoser(s, step, s') && !step.Register?
    ensures Drains(s, step.t, s')
  {
  }

  /** A thread competes only once it has found its own queue empty; a get never competes. */
  lemma DrainsFirst(s: State, step: Step, s': State, t: Thread)
    requires Next(s, step, s') && t in s.places && t in s'.places
    ensures Drains(s, t, s')
  {
    StepMovesOne(s, step, s');
    hide NextCompete, NextServe, NextLoser;
    if step.t == t {
      assert !step.Register?;
      hide NextAlone, Drains;
      if NextAlone(s, step, s') {
        AloneDrains(s, step, s');
      } else if NextCompete(s, step, s') {
        CompeteDrains(s, step, s');
      } else if NextServe(s, step, s') {
        ServeDrains(s, step, s');
      } else {
        LoserDrains(s, step, s');
      }
    }
  }
}
