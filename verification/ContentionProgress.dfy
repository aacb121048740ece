/** Nobody who holds a node depends on anybody else: a thread that holds one, running alone, lets go of it. */
module ContentionProgress {
  import opened Keys
  import opened DataLayer
  import opened Contention
  import opened ContentionSafety

  /** t holds some node, and has not crashed. */
  ghost predicate Holder(s: State, t: Thread) {
    t in s.places && Held(s.places[t]) != {} && !s.places[t].Crashed?
  }

  /** How far a holder has come. */
  function Phase(p: Place): nat {
    match p
    case CasLeft(_, _) => 9
    case GivingUp(_) => 8
    case Dropping(_) => 7
    case Opening(_, _) => 6
    case Closing(_, _) => 5
    case Linking(_, _, _, _, _) => 5
    case Serving(_, _, _, _, _, _) => 4
    case ReleasingRight(_, _) => 3
    case ReleasingLeft(_, _) => 2
    case _ => 0
  }

  /** What a winner has to do at once: a request in its hand, its own record, and room for that. */
  function Chores(p: Place): nat {
    if p.Serving? then
      (if p.inHand.Some? then 4 else 0) + if p.stored then 0 else if HasRoom(p.realBuffer) then 1 else 2
    else 0
  }

  /** t is nearer to letting go, and only t has moved. */
  ghost predicate Nearer(s: State, s': State, t: Thread) {
    && t in s.places && t in s.contexts && t in s'.contexts
    && t in s'.places && s'.places == s.places[t := s'.places[t]] && !s'.places[t].Crashed?
    && s'.places[t] != Idle && s.places[t] != Idle && s'.places[t].op == s.places[t].op
    && var p, p' := s.places[t], s'.places[t];
    && var n, n' := |s.contexts[t].queue|, |s'.contexts[t].queue|;
    && (Phase(p') < Phase(p) || (Phase(p') == Phase(p) && (n' < n || (n' == n && Chores(p') < Chores(p)))))
    && (Held(p') == {} ==> p' == if p.Dropping? then Draining(p.op) else Resetting(p.op))
  }

  lemma CompetesOn(s: State, t: Thread) returns (step: Step, s': State)
    requires PlacesOk(s) && t in s.places && s.places[t].CasLeft?
    ensures NextCompete(s, step, s') && step.t == t && Nearer(s, s', t)
  {
    var p := s.places[t];
    assert PlaceOk(s, p);
    step := CasPred(t);
    s' := if s.nodes[p.left].ctx == None then Go(SetCtx(s, p.left, Some(t)), t, Opening(p.op, Some(p.left)))
          else Go(s, t, GivingUp(p.op));
    assert Nearer(s, s', t) by {
      hide NextCompete;
    }
    hide Nearer;
  }

  lemma GivesUpOn(s: State, t: Thread) returns (step: Step, s': State)
    requires PlacesOk(s) && t in s.places && s.places[t].GivingUp?
    ensures NextCompete(s, step, s') && step.t == t && Nearer(s, s', t)
  {
    assert t in s.contexts;
    hide PlacesOk;
    step, s' := GiveUp(t), Go(SetDepth(s, t, 0, s.contexts[t].admitted), t, Dropping(s.places[t].op));
    assert Nearer(s, s', t) by {
      hide NextCompete;
    }
    hide Nearer;
  }

  lemma DropsOn(s: State, t: Thread) returns (step: Step, s': State)
    requires PlacesOk(s) && t in s.places && s.places[t].Dropping?
    ensures NextCompete(s, step, s') && step.t == t && Nearer(s, s', t)
  {
    var p := s.places[t];
    assert PlaceOk(s, p) && t in s.contexts && p.op.node in s.nodes;
    hide PlacesOk, PlaceOk;
    step, s' := Drop(t), Go(SetCtx(s, p.op.node, None), t, Draining(p.op));
    assert Nearer(s, s', t) by {
      hide NextCompete;
    }
    hide Nearer;
  }

  lemma FetchesOn(s: State, t: Thread) returns (step: Step, s': State)
    requires PlacesOk(s) && t in s.places && (s.places[t].Opening? || s.places[t].Closing?)
    ensures NextCompete(s, step, s') && step.t == t && Nearer(s, s', t)
  {
    var p := s.places[t];
    assert t in s.contexts;
    hide PlacesOk;
    if p.Opening? {
      step, s' := Open(t), Go(SetDepth(s, t, 4, 0), t, Closing(p.op, p.pred));
    } else {
      var b := Buffer(0, []);
      step := Close(t, b, b);
      s' := Go(SetDepth(s, t, -1, s.contexts[t].admitted), t, Serving(p.op, p.pred, None, b, b, false));
    }
    assert Nearer(s, s', t) by {
      hide NextCompete;
    }
    hide Nearer;
  }

  lemma LeavesRight(s: State, t: Thread) returns (step: Step, s': State)
    requires PlacesOk(s) && t in s.places && s.places[t].ReleasingRight?
    ensures NextCompete(s, step, s') && step.t == t && Nearer(s, s', t)
  {
    var p := s.places[t];
    assert PlaceOk(s, p) && t in s.contexts && p.op.node in s.nodes && (p.op.kind == Insert ==> p.pred.Some?);
    hide PlacesOk, PlaceOk;
    step, s' := ReleaseRight(t), Go(SetCtx(s, p.op.node, None), t,
                                    if p.op.kind == Insert then ReleasingLeft(p.op, p.pred) else Resetting(p.op));
    assert Nearer(s, s', t) by {
      hide NextCompete;
    }
    hide Nearer;
  }

  lemma LeavesLeft(s: State, t: Thread) returns (step: Step, s': State)
    requires PlacesOk(s) && t in s.places && s.places[t].ReleasingLeft?
    ensures NextCompete(s, step, s') && step.t == t && Nearer(s, s', t)
  {
    var p := s.places[t];
    assert PlaceOk(s, p);
    step, s' := ReleaseLeft(t), Go(SetCtx(s, p.pred.value, None), t, Resetting(p.op));
    assert Nearer(s, s', t) by {
      hide NextCompete;
    }
    hide Nearer;
  }

  lemma AnswersOn(s: State, t: Thread) returns (step: Step, s': State)
    requires PlacesOk(s) && RequestsOk(s) && t in s.places && s.places[t].Serving? && s.places[t].inHand.Some?
    ensures NextServe(s, step, s') && step.t == t && Nearer(s, s', t)
  {
    var p := s.places[t];
    assert PlaceOk(s, p) && MailOk(s, t);
    var rid := p.inHand.value;
    var (pb, rb, succeed, retry) := Served(p, s.nodes[p.op.node].anchor, s.requests[rid].key, s.requests[rid].value);
    step := ServeAnswer(t);
    s' := Go(Reply(s, rid, t, succeed, retry), t, p.(inHand := None, predBuffer := pb, realBuffer := rb));
    assert Nearer(s, s', t) by {
      hide NextServe;
    }
    hide Nearer;
  }

  lemma StoresOn(s: State, t: Thread) returns (step: Step, s': State)
    requires PlacesOk(s) && t in s.places && s.places[t].Serving? && s.places[t].inHand == None && !s.places[t].stored
    requires s.places[t].op.kind != Insert || HasRoom(s.places[t].realBuffer)
    ensures NextServe(s, step, s') && step.t == t && Nearer(s, s', t)
  {
    var p := s.places[t];
    var rb := if p.op.kind == Insert then Put(p.realBuffer, p.op.key, p.op.value)
              else Replace(p.realBuffer, p.op.key, p.op.value);
    step, s' := ServeOwn(t), Go(s, t, p.(realBuffer := rb, stored := true));
    assert Nearer(s, s', t) by {
      hide NextServe;
    }
    hide Nearer;
  }

  lemma WidensOn(s: State, t: Thread) returns (step: Step, s': State)
    requires PlacesOk(s) && t in s.places && s.places[t].Serving? && s.places[t].inHand == None && !s.places[t].stored
    requires !HasRoom(s.places[t].realBuffer)
    ensures NextServe(s, step, s') && step.t == t && Nearer(s, s', t)
  {
    var p := s.places[t];
    var n := |p.realBuffer.recs| + 1;
    step := ServeWiden(t, n);
    s' := Go(s, t, Serving(p.op, p.pred, p.inHand, p.predBuffer, p.realBuffer.(capacity := n), p.stored));
    assert Nearer(s, s', t) by {
      hide NextServe;
    }
    hide Nearer;
  }

  lemma LinksOn(s: State, t: Thread) returns (step: Step, s': State)
    requires PlacesOk(s) && LinksOk(s) && t in s.places && s.places[t].Linking?
    ensures NextServe(s, step, s') && step.t == t && Nearer(s, s', t)
  {
    var p := s.places[t];
    assert PlaceOk(s, p) && LinkOk(s, t) && t in s.contexts;
    hide PlacesOk, LinksOk, PlaceOk;
    step := ServeSetBackward(t);
    s' := Go(s.(nodes := s.nodes[p.node := s.nodes[p.node].(backward := Some(p.op.node), linker := None)]), t,
             Serving(p.op, p.pred, None, p.predBuffer, p.realBuffer, true));
    assert Nearer(s, s', t) by {
      hide NextServe;
    }
    hide Nearer;
  }

  lemma FinishesOn(s: State, t: Thread) returns (step: Step, s': State)
    requires PlacesOk(s) && t in s.places && s.places[t].Serving? && s.places[t].inHand == None && s.places[t].stored
    requires s.places[t].op.kind == Insert || s.contexts[t].queue == []
    ensures NextServe(s, step, s') && step.t == t && Nearer(s, s', t)
  {
    assert t in s.contexts;
    hide PlacesOk;
    step, s' := ServeDone(t), Go(s, t, ReleasingRight(s.places[t].op, s.places[t].pred));
    assert Nearer(s, s', t) by {
      hide NextServe;
    }
    hide Nearer;
  }

  lemma PopsOn(s: State, t: Thread) returns (step: Step, s': State)
    requires PlacesOk(s) && t in s.places && s.places[t].Serving? && s.places[t].inHand == None && s.places[t].stored
    requires s.contexts[t].queue != []
    ensures NextServe(s, step, s') && step.t == t && Nearer(s, s', t)
  {
    assert t in s.contexts;
    hide PlacesOk;
    var q := s.contexts[t].queue;
    step, s' := ServePop(t), Go(SetQueue(s, t, q[1..]), t, s.places[t].(inHand := Some(q[0])));
    assert Nearer(s, s', t) by {
      hide NextServe;
    }
    hide Nearer;
  }

  /** A holder always has such a step. */
  lemma HolderMoves(s: State, t: Thread) returns (step: Step, s': State)
    requires Inv(s) && Holder(s, t)
    ensures Next(s, step, s') && step.t == t && Nearer(s, s', t)
  {
    var p := s.places[t];
    hide Nearer, PlacesOk, RequestsOk, LinksOk, NextAlone, NextCompete, NextServe, NextLoser;
    if p.Serving? && p.inHand.Some? {
      step, s' := AnswersOn(s, t);
    } else if p.Serving? && !p.stored && p.op.kind == Insert && !HasRoom(p.realBuffer) {
      step, s' := WidensOn(s, t);
    } else if p.Serving? && !p.stored {
      step, s' := StoresOn(s, t);
    } else if p.Serving? && (p.op.kind == Insert || s.contexts[t].queue == []) {
      step, s' := FinishesOn(s, t);
    } else if p.Serving? {
      step, s' := PopsOn(s, t);
    } else if p.Linking? {
      step, s' := LinksOn(s, t);
    } else if p.ReleasingRight? {
      step, s' := LeavesRight(s, t);
    } else if p.ReleasingLeft? {
      step, s' := LeavesLeft(s, t);
    } else if p.CasLeft? {
      step, s' := CompetesOn(s, t);
    } else if p.GivingUp? {
      step, s' := GivesUpOn(s, t);
    } else if p.Dropping? {
      step, s' := DropsOn(s, t);
    } else {
      step, s' := FetchesOn(s, t);
    }
  }

  /** t takes every step. */
  ghost predicate StepBy(ss: seq<State>, t: Thread, i: nat)
    requires i + 1 < |ss|
  {
    exists step: Step {:trigger Next(ss[i], step, ss[i + 1])} :: step.t == t && Next(ss[i], step, ss[i + 1])
  }

  ghost predicate RunAlone(ss: seq<State>, t: Thread) {
    ss != [] && forall i {:trigger StepBy(ss, t, i)} :: 0 <= i < |ss| - 1 ==> StepBy(ss, t, i)
  }

  lemma AloneFirst(s: State, step: Step, rest: seq<State>, t: Thread)
    requires RunAlone(rest, t) && step.t == t && Next(s, step, rest[0])
    ensures RunAlone([s] + rest, t)
  {
    hide Next;
    var ss := [s] + rest;
    forall i | 0 <= i < |ss| - 1
      ensures StepBy(ss, t, i)
    {
      if i == 0 {
        assert Next(ss[0], step, ss[1]);
      } else {
        assert StepBy(rest, t, i - 1);
        assert ss[i] == rest[i - 1] && ss[i + 1] == rest[i];
      }
    }
  }

  /** t has let go of all nodes, and nobody else has moved. */
  ghost predicate LetGo(s: State, t: Thread, s': State)
    requires t in s.places && s.places[t] != Idle
  {
    && t in s'.places && s'.places == s.places[t := s'.places[t]]
    && s'.places[t] in {Draining(s.places[t].op), Resetting(s.places[t].op)}
    && forall n :: n in s'.nodes ==> s'.nodes[n].ctx != Some(t)
  }

  lemma LetGoFirst(s: State, s1: State, s': State, t: Thread)
    requires Holder(s, t) && Nearer(s, s1, t) && LetGo(s1, t, s')
    ensures LetGo(s, t, s')
  {
  }

  lemma LetsGoNow(s: State, s1: State, t: Thread)
    requires Inv(s1) && Holder(s, t) && Nearer(s, s1, t) && Held(s1.places[t]) == {}
    ensures LetGo(s, t, s1)
  {
  }

  /** Whatever all other threads do or fail to do, a thread that holds a node can go on by itself until it
      holds none: an insert that could not win the predecessor is then about to try again, and a winner
      has its operation done.  It takes up every request it has in hand, finds room for its own record,
      and if it is an update answers all that wait. */
  lemma {:induction false} HolderLetsGo(s: State, t: Thread) returns (ss: seq<State>)
    requires Inv(s) && Holder(s, t)
    ensures RunAlone(ss, t) && ss[0] == s && LetGo(s, t, ss[|ss| - 1])
    decreases Phase(s.places[t]), |s.contexts[t].queue|, Chores(s.places[t])
  {
    hide Inv, Next, LetGo, StepBy;
    var step, s1 := HolderMoves(s, t);
    NextKeepsInv(s, step, s1);
    var rest := [s1];
    if Held(s1.places[t]) != {} {
      rest := HolderLetsGo(s1, t);
      LetGoFirst(s, s1, rest[|rest| - 1], t);
    } else {
      LetsGoNow(s, s1, t);
    }
    AloneFirst(s, step, rest, t);
    ss := [s] + rest;
  }
}
