/** The promise chain of broadcast-publish-controller.ts: each operation of a room waits for the one enqueued
    before it. That a room's mixer is used by one operation at a time is derived from the chain alone. */
module BroadcastChain {
  import opened Redis
  import opened MixerPorts
  import MixerPool

  type OpId = int

  datatype Status = Pending | Running | Settled

  /** `after` is the promise the operation was chained to; a fresh chain starts from a resolved one.
      `syncing` says that the operation awaits its call of mixer.sync. */
  datatype Op = Op(room: RoomId, after: Option<OpId>, status: Status, syncing: bool)

  /** `tails` is the `chains` map: per room the promise enqueued last, until it is forgotten. */
  datatype Controller = Controller(pool: MixerPool.Pool, ops: map<OpId, Op>, tails: map<RoomId, OpId>, nextOp: OpId)

  datatype Event =
    | Enqueue(room: RoomId)
    | OpStarts(id: OpId)
    | Acts(id: OpId, act: MixerPool.Event)
    | OpSettles(id: OpId)
    | TailForgotten(id: OpId)

  /** What the operation's own code allows it to do next with its mixer; nothing here looks at other
      operations. */
  predicate OwnTurn(c: Controller, id: OpId, act: MixerPool.Event)
    requires id in c.ops
  {
    var op := c.ops[id];
    && act.room == op.room
    && match act
       case SyncStarts(_, _) => !op.syncing
       case RoomCloses(_) => !op.syncing
       case AddStarts(room) =>
         op.syncing && room in c.pool.busy && c.pool.busy[room].adding.None? && c.pool.busy[room].rest != []
       case SyncReturns(room) =>
         op.syncing && room in c.pool.busy && c.pool.busy[room].adding.None? && c.pool.busy[room].rest == []
       case _ => op.syncing && act.room in c.pool.busy && c.pool.busy[act.room].adding.Some?
  }

  predicate Possible(c: Controller, e: Event) {
    match e
    case Enqueue(_) => true
    case OpStarts(id) =>
      id in c.ops && c.ops[id].status.Pending?
      && (c.ops[id].after.Some? ==> c.ops[id].after.value in c.ops && c.ops[c.ops[id].after.value].status.Settled?)
    case Acts(id, act) => id in c.ops && c.ops[id].status.Running? && OwnTurn(c, id, act)
    case OpSettles(id) => id in c.ops && c.ops[id].status.Running? && !c.ops[id].syncing
    case TailForgotten(id) => id in c.ops && c.ops[id].status.Settled?
  }

  function Tail(c: Controller, room: RoomId): Option<OpId> {
    if room in c.tails then Some(c.tails[room]) else None
  }

  /** An act that the mixers could not take would change nothing; ActsArePossible shows there is none. */
  function Step(c: Controller, e: Event): Controller
    requires Possible(c, e)
  {
    match e
    case Enqueue(room) =>
      c.(ops := c.ops[c.nextOp := Op(room, Tail(c, room), Pending, false)],
         tails := c.tails[room := c.nextOp], nextOp := c.nextOp + 1)
    case OpStarts(id) => c.(ops := c.ops[id := c.ops[id].(status := Running)])
    case Acts(id, act) =>
      if !MixerPool.Possible(c.pool, act) then c
      else
        var pool := MixerPool.Step(c.pool, act);
        c.(pool := pool, ops := c.ops[id := c.ops[id].(syncing := act.room in pool.busy)])
    case OpSettles(id) => c.(ops := c.ops[id := c.ops[id].(status := Settled)])
    case TailForgotten(id) =>
      if Tail(c, c.ops[id].room) == Some(id) then c.(tails := c.tails - {c.ops[id].room}) else c
  }

  // ----- the chain is a line -----

  /** i was enqueued before j for the same room. */
  predicate Before(c: Controller, i: OpId, j: OpId) {
    i in c.ops && j in c.ops && i < j && c.ops[i].room == c.ops[j].room
  }

  /** An operation waits for its room's previous one, or all before it are done. */
  ghost predicate Linked(c: Controller, j: OpId)
    requires j in c.ops
  {
    match c.ops[j].after
    case Some(a) => Before(c, a, j) && forall i :: Before(c, i, j) ==> i <= a
    case None => forall i :: Before(c, i, j) ==> c.ops[i].status.Settled?
  }

  ghost predicate InLine(c: Controller) {
    && (forall j :: j in c.ops ==> j < c.nextOp && Linked(c, j))
    && (forall i, j :: Before(c, i, j) && !c.ops[j].status.Pending? ==> c.ops[i].status.Settled?)
  }

  ghost predicate TailIsLast(c: Controller) {
    && (forall room :: room in c.tails ==> c.tails[room] in c.ops && c.ops[c.tails[room]].room == room)
    && (forall i :: i in c.ops ==>
          if c.ops[i].room in c.tails then i <= c.tails[c.ops[i].room] else c.ops[i].status.Settled?)
  }

  lemma NewOpLinked(c: Controller, room: RoomId)
    requires InLine(c) && TailIsLast(c)
    ensures Linked(Step(c, Enqueue(room)), c.nextOp)
  {
    var c' := Step(c, Enqueue(room));
    assert c.nextOp !in c.ops;
    forall i | Before(c', i, c.nextOp) ensures i in c.ops && c.ops[i].room == room && c'.ops[i] == c.ops[i] { }
  }

  lemma OldOpStaysLinked(c: Controller, room: RoomId, j: OpId)
    requires InLine(c) && j in c.ops
    ensures Linked(Step(c, Enqueue(room)), j)
  {
    var c' := Step(c, Enqueue(room));
    assert Linked(c, j) && c.nextOp !in c.ops && j < c.nextOp;
    forall i ensures Before(c', i, j) <==> Before(c, i, j) { }
  }

  lemma EnqueueKeepsLine(c: Controller, room: RoomId)
    requires InLine(c) && TailIsLast(c)
    ensures InLine(Step(c, Enqueue(room)))
  {
    var c' := Step(c, Enqueue(room));
    NewOpLinked(c, room);
    forall j | j in c.ops ensures Linked(c', j) { OldOpStaysLinked(c, room, j); }
    forall i, j | Before(c', i, j) && !c'.ops[j].status.Pending? ensures c'.ops[i].status.Settled? {
      assert Before(c, i, j);
    }
  }

  lemma EnqueueKeepsTail(c: Controller, room: RoomId)
    requires InLine(c) && TailIsLast(c)
    ensures TailIsLast(Step(c, Enqueue(room)))
  {
  }

  /** The same operations with the same links, none of them unsettled again. */
  ghost predicate Progresses(c: Controller, c': Controller) {
    && c'.ops.Keys == c.ops.Keys && c'.nextOp == c.nextOp
    && forall i :: i in c.ops ==>
         c'.ops[i].room == c.ops[i].room && c'.ops[i].after == c.ops[i].after
         && (c.ops[i].status.Settled? ==> c'.ops[i].status.Settled?)
  }

  lemma ProgressKeepsLinks(c: Controller, c': Controller)
    requires InLine(c) && Progresses(c, c')
    ensures forall j :: j in c'.ops ==> j < c'.nextOp && Linked(c', j)
    ensures forall i, j :: Before(c', i, j) <==> Before(c, i, j)
  {
    forall i, j ensures Before(c', i, j) <==> Before(c, i, j) { }
    forall j | j in c'.ops ensures j < c'.nextOp && Linked(c', j) { assert Linked(c, j); }
  }

  lemma StatusKeepsLine(c: Controller, e: Event)
    requires InLine(c) && Possible(c, e) && (e.OpStarts? || e.OpSettles? || e.Acts?)
    ensures InLine(Step(c, e))
  {
    var c' := Step(c, e);
    assert Progresses(c, c');
    ProgressKeepsLinks(c, c');
    forall i, j | Before(c', i, j) && !c'.ops[j].status.Pending? ensures c'.ops[i].status.Settled? {
      assert Before(c, i, j);
      if e.OpStarts? && j == e.id { AllBeforeSettled(c, j, i); }
    }
  }

  lemma StatusKeepsTail(c: Controller, e: Event)
    requires TailIsLast(c) && Possible(c, e) && (e.OpStarts? || e.OpSettles? || e.Acts?)
    ensures TailIsLast(Step(c, e))
  {
    assert Progresses(c, Step(c, e));
  }

  /** Once the operation it waits for has settled, everything enqueued earlier has. */
  lemma AllBeforeSettled(c: Controller, j: OpId, i: OpId)
    requires InLine(c) && Possible(c, OpStarts(j)) && Before(c, i, j)
    ensures c.ops[i].status.Settled?
  {
    assert Linked(c, j);
    if c.ops[j].after.Some? {
      var a := c.ops[j].after.value;
      if i != a { assert Before(c, i, a); }
    }
  }

  lemma ForgetKeepsTail(c: Controller, id: OpId)
    requires InLine(c) && TailIsLast(c) && Possible(c, TailForgotten(id))
    ensures InLine(Step(c, TailForgotten(id))) && TailIsLast(Step(c, TailForgotten(id)))
  {
    var c' := Step(c, TailForgotten(id));
    ProgressKeepsLinks(c, c');
    forall i | i in c'.ops && c'.ops[i].room !in c'.tails ensures c'.ops[i].status.Settled? {
      if c.ops[i].room in c.tails && i != id { assert Before(c, i, id); }
    }
  }

  lemma StepKeepsLine(c: Controller, e: Event)
    requires InLine(c) && TailIsLast(c) && Possible(c, e)
    ensures InLine(Step(c, e)) && TailIsLast(Step(c, e))
  {
    match e
    case Enqueue(room) => EnqueueKeepsLine(c, room); EnqueueKeepsTail(c, room);
    case TailForgotten(id) => ForgetKeepsTail(c, id);
    case _ => StatusKeepsLine(c, e); StatusKeepsTail(c, e);
  }

  predicate BothRun(c: Controller, i: OpId, j: OpId) {
    i in c.ops && j in c.ops && c.ops[i].room == c.ops[j].room
    && c.ops[i].status.Running? && c.ops[j].status.Running?
  }

  /** Two operations of one room never run at once. */
  lemma OneAtATime(c: Controller, i: OpId, j: OpId)
    requires InLine(c) && BothRun(c, i, j)
    ensures i == j
  {
    assert i < j ==> Before(c, i, j);
    assert j < i ==> Before(c, j, i);
  }

  // ----- the mixers see one operation per room -----

  /** Whoever syncs runs, and a mixer is busy exactly with a sync of a running operation. */
  ghost predicate SyncsOwned(c: Controller) {
    && (forall i :: i in c.ops && c.ops[i].syncing ==> c.ops[i].status.Running? && c.ops[i].room in c.pool.busy)
    && (forall room :: room in c.pool.busy ==> Owned(c, room))
  }

  ghost predicate Owned(c: Controller, room: RoomId) {
    exists i :: i in c.ops && c.ops[i].syncing && c.ops[i].room == room
  }

  /** So the guard by which MixerPool keeps one operation per room is never the one that says no. */
  lemma ActsArePossible(c: Controller, id: OpId, act: MixerPool.Event)
    requires InLine(c) && SyncsOwned(c) && MixerPool.AddsInOrder(c.pool) && Possible(c, Acts(id, act))
    ensures MixerPool.Possible(c.pool, act)
  {
    if act.SyncStarts? || act.RoomCloses? {
      if act.room in c.pool.busy {
        assert Owned(c, act.room);
        var i :| i in c.ops && c.ops[i].syncing && c.ops[i].room == act.room;
        OneAtATime(c, i, id);
        assert false;
      }
    }
  }

  lemma PoolStepTouchesOneRoom(s: MixerPool.Pool, act: MixerPool.Event, room: RoomId)
    requires MixerPool.Possible(s, act) && room != act.room
    ensures room in MixerPool.Step(s, act).busy <==> room in s.busy
  {
  }

  lemma ActKeepsSyncsOwned(c: Controller, id: OpId, act: MixerPool.Event)
    requires InLine(c) && SyncsOwned(c) && Possible(c, Acts(id, act)) && MixerPool.Possible(c.pool, act)
    ensures SyncsOwned(Step(c, Acts(id, act)))
  {
    var c' := Step(c, Acts(id, act));
    forall i | i in c'.ops && c'.ops[i].syncing
      ensures c'.ops[i].status.Running? && c'.ops[i].room in c'.pool.busy
    {
      if i != id {
        if c.ops[i].room == act.room { OneAtATime(c, i, id); }
        PoolStepTouchesOneRoom(c.pool, act, c.ops[i].room);
      }
    }
    forall room | room in c'.pool.busy ensures Owned(c', room) {
      if room == act.room {
        assert c'.ops[id].syncing;
      } else {
        PoolStepTouchesOneRoom(c.pool, act, room);
        assert Owned(c, room);
        var i :| i in c.ops && c.ops[i].syncing && c.ops[i].room == room;
        assert c'.ops[i].syncing;
      }
    }
  }

  lemma StepKeepsSyncsOwned(c: Controller, e: Event)
    requires InLine(c) && SyncsOwned(c) && Possible(c, e)
    requires e.Acts? ==> MixerPool.Possible(c.pool, e.act)
    ensures SyncsOwned(Step(c, e))
  {
    if e.Acts? {
      ActKeepsSyncsOwned(c, e.id, e.act);
    } else {
      var c' := Step(c, e);
      assert e.Enqueue? ==> c.nextOp !in c.ops;
      forall room | room in c'.pool.busy ensures Owned(c', room) {
        assert Owned(c, room);
        var i :| i in c.ops && c.ops[i].syncing && c.ops[i].room == room;
        assert i in c'.ops && c'.ops[i].syncing && c'.ops[i].room == room;
      }
    }
  }

  ghost predicate Sound(c: Controller) {
    InLine(c) && TailIsLast(c) && SyncsOwned(c) && MixerPool.Sound(c.pool)
  }

  lemma StepKeepsSound(c: Controller, e: Event)
    requires Sound(c) && Possible(c, e)
    ensures Sound(Step(c, e))
  {
    if e.Acts? {
      ActsArePossible(c, e.id, e.act);
      MixerPool.StepKeepsSound(c.pool, e.act);
    }
    StepKeepsLine(c, e);
    StepKeepsSyncsOwned(c, e);
  }

  predicate PossibleRun(c: Controller, events: seq<Event>)
    decreases |events|
  {
    events == [] || (Possible(c, events[0]) && PossibleRun(Step(c, events[0]), events[1..]))
  }

  function Run(c: Controller, events: seq<Event>): Controller
    requires PossibleRun(c, events)
    decreases |events|
  {
    if events == [] then c else Run(Step(c, events[0]), events[1..])
  }

  lemma {:induction false} RunKeepsSound(c: Controller, events: seq<Event>)
    requires Sound(c) && PossibleRun(c, events)
    ensures Sound(Run(c, events))
    decreases |events|
  {
    if events != [] {
      StepKeepsSound(c, events[0]);
      RunKeepsSound(Step(c, events[0]), events[1..]);
    }
  }

  function Fresh(basePort: int, maxPort: int): Controller {
    Controller(MixerPool.Pool(basePort, maxPort, {}, map[], map[]), map[], map[], 0)
  }

  /** Main result, over any run of any rooms' operations: a room runs one operation at a time, none of its
      acts is refused by its mixer, and the port pool neither collides nor leaks. */
  lemma RoomsNeverInterleave(basePort: int, maxPort: int, events: seq<Event>)
    requires PossibleRun(Fresh(basePort, maxPort), events)
    ensures var c := Run(Fresh(basePort, maxPort), events);
            && (forall i, j :: BothRun(c, i, j) ==> i == j)
            && (forall id, act :: Possible(c, Acts(id, act)) ==> MixerPool.Possible(c.pool, act))
            && MixerPool.PortsExact(c.pool)
  {
    RunKeepsSound(Fresh(basePort, maxPort), events);
    var c := Run(Fresh(basePort, maxPort), events);
    forall i, j | BothRun(c, i, j) ensures i == j { OneAtATime(c, i, j); }
    forall id, act | Possible(c, Acts(id, act)) ensures MixerPool.Possible(c.pool, act) {
      ActsArePossible(c, id, act);
    }
  }

  /** A new operation joins the end of its room's line and waits. */
  lemma EnqueuedGoesLast(c: Controller, room: RoomId)
    requires InLine(c)
    ensures var c', id := Step(c, Enqueue(room)), c.nextOp;
            && id in c'.ops && c'.ops[id].room == room && c'.ops[id].status.Pending?
            && (forall i :: i in c.ops ==> c'.ops[i] == c.ops[i] && (c.ops[i].room == room ==> Before(c', i, id)))
            && c'.ops.Keys == c.ops.Keys + {id} && c'.pool == c.pool
  {
    assert c.nextOp !in c.ops;
  }

  /** Forgetting drops a room's tail exactly when it is the operation that settled last. */
  lemma ForgetsOnlyItsOwnTail(c: Controller, id: OpId)
    requires Possible(c, TailForgotten(id))
    ensures var c', room := Step(c, TailForgotten(id)), c.ops[id].room;
            && c'.ops == c.ops && c'.pool == c.pool
            && (Tail(c, room) == Some(id) ==> Tail(c', room) == None)
            && (Tail(c, room) != Some(id) ==> c' == c)
            && (forall other :: other != room ==> Tail(c', other) == Tail(c, other))
  {
  }

  /** When an operation settles, the next one of its room can start, whether or not the tail was forgotten. */
  lemma SettlingLetsNextStart(c: Controller, id: OpId, j: OpId)
    requires Sound(c) && Possible(c, OpSettles(id)) && Before(c, id, j)
    requires forall i :: Before(c, i, j) ==> i <= id
    ensures Possible(Step(c, OpSettles(id)), OpStarts(j))
    ensures Step(Step(c, OpSettles(id)), OpStarts(j)).ops[j].status.Running?
  {
    var c' := Step(c, OpSettles(id));
    StepKeepsSound(c, OpSettles(id));
    forall i | Before(c', i, j) ensures c'.ops[i].status.Settled? {
      assert Before(c, i, j);
      if i != id { assert Before(c, i, id); }
    }
    assert c'.ops[j].status.Pending?;
    OldestPendingCanStart(c', j);
  }

  /** The chain does not stall either: with nothing running, the room's oldest pending operation can start. */
  lemma OldestPendingCanStart(c: Controller, j: OpId)
    requires Sound(c) && j in c.ops && c.ops[j].status.Pending?
    requires forall i :: Before(c, i, j) ==> c.ops[i].status.Settled?
    ensures Possible(c, OpStarts(j))
  {
    assert Linked(c, j);
  }
}
