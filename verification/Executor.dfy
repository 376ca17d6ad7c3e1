/** The executor: task ids, the run queue, and polling. What a future does when it is polled (finish or
    not, and which tasks get woken meanwhile) comes from outside. */
module Executor {

  const QUEUE_CAPACITY: nat := 100
  const ID_RANGE: nat := 0x1_0000_0000_0000_0000

  type TaskId = nat

  /** One poll of a task, and whether the future returned Ready. */
  datatype Poll = Poll(id: TaskId, ready: bool)

  /** What happens from one pop of the run queue to the next: the wake-ups that come, in order, and the
      outcome of the poll, if the popped id leads to one. */
  datatype Turn = Turn(wakes: seq<TaskId>, ready: bool)

  datatype Spawned = Done | DuplicateId | QueueFull

  /** No task is polled again after it returned Ready. */
  ghost predicate NeverAfterReady(polls: seq<Poll>) {
    forall i, j :: 0 <= i < j < |polls| && polls[i].ready ==> polls[j].id != polls[i].id
  }

  ghost function Finished(polls: seq<Poll>): set<TaskId> {
    set i | 0 <= i < |polls| && polls[i].ready :: polls[i].id
  }

  lemma PollLive(polls: seq<Poll>, p: Poll)
    requires NeverAfterReady(polls) && p.id !in Finished(polls)
    ensures NeverAfterReady(polls + [p])
    ensures Finished(polls + [p]) == Finished(polls) + if p.ready then {p.id} else {}
  {
    var more := polls + [p];
    forall i, j | 0 <= i < j < |more| && more[i].ready
      ensures more[j].id != more[i].id
    {
      assert more[i] == polls[i];
      assert more[i].id in Finished(polls);
    }
    forall x
      ensures x in Finished(more) <==> x in Finished(polls) || (p.ready && x == p.id)
    {
      if x in Finished(polls) {
        var i :| 0 <= i < |polls| && polls[i].ready && polls[i].id == x;
        assert more[i].ready && more[i].id == x;
      }
      if p.ready && x == p.id {
        assert more[|polls|].ready && more[|polls|].id == x;
      }
    }
  }

  /** Ids come from a 64-bit counter: the next one is new exactly as long as fewer than 2^64 were drawn. */
  lemma IdsFresh(drawn: nat)
    ensures (forall k :: 0 <= k < drawn ==> k % ID_RANGE != drawn % ID_RANGE) <==> drawn < 0x1_0000_0000_0000_0000
  {
    if drawn >= ID_RANGE {
      var k := drawn - ID_RANGE;
      WrapAround(k);
      assert k % ID_RANGE == drawn % ID_RANGE;
    }
  }

  lemma WrapAround(k: nat)
    ensures (k + ID_RANGE) % ID_RANGE == k % ID_RANGE
  {
  }

  /** The run queue after wake-ups came: each at the back, dropped while the queue is full. */
  function Pushed(queue: seq<TaskId>, ids: seq<TaskId>): seq<TaskId>
    decreases |ids|
  {
    if ids == [] then queue
    else Pushed(if |queue| < QUEUE_CAPACITY then queue + [ids[0]] else queue, ids[1..])
  }

  /** The queue takes the wake-ups in order until it holds 100. */
  lemma {:induction false} PushedMeans(queue: seq<TaskId>, ids: seq<TaskId>)
    requires |queue| <= 100
    ensures Pushed(queue, ids) == if |queue| + |ids| <= 100 then queue + ids else (queue + ids)[..100]
    decreases |ids|
  {
    if ids == [] {
      assert queue + ids == queue;
    } else if |queue| < 100 {
      PushedMeans(queue + [ids[0]], ids[1..]);
      assert queue + [ids[0]] + ids[1..] == queue + ids;
    } else {
      PushedMeans(queue, ids[1..]);
    }
  }

  /** What working through the queue comes to: first come first served, stale ids passed over, wake-ups
      coming in after every pop. */
  datatype Drained = Drained(queue: seq<TaskId>, tasks: set<TaskId>, polls: seq<Poll>)

  function Drain(queue: seq<TaskId>, tasks: set<TaskId>, turns: seq<Turn>): Drained
    decreases |turns|
  {
    if queue == [] || turns == [] then Drained(queue, tasks, [])
    else
      var id, turn := queue[0], turns[0];
      var queue' := Pushed(queue[1..], turn.wakes);
      if id !in tasks then Drain(queue', tasks, turns[1..])
      else
        var rest := Drain(queue', if turn.ready then tasks - {id} else tasks, turns[1..]);
        rest.(polls := [Poll(id, turn.ready)] + rest.polls)
  }

  /** The polls so far and what is still to come make up the whole. */
  ghost predicate DrainedSo(done: seq<Poll>, rest: Drained, whole: Drained) {
    whole == rest.(polls := done + rest.polls)
  }

  lemma DrainedNext(done: seq<Poll>, p: Poll, rest: Drained)
    ensures done + ([p] + rest.polls) == (done + [p]) + rest.polls
  {
  }

  /** First come, first served: whatever wake-ups come meanwhile, as many turns as there are different live tasks in
      front poll just these, one turn each, in their order. */
  lemma {:induction false} ServedInOrder(front: seq<TaskId>, back: seq<TaskId>, tasks: set<TaskId>, turns: seq<Turn>)
    requires |front| == |turns| && |front + back| <= 100
    requires (forall i, j :: 0 <= i < j < |front| ==> front[i] != front[j]) && forall i :: 0 <= i < |front| ==>
                                                                                 front[i] in tasks
    ensures var polls := Drain(front + back, tasks, turns).polls;
            |polls| == |turns| && forall i :: 0 <= i < |turns| ==> polls[i] == Poll(front[i], turns[i].ready)
    decreases |turns|
  {
    if turns != [] {
      var id, turn, rest := front[0], turns[0], (front + back)[1..];
      var tasks' := if turn.ready then tasks - {id} else tasks;
      var queue' := Pushed(rest, turn.wakes);
      PushedMeans(rest, turn.wakes);
      var back' := queue'[|front| - 1..];
      assert queue' == front[1..] + back';
      ServedInOrder(front[1..], back', tasks', turns[1..]);
    }
  }

  class Executor {
    var next: nat
    var tasks: set<TaskId>
    var queue: seq<TaskId>
    var wakers: set<TaskId>
    ghost var drawn: nat
    ghost var polls: seq<Poll>

    /** Every live task, cached waker, queued id and finished task has an id that was drawn. */
    ghost predicate Valid()
      reads this
    {
      && next == drawn % ID_RANGE && |queue| <= QUEUE_CAPACITY
      && (forall t :: t in tasks ==> t < drawn) && (forall t :: t in queue ==> t < drawn)
      && (forall t :: t in Finished(polls) ==> t < drawn)
      && wakers <= tasks
      && tasks !! Finished(polls)
      && NeverAfterReady(polls)
    }

    constructor ()
      ensures Valid() && tasks == {} && queue == [] && wakers == {} && polls == [] && drawn == 0
    {
      next, tasks, queue, wakers := 0, {}, [], {};
      drawn, polls := 0, [];
    }

    /** `TaskId::new`. */
    method NewId() returns (id: TaskId)
      requires Valid()
      modifies this`next, this`drawn
      ensures Valid() && drawn == old(drawn) + 1 && id == old(drawn) % ID_RANGE
    {
      id := next;
      next := (next + 1) % ID_RANGE;
      drawn := drawn + 1;
    }

    /** `Executor::spawn`. */
    method Spawn(id: TaskId) returns (r: Spawned)
      requires Valid() && id < drawn && id !in Finished(polls)
      modifies this`tasks, this`queue
      ensures Valid() && tasks == old(tasks) + {id}
      ensures r == if id in old(tasks) then DuplicateId else if |old(queue)| == 100 then QueueFull else Done
      ensures queue == if r == Done then old(queue) + [id] else old(queue)
    {
      var taken := id in tasks;
      tasks := tasks + {id};
      if taken {
        return DuplicateId;
      }
      if |queue| == QUEUE_CAPACITY {
        return QueueFull;
      }
      queue := queue + [id];
      r := Done;
    }

    /** A new task: its id is new, so the duplicate-id panic cannot happen. */
    method SpawnNew() returns (id: TaskId, r: Spawned)
      requires Valid() && drawn < ID_RANGE
      modifies this
      ensures Valid() && drawn == old(drawn) + 1
      ensures id == old(drawn) && id !in old(tasks) && id !in old(queue) && id !in Finished(old(polls))
      ensures r != DuplicateId && (r == Done <==> |old(queue)| < QUEUE_CAPACITY)
      ensures tasks == old(tasks) + {id} && polls == old(polls) && wakers == old(wakers)
      ensures queue == if r == Done then old(queue) + [id] else old(queue)
    {
      id := NewId();
      r := Spawn(id);
    }

    /** `TaskWaker::wake_task`: a full queue drops the wake-up. */
    method WakeTask(id: TaskId)
      requires Valid() && id < drawn
      modifies this`queue
      ensures Valid() && queue == if |old(queue)| < 100 then old(queue) + [id] else old(queue)
      ensures id in queue <==> id in old(queue) || |old(queue)| < 100
    {
      if |queue| < QUEUE_CAPACITY {
        queue := queue + [id];
      }
    }

    /** The wake-ups that come before the next pop. */
    method WakeAll(ids: seq<TaskId>)
      requires Valid() && forall t :: t in ids ==> t < drawn
      modifies this`queue
      ensures Valid() && queue == Pushed(old(queue), ids)
    {
      for i := 0 to |ids|
        invariant Valid() && Pushed(queue, ids[i..]) == Pushed(old(queue), ids)
      {
        assert ids[i..][1..] == ids[i + 1..];
        assert ids[i] in ids;
        WakeTask(ids[i]);
      }
    }

    /** `Task::poll` of the live task `id`, and what its outcome does to the tables. */
    method PollTask(id: TaskId, turn: Turn)
      requires Valid() && id in tasks && forall t :: t in turn.wakes ==> t < drawn
      modifies this`tasks, this`queue, this`wakers, this`polls
      ensures Valid() && polls == old(polls) + [Poll(id, turn.ready)]
      ensures tasks == (if turn.ready then old(tasks) - {id} else old(tasks)) && queue == Pushed(old(queue), turn.wakes)
      ensures wakers == if turn.ready then old(wakers) - {id} else old(wakers) + {id}
    {
      wakers := wakers + {id};
      WakeAll(turn.wakes);
      PollLive(polls, Poll(id, turn.ready));
      polls := polls + [Poll(id, turn.ready)];
      if turn.ready {
        tasks := tasks - {id};
        wakers := wakers - {id};
      }
    }

    /** `run_ready_tasks`, for as many pops as `turns` tells of: pop, skip stale ids, poll. */
    method RunReadyTasks(turns: seq<Turn>) returns (used: nat)
      requires Valid() && forall i, t :: 0 <= i < |turns| && t in turns[i].wakes ==> t < drawn
      modifies this`tasks, this`queue, this`wakers, this`polls
      ensures Valid() && used <= |turns| && (used == |turns| || queue == [])
      ensures |polls| <= |old(polls)| + used && old(polls) <= polls
      ensures tasks == old(tasks) - Finished(polls)
      ensures forall p :: p in polls[|old(polls)|..] ==> p.id in old(tasks)
      ensures Drained(queue, tasks, polls[|old(polls)|..]) == Drain(old(queue), old(tasks), turns)
    {
      used := 0;
      while queue != [] && used < |turns|
        invariant Valid() && used <= |turns| && |polls| <= |old(polls)| + used && old(polls) <= polls
        invariant tasks == old(tasks) - Finished(polls)
        invariant forall p :: p in polls[|old(polls)|..] ==> p.id in old(tasks)
        invariant DrainedSo(polls[|old(polls)|..], Drain(queue, tasks, turns[used..]),
                            Drain(old(queue), old(tasks), turns))
        decreases |turns| - used
      {
        assert turns[used..][1..] == turns[used + 1..];
        var id := queue[0];
        ghost var was, before := queue, polls;
        queue := queue[1..];
        assert forall t :: t in queue ==> t in was;
        assert forall t :: t in turns[used].wakes ==> t < drawn;
        if id in tasks {
          PollLive(polls, Poll(id, turns[used].ready));
          PollTask(id, turns[used]);
          DrainedNext(before[|old(polls)|..], Poll(id, turns[used].ready), Drain(queue, tasks, turns[used + 1..]));
          assert polls[|old(polls)|..] == before[|old(polls)|..] + [Poll(id, turns[used].ready)];
        } else {
          WakeAll(turns[used].wakes);
        }
        used := used + 1;
      }
    }
  }

  /** The first `n` ids. */
  function Ids(n: nat): (r: seq<TaskId>)
    ensures |r| == n && forall i :: 0 <= i < n ==> r[i] == i
  {
    seq(n, i => i)
  }

  lemma {:induction false} PushedIds(queue: seq<TaskId>, ids: seq<TaskId>, t: TaskId)
    requires t !in queue && t !in ids
    ensures t !in Pushed(queue, ids)
    decreases |ids|
  {
    if ids != [] {
      PushedIds(if |queue| < QUEUE_CAPACITY then queue + [ids[0]] else queue, ids[1..], t);
    }
  }

  /** No wake-up for `t` comes. */
  ghost predicate Unwoken(turns: seq<Turn>, t: TaskId) {
    forall i :: 0 <= i < |turns| ==> t !in turns[i].wakes
  }

  /** A task that is neither queued nor woken is never polled. */
  lemma {:induction false} NeverPolled(queue: seq<TaskId>, tasks: set<TaskId>, turns: seq<Turn>, t: TaskId)
    requires t !in queue && Unwoken(turns, t)
    ensures forall p :: p in Drain(queue, tasks, turns).polls ==> p.id != t
    decreases |turns|
  {
    if queue != [] && turns != [] {
      var id, turn := queue[0], turns[0];
      PushedIds(queue[1..], turn.wakes, t);
      NeverPolled(Pushed(queue[1..], turn.wakes), tasks, turns[1..], t);
      NeverPolled(Pushed(queue[1..], turn.wakes), if turn.ready then tasks - {id} else tasks, turns[1..], t);
    }
  }

  /** A wake-up can be lost for good when several tasks share the queue: with 100 tasks queued, the first
      is polled while another wake-up fills its place, and its own wake-up then finds the queue full. The
      wake-up leaves the queue as it was, and unless another one comes, nothing will poll the task. */
  method StrandedTask() returns (e: Executor, polled: TaskId, ghost before: seq<TaskId>)
    ensures e.Valid() && polled in e.tasks && polled !in e.queue && |e.queue| == QUEUE_CAPACITY && e.queue == before
    ensures forall turns :: Unwoken(turns, polled) ==>
              forall p :: p in Drain(e.queue, e.tasks, turns).polls ==> p.id != polled
  {
    e := new Executor();
    for i := 0 to QUEUE_CAPACITY
      invariant fresh(e) && e.Valid() && e.drawn == i && e.queue == Ids(i)
      invariant forall t: TaskId :: t in e.tasks <==> t < i
    {
      var id, r := e.SpawnNew();
      assert Ids(i) + [i] == Ids(i + 1);
    }
    OneTurn(e.queue, e.tasks, 1);
    var used := e.RunReadyTasks([Turn([1], false)]);
    polled := 0;
    before := e.queue;
    e.WakeTask(polled);
    forall turns | Unwoken(turns, polled)
      ensures forall p :: p in Drain(e.queue, e.tasks, turns).polls ==> p.id != polled
    {
      NeverPolled(e.queue, e.tasks, turns, polled);
    }
  }

  lemma OneTurn(queue: seq<TaskId>, tasks: set<TaskId>, woken: TaskId)
    requires 0 < |queue| <= QUEUE_CAPACITY && queue[0] in tasks
    ensures Drain(queue, tasks, [Turn([woken], false)])
         == Drained(queue[1..] + [woken], tasks, [Poll(queue[0], false)])
  {
    var q := queue[1..] + [woken];
    assert [woken][1..] == [];
    assert Pushed(q, []) == q;
    assert Pushed(queue[1..], [woken]) == q;
    assert [Turn([woken], false)][1..] == [];
    assert Drain(q, tasks, []) == Drained(q, tasks, []);
  }
}
