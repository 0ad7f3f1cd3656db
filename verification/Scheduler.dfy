/** The round-robin scheduler: a queue linked through the processes themselves. */
module Scheduler {
  import opened InterruptFrame

  datatype TaskState = INITIALIZED | RUNNING | SLEEPING | BLOCKED | KERNEL_REQUEST

  // What a process is at one moment: its registers as last saved, and what the tick needs to know of it.
  datatype Task = Task(pid: int, state: TaskState, saved: Frame, kernelEsp: int)

  // ------------------------------------------------------------ the queue as a value

  // The process switched out: its registers are saved, except on its first slice.
  function SwitchedOut(t: Task, cpu: Frame): Task {
    if t.state == INITIALIZED then t.(state := RUNNING) else t.(saved := cpu)
  }

  // One tick with this frame on the stack: the queue after it and the frame handed back.
  function Tick(q: seq<Task>, cpu: Frame): (seq<Task>, Frame) {
    if |q| == 0 then (q, cpu)
    else if |q| == 1 then (q, q[0].saved.(intNum := cpu.intNum))
    else (q[1..] + [SwitchedOut(q[0], cpu)], q[1].saved.(intNum := cpu.intNum))
  }

  datatype Event = Preempt(cpu: Frame) | Schedule(task: Task)

  function After(q: seq<Task>, e: Event): seq<Task> {
    match e
    case Preempt(cpu) => Tick(q, cpu).0
    case Schedule(task) => q + [task]
  }

  function Run(q: seq<Task>, es: seq<Event>): seq<Task>
    decreases |es|
  {
    if es == [] then q else Run(After(q, es[0]), es[1..])
  }

  function Ticks(es: seq<Event>): nat
    decreases |es|
  {
    if es == [] then 0 else (if es[0].Preempt? then 1 else 0) + Ticks(es[1..])
  }

  // Bounded waiting: with two or more processes, the one at position i moves up exactly one place a
  // tick, untouched, whatever is scheduled meanwhile; so it is current after exactly i ticks.
  lemma {:induction false} MovesUpOnePlaceATick(q: seq<Task>, es: seq<Event>, i: nat)
    requires |q| >= 2 && i < |q| && Ticks(es) <= i
    ensures |Run(q, es)| >= |q| && Run(q, es)[i - Ticks(es)] == q[i]
    decreases |es|
  {
    if es != [] {
      var q' := After(q, es[0]);
      if es[0].Preempt? {
        assert q'[i - 1] == q[i];
        MovesUpOnePlaceATick(q', es[1..], i - 1);
      } else {
        assert q'[i] == q[i];
        MovesUpOnePlaceATick(q', es[1..], i);
      }
    }
  }

  // Context round trip: a process switched out after its first slice gets back exactly the frame it was
  // interrupted with, interrupt number aside, at the tick that makes it current again.
  lemma {:induction false} ResumesWhereItStopped(q: seq<Task>, cpu: Frame, es: seq<Event>, next: Frame)
    requires |q| >= 2 && q[0].state != INITIALIZED && Ticks(es) == |q| - 2
    ensures var q' := Run(Tick(q, cpu).0, es);
            |q'| >= 2 && q'[1] == q[0].(saved := cpu) && Tick(q', next).1 == cpu.(intNum := next.intNum)
  {
    var q1 := Tick(q, cpu).0;
    MovesUpOnePlaceATick(q1, es, |q| - 1);
  }

  // And only then: the first slice of a process is not saved.
  lemma {:induction false} SavedExactly(q: seq<Task>, cpu: Frame)
    requires |q| >= 2
    ensures Tick(q, cpu).0[|q| - 1].saved == cpu <==> q[0].state != INITIALIZED || q[0].saved == cpu
  {
  }

  function Pids(q: seq<Task>): seq<int> {
    seq(|q|, i requires 0 <= i < |q| => q[i].pid)
  }

  function Scheduled(es: seq<Event>): seq<int>
    decreases |es|
  {
    if es == [] then [] else (if es[0].Schedule? then [es[0].task.pid] else []) + Scheduled(es[1..])
  }

  // No process is lost or doubled: the queue is always a rearrangement of those scheduled.
  lemma {:induction false} KeepsEveryProcess(q: seq<Task>, es: seq<Event>)
    ensures multiset(Pids(Run(q, es))) == multiset(Pids(q)) + multiset(Scheduled(es))
    decreases |es|
  {
    if es != [] {
      var q' := After(q, es[0]);
      KeepsEveryProcess(q', es[1..]);
      if es[0].Preempt? {
        TickRotates(q, es[0].cpu);
      } else {
        assert Pids(q') == Pids(q) + [es[0].task.pid];
      }
    }
  }

  lemma {:induction false} TickRotates(q: seq<Task>, cpu: Frame)
    ensures multiset(Pids(Tick(q, cpu).0)) == multiset(Pids(q))
  {
    if |q| >= 2 {
      assert Pids(Tick(q, cpu).0) == Pids(q)[1..] + [Pids(q)[0]];
      assert Pids(q) == [Pids(q)[0]] + Pids(q)[1..];
    }
  }

  // ------------------------------------------------------------ the queue in memory

  class Process {
    var next: Process?
    var currentState: TaskState
    var regs: Frame
    const kernelEsp: int
    const pid: int

    constructor (pid: int, regs: Frame, kernelEsp: int)
      ensures next == null && currentState == INITIALIZED && this.pid == pid && this.regs == regs
      ensures this.kernelEsp == kernelEsp
    {
      next, currentState := null, INITIALIZED;
      this.pid, this.regs, this.kernelEsp := pid, regs, kernelEsp;
    }

    ghost function Value(): Task
      reads this
    {
      Task(pid, currentState, regs, kernelEsp)
    }
  }

  // The process queued behind the one at position i.
  ghost function Behind(queue: seq<Process>, i: nat): Process? {
    if i + 1 < |queue| then queue[i + 1] else null
  }

  class Scheduler {
    var pLast: Process?
    var pCurrent: Process?
    var isScheduling: bool
    var esp0: int
    ghost var queue: seq<Process>

    ghost predicate Valid()
      reads this, queue
    {
      && (forall i: nat, j: nat | i < j < |queue| :: queue[i] != queue[j])
      && (forall i: nat | i < |queue| :: queue[i].next == Behind(queue, i))
      && pCurrent == (if queue == [] then null else queue[0])
      && pLast == (if |queue| < 2 then null else queue[|queue| - 1])
    }

    ghost function Tasks(): seq<Task>
      reads this, queue
    {
      seq(|queue|, i requires 0 <= i < |queue| reads this, queue => queue[i].Value())
    }

    constructor ()
      ensures Valid() && Tasks() == []
    {
      pLast, pCurrent, isScheduling, esp0, queue := null, null, false, 0, [];
    }

    // process comes from process_create: not linked anywhere yet.
    method ScheduleProcess(process: Process)
      requires Valid() && process !in queue && process.next == null
      modifies this, queue
      ensures Valid() && queue == old(queue) + [process]
      ensures Tasks() == After(old(Tasks()), Schedule(old(process.Value())))
      ensures !isScheduling
    {
      isScheduling := true;
      if pCurrent == null {
        pCurrent := process;
      } else if pLast == null {
        pCurrent.next := process;
        pLast := process;
      } else {
        pLast.next := process;
        pLast := process;
      }
      queue := queue + [process];
      isScheduling := false;
    }

    // Save the registers of the process switched out, except on its first slice.
    method SwitchOut(state: Frame)
      requires pCurrent != null
      modifies pCurrent`regs, pCurrent`currentState
      ensures pCurrent.Value() == SwitchedOut(old(pCurrent.Value()), state)
    {
      if pCurrent.currentState != INITIALIZED {
        pCurrent.regs := state;
      } else {
        pCurrent.currentState := RUNNING;
      }
    }

    // Move the first process behind the last one.
    method Relink()
      requires Valid() && |queue| >= 2
      modifies this`pLast, this`pCurrent, this`queue, queue`next
      ensures Valid() && queue == old(queue)[1..] + [old(queue)[0]]
    {
      assert queue[0].next == Behind(queue, 0);
      if pLast != null { pLast.next := pCurrent; }
      pLast := pCurrent;
      pCurrent := pLast.next;
      pLast.next := null;
      queue := queue[1..] + [queue[0]];
    }

    // Save the registers of the process switched out, then move it behind the last one.
    method Rotate(state: Frame)
      requires Valid() && |queue| >= 2
      modifies this`pLast, this`pCurrent, this`esp0, this`queue, queue
      ensures Valid() && queue == old(queue)[1..] + [old(queue)[0]] && esp0 == queue[0].kernelEsp
      ensures forall i: nat | i < |queue| ::
                queue[i].Value() ==
                if i == |queue| - 1 then SwitchedOut(old(queue[0].Value()), state) else old(queue[i + 1].Value())
    {
      SwitchOut(state);
      Relink();
      esp0 := pCurrent.kernelEsp;
    }

    // scheduler_preempt on the frame at state; a tick while a process is being queued does nothing.
    method Preempt(state: Frame) returns (resumed: Frame)
      requires Valid()
      modifies this`pLast, this`pCurrent, this`esp0, this`queue, queue
      ensures Valid()
      ensures isScheduling ==> resumed == state && queue == old(queue) && Tasks() == old(Tasks())
      ensures !isScheduling ==> (Tasks(), resumed) == Tick(old(Tasks()), state)
      ensures |queue| < 2 ==> queue == old(queue)
      ensures !isScheduling && |queue| >= 2 ==>
                queue == old(queue)[1..] + [old(queue)[0]] && esp0 == queue[0].kernelEsp
    {
      ghost var tasks := Tasks();
      if pCurrent == null || isScheduling { return state; }
      assert queue[0].next == Behind(queue, 0);
      if pCurrent.next != null {
        Rotate(state);
        assert Tasks() == tasks[1..] + [SwitchedOut(tasks[0], state)];
        assert Tasks()[0] == queue[0].Value();
      }
      resumed := pCurrent.regs.(intNum := state.intNum);
    }
  }
}
