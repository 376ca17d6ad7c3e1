/** The keyboard task, its waker and the idle loop, as a transition system on one CPU.

    The program moves in micro-steps. While interrupts are on, a keyboard or timer interrupt may come
    between any two of them; a handler runs to its end before the program goes on. One task is
    spawned, the shell, which takes scancodes in a loop. */
module Wakeups {
  import opened Bytes
  import opened Results

  const SCANCODE_CAPACITY: nat := 100
  const RUN_QUEUE_CAPACITY: nat := 100

  /** Where the program is. */
  datatype Pc =
    | Fetch                  // about to take a task from the run queue
    | FirstPop               // polling: about to try the scancode queue
    | Register               // it was empty: about to register the waker
    | SecondPop              // registered: about to try once more
    | Take(scancode: byte)   // the second try had one: about to take the waker back
    | Idle                   // no task to run: about to turn interrupts off
    | Check                  // interrupts off: about to look at the run queue again
    | Enable                 // it was not empty: about to turn interrupts on
    | Halted                 // sleeping with interrupts on

  /** One keyboard interrupt: the scancode, and what the queue was like when it came. */
  datatype Arrival = Arrival(scancode: byte, started: bool, pending: nat)

  datatype State = State(pc: Pc, runQueue: nat, scancodes: seq<byte>, registered: bool, started: bool,
                         arrivals: seq<Arrival>, delivered: seq<byte>)

  datatype Event = Step | Key(scancode: byte) | Tick

  predicate Interruptible(pc: Pc) {
    !pc.Check? && !pc.Enable?
  }

  /** After `Executor::spawn` of the shell task, before `run`. The run queue holds only this task, so
      its length says everything. */
  function Boot(): State {
    State(Fetch, 1, [], false, false, [], [])
  }

  // ---- The program ----

  /** `poll_next`, one queue or waker operation at a time. */
  function PollStep(s: State): State
    requires s.pc.FirstPop? || s.pc.Register? || s.pc.SecondPop? || s.pc.Take?
  {
    match s.pc
    case FirstPop =>
      if !s.started then s.(started := true)
      else if s.scancodes != [] then s.(scancodes := s.scancodes[1..], delivered := s.delivered + [s.scancodes[0]])
      else s.(pc := Register)
    case Register => s.(pc := SecondPop, registered := true)
    case SecondPop =>
      if s.scancodes != [] then s.(pc := Take(s.scancodes[0]), scancodes := s.scancodes[1..])
      else s.(pc := Fetch)
    case Take(c) => s.(pc := FirstPop, registered := false, delivered := s.delivered + [c])
  }

  /** One micro-step of the program. A halted program stays where it is. */
  function Main(s: State): State {
    match s.pc
    case Fetch => if s.runQueue == 0 then s.(pc := Idle) else s.(pc := FirstPop, runQueue := s.runQueue - 1)
    case Idle => s.(pc := Check)
    case Check => if s.runQueue == 0 then s.(pc := Halted) else s.(pc := Enable)
    case Enable => s.(pc := Fetch)
    case Halted => s
    case _ => PollStep(s)
  }

  // ---- The interrupts ----

  /** `AtomicWaker::wake`: take the registered waker, if any, and push the task; a full run queue
      drops the push. */
  function Wake(s: State): State {
    if !s.registered then s
    else s.(registered := false, runQueue := if s.runQueue < RUN_QUEUE_CAPACITY then s.runQueue + 1 else s.runQueue)
  }

  /** `add_scancode`: nothing before the queue exists; then push unless full, and wake. */
  function AddScancode(s: State, c: byte): State {
    var seen := s.(arrivals := s.arrivals + [Arrival(c, s.started, |s.scancodes|)]);
    if !s.started then seen
    else Wake(if |s.scancodes| < SCANCODE_CAPACITY then seen.(scancodes := s.scancodes + [c]) else seen)
  }

  /** An interrupt ends the halt. */
  function Resume(s: State): State {
    if s.pc.Halted? then s.(pc := Fetch) else s
  }

  predicate Possible(s: State, e: Event) {
    e.Step? || Interruptible(s.pc)
  }

  function Next(s: State, e: Event): State {
    match e
    case Step => Main(s)
    case Key(c) => Resume(AddScancode(s, c))
    case Tick => Resume(s)
  }

  /** The state a sequence of events leads to. */
  ghost function After(events: seq<Event>): State {
    if events == [] then Boot() else Next(After(events[..|events| - 1]), events[|events| - 1])
  }

  /** Every event of the sequence is possible when it comes. */
  ghost predicate Legal(events: seq<Event>) {
    events == []
    || (Legal(events[..|events| - 1]) && Possible(After(events[..|events| - 1]), events[|events| - 1]))
  }

  lemma AfterSnoc(events: seq<Event>, e: Event)
    ensures After(events + [e]) == Next(After(events), e)
    ensures Legal(events + [e]) <==> Legal(events) && Possible(After(events), e)
  {
  }

  /** Interrupts may come at any point of a run except while `sleep_if_idle` has turned them off, and the program
      may always go on. */
  lemma InterruptsAnywhere(events: seq<Event>, c: byte)
    ensures Legal(events + [Step]) <==> Legal(events)
    ensures Legal(events + [Key(c)]) <==> Legal(events) && After(events).pc !in {Check, Enable}
    ensures Legal(events + [Tick]) <==> Legal(events) && After(events).pc !in {Check, Enable}
  {
    AfterSnoc(events, Step);
    AfterSnoc(events, Key(c));
    AfterSnoc(events, Tick);
  }

  /** The program got to the point where its queue was empty and its waker is not yet registered. */
  lemma UpToRegister() returns (events: seq<Event>)
    ensures Legal(events) && After(events) == State(Register, 0, [], false, true, [], [])
  {
    events := [];
    AfterSnoc(events, Step);
    events := events + [Step];
    AfterSnoc(events, Step);
    events := events + [Step];
    AfterSnoc(events, Step);
    events := events + [Step];
  }

  /** The race that the second pop is there for: a key that comes before the waker is registered wakes nobody and
      leaves the run queue empty. The task still gets it, on its way. */
  lemma RacedKey(c: byte) returns (events: seq<Event>)
    ensures Legal(events) && After(events) == State(Register, 0, [c], false, true, [Arrival(c, true, 0)], [])
    ensures Steps(After(events), 3) == State(FirstPop, 0, [], false, true, [Arrival(c, true, 0)], [c])
  {
    events := UpToRegister();
    AfterSnoc(events, Key(c));
    events := events + [Key(c)];
    ThreeSteps(After(events), c);
  }

  lemma ThreeSteps(s: State, c: byte)
    requires s.pc.Register? && s.scancodes == [c]
    ensures Steps(s, 3) == s.(pc := FirstPop, scancodes := [], registered := false, delivered := s.delivered + [c])
  {
    var t := Main(Main(Main(s)));
    assert [c][1..] == [];
    assert Steps(t, 0) == t && Steps(Main(Main(s)), 1) == t && Steps(Main(s), 2) == t;
  }

  /** The other race: a key that comes after the run queue was found empty, before interrupts are off. The program
      does not halt. */
  lemma KeyBeforeSleep(s: State, c: byte)
    requires s.pc.Idle? && s.registered && s.started && s.runQueue == 0
    ensures var t := Next(s, Key(c));
            t.runQueue == 1 && Main(t).pc == Check && Main(Main(t)).pc == Enable && Main(Main(Main(t))).pc == Fetch
  {
  }

  // ---- The invariant ----

  /** The task is not being polled. */
  predicate Parked(pc: Pc) {
    pc.Fetch? || pc.Idle? || pc.Check? || pc.Enable? || pc.Halted?
  }

  /** The scancodes that got into the queue. */
  ghost function Accepted(arrivals: seq<Arrival>): seq<byte> {
    if arrivals == [] then []
    else
      var a := arrivals[|arrivals| - 1];
      Accepted(arrivals[..|arrivals| - 1]) + if a.started && a.pending < SCANCODE_CAPACITY then [a.scancode] else []
  }

  /** The scancode taken from the queue but not yet handed out. */
  function InFlight(pc: Pc): seq<byte> {
    if pc.Take? then [pc.scancode] else []
  }

  ghost predicate Inv(s: State) {
    && s.runQueue <= RUN_QUEUE_CAPACITY && |s.scancodes| <= SCANCODE_CAPACITY
    && (Parked(s.pc) && s.runQueue == 0 ==> s.registered && s.scancodes == [])
    && (s.pc.SecondPop? ==> s.registered || s.runQueue > 0)
    && (s.pc.Halted? ==> s.runQueue == 0)
    && (!s.started ==>
        s.scancodes == [] && !s.registered && (s.pc.FirstPop? || s.runQueue > 0) && (Parked(s.pc) || s.pc.FirstPop?))
    && Accepted(s.arrivals) == s.delivered + InFlight(s.pc) + s.scancodes
  }

  lemma BootInv()
    ensures Inv(Boot())
  {
  }

  lemma PollKeeps(s: State)
    requires Inv(s) && !Parked(s.pc)
    ensures Inv(PollStep(s))
  {
    if s.scancodes != [] {
      assert s.scancodes == [s.scancodes[0]] + s.scancodes[1..];
    }
  }

  lemma MainKeeps(s: State)
    requires Inv(s)
    ensures Inv(Main(s))
  {
    if !Parked(s.pc) {
      PollKeeps(s);
    }
  }

  lemma AcceptedSnoc(arrivals: seq<Arrival>, a: Arrival)
    ensures Accepted(arrivals + [a])
         == Accepted(arrivals) + if a.started && a.pending < 100 then [a.scancode] else []
  {
  }

  lemma KeyKeeps(s: State, c: byte)
    requires Inv(s) && Interruptible(s.pc)
    ensures Inv(Resume(AddScancode(s, c)))
  {
    AcceptedSnoc(s.arrivals, Arrival(c, s.started, |s.scancodes|));
    var s' := Resume(AddScancode(s, c));
    assert s'.delivered + InFlight(s'.pc) + s'.scancodes
        == s.delivered + InFlight(s.pc) + s.scancodes
           + (if s.started && |s.scancodes| < SCANCODE_CAPACITY then [c] else []);
  }

  /** No lost wake-up: every step and every interrupt at any point keeps the invariant. */
  lemma NextKeeps(s: State, e: Event)
    requires Inv(s) && Possible(s, e)
    ensures Inv(Next(s, e))
  {
    match e {
      case Step => MainKeeps(s);
      case Key(c) => KeyKeeps(s, c);
      case Tick =>
    }
  }

  lemma {:induction false} RunInv(events: seq<Event>)
    requires Legal(events)
    ensures Inv(After(events))
  {
    if events == [] {
      BootInv();
    } else {
      var front := events[..|events| - 1];
      RunInv(front);
      NextKeeps(After(front), events[|events| - 1]);
    }
  }

  /** After every run: a parked task that is not in the run queue has its waker registered and nothing
      to read, and a halted CPU has nothing to do. */
  lemma NoLostWakeup(events: seq<Event>)
    requires Legal(events)
    ensures var s := After(events);
            && (Parked(s.pc) && s.runQueue == 0 ==> s.registered && s.scancodes == [])
            && (s.pc.Halted? ==> s.runQueue == 0 && s.scancodes == [] && s.registered)
  {
    RunInv(events);
  }

  /** After every run: the scancodes handed out are those that arrived, in order; one is lost only when
      it came before the queue existed or while 100 were waiting. */
  lemma DeliveredInOrder(events: seq<Event>)
    requires Legal(events)
    ensures var s := After(events);
            && s.delivered <= Accepted(s.arrivals)
            && (s.pc.Halted? ==> s.delivered == Accepted(s.arrivals))
  {
    RunInv(events);
    HandedOut(After(events));
  }

  lemma HandedOut(s: State)
    requires Inv(s)
    ensures s.delivered <= Accepted(s.arrivals) && (s.pc.Halted? ==> s.delivered == Accepted(s.arrivals))
  {
  }

  /** The keyboard interrupts of a run. */
  ghost function Keys(events: seq<Event>): seq<byte> {
    if events == [] then []
    else Keys(events[..|events| - 1]) + if events[|events| - 1].Key? then [events[|events| - 1].scancode] else []
  }

  /** The keyboard interrupts of a schedule. */
  ghost function KeysOf(batches: seq<seq<Event>>): seq<byte> {
    if batches == [] then [] else Keys(batches[0]) + KeysOf(batches[1..])
  }

  lemma KeysSnoc(events: seq<Event>, e: Event)
    ensures Keys(events + [e]) == Keys(events) + if e.Key? then [e.scancode] else []
  {
    assert (events + [e])[..|events|] == events;
  }

  lemma {:induction false} KeysConcat(a: seq<Event>, b: seq<Event>)
    ensures Keys(a + b) == Keys(a) + Keys(b)
    decreases |b|
  {
    if b == [] {
      assert a + b == a;
    } else {
      var n := |b| - 1;
      KeysConcat(a, b[..n]);
      KeysSnoc(a + b[..n], b[n]);
      assert a + b[..n] + [b[n]] == a + b;
    }
  }

  ghost function Codes(arrivals: seq<Arrival>): (r: seq<byte>)
    ensures |r| == |arrivals| && forall i :: 0 <= i < |r| ==> r[i] == arrivals[i].scancode
  {
    seq(|arrivals|, i requires 0 <= i < |arrivals| => arrivals[i].scancode)
  }

  lemma NextArrivals(s: State, e: Event)
    ensures Next(s, e).arrivals == s.arrivals + if e.Key? then [Arrival(e.scancode, s.started, |s.scancodes|)] else []
  {
  }

  /** The arrivals a run records are its keyboard interrupts. */
  lemma {:induction false} ArrivalsAreKeys(events: seq<Event>)
    ensures Codes(After(events).arrivals) == Keys(events)
  {
    if events != [] {
      var front := events[..|events| - 1];
      ArrivalsAreKeys(front);
      NextArrivals(After(front), events[|events| - 1]);
    }
  }

  // ---- Progress ----

  function Steps(s: State, n: nat): State
    decreases n
  {
    if n == 0 then s else Steps(Main(s), n - 1)
  }

  /** How far the program is from rest. */
  ghost function Distance(s: State): nat {
    10 * |s.scancodes| + 10 * s.runQueue + (if s.started then 0 else 1) +
    match s.pc
    case Take(_) => 9
    case FirstPop => 8
    case Register => 7
    case SecondPop => 6
    case Enable => 5
    case Fetch => 4
    case Idle => if s.runQueue == 0 then 3 else 7
    case Check => if s.runQueue == 0 then 2 else 6
    case Halted => 0
  }

  lemma MainNearer(s: State)
    requires Inv(s) && !s.pc.Halted?
    ensures Distance(Main(s)) < Distance(s)
  {
  }

  /** When no more interrupts come, the program hands out everything it accepted and then halts. */
  lemma {:induction false} Settles(s: State) returns (n: nat)
    requires Inv(s)
    ensures var t := Steps(s, n);
            t.pc.Halted? && t.arrivals == s.arrivals && t.delivered == Accepted(s.arrivals)
    decreases Distance(s)
  {
    if s.pc.Halted? {
      n := 0;
      assert s.delivered + [] + [] == s.delivered;
    } else {
      MainKeeps(s);
      MainNearer(s);
      var m := Settles(Main(s));
      n := m + 1;
    }
  }

  // ---- The program itself ----

  /** The keyboard interrupts that came and those still to come make up the plan; folded, so that a proof
      asks for the keys of a trace by name. */
  ghost predicate Planned(trace: seq<Event>, coming: seq<seq<Event>>, plan: seq<byte>) {
    forall t: seq<Event> {:trigger Keys(t)} :: t == trace ==> Keys(t) + KeysOf(coming) == plan
  }

  lemma PlannedStep(trace: seq<Event>, coming: seq<seq<Event>>, plan: seq<byte>)
    requires Planned(trace, coming, plan)
    ensures Planned(trace + [Step], coming, plan)
  {
    KeysSnoc(trace, Step);
  }

  lemma PlannedBatch(trace: seq<Event>, coming: seq<seq<Event>>, plan: seq<byte>)
    requires Planned(trace, coming, plan) && coming != []
    ensures Planned(trace + coming[0], coming[1..], plan)
  {
    KeysConcat(trace, coming[0]);
    assert Keys(trace) + (Keys(coming[0]) + KeysOf(coming[1..])) == Keys(trace) + Keys(coming[0]) + KeysOf(coming[1..]);
  }

  lemma PlanDone(was: seq<Event>, coming: seq<seq<Event>>, trace: seq<Event>, plan: seq<byte>)
    requires Planned(was, coming, plan) && Planned(trace, [], plan)
    ensures Keys(trace) == Keys(was) + KeysOf(coming) == plan
  {
    assert Keys(trace) + [] == Keys(trace);
  }

  /** The kernel's main loop over its queues. `coming` holds the interrupts still to come, one batch
      before each micro-step that can be interrupted. `trace` records what happened, and the fields are
      the state that the trace leads to. */
  class Cpu {
    var runQueue: nat
    var scancodes: seq<byte>
    var registered: bool
    var started: bool
    var coming: seq<seq<Event>>
    ghost var pc: Pc
    ghost var arrivals: seq<Arrival>
    ghost var delivered: seq<byte>
    ghost var trace: seq<Event>
    ghost const plan: seq<byte>

    ghost function Now(): State
      reads this
    {
      State(pc, runQueue, scancodes, registered, started, arrivals, delivered)
    }

    ghost predicate Valid()
      reads this
    {
      && Legal(trace) && Now() == After(trace) && Planned(trace, coming, plan)
      && forall i, j :: 0 <= i < |coming| && 0 <= j < |coming[i]| ==> !coming[i][j].Step?
    }

    /** How many batches are still to come once the next one was taken in. */
    static function Later(batches: nat): nat {
      if batches == 0 then 0 else batches - 1
    }

    /** Fewer interrupts to come than in `was`, or the program nearer to rest. */
    ghost predicate Nearer(was: nat, dist: nat)
      reads this
    {
      |coming| < was || (|coming| == was && Distance(Now()) < dist)
    }

    constructor (interrupts: seq<seq<Event>>)
      requires forall i, j :: 0 <= i < |interrupts| && 0 <= j < |interrupts[i]| ==> !interrupts[i][j].Step?
      ensures Valid() && pc.Fetch? && trace == [] && coming == interrupts && plan == KeysOf(interrupts)
    {
      plan := KeysOf(interrupts);
      runQueue, scancodes, registered, started := 1, [], false, false;
      coming := interrupts;
      pc, arrivals, delivered, trace := Fetch, [], [], [];
    }

    /** A micro-step was taken. */
    ghost method Did(before: State)
      requires Legal(trace) && before == After(trace) && Now() == Main(before) && !before.pc.Halted?
      requires Planned(trace, coming, plan)
      requires forall i, j :: 0 <= i < |coming| && 0 <= j < |coming[i]| ==> !coming[i][j].Step?
      modifies this`trace
      ensures Valid() && Inv(Now()) && Distance(Now()) < Distance(before)
      ensures trace == old(trace) + [Step]
    {
      RunInv(trace);
      MainNearer(before);
      AfterSnoc(trace, Step);
      PlannedStep(trace, coming, plan);
      trace := trace + [Step];
      RunInv(trace);
    }

    /** `add_scancode`, in the keyboard interrupt. */
    method KeyboardInterrupt(c: byte)
      modifies this`scancodes, this`registered, this`runQueue, this`arrivals
      ensures Now() == AddScancode(old(Now()), c)
      ensures scancodes == if started && |old(scancodes)| < 100 then old(scancodes) + [c] else old(scancodes)
      ensures registered == (old(registered) && !started)
      ensures runQueue == if started && old(registered) && old(runQueue) < 100 then old(runQueue) + 1 else old(runQueue)
    {
      arrivals := arrivals + [Arrival(c, started, |scancodes|)];
      if started {
        if |scancodes| < SCANCODE_CAPACITY {
          scancodes := scancodes + [c];
        }
        if registered {
          registered := false;
          if runQueue < RUN_QUEUE_CAPACITY {
            runQueue := runQueue + 1;
          }
        }
      }
    }

    /** One interrupt. The caller puts it on the plan's account. */
    method Interrupt(e: Event)
      requires Legal(trace) && Now() == After(trace) && Interruptible(pc) && !e.Step?
      modifies this
      ensures Legal(trace) && Now() == After(trace) && trace == old(trace) + [e]
      ensures coming == old(coming) && started == old(started) && pc == if old(pc).Halted? then Fetch else old(pc)
    {
      AfterSnoc(trace, e);
      if e.Key? {
        KeyboardInterrupt(e.scancode);
      }
      if pc.Halted? {
        pc := Fetch;
      }
      trace := trace + [e];
    }

    /** The interrupts that come between two micro-steps: all of the next batch, in order. */
    method Window() returns (any: bool)
      requires Valid() && Interruptible(pc)
      modifies this
      ensures Valid() && Inv(Now()) && old(trace) <= trace
      ensures if old(coming) == [] then coming == [] && trace == old(trace)
              else coming == old(coming)[1..] && trace == old(trace) + old(coming)[0]
      ensures !any ==> Now() == old(Now())
      ensures pc == (if any && old(pc).Halted? then Fetch else old(pc)) && started == old(started)
      ensures old(coming) == [] ==> !any
    {
      any := false;
      if coming != [] {
        var batch := coming[0];
        coming := coming[1..];
        for i := 0 to |batch|
          invariant Legal(trace) && Now() == After(trace) && Interruptible(pc)
          invariant coming == old(coming)[1..] && trace == old(trace) + batch[..i]
          invariant i == 0 ==> Now() == old(Now())
          invariant pc == (if i > 0 && old(pc).Halted? then Fetch else old(pc)) && started == old(started)
        {
          Interrupt(batch[i]);
          assert batch[..i] + [batch[i]] == batch[..i + 1];
        }
        assert batch[..|batch|] == batch;
        PlannedBatch(old(trace), old(coming), plan);
        any := batch != [];
      }
      RunInv(trace);
    }

    /** `ScancodeStream::poll_next`: pop, register, pop again. */
    method PollNext() returns (r: Option<byte>)
      requires Valid() && pc.FirstPop? && started
      modifies this
      ensures Valid() && started && old(trace) <= trace && Nearer(|old(coming)|, Distance(old(Now())))
      ensures r.None? ==> pc.Fetch? && (runQueue > 0 || (registered && scancodes == []))
      ensures r.Some? ==> pc.FirstPop? && delivered != [] && delivered[|delivered| - 1] == r.value
    {
      r := FirstTry();
      if r.None? {
        RegisterWaker();
        r := SecondTry();
      }
    }

    /** The first pop. */
    method FirstTry() returns (r: Option<byte>)
      requires Valid() && pc.FirstPop? && started
      modifies this
      ensures Valid() && started && old(trace) <= trace && Nearer(|old(coming)|, Distance(old(Now())))
      ensures r.None? ==> pc.Register?
      ensures r.Some? ==> pc.FirstPop? && delivered != [] && delivered[|delivered| - 1] == r.value
      ensures |coming| == Later(|old(coming)|)
    {
      var _ := Window();
      ghost var s := Now();
      if scancodes != [] {
        r := Some(scancodes[0]);
        delivered := delivered + [scancodes[0]];
        scancodes := scancodes[1..];
      } else {
        r := None;
        pc := Register;
      }
      Did(s);
    }

    /** `WAKER.register`. */
    method RegisterWaker()
      requires Valid() && pc.Register? && started
      modifies this
      ensures Valid() && pc.SecondPop? && started && old(trace) <= trace && Nearer(|old(coming)|, Distance(old(Now())))
      ensures |coming| == Later(|old(coming)|)
    {
      var _ := Window();
      ghost var s := Now();
      registered := true;
      pc := SecondPop;
      Did(s);
    }

    /** The second pop, after the waker was registered. */
    method SecondTry() returns (r: Option<byte>)
      requires Valid() && pc.SecondPop? && started
      modifies this
      ensures Valid() && started && old(trace) <= trace && Nearer(|old(coming)|, Distance(old(Now())))
      ensures r.None? ==> pc.Fetch? && (runQueue > 0 || (registered && scancodes == []))
      ensures r.Some? ==> pc.FirstPop? && delivered != [] && delivered[|delivered| - 1] == r.value
    {
      r := PopAgain();
      if r.Some? {
        TakeWaker(r.value);
      }
    }

    method PopAgain() returns (r: Option<byte>)
      requires Valid() && pc.SecondPop? && started
      modifies this
      ensures Valid() && started && old(trace) <= trace && Nearer(|old(coming)|, Distance(old(Now())))
      ensures r.None? ==> pc.Fetch? && (runQueue > 0 || (registered && scancodes == []))
      ensures r.Some? ==> pc == Take(r.value)
      ensures |coming| == Later(|old(coming)|)
    {
      var _ := Window();
      ghost var s := Now();
      if scancodes == [] {
        r := None;
        pc := Fetch;
      } else {
        r := Some(scancodes[0]);
        pc := Take(scancodes[0]);
        scancodes := scancodes[1..];
      }
      Did(s);
    }

    /** `WAKER.take`, and the scancode handed out. */
    method TakeWaker(c: byte)
      requires Valid() && pc == Take(c) && started
      modifies this
      ensures Valid() && pc.FirstPop? && started && old(trace) <= trace && Nearer(|old(coming)|, Distance(old(Now())))
      ensures delivered != [] && delivered[|delivered| - 1] == c
      ensures |coming| == Later(|old(coming)|)
    {
      var _ := Window();
      ghost var s := Now();
      registered := false;
      delivered := delivered + [c];
      pc := FirstPop;
      Did(s);
    }

    /** One poll of the shell task: take scancodes until there is none. */
    method PollShell()
      requires Valid() && pc.FirstPop?
      modifies this
      ensures Valid() && pc.Fetch? && old(trace) <= trace && Nearer(|old(coming)|, Distance(old(Now())))
    {
      if !started {
        StartStream();
      }
      var r := PollNext();
      while r.Some?
        invariant Valid() && old(trace) <= trace && Nearer(|old(coming)|, Distance(old(Now())))
        invariant if r.Some? then pc.FirstPop? && started else pc.Fetch?
        decreases |coming|, Distance(Now())
      {
        r := PollNext();
      }
    }

    /** `ScancodeStream::new`, on the first poll. */
    method StartStream()
      requires Valid() && pc.FirstPop? && !started
      modifies this
      ensures Valid() && pc.FirstPop? && started && old(trace) <= trace && Nearer(|old(coming)|, Distance(old(Now())))
      ensures |coming| == Later(|old(coming)|)
    {
      var _ := Window();
      ghost var s := Now();
      NotStarted(trace);
      started := true;
      Did(s);
    }

    /** `run_ready_tasks`. */
    method RunReadyTasks()
      requires Valid() && pc.Fetch?
      modifies this
      ensures Valid() && pc.Idle? && old(trace) <= trace && Nearer(|old(coming)|, Distance(old(Now())))
    {
      var more := FetchTask();
      while more
        invariant Valid() && old(trace) <= trace && Nearer(|old(coming)|, Distance(old(Now())))
        invariant if more then pc.FirstPop? else pc.Idle?
        decreases |coming|, Distance(Now())
      {
        PollShell();
        more := FetchTask();
      }
    }

    /** `task_queue.pop`. */
    method FetchTask() returns (more: bool)
      requires Valid() && pc.Fetch?
      modifies this
      ensures Valid() && (if more then pc.FirstPop? else pc.Idle?) && old(trace) <= trace
      ensures Nearer(|old(coming)|, Distance(old(Now())))
      ensures |coming| == Later(|old(coming)|)
    {
      var _ := Window();
      ghost var s := Now();
      more := runQueue > 0;
      if more {
        runQueue := runQueue - 1;
        pc := FirstPop;
      } else {
        pc := Idle;
      }
      Did(s);
    }

    /** `sleep_if_idle`: interrupts off, look again, sleep or go on. Sleeps for good when no more
        interrupts come. */
    method SleepIfIdle() returns (asleep: bool)
      requires Valid() && pc.Idle?
      modifies this
      ensures Valid() && old(trace) <= trace && Nearer(|old(coming)|, Distance(old(Now())))
      ensures if asleep then pc.Halted? && coming == [] else pc.Fetch?
    {
      DisableInterrupts();
      var empty := LookAgain();
      if empty {
        asleep := Halt();
      } else {
        EnableInterrupts();
        asleep := false;
      }
    }

    /** `interrupts::disable`. */
    method DisableInterrupts()
      requires Valid() && pc.Idle?
      modifies this
      ensures Valid() && pc.Check? && old(trace) <= trace && Nearer(|old(coming)|, Distance(old(Now())))
      ensures |coming| == Later(|old(coming)|)
    {
      var _ := Window();
      ghost var s := Now();
      pc := Check;
      Did(s);
    }

    /** `task_queue.is_empty`, with interrupts off. */
    method LookAgain() returns (empty: bool)
      requires Valid() && pc.Check?
      modifies this
      ensures Valid() && (if empty then pc.Halted? else pc.Enable?) && old(trace) <= trace
      ensures Nearer(|old(coming)|, Distance(old(Now())))
      ensures coming == old(coming)
    {
      ghost var s := Now();
      empty := runQueue == 0;
      pc := if empty then Halted else Enable;
      Did(s);
    }

    /** `interrupts::enable`. */
    method EnableInterrupts()
      requires Valid() && pc.Enable?
      modifies this
      ensures Valid() && pc.Fetch? && old(trace) <= trace && Nearer(|old(coming)|, Distance(old(Now())))
              && coming == old(coming)
    {
      ghost var s := Now();
      pc := Fetch;
      Did(s);
    }

    /** `hlt`, until an interrupt comes. */
    method Halt() returns (asleep: bool)
      requires Valid() && pc.Halted?
      modifies this
      ensures Valid() && old(trace) <= trace && |coming| <= |old(coming)|
      ensures if asleep then pc.Halted? && coming == [] && Now() == old(Now())
              else pc.Fetch? && |coming| < |old(coming)|
    {
      asleep := true;
      while asleep && coming != []
        invariant Valid() && old(trace) <= trace && |coming| <= |old(coming)|
        invariant if asleep then pc.Halted? && Now() == old(Now()) else pc.Fetch? && |coming| < |old(coming)|
        decreases |coming|
      {
        var any := Window();
        asleep := !any;
      }
    }

    /** `run`, until it sleeps for good. Whatever interrupts come and whenever, the program ends asleep
        with both queues empty, the waker registered and every accepted scancode handed out in order. */
    method Run()
      requires Valid() && pc.Fetch?
      modifies this
      ensures Valid() && pc.Halted? && coming == [] && old(trace) <= trace
      ensures runQueue == 0 && scancodes == [] && registered
      ensures delivered == Accepted(arrivals) && Codes(arrivals) == Keys(trace)
      ensures Keys(trace) == Keys(old(trace)) + KeysOf(old(coming))
    {
      var asleep := false;
      while !asleep
        invariant Valid() && old(trace) <= trace && if asleep then pc.Halted? && coming == [] else pc.Fetch?
        decreases |coming|, Distance(Now())
      {
        RunReadyTasks();
        asleep := SleepIfIdle();
      }
      NoLostWakeup(trace);
      DeliveredInOrder(trace);
      ArrivalsAreKeys(trace);
      PlanDone(old(trace), old(coming), trace, plan);
    }
  }

  /** Only the task starts the stream. */
  lemma NotStarted(events: seq<Event>)
    requires Legal(events) && After(events).pc.FirstPop? && !After(events).started
    ensures Main(After(events)) == After(events).(started := true)
  {
  }
}
