/** The hart scheduler as a state machine.

    Any number of actors run scheduler batches, resume waiting harts and end
    harts.  One step of one actor is one access to shared memory, so every
    interleaving of the accesses is a sequence of steps.  A lock is modelled
    with its holder; steps look only at whether it is held. */
module Scheduler {
  datatype Option<T> = None | Some(value: T)
  datatype Status = Runnable | Waiting | Exited | Faulted
  datatype Event = NoEvent | Syscall | Host

  datatype Hart = Hart(lock: Option<nat>, status: Status, event: Event, instructions: nat)

  /** What an actor is about to do. */
  datatype Pc =
    | Idle
    // a scheduler batch: looking for a hart, the scheduler lock held
    | Scan(start: nat, scan: nat, budget: nat)
    | Try(start: nat, scan: nat, budget: nat)
    | Picked(hart: nat, budget: nat)
    | Moved(hart: nat, budget: nat)
    // running the hart, its lock held
    | Claimed(hart: nat, budget: nat)
    | Entered(hart: nat, budget: nat)
    | Active(hart: nat, budget: nat)
    | Running(hart: nat, count: nat, budget: nat)
    | Raised(hart: nat, count: nat, status: Status)
    | Stepped(hart: nat, count: nat)
    | Left(hart: nat, count: nat)
    | Inactive(hart: nat, count: nat)
    | Batched(hart: nat, count: nat)
    | Summed(hart: nat)
    // the host: resuming a waiting hart or ending a hart, its lock held
    | Resuming(hart: nat, event: Event)
    | Ending(hart: nat)
    | Cleared(hart: nat, status: Status)
    | Finished(hart: nat)

  datatype Actor = Actor(pc: Pc, batches: nat, instructions: nat)

  datatype State = State(harts: seq<Hart>, actors: seq<Actor>, sched: Option<nat>, cursor: nat, active: int,
                         claims: nat)

  /** What the actor starts, or what the instruction does. */
  datatype Choice =
    | Batch(budget: nat)
    | Resume(hart: nat, event: Event)
    | End(hart: nat)
    | Continues
    | Contended
    | Faults
    | Asks(event: Event)
    | Quits

  function Wrap(x: nat, n: nat): nat {
    if x < n then x else x - n
  }

  function SetHart(s: State, h: nat, hart: Hart): State
    requires h < |s.harts|
  {
    s.(harts := s.harts[h := hart])
  }

  function Goto(s: State, i: nat, pc: Pc): State
    requires i < |s.actors|
  {
    s.(actors := s.actors[i := s.actors[i].(pc := pc)])
  }

  /** One step of actor `i`. */
  function Next(s: State, i: nat, c: Choice): State
    requires i < |s.actors| && Ranges(s)
  {
    var n := |s.harts|;
    match s.actors[i].pc
    case Idle => StartStep(s, i, c)
    case Scan(start, scan, budget) =>
      if scan == n then Goto(s.(sched := None), i, Idle)
      else if s.harts[Wrap(start + scan, n)].status == Runnable then Goto(s, i, Try(start, scan, budget))
      else Goto(s, i, Scan(start, scan + 1, budget))
    case Try(start, scan, budget) =>
      var h := Wrap(start + scan, n);
      if s.harts[h].lock == None then Goto(SetHart(s, h, s.harts[h].(lock := Some(i))), i, Picked(h, budget))
      else Goto(s, i, Scan(start, scan + 1, budget))
    case Picked(h, budget) => Goto(s.(cursor := Wrap(h + 1, n)), i, Moved(h, budget))
    case Moved(h, budget) => Goto(s.(sched := None), i, Claimed(h, budget))
    case Claimed(h, budget) => Goto(s.(claims := s.claims + 1), i, Entered(h, budget))
    case Entered(h, budget) => Goto(s.(active := s.active + 1), i, Active(h, budget))
    case Active(h, budget) => Goto(s, i, if s.harts[h].status == Runnable then Running(h, 0, budget) else Left(h, 0))
    case Running(h, count, budget) => RunStep(s, i, c, h, count, budget)
    case Raised(h, count, status) => Goto(SetHart(s, h, s.harts[h].(status := status)), i, Stepped(h, count))
    case Stepped(h, count) => Goto(SetHart(s, h, s.harts[h].(instructions := s.harts[h].instructions + 1)), i,
                                   Left(h, count + 1))
    case Left(h, count) => Goto(s.(active := s.active - 1), i, Inactive(h, count))
    case Inactive(h, count) => s.(actors := s.actors[i := s.actors[i].(pc := Batched(h, count),
        batches := s.actors[i].batches + 1)])
    case Batched(h, count) =>
      s.(actors := s.actors[i := s.actors[i].(pc := Summed(h), instructions := s.actors[i].instructions + count)])
    case Summed(h) => Goto(SetHart(s, h, s.harts[h].(lock := None)), i, Idle)
    case Resuming(h, event) =>
      if s.harts[h].status == Waiting && s.harts[h].event == event
      then Goto(SetHart(s, h, s.harts[h].(event := NoEvent)), i, Cleared(h, Runnable))
      else Goto(s, i, Finished(h))
    case Ending(h) => Goto(SetHart(s, h, s.harts[h].(event := NoEvent)), i, Cleared(h, Exited))
    case Cleared(h, status) => Goto(SetHart(s, h, s.harts[h].(status := status)), i, Finished(h))
    case Finished(h) => Goto(SetHart(s, h, s.harts[h].(lock := None)), i, Idle)
  }

  function StartStep(s: State, i: nat, c: Choice): State
    requires i < |s.actors|
  {
    match c
    case Batch(budget) => if budget > 0 && s.sched == None then Goto(s.(sched := Some(i)), i, Scan(s.cursor, 0, budget))
    else s
    case Resume(h, event) =>
      if h < |s.harts| && s.harts[h].lock == None && event != NoEvent
      then Goto(SetHart(s, h, s.harts[h].(lock := Some(i))), i, Resuming(h, event)) else s
    case End(h) =>
      if h < |s.harts| && s.harts[h].lock == None then Goto(SetHart(s, h, s.harts[h].(lock := Some(i))), i, Ending(h))
         else s
    case _ => s
  }

  /** An instruction: it goes on, or it ends the batch.  A request stores the
      event before the status. */
  function RunStep(s: State, i: nat, c: Choice, h: nat, count: nat, budget: nat): State
    requires i < |s.actors| && h < |s.harts|
  {
    if count >= budget then Goto(s, i, Left(h, count))
    else
      match c
      case Contended => Goto(s, i, Stepped(h, count))
      case Faults => Goto(s, i, Raised(h, count, Faulted))
      case Asks(event) =>
        if event == NoEvent then Goto(s, i, Stepped(h, count))
        else Goto(SetHart(s, h, s.harts[h].(event := event)), i, Raised(h, count, Waiting))
      case Quits => Goto(SetHart(s, h, s.harts[h].(event := NoEvent)), i, Raised(h, count, Exited))
      case _ =>
        Goto(SetHart(s, h, s.harts[h].(instructions := s.harts[h].instructions + 1)), i, Running(h, count + 1, budget))
  }

  // --- who holds what

  predicate HoldsSched(pc: Pc) {
    pc.Scan? || pc.Try? || pc.Picked? || pc.Moved?
  }

  predicate HoldsHart(pc: Pc) {
    !(pc.Idle? || pc.Scan? || pc.Try?)
  }

  predicate Ranges(s: State) {
    && |s.harts| > 0 && s.cursor < |s.harts|
    && (forall i :: 0 <= i < |s.actors| ==> PcInRange(s.actors[i].pc, |s.harts|))
  }

  predicate PcInRange(pc: Pc, n: nat) {
    if pc.Scan? then pc.start < n && pc.scan <= n
    else if pc.Try? then pc.start < n && pc.scan < n
    else HoldsHart(pc) ==> pc.hart < n
  }

  /** Locks are held exactly by the actors that are inside: at most one actor
      owns a hart or the scheduler, and no lock is left behind. */
  predicate Exclusive(s: State) {
    && (forall i :: 0 <= i < |s.actors| ==> (HoldsSched(s.actors[i].pc) <==> s.sched == Some(i)))
    && (s.sched.Some? ==> s.sched.value < |s.actors|)
    && (forall i :: 0 <= i < |s.actors| && HoldsHart(s.actors[i].pc) && s.actors[i].pc.hart < |s.harts|
          ==> s.harts[s.actors[i].pc.hart].lock == Some(i))
    && (forall h :: 0 <= h < |s.harts| && s.harts[h].lock.Some? ==>
          && s.harts[h].lock.value < |s.actors|
          && HoldsHart(s.actors[s.harts[h].lock.value].pc) && s.actors[s.harts[h].lock.value].pc.hart == h)
  }

  /** A hart waits exactly when an event is pending. */
  predicate Settled(hart: Hart) {
    hart.status == Waiting <==> hart.event != NoEvent
  }

  /** What an actor knows of the hart it owns. */
  predicate Knows(pc: Pc, hart: Hart) {
    match pc
    case Running(_, _, _) => hart.status == Runnable && hart.event == NoEvent
    case Raised(_, _, status) => hart.status == Runnable && (status == Waiting <==> hart.event != NoEvent)
    case Cleared(_, status) => hart.event == NoEvent &&
                               (status == Exited || (status == Runnable && hart.status == Waiting))
    case _ => Settled(hart)
  }

  predicate KnowsAt(s: State, h: nat)
    requires h < |s.harts|
  {
    match s.harts[h].lock
    case None => Settled(s.harts[h])
    case Some(i) => i < |s.actors| ==> Knows(s.actors[i].pc, s.harts[h])
  }

  predicate Consistent(s: State) {
    forall h :: 0 <= h < |s.harts| ==> KnowsAt(s, h)
  }

  // --- mutual exclusion

  /** Only actor `i` and hart `h` differ. */
  predicate Local(s: State, t: State, i: nat, h: nat) {
    && |t.actors| == |s.actors| && |t.harts| == |s.harts| && i < |s.actors| && h < |s.harts|
    && (forall j :: 0 <= j < |s.actors| && j != i ==> t.actors[j] == s.actors[j])
    && (forall g :: 0 <= g < |s.harts| && g != h ==> t.harts[g] == s.harts[g])
  }

  /** The hart a step of this actor may change. */
  function Touched(s: State, i: nat, c: Choice): nat
    requires i < |s.actors| && Ranges(s)
  {
    var pc := s.actors[i].pc;
    if HoldsHart(pc) then pc.hart
    else if pc.Try? then Wrap(pc.start + pc.scan, |s.harts|)
    else if pc.Idle? && c.Resume? && c.hart < |s.harts| then c.hart
    else if pc.Idle? && c.End? && c.hart < |s.harts| then c.hart
    else 0
  }

  lemma StepLocal(s: State, i: nat, c: Choice)
    requires Ranges(s) && i < |s.actors|
    ensures Local(s, Next(s, i, c), i, Touched(s, i, c))
  {
  }

  /** How a step moves locks: it keeps what it holds, takes one lock, or drops one. */
  predicate KeepsLocks(s: State, t: State, i: nat, h: nat)
    requires Local(s, t, i, h)
  {
    var pc, pc' := s.actors[i].pc, t.actors[i].pc;
    && (if s.sched == Some(i) then t.sched == (if HoldsSched(pc') then Some(i) else None)
        else t.sched == (if HoldsSched(pc') then Some(i) else s.sched) && (HoldsSched(pc') ==> s.sched == None))
    && (if HoldsHart(pc) then pc.hart == h && t.harts[h].lock == (if HoldsHart(pc') then Some(i) else None)
        else if HoldsHart(pc') then s.harts[h].lock == None && t.harts[h].lock == Some(i)
        else t.harts[h].lock == s.harts[h].lock)
    && (HoldsHart(pc') ==> pc'.hart == h)
  }

  /** The step begins a batch or a host call, looks for a hart, works on a hart. */
  predicate Starts(pc: Pc) { pc.Idle? }
  predicate Searches(pc: Pc) { pc.Scan? || pc.Try? || pc.Picked? || pc.Moved? }
  predicate Works(pc: Pc) { pc.Claimed? || pc.Entered? || pc.Active? || pc.Running? || pc.Raised? || pc.Stepped? }
  predicate Closes(pc: Pc) { !Starts(pc) && !Searches(pc) && !Works(pc) }

  /** The step keeps the tables' sizes and every index in range. */
  predicate StaysInRange(s: State, t: State) {
    Ranges(t) && |t.harts| == |s.harts| && |t.actors| == |s.actors|
  }

  lemma SearchesInRange(s: State, i: nat, c: Choice)
    requires Ranges(s) && i < |s.actors| && (Starts(s.actors[i].pc) || Searches(s.actors[i].pc))
    ensures StaysInRange(s, Next(s, i, c))
  {
  }

  lemma WorksInRange(s: State, i: nat, c: Choice)
    requires Ranges(s) && i < |s.actors| && Works(s.actors[i].pc)
    ensures StaysInRange(s, Next(s, i, c))
  {
  }

  lemma ClosesInRange(s: State, i: nat, c: Choice)
    requires Ranges(s) && i < |s.actors| && Closes(s.actors[i].pc)
    ensures StaysInRange(s, Next(s, i, c))
  {
  }

  lemma StepInRange(s: State, i: nat, c: Choice)
    requires Ranges(s) && i < |s.actors|
    ensures StaysInRange(s, Next(s, i, c))
  {
    if Works(s.actors[i].pc) { WorksInRange(s, i, c); }
    else if Closes(s.actors[i].pc) { ClosesInRange(s, i, c); }
    else { SearchesInRange(s, i, c); }
  }

  lemma StartsLocks(s: State, i: nat, c: Choice)
    requires Ranges(s) && Exclusive(s) && i < |s.actors| && Local(s, Next(s, i, c), i, Touched(s, i, c)) &&
             Starts(s.actors[i].pc)
    ensures KeepsLocks(s, Next(s, i, c), i, Touched(s, i, c))
  {
  }

  lemma SearchesLocks(s: State, i: nat, c: Choice)
    requires Ranges(s) && Exclusive(s) && i < |s.actors| && Local(s, Next(s, i, c), i, Touched(s, i, c)) &&
             Searches(s.actors[i].pc)
    ensures KeepsLocks(s, Next(s, i, c), i, Touched(s, i, c))
  {
  }

  lemma WorksLocks(s: State, i: nat, c: Choice)
    requires Ranges(s) && Exclusive(s) && i < |s.actors| && Local(s, Next(s, i, c), i, Touched(s, i, c)) &&
             Works(s.actors[i].pc)
    ensures KeepsLocks(s, Next(s, i, c), i, Touched(s, i, c))
  {
  }

  lemma ClosesLocks(s: State, i: nat, c: Choice)
    requires Ranges(s) && Exclusive(s) && i < |s.actors| && Local(s, Next(s, i, c), i, Touched(s, i, c)) &&
             Closes(s.actors[i].pc)
    ensures KeepsLocks(s, Next(s, i, c), i, Touched(s, i, c))
  {
  }

  lemma StepKeepsLocks(s: State, i: nat, c: Choice)
    requires Ranges(s) && Exclusive(s) && i < |s.actors| && Local(s, Next(s, i, c), i, Touched(s, i, c))
    ensures KeepsLocks(s, Next(s, i, c), i, Touched(s, i, c))
  {
    var pc := s.actors[i].pc;
    if Starts(pc) { StartsLocks(s, i, c); }
    else if Searches(pc) { SearchesLocks(s, i, c); }
    else if Works(pc) { WorksLocks(s, i, c); }
    else { ClosesLocks(s, i, c); }
  }

  lemma KeepsExclusive(s: State, t: State, i: nat, h: nat)
    requires Exclusive(s) && Local(s, t, i, h) && KeepsLocks(s, t, i, h)
    ensures Exclusive(t)
  {
  }

  lemma StepExclusive(s: State, i: nat, c: Choice)
    requires Ranges(s) && Exclusive(s) && i < |s.actors|
    ensures Exclusive(Next(s, i, c))
  {
    StepLocal(s, i, c);
    StepKeepsLocks(s, i, c);
    KeepsExclusive(s, Next(s, i, c), i, Touched(s, i, c));
  }

  // --- events and waiting

  lemma OtherKnows(s: State, i: nat, c: Choice)
    requires Ranges(s) && Exclusive(s) && Consistent(s) && i < |s.actors| && !Works(s.actors[i].pc) &&
             !Closes(s.actors[i].pc)
    ensures Local(s, Next(s, i, c), i, Touched(s, i, c)) ==> KnowsAt(Next(s, i, c), Touched(s, i, c))
  {
    assert KnowsAt(s, Touched(s, i, c));
  }

  lemma WorksKnows(s: State, i: nat, c: Choice)
    requires Ranges(s) && Exclusive(s) && Consistent(s) && i < |s.actors| && Works(s.actors[i].pc)
    ensures Local(s, Next(s, i, c), i, Touched(s, i, c)) ==> KnowsAt(Next(s, i, c), Touched(s, i, c))
  {
    assert KnowsAt(s, Touched(s, i, c));
  }

  lemma ClosesKnows(s: State, i: nat, c: Choice)
    requires Ranges(s) && Exclusive(s) && Consistent(s) && i < |s.actors| && Closes(s.actors[i].pc)
    ensures Local(s, Next(s, i, c), i, Touched(s, i, c)) ==> KnowsAt(Next(s, i, c), Touched(s, i, c))
  {
    assert KnowsAt(s, Touched(s, i, c));
  }

  lemma StepKnows(s: State, i: nat, c: Choice)
    requires Ranges(s) && Exclusive(s) && Consistent(s) && i < |s.actors| &&
             Local(s, Next(s, i, c), i, Touched(s, i, c))
    ensures KnowsAt(Next(s, i, c), Touched(s, i, c))
  {
    var pc := s.actors[i].pc;
    if Works(pc) { WorksKnows(s, i, c); } else if Closes(pc) { ClosesKnows(s, i, c); } else { OtherKnows(s, i, c); }
  }

  lemma StepConsistent(s: State, i: nat, c: Choice)
    requires Ranges(s) && Exclusive(s) && Consistent(s) && i < |s.actors|
    ensures Consistent(Next(s, i, c))
  {
    StepLocal(s, i, c);
    StepKnows(s, i, c);
    var t, h := Next(s, i, c), Touched(s, i, c);
    forall g | 0 <= g < |t.harts| ensures KnowsAt(t, g) {
      if g != h {
        assert KnowsAt(s, g);
        StepExclusive(s, i, c);
      }
    }
  }

  /** A hart that has exited stays so. */
  lemma ExitedIsFinal(s: State, i: nat, c: Choice, h: nat)
    requires Ranges(s) && Exclusive(s) && Consistent(s) && i < |s.actors| && h < |s.harts| &&
             s.harts[h].status == Exited
    ensures |Next(s, i, c).harts| == |s.harts| && Next(s, i, c).harts[h].status == Exited
  {
    StepLocal(s, i, c);
    assert KnowsAt(s, h);
  }

  // --- accounting

  datatype Account = Busy | Claims | Work

  /** What one actor contributes: whether it counts as active, the claims it has
      taken, the instructions it has run. */
  function Share(a: Actor, k: Account): nat {
    match k
    case Busy => if a.pc.Active? || a.pc.Running? || a.pc.Raised? || a.pc.Stepped? || a.pc.Left? then 1 else 0
    case Claims =>
      a.batches + if a.pc.Entered? || a.pc.Active? || a.pc.Running? || a.pc.Raised? || a.pc.Stepped? || a.pc.Left? ||
          a.pc.Inactive? then 1 else 0
    case Work =>
      a.instructions + if a.pc.Running? || a.pc.Raised? || a.pc.Stepped? || a.pc.Left? || a.pc.Inactive? ||
          a.pc.Batched? then a.pc.count else 0
  }

  function Sum(actors: seq<Actor>, k: Account): nat {
    if actors == [] then 0 else Sum(actors[..|actors| - 1], k) + Share(actors[|actors| - 1], k)
  }

  function Instructions(harts: seq<Hart>): nat {
    if harts == [] then 0 else Instructions(harts[..|harts| - 1]) + harts[|harts| - 1].instructions
  }

  lemma {:induction false} SumChanges(actors: seq<Actor>, k: Account, i: nat, a: Actor)
    requires i < |actors|
    ensures Sum(actors[i := a], k) == Sum(actors, k) - Share(actors[i], k) + Share(a, k)
  {
    var n := |actors| - 1;
    if i == n {
      assert actors[i := a][..n] == actors[..n];
    } else {
      SumChanges(actors[..n], k, i, a);
      assert actors[i := a][..n] == actors[..n][i := a];
    }
  }

  lemma {:induction false} InstructionsChange(harts: seq<Hart>, h: nat, hart: Hart)
    requires h < |harts|
    ensures Instructions(harts[h := hart]) == Instructions(harts) - harts[h].instructions + hart.instructions
  {
    var n := |harts| - 1;
    if h == n {
      assert harts[h := hart][..n] == harts[..n];
    } else {
      InstructionsChange(harts[..n], h, hart);
      assert harts[h := hart][..n] == harts[..n][h := hart];
    }
  }

  predicate Balanced(s: State) {
    s.active == Sum(s.actors, Busy) && s.claims == Sum(s.actors, Claims) && Instructions(s.harts) == Sum(s.actors, Work)
  }

  lemma Rebuilt(s: State, t: State, i: nat, h: nat)
    requires Local(s, t, i, h)
    ensures t.actors == s.actors[i := t.actors[i]] && t.harts == s.harts[h := t.harts[h]]
  {
  }

  /** A step changes each account by what it adds to the shares of its actor. */
  predicate Booked(s: State, t: State, i: nat, h: nat)
    requires Local(s, t, i, h)
  {
    && t.active - s.active == Share(t.actors[i], Busy) - Share(s.actors[i], Busy)
    && t.claims - s.claims == Share(t.actors[i], Claims) - Share(s.actors[i], Claims)
    && t.harts[h].instructions - s.harts[h].instructions == Share(t.actors[i], Work) - Share(s.actors[i], Work)
  }

  lemma WorksShares(s: State, i: nat, c: Choice)
    requires Ranges(s) && i < |s.actors| && Works(s.actors[i].pc) && Local(s, Next(s, i, c), i, Touched(s, i, c))
    ensures Booked(s, Next(s, i, c), i, Touched(s, i, c))
  {
  }

  lemma SearchesShares(s: State, i: nat, c: Choice)
    requires Ranges(s) && i < |s.actors| && (Starts(s.actors[i].pc) || Searches(s.actors[i].pc))
    requires Local(s, Next(s, i, c), i, Touched(s, i, c))
    ensures Booked(s, Next(s, i, c), i, Touched(s, i, c))
  {
  }

  lemma ClosesShares(s: State, i: nat, c: Choice)
    requires Ranges(s) && i < |s.actors| && Closes(s.actors[i].pc) && Local(s, Next(s, i, c), i, Touched(s, i, c))
    ensures Booked(s, Next(s, i, c), i, Touched(s, i, c))
  {
  }

  lemma StepBalanced(s: State, i: nat, c: Choice)
    requires Ranges(s) && Balanced(s) && i < |s.actors|
    ensures Balanced(Next(s, i, c))
  {
    var t, h := Next(s, i, c), Touched(s, i, c);
    StepLocal(s, i, c);
    Rebuilt(s, t, i, h);
    if Works(s.actors[i].pc) { WorksShares(s, i, c); }
    else if Closes(s.actors[i].pc) { ClosesShares(s, i, c); }
    else { SearchesShares(s, i, c); }
    SumChanges(s.actors, Busy, i, t.actors[i]);
    SumChanges(s.actors, Claims, i, t.actors[i]);
    SumChanges(s.actors, Work, i, t.actors[i]);
    InstructionsChange(s.harts, h, t.harts[h]);
  }

  // --- whole runs

  predicate Invariant(s: State) {
    Ranges(s) && Exclusive(s) && Consistent(s) && Balanced(s)
  }

  const LAYERS := 3

  /** `Invariant`, kept folded. */
  ghost predicate Kept(s: State, layers: nat) {
    if layers > 0 then Kept(s, layers - 1) else Invariant(s)
  }

  lemma KeptIs(s: State, layers: nat)
    ensures Kept(s, layers) <==> Invariant(s)
  {
  }

  /** The state meets the invariant. */
  ghost predicate Sound(s: State) {
    Kept(s, LAYERS)
  }

  lemma Unfolded(s: State)
    requires Sound(s)
    ensures Invariant(s)
  {
    KeptIs(s, LAYERS);
  }

  lemma Folded(s: State)
    requires Invariant(s)
    ensures Sound(s)
  {
    KeptIs(s, LAYERS);
  }

  lemma StepSound(s: State, i: nat, c: Choice)
    requires Invariant(s) && i < |s.actors|
    ensures Invariant(Next(s, i, c)) && |Next(s, i, c).actors| == |s.actors| && |Next(s, i, c).harts| == |s.harts|
  {
    StepInRange(s, i, c);
    StepExclusive(s, i, c);
    StepConsistent(s, i, c);
    StepBalanced(s, i, c);
  }

  datatype Move = Move(actor: nat, choice: Choice)

  /** One move; a move of no actor changes nothing. */
  ghost function Then(s: State, m: Move): (t: State)
    requires Sound(s)
    ensures Sound(t) && |t.actors| == |s.actors| && |t.harts| == |s.harts|
  {
    Unfolded(s);
    if m.actor < |s.actors| then
      StepSound(s, m.actor, m.choice);
      Folded(Next(s, m.actor, m.choice));
      Next(s, m.actor, m.choice)
    else s
  }

  lemma ThenExited(s: State, m: Move, h: nat)
    requires Sound(s) && h < |s.harts| && s.harts[h].status == Exited
    ensures Then(s, m).harts[h].status == Exited
  {
    Unfolded(s);
    if m.actor < |s.actors| { ExitedIsFinal(s, m.actor, m.choice, h); }
  }

  /** The state after the first `n` moves. */
  ghost function After(s: State, moves: seq<Move>, n: nat): (t: State)
    requires Sound(s) && n <= |moves|
    ensures Sound(t) && |t.actors| == |s.actors| && |t.harts| == |s.harts|
  {
    if n == 0 then s else Then(After(s, moves, n - 1), moves[n - 1])
  }

  /** Before anything runs: every hart is runnable and free, every actor idle. */
  function Initial(harts: nat, actors: nat): State
    requires harts > 0
  {
    State(seq(harts, _ => Hart(None, Runnable, NoEvent, 0)), seq(actors, _ => Actor(Idle, 0, 0)), None, 0, 0, 0)
  }

  lemma {:induction false} IdleShares(actors: seq<Actor>, k: Account)
    requires forall i :: 0 <= i < |actors| ==> actors[i] == Actor(Idle, 0, 0)
    ensures Sum(actors, k) == 0
  {
    if actors != [] { IdleShares(actors[..|actors| - 1], k); }
  }

  lemma {:induction false} FreshHarts(harts: seq<Hart>)
    requires forall i :: 0 <= i < |harts| ==> harts[i].instructions == 0
    ensures Instructions(harts) == 0
  {
    if harts != [] { FreshHarts(harts[..|harts| - 1]); }
  }

  lemma InitialSound(harts: nat, actors: nat)
    requires harts > 0
    ensures Sound(Initial(harts, actors))
  {
    var s := Initial(harts, actors);
    IdleShares(s.actors, Busy);
    IdleShares(s.actors, Claims);
    IdleShares(s.actors, Work);
    FreshHarts(s.harts);
    Folded(s);
  }

  function Batches(actors: seq<Actor>): nat {
    if actors == [] then 0 else Batches(actors[..|actors| - 1]) + actors[|actors| - 1].batches
  }

  function Ran(actors: seq<Actor>): nat {
    if actors == [] then 0 else Ran(actors[..|actors| - 1]) + actors[|actors| - 1].instructions
  }

  lemma {:induction false} QuietShares(actors: seq<Actor>)
    requires forall i :: 0 <= i < |actors| ==> actors[i].pc.Idle?
    ensures Sum(actors, Busy) == 0 && Sum(actors, Claims) == Batches(actors) && Sum(actors, Work) == Ran(actors)
  {
    if actors != [] { QuietShares(actors[..|actors| - 1]); }
  }

  /** Whenever no actor is at work, nothing is locked, a hart waits exactly when
      an event is pending, no worker counts as active, the batches of the
      workers add up to the claims, and their instructions to those of the harts. */
  lemma QuietState(s: State, moves: seq<Move>, n: nat)
    requires Sound(s) && n <= |moves| && Quiet(After(s, moves, n))
    ensures var t := After(s, moves, n);
            && t.sched == None && t.active == 0 && t.claims == Batches(t.actors)
            && Instructions(t.harts) == Ran(t.actors)
            && forall h :: 0 <= h < |t.harts| ==> t.harts[h].lock == None && Settled(t.harts[h])
  {
    QuietMeans(After(s, moves, n));
  }

  predicate Quiet(s: State) {
    forall i :: 0 <= i < |s.actors| ==> s.actors[i].pc.Idle?
  }

  lemma QuietMeans(t: State)
    requires Sound(t) && Quiet(t)
    ensures t.sched == None && t.active == 0 && t.claims == Batches(t.actors) && Instructions(t.harts) == Ran(t.actors)
    ensures forall h :: 0 <= h < |t.harts| ==> t.harts[h].lock == None && Settled(t.harts[h])
  {
    Unfolded(t);
    QuietShares(t.actors);
    forall h | 0 <= h < |t.harts| ensures t.harts[h].lock == None && Settled(t.harts[h]) { assert KnowsAt(t, h); }
  }

  /** No two actors are ever inside the same hart, nor two inside the scheduler. */
  lemma NeverTwoOwners(s: State, moves: seq<Move>, n: nat, i: nat, j: nat)
    requires Sound(s) && n <= |moves| && i < j < |s.actors|
    ensures var t := After(s, moves, n);
            && !(HoldsSched(t.actors[i].pc) && HoldsSched(t.actors[j].pc))
            && !(HoldsHart(t.actors[i].pc) && HoldsHart(t.actors[j].pc) && t.actors[i].pc.hart == t.actors[j].pc.hart)
  {
    Unfolded(After(s, moves, n));
  }

  lemma {:induction false} StaysExited(s: State, moves: seq<Move>, n: nat, h: nat)
    requires Sound(s) && n <= |moves| && h < |s.harts| && s.harts[h].status == Exited
    ensures After(s, moves, n).harts[h].status == Exited
  {
    if n > 0 {
      StaysExited(s, moves, n - 1, h);
      ThenExited(After(s, moves, n - 1), moves[n - 1], h);
    }
  }

  /** At any moment of any run, a hart that nobody owns waits exactly when an
      event is pending. */
  lemma FreeHartSettled(s: State, moves: seq<Move>, n: nat, h: nat)
    requires Sound(s) && n <= |moves| && h < |s.harts| && After(s, moves, n).harts[h].lock == None
    ensures Settled(After(s, moves, n).harts[h])
  {
    Unfolded(After(s, moves, n));
    assert KnowsAt(After(s, moves, n), h);
  }

  // --- the round-robin bound

  function Distance(from: nat, to: nat, n: nat): int {
    if from <= to then to - from else to - from + n
  }

  predicate Ready(s: State, h: nat) {
    h < |s.harts| && s.harts[h].status == Runnable && s.harts[h].lock == None
  }

  /** Nobody who is looking for a hart has passed hart `h`. */
  predicate Ahead(s: State, h: nat)
    requires h < |s.harts|
  {
    forall i :: 0 <= i < |s.actors| ==> NotPassed(s.actors[i].pc, s.cursor, h, |s.harts|)
  }

  predicate NotPassed(pc: Pc, cursor: nat, h: nat, n: nat) {
    match pc
    case Scan(start, scan, _) => start == cursor && scan <= Distance(cursor, h, n)
    case Try(start, scan, _) => start == cursor && scan <= Distance(cursor, h, n)
    case Picked(p, _) => Distance(cursor, p, n) < Distance(cursor, h, n)
    case _ => true
  }

  function Picks(s: State, i: nat): nat
    requires i < |s.actors|
  {
    if s.actors[i].pc.Picked? then 1 else 0
  }

  /** A scheduler batch is about to look at hart `h`. */
  predicate LooksAt(pc: Pc, h: nat, n: nat) {
    match pc
    case Scan(start, scan, _) => scan < n && Wrap(start + scan, n) == h
    case Try(start, scan, _) => Wrap(start + scan, n) == h
    case _ => false
  }

  /** If this move is a scheduler batch looking at hart `h`, it finds it runnable
      and free.  At other moves anybody may own the hart or change it. */
  predicate FoundReady(s: State, m: Move, h: nat) {
    m.actor < |s.actors| && LooksAt(s.actors[m.actor].pc, h, |s.harts|) ==> Ready(s, h)
  }

  /** A scheduler batch has just picked hart `h`. */
  predicate JustPicked(s: State, h: nat) {
    exists i :: 0 <= i < |s.actors| && s.actors[i].pc.Picked? && s.actors[i].pc.hart == h
  }

  lemma ScanAhead(s: State, i: nat, c: Choice, h: nat)
    requires Ranges(s) && i < |s.actors| && h < |s.harts| && Ahead(s, h) && FoundReady(s, Move(i, c), h)
    requires HoldsSched(s.actors[i].pc)
    requires Next(s, i, c).actors[i].pc.Picked? ==> Next(s, i, c).actors[i].pc.hart != h
    ensures Next(s, i, c).cursor < |s.harts| &&
            NotPassed(Next(s, i, c).actors[i].pc, Next(s, i, c).cursor, h, |s.harts|)
    ensures Picks(s, i) + Distance(Next(s, i, c).cursor, h, |s.harts|) <= Distance(s.cursor, h, |s.harts|)
  {
    assert NotPassed(s.actors[i].pc, s.cursor, h, |s.harts|);
  }

  lemma IdleAhead(s: State, i: nat, c: Choice, h: nat)
    requires Ranges(s) && i < |s.actors| && !HoldsSched(s.actors[i].pc) && h < |s.harts|
    ensures Next(s, i, c).cursor == s.cursor && NotPassed(Next(s, i, c).actors[i].pc, s.cursor, h, |s.harts|) &&
            Picks(s, i) == 0
  {
  }

  lemma OthersAhead(s: State, t: State, i: nat, j: nat, h: nat)
    requires Exclusive(s) && i < |s.actors| && j < |s.actors| && i != j && h < |s.harts| && Ahead(s, h)
    requires HoldsSched(s.actors[i].pc) || t.cursor == s.cursor
    ensures NotPassed(s.actors[j].pc, t.cursor, h, |s.harts|)
  {
    assert NotPassed(s.actors[j].pc, s.cursor, h, |s.harts|);
  }

  lemma StepAhead(s: State, i: nat, c: Choice, h: nat)
    requires Ranges(s) && Exclusive(s) && i < |s.actors| && h < |s.harts| && Ahead(s, h) && FoundReady(s, Move(i, c), h)
    requires !JustPicked(Next(s, i, c), h)
    ensures |Next(s, i, c).harts| == |s.harts| && Ahead(Next(s, i, c), h)
    ensures Picks(s, i) + Distance(Next(s, i, c).cursor, h, |s.harts|) <= Distance(s.cursor, h, |s.harts|)
  {
    var t := Next(s, i, c);
    StepLocal(s, i, c);
    assert |t.harts| == |s.harts| && |t.actors| == |s.actors|;
    if HoldsSched(s.actors[i].pc) { ScanAhead(s, i, c, h); } else { IdleAhead(s, i, c, h); }
    forall j | 0 <= j < |s.actors| ensures NotPassed(t.actors[j].pc, t.cursor, h, |t.harts|) {
      if j != i { OthersAhead(s, t, i, j, h); }
    }
  }

  lemma ThenAhead(s: State, m: Move, h: nat)
    requires Sound(s) && h < |s.harts| && Ahead(s, h) && FoundReady(s, m, h) && !JustPicked(Then(s, m), h)
    ensures Ahead(Then(s, m), h)
    ensures (if m.actor < |s.actors| then Picks(s, m.actor) else 0) +
            Distance(Then(s, m).cursor, h, |s.harts|) <= Distance(s.cursor, h, |s.harts|)
  {
    Unfolded(s);
    if m.actor < |s.actors| { StepAhead(s, m.actor, m.choice, h); }
  }

  /** When nobody is in the scheduler, nobody has passed a hart. */
  lemma NobodyPassed(s: State, h: nat)
    requires Sound(s) && s.sched == None && h < |s.harts|
    ensures Ahead(s, h)
  {
    Unfolded(s);
    forall i | 0 <= i < |s.actors| ensures NotPassed(s.actors[i].pc, s.cursor, h, |s.harts|) {
      assert !HoldsSched(s.actors[i].pc);
    }
  }

  /** How many harts the scheduler picks in the first `n` moves. */
  ghost function PicksIn(s: State, moves: seq<Move>, n: nat): nat
    requires Sound(s) && n <= |moves|
  {
    if n == 0 then 0
    else
      var t, m := After(s, moves, n - 1), moves[n - 1];
      PicksIn(s, moves, n - 1) + if m.actor < |t.actors| then Picks(t, m.actor) else 0
  }

  /** The first `n` moves find hart `h` ready whenever they look at it. */
  ghost predicate AlwaysReady(s: State, moves: seq<Move>, n: nat, h: nat)
    requires Sound(s) && n <= |moves|
  {
    n == 0 || (AlwaysReady(s, moves, n - 1, h) && FoundReady(After(s, moves, n - 1), moves[n - 1], h))
  }

  /** Hart `h` is picked within the first `n` moves. */
  ghost predicate PickedWithin(s: State, moves: seq<Move>, n: nat, h: nat)
    requires Sound(s) && n <= |moves|
  {
    JustPicked(After(s, moves, n), h) || (n > 0 && PickedWithin(s, moves, n - 1, h))
  }

  lemma {:induction false} PicksBounded(s: State, moves: seq<Move>, n: nat, h: nat)
    requires Sound(s) && n <= |moves| && h < |s.harts| && Ahead(s, h)
    requires AlwaysReady(s, moves, n, h) && !PickedWithin(s, moves, n, h)
    ensures Ahead(After(s, moves, n), h)
    ensures PicksIn(s, moves, n) + Distance(After(s, moves, n).cursor, h, |s.harts|) <= Distance(s.cursor, h, |s.harts|)
  {
    if n > 0 {
      PicksBounded(s, moves, n - 1, h);
      OneMoreMove(s, After(s, moves, n - 1), moves[n - 1], h, PicksIn(s, moves, n - 1));
    }
  }

  lemma OneMoreMove(s: State, t: State, m: Move, h: nat, picks: nat)
    requires Sound(t) && h < |t.harts| == |s.harts| && Ahead(t, h) && FoundReady(t, m, h) &&
             !JustPicked(Then(t, m), h)
    requires picks + Distance(t.cursor, h, |s.harts|) <= Distance(s.cursor, h, |s.harts|)
    ensures Ahead(Then(t, m), h)
    ensures picks + (if m.actor < |t.actors| then Picks(t, m.actor) else 0) + Distance(Then(t, m).cursor, h, |s.harts|)
      <= Distance(s.cursor, h, |s.harts|)
  {
    ThenAhead(t, m, h);
  }

  /** If every scheduler batch that looks at a hart finds it runnable and free, the
      hart is picked before as many harts have been picked as there are; and until
      then no batch ends its scan without a pick. */
  lemma RoundRobin(s: State, moves: seq<Move>, n: nat, h: nat)
    requires Sound(s) && n <= |moves| && h < |s.harts| && Ahead(s, h)
    requires AlwaysReady(s, moves, n, h)
    ensures PickedWithin(s, moves, n, h) ||
      (PicksIn(s, moves, n) < |s.harts| && forall i :: 0 <= i < |s.actors| ==>
       !EndsIdle(After(s, moves, n).actors[i].pc, |s.harts|))
  {
    if !PickedWithin(s, moves, n, h) {
      PicksBounded(s, moves, n, h);
      AheadMeans(s, h);
      AheadMeans(After(s, moves, n), h);
    }
  }

  lemma AheadMeans(t: State, h: nat)
    requires Sound(t) && h < |t.harts| && Ahead(t, h)
    ensures 0 <= Distance(t.cursor, h, |t.harts|) < |t.harts|
    ensures forall i :: 0 <= i < |t.actors| ==> !EndsIdle(t.actors[i].pc, |t.harts|)
  {
    Unfolded(t);
    forall i | 0 <= i < |t.actors| ensures !EndsIdle(t.actors[i].pc, |t.harts|) {
      assert NotPassed(t.actors[i].pc, t.cursor, h, |t.harts|);
    }
  }

  /** A batch has looked at every hart and found none. */
  predicate EndsIdle(pc: Pc, n: nat) {
    pc.Scan? && pc.scan == n
  }
}
