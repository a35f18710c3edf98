/** What the scheduler's actors achieve, over whole runs and under every
    interleaving: what a resume, an end and a batch leave behind once the actor
    is idle again, and what alone can wake a waiting hart. */
module SchedulerRuns {
  import opened Scheduler

  // --- work that others cannot disturb

  /** A move of another actor leaves an owned hart and its owner as they are. */
  lemma OthersLeave(t: State, m: Move, i: nat, h: nat)
    requires Sound(t) && i < |t.actors| && h < |t.harts| && t.harts[h].lock == Some(i) && m.actor != i
    ensures Then(t, m).harts[h] == t.harts[h] && Then(t, m).actors[i] == t.actors[i]
  {
    Unfolded(t);
    if m.actor < |t.actors| { OtherStep(t, m.actor, m.choice, i, h); }
  }

  lemma OtherStep(t: State, j: nat, c: Choice, i: nat, h: nat)
    requires Ranges(t) && Exclusive(t) && i < |t.actors| && j < |t.actors| && i != j && h < |t.harts|
    requires t.harts[h].lock == Some(i)
    ensures |Next(t, j, c).harts| == |t.harts| && |Next(t, j, c).actors| == |t.actors|
    ensures Next(t, j, c).harts[h] == t.harts[h] && Next(t, j, c).actors[i] == t.actors[i]
  {
    StepLocal(t, j, c);
    if HoldsHart(t.actors[j].pc) { assert t.actors[j].pc.hart != h; }
  }

  /** The actor is not idle at any time between the first and the `n`-th move. */
  ghost predicate AtWork(s: State, moves: seq<Move>, n: nat, i: nat)
    requires Sound(s) && n <= |moves| && i < |s.actors|
  {
    n <= 1 || (AtWork(s, moves, n - 1, i) && !After(s, moves, n - 1).actors[i].pc.Idle?)
  }

  predicate SameElsewhere(t: State, u: State, h: nat) {
    |u.harts| == |t.harts| && forall g :: 0 <= g < |t.harts| && g != h ==> u.harts[g] == t.harts[g]
  }

  /** The actor's own moves among the first `n` change no hart but `h`. */
  ghost predicate TouchesOnly(s: State, moves: seq<Move>, n: nat, i: nat, h: nat)
    requires Sound(s) && n <= |moves|
  {
    n == 0 || (TouchesOnly(s, moves, n - 1, i, h) &&
        (moves[n - 1].actor == i ==> SameElsewhere(After(s, moves, n - 1), After(s, moves, n), h)))
  }

  // --- resuming

  /** The hart after a resume with this event. */
  function Woken(hart: Hart, event: Event): Hart {
    if hart.status == Waiting && hart.event == event then hart.(status := Runnable, event := NoEvent) else hart
  }

  /** How far a resume has come, for a hart that was `was`. */
  ghost predicate ResumeAt(pc: Pc, hart: Hart, was: Hart, i: nat, h: nat, event: Event) {
    match pc
    case Resuming(g, e) => g == h && e == event && hart == was.(lock := Some(i))
    case Cleared(g, status) =>
      g == h && status == Runnable && Woken(was, event) != was && hart == was.(lock := Some(i), event := NoEvent)
    case Finished(g) => g == h && hart == Woken(was, event).(lock := Some(i))
    case Idle => hart == Woken(was, event)
    case _ => false
  }

  lemma ResumeStep(t: State, m: Move, was: Hart, i: nat, h: nat, event: Event)
    requires Sound(t) && i < |t.actors| && h < |t.harts| && !t.actors[i].pc.Idle?
    requires was.lock == None && event != NoEvent
    requires ResumeAt(t.actors[i].pc, t.harts[h], was, i, h, event)
    ensures ResumeAt(Then(t, m).actors[i].pc, Then(t, m).harts[h], was, i, h, event)
    ensures m.actor == i ==> SameElsewhere(t, Then(t, m), h)
  {
    Unfolded(t);
    if m.actor != i { OthersLeave(t, m, i, h); }
  }

  lemma ResumeBegins(s: State, m: Move, i: nat, h: nat, event: Event)
    requires Sound(s) && i < |s.actors| && h < |s.harts| && s.actors[i].pc.Idle? && m == Move(i, Resume(h, event))
    requires event != NoEvent && s.harts[h].lock == None
    ensures ResumeAt(Then(s, m).actors[i].pc, Then(s, m).harts[h], s.harts[h], i, h, event)
    ensures SameElsewhere(s, Then(s, m), h)
  {
    Unfolded(s);
  }

  lemma {:induction false} ResumeGoes(s: State, moves: seq<Move>, n: nat, i: nat, h: nat, event: Event)
    requires Sound(s) && 0 < n <= |moves| && i < |s.actors| && h < |s.harts| && AtWork(s, moves, n, i)
    requires s.actors[i].pc.Idle? && moves[0] == Move(i, Resume(h, event)) && event != NoEvent &&
             s.harts[h].lock == None
    ensures ResumeAt(After(s, moves, n).actors[i].pc, After(s, moves, n).harts[h], s.harts[h], i, h, event)
    ensures TouchesOnly(s, moves, n, i, h)
  {
    if n == 1 {
      assert After(s, moves, 0) == s && TouchesOnly(s, moves, 0, i, h);
      ResumeBegins(s, moves[0], i, h, event);
    } else {
      ResumeGoes(s, moves, n - 1, i, h, event);
      ResumeStep(After(s, moves, n - 1), moves[n - 1], s.harts[h], i, h, event);
    }
  }

  /** When an actor that resumes a free hart is idle again, a hart that waited for
      this very event is runnable with no event pending, and any other hart is as
      it was, whatever all other actors did in between. */
  lemma ResumeWakes(s: State, moves: seq<Move>, n: nat, i: nat, h: nat, event: Event)
    requires Sound(s) && 0 < n <= |moves| && i < |s.actors| && h < |s.harts| && AtWork(s, moves, n, i)
    requires s.actors[i].pc.Idle? && moves[0] == Move(i, Resume(h, event)) && event != NoEvent &&
             s.harts[h].lock == None
    requires After(s, moves, n).actors[i].pc.Idle?
    ensures var was, now := s.harts[h], After(s, moves, n).harts[h];
            if was.status == Waiting && was.event == event
            then now == Hart(None, Runnable, NoEvent, was.instructions) else now == was
    ensures TouchesOnly(s, moves, n, i, h)
  {
    ResumeGoes(s, moves, n, i, h, event);
  }

  // --- ending

  ghost predicate EndAt(pc: Pc, hart: Hart, was: Hart, i: nat, h: nat) {
    match pc
    case Ending(g) => g == h && hart == was.(lock := Some(i))
    case Cleared(g, status) => g == h && status == Exited && hart == was.(lock := Some(i), event := NoEvent)
    case Finished(g) => g == h && hart == Hart(Some(i), Exited, NoEvent, was.instructions)
    case Idle => hart == Hart(None, Exited, NoEvent, was.instructions)
    case _ => false
  }

  lemma EndStep(t: State, m: Move, was: Hart, i: nat, h: nat)
    requires Sound(t) && i < |t.actors| && h < |t.harts| && !t.actors[i].pc.Idle?
    requires EndAt(t.actors[i].pc, t.harts[h], was, i, h)
    ensures EndAt(Then(t, m).actors[i].pc, Then(t, m).harts[h], was, i, h)
    ensures m.actor == i ==> SameElsewhere(t, Then(t, m), h)
  {
    Unfolded(t);
    if m.actor != i { OthersLeave(t, m, i, h); }
  }

  lemma EndBegins(s: State, m: Move, i: nat, h: nat)
    requires Sound(s) && i < |s.actors| && h < |s.harts| && s.actors[i].pc.Idle? && m == Move(i, End(h))
    requires s.harts[h].lock == None
    ensures EndAt(Then(s, m).actors[i].pc, Then(s, m).harts[h], s.harts[h], i, h)
    ensures SameElsewhere(s, Then(s, m), h)
  {
    Unfolded(s);
  }

  lemma {:induction false} EndGoes(s: State, moves: seq<Move>, n: nat, i: nat, h: nat)
    requires Sound(s) && 0 < n <= |moves| && i < |s.actors| && h < |s.harts| && AtWork(s, moves, n, i)
    requires s.actors[i].pc.Idle? && moves[0] == Move(i, End(h)) && s.harts[h].lock == None
    ensures EndAt(After(s, moves, n).actors[i].pc, After(s, moves, n).harts[h], s.harts[h], i, h)
    ensures TouchesOnly(s, moves, n, i, h)
  {
    if n == 1 {
      assert After(s, moves, 0) == s && TouchesOnly(s, moves, 0, i, h);
      EndBegins(s, moves[0], i, h);
    } else {
      EndGoes(s, moves, n - 1, i, h);
      EndStep(After(s, moves, n - 1), moves[n - 1], s.harts[h], i, h);
    }
  }

  /** When an actor that ends a free hart is idle again, the hart has exited. */
  lemma EndExits(s: State, moves: seq<Move>, n: nat, i: nat, h: nat)
    requires Sound(s) && 0 < n <= |moves| && i < |s.actors| && h < |s.harts| && AtWork(s, moves, n, i)
    requires s.actors[i].pc.Idle? && moves[0] == Move(i, End(h)) && s.harts[h].lock == None
    requires After(s, moves, n).actors[i].pc.Idle?
    ensures After(s, moves, n).harts[h] == Hart(None, Exited, NoEvent, s.harts[h].instructions)
    ensures TouchesOnly(s, moves, n, i, h)
  {
    EndGoes(s, moves, n, i, h);
  }

  /** A resume or an end of a hart that is owned changes nothing at all. */
  lemma OwnedRefused(s: State, i: nat, c: Choice, h: nat)
    requires Sound(s) && i < |s.actors| && s.actors[i].pc.Idle? && h < |s.harts| && s.harts[h].lock != None
    requires c == End(h) || (c.Resume? && c.hart == h)
    ensures Then(s, Move(i, c)) == s
  {
    Unfolded(s);
  }

  // --- what wakes a waiting hart

  /** The move asks for the end of hart `h`, or resumes it with this event. */
  predicate Asked(c: Choice, h: nat, event: Event) {
    c == End(h) || c == Resume(h, event)
  }

  /** The actor will leave the waiting hart waiting. */
  predicate Harmless(pc: Pc, event: Event) {
    match pc
    case Resuming(_, e) => e != event
    case Ending(_) => false
    case Cleared(_, _) => false
    case Running(_, _, _) => false
    case Raised(_, _, _) => false
    case Stepped(_, _) => false
    case _ => true
  }

  predicate WaitsFor(t: State, h: nat, event: Event)
    requires h < |t.harts|
  {
    && t.harts[h].status == Waiting && t.harts[h].event == event
    && (t.harts[h].lock.Some? && t.harts[h].lock.value < |t.actors| ==>
        Harmless(t.actors[t.harts[h].lock.value].pc, event))
  }

  lemma WaitsOn(t: State, m: Move, h: nat, event: Event)
    requires Sound(t) && h < |t.harts| && WaitsFor(t, h, event) && !Asked(m.choice, h, event)
    ensures WaitsFor(Then(t, m), h, event)
  {
    Unfolded(t);
    if m.actor < |t.actors| {
      StepLocal(t, m.actor, m.choice);
      if t.harts[h].lock == Some(m.actor) { OwnerWaits(t, m.actor, m.choice, h, event); }
      else if t.harts[h].lock.Some? { OtherStep(t, m.actor, m.choice, t.harts[h].lock.value, h); }
      else { FreeWaits(t, m.actor, m.choice, h, event); }
    }
  }

  lemma OwnerWaits(t: State, i: nat, c: Choice, h: nat, event: Event)
    requires Ranges(t) && Exclusive(t) && i < |t.actors| && h < |t.harts| && t.harts[h].lock == Some(i)
    requires WaitsFor(t, h, event)
    ensures |Next(t, i, c).harts| == |t.harts| && WaitsFor(Next(t, i, c), h, event)
  {
  }

  lemma FreeWaits(t: State, i: nat, c: Choice, h: nat, event: Event)
    requires Ranges(t) && Exclusive(t) && i < |t.actors| && h < |t.harts| && t.harts[h].lock == None
    requires WaitsFor(t, h, event) && !Asked(c, h, event)
    ensures |Next(t, i, c).harts| == |t.harts| && WaitsFor(Next(t, i, c), h, event)
  {
    StepLocal(t, i, c);
    if HoldsHart(t.actors[i].pc) { assert t.actors[i].pc.hart != h; }
    if Touched(t, i, c) == h { Approached(t, i, c, h, event); }
  }

  /** Somebody who owns no hart turns to a free one. */
  lemma Approached(t: State, i: nat, c: Choice, h: nat, event: Event)
    requires Ranges(t) && i < |t.actors| && h < |t.harts| && t.harts[h].lock == None && !HoldsHart(t.actors[i].pc)
    requires t.harts[h].status == Waiting && t.harts[h].event == event && !Asked(c, h, event)
    ensures |Next(t, i, c).harts| == |t.harts| && WaitsFor(Next(t, i, c), h, event)
  {
  }

  /** A free hart that waits for an event waits for it until somebody resumes it
      with this event or ends it; no other move of any actor wakes it. */
  lemma {:induction false} WaitsUntilAsked(s: State, moves: seq<Move>, n: nat, h: nat, event: Event)
    requires Sound(s) && n <= |moves| && h < |s.harts| && s.harts[h].lock == None
    requires s.harts[h].status == Waiting && s.harts[h].event == event
    requires forall k :: 0 <= k < n ==> !Asked(moves[k].choice, h, event)
    ensures WaitsFor(After(s, moves, n), h, event)
  {
    if n > 0 {
      WaitsUntilAsked(s, moves, n - 1, h, event);
      WaitsOn(After(s, moves, n - 1), moves[n - 1], h, event);
    }
  }

  // --- a batch on its hart

  /** Does the batch go on after an instruction that does this? */
  predicate Continuing(c: Choice) {
    !(c.Contended? || c.Faults? || c.Asks? || c.Quits?)
  }

  /** The instructions that actor `i` has executed in the first `n` moves. */
  ghost function Executed(s: State, moves: seq<Move>, n: nat, i: nat): seq<Choice>
    requires Sound(s) && n <= |moves| && i < |s.actors|
  {
    if n == 0 then []
    else Executed(s, moves, n - 1, i) + Instruction(After(s, moves, n - 1), moves[n - 1], i)
  }

  /** What the last instruction of a batch makes of its hart. */
  function Outcome(was: Hart, c: Choice, n: nat): Hart {
    var hart := was.(instructions := was.instructions + n);
    match c
    case Faults => hart.(status := Faulted)
    case Asks(event) => if event == NoEvent then hart else hart.(status := Waiting, event := event)
    case Quits => hart.(status := Exited, event := NoEvent)
    case _ => hart
  }

  /** The hart after a batch that executed these instructions. */
  function Worked(was: Hart, xs: seq<Choice>): Hart {
    if xs == [] then was else Outcome(was, xs[|xs| - 1], |xs|)
  }

  /** Every instruction but perhaps the last goes on. */
  predicate GoesOnUntilLast(xs: seq<Choice>) {
    forall k :: 0 <= k < |xs| - 1 ==> Continuing(xs[k])
  }

  /** The batch is over: its budget is spent, or its last instruction ended it. */
  predicate Over(xs: seq<Choice>, budget: nat) {
    |xs| == budget || (0 < |xs| < budget && !Continuing(xs[|xs| - 1]))
  }

  predicate Rested(was: Hart, xs: seq<Choice>, budget: nat) {
    if was.status == Runnable then GoesOnUntilLast(xs) && Over(xs, budget) else xs == []
  }

  /** How far a batch has come on its hart, having executed `xs`. */
  ghost predicate BatchAt(actor: Actor, hart: Hart, first: Actor, was: Hart, h: nat, budget: nat, xs: seq<Choice>) {
    match actor.pc
    case Picked(g, b) => BeforeWork(g, b, actor, hart, first, was, h, budget, xs)
    case Moved(g, b) => BeforeWork(g, b, actor, hart, first, was, h, budget, xs)
    case Claimed(g, b) => BeforeWork(g, b, actor, hart, first, was, h, budget, xs)
    case Entered(g, b) => BeforeWork(g, b, actor, hart, first, was, h, budget, xs)
    case Active(g, b) => BeforeWork(g, b, actor, hart, first, was, h, budget, xs)
    case Running(g, count, b) =>
      && g == h && b == budget && count == |xs| <= budget && was.status == Runnable && Counts(actor, first, 0, 0)
      && (forall k :: 0 <= k < |xs| ==> Continuing(xs[k]))
      && hart == was.(instructions := was.instructions + |xs|)
    case Raised(g, count, status) =>
      && g == h && count + 1 == |xs| && was.status == Runnable && Rested(was, xs, budget) && Counts(actor, first, 0, 0)
      && hart.(status := status, instructions := hart.instructions + 1) == Worked(was, xs)
    case Stepped(g, count) =>
      && g == h && count + 1 == |xs| && was.status == Runnable && Rested(was, xs, budget) && Counts(actor, first, 0, 0)
      && hart.(instructions := hart.instructions + 1) == Worked(was, xs)
    case Left(g, count) => Resting(g, count, hart, was, h, budget, xs) && Counts(actor, first, 0, 0)
    case Inactive(g, count) => Resting(g, count, hart, was, h, budget, xs) && Counts(actor, first, 0, 0)
    case Batched(g, count) => Resting(g, count, hart, was, h, budget, xs) && Counts(actor, first, 1, 0)
    case Summed(g) => Resting(g, |xs|, hart, was, h, budget, xs) && Counts(actor, first, 1, |xs|)
    case Idle =>
      && hart == Worked(was, xs).(lock := None) && Rested(was, xs, budget) && Counts(actor, first, 1, |xs|)
    case _ => false
  }

  ghost predicate Counts(actor: Actor, first: Actor, batches: nat, instructions: nat) {
    actor.batches == first.batches + batches && actor.instructions == first.instructions + instructions
  }

  ghost predicate BeforeWork(g: nat, b: nat, actor: Actor, hart: Hart, first: Actor, was: Hart, h: nat, budget: nat,
                             xs: seq<Choice>)
  {
    g == h && b == budget && hart == was && xs == [] && Counts(actor, first, 0, 0)
  }

  ghost predicate Resting(g: nat, count: nat, hart: Hart, was: Hart, h: nat, budget: nat, xs: seq<Choice>) {
    g == h && count == |xs| && hart == Worked(was, xs) && Rested(was, xs, budget)
  }

  /** The instructions that this move executes: one, or none. */
  function Instruction(t: State, m: Move, i: nat): seq<Choice>
    requires i < |t.actors|
  {
    var pc := t.actors[i].pc;
    if m.actor == i && pc.Running? && pc.count < pc.budget then [m.choice] else []
  }

  lemma EntersStep(t: State, c: Choice, i: nat, first: Actor, was: Hart, h: nat, budget: nat, xs: seq<Choice>)
    requires Ranges(t) && i < |t.actors| && h < |t.harts| && was.lock == Some(i)
    requires var pc := t.actors[i].pc; pc.Picked? || pc.Moved? || pc.Claimed? || pc.Entered? || pc.Active?
    requires BatchAt(t.actors[i], t.harts[h], first, was, h, budget, xs)
    ensures |Next(t, i, c).actors| == |t.actors| && SameElsewhere(t, Next(t, i, c), h)
    ensures BatchAt(Next(t, i, c).actors[i], Next(t, i, c).harts[h], first, was, h, budget, xs)
  {
  }

  lemma RunsOn(t: State, c: Choice, i: nat, first: Actor, was: Hart, h: nat, budget: nat, xs: seq<Choice>)
    requires Ranges(t) && i < |t.actors| && h < |t.harts| && was.lock == Some(i)
    requires t.actors[i].pc.Running? && (t.actors[i].pc.count >= t.actors[i].pc.budget || Continuing(c))
    requires BatchAt(t.actors[i], t.harts[h], first, was, h, budget, xs)
    ensures |Next(t, i, c).actors| == |t.actors| && SameElsewhere(t, Next(t, i, c), h)
    ensures BatchAt(Next(t, i, c).actors[i], Next(t, i, c).harts[h], first, was, h, budget,
                    xs + Instruction(t, Move(i, c), i))
  {
    var count := t.actors[i].pc.count;
    if count >= budget {
      assert xs + Instruction(t, Move(i, c), i) == xs;
    } else {
      assert Next(t, i, c).actors[i].pc == Running(h, count + 1, budget);
    }
  }

  lemma RunsOut(t: State, c: Choice, i: nat, first: Actor, was: Hart, h: nat, budget: nat, xs: seq<Choice>)
    requires Ranges(t) && i < |t.actors| && h < |t.harts| && was.lock == Some(i)
    requires t.actors[i].pc.Running? && t.actors[i].pc.count < t.actors[i].pc.budget && !Continuing(c)
    requires BatchAt(t.actors[i], t.harts[h], first, was, h, budget, xs)
    ensures |Next(t, i, c).actors| == |t.actors| && SameElsewhere(t, Next(t, i, c), h)
    ensures BatchAt(Next(t, i, c).actors[i], Next(t, i, c).harts[h], first, was, h, budget,
                    xs + Instruction(t, Move(i, c), i))
  {
    var ys := xs + [c];
    assert ys[|ys| - 1] == c && Rested(was, ys, budget);
    assert Worked(was, ys) == Outcome(was, c, |ys|);
  }

  lemma StoresStep(t: State, c: Choice, i: nat, first: Actor, was: Hart, h: nat, budget: nat, xs: seq<Choice>)
    requires Ranges(t) && i < |t.actors| && h < |t.harts| && was.lock == Some(i)
    requires t.actors[i].pc.Raised? || t.actors[i].pc.Stepped?
    requires BatchAt(t.actors[i], t.harts[h], first, was, h, budget, xs)
    ensures |Next(t, i, c).actors| == |t.actors| && SameElsewhere(t, Next(t, i, c), h)
    ensures BatchAt(Next(t, i, c).actors[i], Next(t, i, c).harts[h], first, was, h, budget, xs)
  {
  }

  lemma LeavesStep(t: State, c: Choice, i: nat, first: Actor, was: Hart, h: nat, budget: nat, xs: seq<Choice>)
    requires Ranges(t) && i < |t.actors| && h < |t.harts| && was.lock == Some(i)
    requires var pc := t.actors[i].pc; pc.Left? || pc.Inactive? || pc.Batched? || pc.Summed?
    requires BatchAt(t.actors[i], t.harts[h], first, was, h, budget, xs)
    ensures |Next(t, i, c).actors| == |t.actors| && SameElsewhere(t, Next(t, i, c), h)
    ensures BatchAt(Next(t, i, c).actors[i], Next(t, i, c).harts[h], first, was, h, budget, xs)
  {
  }

  lemma OwnStep(t: State, c: Choice, i: nat, first: Actor, was: Hart, h: nat, budget: nat, xs: seq<Choice>)
    requires Ranges(t) && i < |t.actors| && h < |t.harts| && was.lock == Some(i) && !t.actors[i].pc.Idle?
    requires BatchAt(t.actors[i], t.harts[h], first, was, h, budget, xs)
    ensures |Next(t, i, c).actors| == |t.actors| && SameElsewhere(t, Next(t, i, c), h)
    ensures BatchAt(Next(t, i, c).actors[i], Next(t, i, c).harts[h], first, was, h, budget,
                    xs + Instruction(t, Move(i, c), i))
  {
    var pc := t.actors[i].pc;
    if pc.Running? {
      if pc.count >= pc.budget || Continuing(c) { RunsOn(t, c, i, first, was, h, budget, xs); }
      else { RunsOut(t, c, i, first, was, h, budget, xs); }
    } else {
      assert xs + Instruction(t, Move(i, c), i) == xs;
      if pc.Raised? || pc.Stepped? { StoresStep(t, c, i, first, was, h, budget, xs); }
      else if pc.Left? || pc.Inactive? || pc.Batched? || pc.Summed? {
        LeavesStep(t, c, i, first, was, h, budget, xs);
      } else { EntersStep(t, c, i, first, was, h, budget, xs); }
    }
  }

  const PHASES := 3

  /** `BatchAt`, kept folded. */
  ghost predicate BatchIn(actor: Actor, hart: Hart, first: Actor, was: Hart, h: nat, budget: nat, xs: seq<Choice>,
                          folds: nat)
  {
    if folds == 0 then BatchAt(actor, hart, first, was, h, budget, xs)
    else BatchIn(actor, hart, first, was, h, budget, xs, folds - 1)
  }

  lemma BatchInIs(actor: Actor, hart: Hart, first: Actor, was: Hart, h: nat, budget: nat, xs: seq<Choice>, folds: nat)
    ensures BatchIn(actor, hart, first, was, h, budget, xs, folds) <==>
            BatchAt(actor, hart, first, was, h, budget, xs)
  {
  }

  lemma BatchMove(t: State, m: Move, i: nat, first: Actor, was: Hart, h: nat, budget: nat, xs: seq<Choice>)
    requires Sound(t) && i < |t.actors| && h < |t.harts| && !t.actors[i].pc.Idle? && was.lock == Some(i)
    requires t.harts[h].lock == Some(i) && BatchIn(t.actors[i], t.harts[h], first, was, h, budget, xs, PHASES)
    ensures BatchIn(Then(t, m).actors[i], Then(t, m).harts[h], first, was, h, budget, xs + Instruction(t, m, i), PHASES)
    ensures m.actor == i ==> SameElsewhere(t, Then(t, m), h)
  {
    var u, ys := Then(t, m), xs + Instruction(t, m, i);
    if m.actor == i {
      Unfolded(t);
      BatchInIs(t.actors[i], t.harts[h], first, was, h, budget, xs, PHASES);
      OwnStep(t, m.choice, i, first, was, h, budget, xs);
      BatchInIs(u.actors[i], u.harts[h], first, was, h, budget, ys, PHASES);
    } else {
      OthersLeave(t, m, i, h);
      assert ys == xs;
    }
  }

  /** The actor still owns its hart as long as it is not idle. */
  lemma StillOwned(t: State, i: nat, first: Actor, was: Hart, h: nat, budget: nat, xs: seq<Choice>)
    requires Sound(t) && i < |t.actors| && h < |t.harts| && !t.actors[i].pc.Idle?
    requires BatchIn(t.actors[i], t.harts[h], first, was, h, budget, xs, PHASES)
    ensures t.harts[h].lock == Some(i)
  {
    Unfolded(t);
    BatchInIs(t.actors[i], t.harts[h], first, was, h, budget, xs, PHASES);
  }

  lemma {:induction false} BatchGoes(s: State, moves: seq<Move>, n: nat, i: nat, h: nat, budget: nat)
    requires Sound(s) && n <= |moves| && i < |s.actors| && h < |s.harts| && AtWork(s, moves, n, i)
    requires s.actors[i].pc == Picked(h, budget)
    ensures BatchIn(After(s, moves, n).actors[i], After(s, moves, n).harts[h], s.actors[i], s.harts[h], h, budget,
                    Executed(s, moves, n, i), PHASES)
    ensures s.harts[h].lock == Some(i) && TouchesOnly(s, moves, n, i, h)
  {
    if n == 0 {
      Unfolded(s);
      BatchInIs(s.actors[i], s.harts[h], s.actors[i], s.harts[h], h, budget, [], PHASES);
    } else {
      BatchGoes(s, moves, n - 1, i, h, budget);
      var t, xs := After(s, moves, n - 1), Executed(s, moves, n - 1, i);
      StillOwned(t, i, s.actors[i], s.harts[h], h, budget, xs);
      BatchMove(t, moves[n - 1], i, s.actors[i], s.harts[h], h, budget, xs);
    }
  }

  /** A batch that has claimed a runnable hart executes its instructions until the
      budget is spent or one of them ends the batch; the hart is left as the last
      one says, and both hart and worker count exactly what was executed.  On a hart
      that turns out not to be runnable it executes nothing. */
  lemma BatchRuns(s: State, moves: seq<Move>, n: nat, i: nat, h: nat, budget: nat)
    requires Sound(s) && n <= |moves| && i < |s.actors| && h < |s.harts| && AtWork(s, moves, n, i)
    requires s.actors[i].pc == Picked(h, budget) && After(s, moves, n).actors[i].pc.Idle?
    ensures var t, xs := After(s, moves, n), Executed(s, moves, n, i);
            && (if s.harts[h].status == Runnable then GoesOnUntilLast(xs) && Over(xs, budget) else xs == [])
            && t.harts[h] == Worked(s.harts[h], xs).(lock := None)
            && t.actors[i].instructions == s.actors[i].instructions + |xs|
            && t.actors[i].batches == s.actors[i].batches + 1
    ensures TouchesOnly(s, moves, n, i, h)
  {
    BatchGoes(s, moves, n, i, h, budget);
    BatchInIs(After(s, moves, n).actors[i], After(s, moves, n).harts[h], s.actors[i], s.harts[h], h, budget,
              Executed(s, moves, n, i), PHASES);
  }

  // --- a batch looking for a hart

  /** At some moment before the `n`-th move the hart was not runnable, or owned. */
  ghost predicate NotReadyOnce(s: State, moves: seq<Move>, n: nat, h: nat)
    requires Sound(s) && n <= |moves|
  {
    n > 0 && (NotReadyOnce(s, moves, n - 1, h) || !Ready(After(s, moves, n - 1), h))
  }

  /** At some moment before the `n`-th move the hart was runnable. */
  ghost predicate RunnableOnce(s: State, moves: seq<Move>, n: nat, h: nat)
    requires Sound(s) && n <= |moves| && h < |s.harts|
  {
    n > 0 && (RunnableOnce(s, moves, n - 1, h) || After(s, moves, n - 1).harts[h].status == Runnable)
  }

  /** The harts from `start` to before the `scan`-th were not ready when looked at. */
  ghost predicate PassedOver(s: State, moves: seq<Move>, n: nat, start: nat, scan: nat)
    requires Sound(s) && n <= |moves|
  {
    forall h :: 0 <= h < |s.harts| && Distance(start, h, |s.harts|) < scan ==> NotReadyOnce(s, moves, n, h)
  }

  /** How far a batch has come in looking for a hart. */
  ghost predicate SearchAt(s: State, moves: seq<Move>, n: nat, pc: Pc, budget: nat)
    requires Sound(s) && n <= |moves|
  {
    match pc
    case Scan(start, scan, b) => b == budget && start == s.cursor && PassedOver(s, moves, n, start, scan)
    case Try(start, scan, b) =>
      && b == budget && start == s.cursor < |s.harts| && scan < |s.harts| && PassedOver(s, moves, n, start, scan)
      && RunnableOnce(s, moves, n, Wrap(start + scan, |s.harts|))
    case Picked(h, b) => b == budget && h < |s.harts| && RunnableOnce(s, moves, n, h)
    case Idle => forall h :: 0 <= h < |s.harts| ==> NotReadyOnce(s, moves, n, h)
    case _ => false
  }

  predicate Looks(pc: Pc) {
    pc.Scan? || pc.Try?
  }

  /** Up to here the actor has only been looking for a hart. */
  ghost predicate Looking(s: State, moves: seq<Move>, n: nat, i: nat)
    requires Sound(s) && n <= |moves| && i < |s.actors|
  {
    n <= 1 || (Looking(s, moves, n - 1, i) && Looks(After(s, moves, n - 1).actors[i].pc))
  }

  lemma OncesStay(s: State, moves: seq<Move>, n: nat, start: nat, scan: nat)
    requires Sound(s) && n < |moves| && PassedOver(s, moves, n, start, scan)
    ensures PassedOver(s, moves, n + 1, start, scan)
  {
    forall h | 0 <= h < |s.harts| && Distance(start, h, |s.harts|) < scan ensures NotReadyOnce(s, moves, n + 1, h) {
      assert NotReadyOnce(s, moves, n, h);
    }
  }

  lemma OneMorePassed(s: State, moves: seq<Move>, n: nat, start: nat, scan: nat, h: nat)
    requires Sound(s) && n < |moves| && PassedOver(s, moves, n, start, scan) && start < |s.harts| && scan < |s.harts|
    requires h == Wrap(start + scan, |s.harts|) && !Ready(After(s, moves, n), h)
    ensures PassedOver(s, moves, n + 1, start, scan + 1)
  {
    OncesStay(s, moves, n, start, scan);
    forall g | 0 <= g < |s.harts| && Distance(start, g, |s.harts|) < scan + 1
      ensures NotReadyOnce(s, moves, n + 1, g)
    {
      if g == h { assert NotReadyOnce(s, moves, n + 1, h); }
    }
  }

  /** `SearchAt`, kept folded. */
  ghost predicate SearchIn(s: State, moves: seq<Move>, n: nat, pc: Pc, budget: nat, folds: nat)
    requires Sound(s) && n <= |moves|
  {
    if folds == 0 then SearchAt(s, moves, n, pc, budget) else SearchIn(s, moves, n, pc, budget, folds - 1)
  }

  lemma SearchInIs(s: State, moves: seq<Move>, n: nat, pc: Pc, budget: nat, folds: nat)
    requires Sound(s) && n <= |moves|
    ensures SearchIn(s, moves, n, pc, budget, folds) <==> SearchAt(s, moves, n, pc, budget)
  {
  }

  lemma SearchWaits(s: State, moves: seq<Move>, n: nat, pc: Pc, budget: nat, next: nat)
    requires Sound(s) && n < |moves| && next == n + 1 && Looks(pc) && SearchIn(s, moves, n, pc, budget, PHASES)
    ensures SearchIn(s, moves, next, pc, budget, PHASES)
  {
    SearchInIs(s, moves, n, pc, budget, PHASES);
    OncesStay(s, moves, n, pc.start, pc.scan);
    SearchInIs(s, moves, next, pc, budget, PHASES);
  }

  /** Every hart has been looked at. */
  lemma ScanEnds(s: State, moves: seq<Move>, n: nat, budget: nat, start: nat, next: nat)
    requires Sound(s) && n < |moves| && next == n + 1 && start < |s.harts|
    requires SearchIn(s, moves, n, Scan(start, |s.harts|, budget), budget, PHASES)
    ensures SearchIn(s, moves, next, Idle, budget, PHASES)
  {
    SearchInIs(s, moves, n, Scan(start, |s.harts|, budget), budget, PHASES);
    OncesStay(s, moves, n, start, |s.harts|);
    forall h | 0 <= h < |s.harts| ensures NotReadyOnce(s, moves, next, h) {
      assert Distance(start, h, |s.harts|) < |s.harts|;
    }
    SearchInIs(s, moves, next, Idle, budget, PHASES);
  }

  /** The hart looked at is runnable. */
  lemma ScanTries(s: State, moves: seq<Move>, n: nat, budget: nat, start: nat, scan: nat, next: nat, h: nat)
    requires Sound(s) && n < |moves| && next == n + 1 && start < |s.harts| && scan < |s.harts|
    requires SearchIn(s, moves, n, Scan(start, scan, budget), budget, PHASES)
    requires h == Wrap(start + scan, |s.harts|) && After(s, moves, n).harts[h].status == Runnable
    ensures SearchIn(s, moves, next, Try(start, scan, budget), budget, PHASES)
  {
    SearchInIs(s, moves, n, Scan(start, scan, budget), budget, PHASES);
    OncesStay(s, moves, n, start, scan);
    SearchInIs(s, moves, next, Try(start, scan, budget), budget, PHASES);
  }

  /** The hart looked at is not ready. */
  lemma LooksFurther(s: State, moves: seq<Move>, n: nat, pc: Pc, budget: nat, next: nat, h: nat)
    requires Sound(s) && n < |moves| && next == n + 1 && Looks(pc) && pc.start < |s.harts| && pc.scan < |s.harts|
    requires SearchIn(s, moves, n, pc, budget, PHASES)
    requires h == Wrap(pc.start + pc.scan, |s.harts|) && !Ready(After(s, moves, n), h)
    ensures SearchIn(s, moves, next, Scan(pc.start, pc.scan + 1, budget), budget, PHASES)
  {
    SearchInIs(s, moves, n, pc, budget, PHASES);
    OneMorePassed(s, moves, n, pc.start, pc.scan, h);
    SearchInIs(s, moves, next, Scan(pc.start, pc.scan + 1, budget), budget, PHASES);
  }

  /** The hart tried is free. */
  lemma TryTakes(s: State, moves: seq<Move>, n: nat, budget: nat, start: nat, scan: nat, next: nat, h: nat)
    requires Sound(s) && n < |moves| && next == n + 1 && start < |s.harts| && scan < |s.harts|
    requires SearchIn(s, moves, n, Try(start, scan, budget), budget, PHASES) && h == Wrap(start + scan, |s.harts|)
    ensures SearchIn(s, moves, next, Picked(h, budget), budget, PHASES)
  {
    SearchInIs(s, moves, n, Try(start, scan, budget), budget, PHASES);
    SearchInIs(s, moves, next, Picked(h, budget), budget, PHASES);
  }

  lemma SearchBudget(s: State, moves: seq<Move>, n: nat, pc: Pc, budget: nat)
    requires Sound(s) && n <= |moves| && Looks(pc) && SearchIn(s, moves, n, pc, budget, PHASES)
    ensures pc.budget == budget
  {
    SearchInIs(s, moves, n, pc, budget, PHASES);
  }

  /** What a look does to the actor, at hart `h`. */
  lemma LookStep(t: State, m: Move, pc: Pc, h: nat)
    requires Sound(t) && m.actor < |t.actors| && pc == t.actors[m.actor].pc && Looks(pc)
    ensures pc.start < |t.harts| && pc.scan <= |t.harts| && (pc.Try? ==> pc.scan < |t.harts|)
    ensures pc.scan == |t.harts| ==> Then(t, m).actors[m.actor].pc == Idle
    ensures pc.scan < |t.harts| && h == Wrap(pc.start + pc.scan, |t.harts|) ==>
              Then(t, m).actors[m.actor].pc ==
              if pc.Scan? && t.harts[h].status == Runnable then Try(pc.start, pc.scan, pc.budget)
              else if pc.Try? && t.harts[h].lock == None then Picked(h, pc.budget)
              else Scan(pc.start, pc.scan + 1, pc.budget)
  {
    Unfolded(t);
  }

  lemma ActorAlone(t: State, m: Move, i: nat)
    requires Sound(t) && i < |t.actors| && m.actor != i
    ensures Then(t, m).actors[i] == t.actors[i]
  {
    Unfolded(t);
    if m.actor < |t.actors| { StepLocal(t, m.actor, m.choice); }
  }

  lemma OwnLook(s: State, moves: seq<Move>, n: nat, budget: nat, t: State, m: Move, pc: Pc, next: nat)
    requires Sound(s) && n < |moves| && next == n + 1 && t == After(s, moves, n) && Looks(pc)
    requires m.actor < |t.actors| && t.actors[m.actor].pc == pc && SearchIn(s, moves, n, pc, budget, PHASES)
    ensures SearchIn(s, moves, next, Then(t, m).actors[m.actor].pc, budget, PHASES)
  {
    SearchBudget(s, moves, n, pc, budget);
    var h := Wrap(pc.start + pc.scan, |t.harts|);
    LookStep(t, m, pc, h);
    if pc.scan == |t.harts| { ScanEnds(s, moves, n, budget, pc.start, next); }
    else if pc.Scan? && t.harts[h].status == Runnable { ScanTries(s, moves, n, budget, pc.start, pc.scan, next, h); }
    else if pc.Try? && t.harts[h].lock == None { TryTakes(s, moves, n, budget, pc.start, pc.scan, next, h); }
    else { LooksFurther(s, moves, n, pc, budget, next, h); }
  }

  lemma SearchStep(s: State, moves: seq<Move>, n: nat, i: nat, budget: nat, t: State, pc: Pc, u: State)
    requires Sound(s) && n < |moves| && i < |s.actors| && t == After(s, moves, n) && pc == t.actors[i].pc
    requires u == Then(t, moves[n]) && Looks(pc) && SearchIn(s, moves, n, pc, budget, PHASES)
    ensures SearchIn(s, moves, n + 1, u.actors[i].pc, budget, PHASES)
  {
    if moves[n].actor == i {
      OwnLook(s, moves, n, budget, t, moves[n], pc, n + 1);
    } else {
      ActorAlone(t, moves[n], i);
      SearchWaits(s, moves, n, pc, budget, n + 1);
    }
  }

  lemma SearchBegins(s: State, moves: seq<Move>, i: nat, budget: nat)
    requires Sound(s) && 0 < |moves| && i < |s.actors| && s.actors[i].pc.Idle? && s.sched == None && budget > 0
    requires moves[0] == Move(i, Batch(budget))
    ensures SearchIn(s, moves, 1, After(s, moves, 1).actors[i].pc, budget, PHASES)
  {
    Unfolded(s);
    assert After(s, moves, 0) == s;
    assert After(s, moves, 1).actors[i].pc == Scan(s.cursor, 0, budget);
    Unfolded(After(s, moves, 1));
    SearchInIs(s, moves, 1, After(s, moves, 1).actors[i].pc, budget, PHASES);
  }

  lemma {:induction false} SearchGoes(s: State, moves: seq<Move>, n: nat, i: nat, budget: nat)
    requires Sound(s) && 0 < n <= |moves| && i < |s.actors| && s.actors[i].pc.Idle? && s.sched == None && budget > 0
    requires moves[0] == Move(i, Batch(budget)) && Looking(s, moves, n, i)
    ensures SearchIn(s, moves, n, After(s, moves, n).actors[i].pc, budget, PHASES)
  {
    if n == 1 {
      SearchBegins(s, moves, i, budget);
    } else {
      SearchGoes(s, moves, n - 1, i, budget);
      var t := After(s, moves, n - 1);
      SearchStep(s, moves, n - 1, i, budget, t, t.actors[i].pc, After(s, moves, n));
    }
  }

  /** A batch that is idle again without having claimed a hart has met every hart
      at a moment when it was not runnable or somebody owned it. */
  lemma NothingReady(s: State, moves: seq<Move>, n: nat, i: nat, budget: nat, h: nat)
    requires Sound(s) && 0 < n <= |moves| && i < |s.actors| && s.actors[i].pc.Idle? && s.sched == None && budget > 0
    requires moves[0] == Move(i, Batch(budget)) && Looking(s, moves, n, i)
    requires After(s, moves, n).actors[i].pc.Idle? && h < |s.harts|
    ensures NotReadyOnce(s, moves, n, h)
  {
    SearchGoes(s, moves, n, i, budget);
    SearchInIs(s, moves, n, Idle, budget, PHASES);
  }

  /** A hart that a batch has just claimed was runnable when the batch looked at it,
      it is the batch's own now, and the budget is the one asked for. */
  lemma ClaimedReady(s: State, moves: seq<Move>, n: nat, i: nat, budget: nat)
    requires Sound(s) && 0 < n <= |moves| && i < |s.actors| && s.actors[i].pc.Idle? && s.sched == None && budget > 0
    requires moves[0] == Move(i, Batch(budget)) && Looking(s, moves, n, i)
    requires After(s, moves, n).actors[i].pc.Picked?
    ensures var t := After(s, moves, n);
            var h := t.actors[i].pc.hart;
            && t.actors[i].pc == Picked(h, budget) && h < |t.harts| && t.harts[h].lock == Some(i)
            && RunnableOnce(s, moves, n, h)
  {
    SearchGoes(s, moves, n, i, budget);
    SearchInIs(s, moves, n, After(s, moves, n).actors[i].pc, budget, PHASES);
    Unfolded(After(s, moves, n));
  }
}
