/** Progress of the session senders: no slot lock deadlocks, and from every reachable state the running calls can be
    driven to their return. */
module SessionProgress {
  import opened Octets
  import opened SessionSlots
  import opened SessionTheorems

  /** The steps that a call takes on its own after it has begun. */
  predicate Continues(step: Step) {
    step.FirstLook? || step.Lock? || step.Look? || step.Dial? || step.LookAgain? || step.Open? || step.Reset? || step.Walk?
  }

  /** The steps that an attempt still needs, at most. */
  function Rank(at: At): nat {
    match at
    case Resetting => 7
    case Entering => 6
    case Waiting => 5
    case Locked => 4
    case Checked => 3
    case Dialled => 2
    case Opening => 1
  }

  /** And a call over `size` slots: a Send makes two attempts, a Close passes every slot and returns. */
  function Work(c: Call, size: nat): nat {
    match c
    case Idle(_) => 0
    case Sending(_, retried, at) => Rank(at) + if retried || at.Resetting? then 0 else 7
    case Closing(i) => if i <= size then size - i + 1 else 0
  }

  function TotalWork(procs: seq<Call>, size: nat): nat {
    if procs == [] then 0 else Work(procs[0], size) + TotalWork(procs[1..], size)
  }

  lemma {:induction false} WorkOfOne(procs: seq<Call>, size: nat, p: nat, c: Call)
    requires p < |procs|
    ensures TotalWork(procs[p := c], size) == TotalWork(procs, size) - Work(procs[p], size) + Work(c, size)
  {
    if p == 0 {
      assert procs[p := c][1..] == procs[1..];
    } else {
      assert procs[p := c][1..] == procs[1..][p - 1 := c];
      WorkOfOne(procs[1..], size, p - 1, c);
    }
  }

  /** Every step of a call brings that call closer to its return and leaves the others alone. */
  lemma OwnWorkGoesDown(s: State, step: Step)
    requires Inv(s) && Enabled(s, step) && Continues(step)
    ensures Work(Apply(s, step).procs[step.p], |s.slots|) < Work(s.procs[step.p], |s.slots|)
  {
    assert ProcOk(s, step.p);
    if step.Dial? { DialGoesDown(s, step.p, step.fails); }
    else if step.LookAgain? || step.Open? { OpenGoesDown(s, step); }
    else if step.Walk? { WalkGoesDown(s, step.p); }
    else { WaitGoesDown(s, step); }
  }

  lemma DialGoesDown(s: State, p: nat, fails: bool)
    requires Enabled(s, Dial(p, fails))
    ensures Work(Apply(s, Dial(p, fails)).procs[p], |s.slots|) < Work(s.procs[p], |s.slots|)
  {
  }

  lemma OpenGoesDown(s: State, step: Step)
    requires Enabled(s, step) && (step.LookAgain? || step.Open?)
    ensures Work(Apply(s, step).procs[step.p], |s.slots|) < Work(s.procs[step.p], |s.slots|)
  {
  }

  lemma WalkGoesDown(s: State, p: nat)
    requires Enabled(s, Walk(p)) && s.procs[p].i <= |s.slots|
    ensures Work(Apply(s, Walk(p)).procs[p], |s.slots|) < Work(s.procs[p], |s.slots|)
  {
  }

  lemma WaitGoesDown(s: State, step: Step)
    requires Enabled(s, step) && (step.FirstLook? || step.Lock? || step.Look? || step.Reset?)
    ensures Work(Apply(s, step).procs[step.p], |s.slots|) < Work(s.procs[step.p], |s.slots|)
  {
  }

  lemma OthersStay(s: State, step: Step)
    requires Enabled(s, step) && Continues(step)
    ensures |Apply(s, step).procs| == |s.procs| && forall q :: 0 <= q < |s.procs| && q != step.p ==> Apply(s, step).procs[q] == s.procs[q]
  {
  }

  lemma WorkGoesDown(s: State, step: Step)
    requires Inv(s) && Enabled(s, step) && Continues(step)
    ensures |Apply(s, step).slots| == |s.slots|
    ensures TotalWork(Apply(s, step).procs, |s.slots|) < TotalWork(s.procs, |s.slots|)
  {
    OwnWorkGoesDown(s, step);
    OthersStay(s, step);
    StepKeepsSlotCount(s, step);
    assert Apply(s, step).procs == s.procs[step.p := Apply(s, step).procs[step.p]];
    WorkOfOne(s.procs, |s.slots|, step.p, Apply(s, step).procs[step.p]);
  }

  /** The slot whose lock a call waits for. */
  function WaitsFor(kind: Kind, c: Call): Option<nat> {
    match c
    case Idle(_) => None
    case Closing(i) => Some(i)
    case Sending(k, _, at) => if at.Resetting? || at == (if kind.Smux? then Waiting else Entering) then Some(k) else None
  }

  /** What a call would do next. */
  function NextStep(kind: Kind, c: Call, p: nat): Step
    requires !c.Idle?
  {
    match c
    case Closing(_) => Walk(p)
    case Sending(_, _, at) =>
      match at
      case Entering => if kind.Smux? then FirstLook(p, false) else Lock(p)
      case Waiting => Lock(p)
      case Locked => Look(p, false)
      case Checked => Dial(p, false)
      case Dialled => LookAgain(p)
      case Opening => Open(p, false, false)
      case Resetting => Reset(p)
  }

  /** Goroutines of the QUIC sender never wait before they lock. */
  ghost predicate Staged(s: State) {
    forall p :: 0 <= p < |s.procs| && s.procs[p].Sending? && s.procs[p].at.Waiting? ==> s.kind.Smux?
  }

  lemma StepKeepsStaged(s: State, step: Step)
    requires Staged(s) && Enabled(s, step)
    ensures Staged(Apply(s, step))
  {
  }

  lemma {:induction false} RunKeepsStaged(s: State, steps: seq<Step>)
    requires Staged(s) && IsRun(s, steps)
    ensures Staged(After(s, steps))
    decreases |steps|
  {
    if steps != [] {
      StepKeepsStaged(s, steps[0]);
      RunKeepsStaged(Apply(s, steps[0]), steps[1..]);
    }
  }

  /** A call that waits for no lock that is held can go on. */
  lemma UnblockedMoves(s: State, p: nat)
    requires Inv(s) && Staged(s) && p < |s.procs| && !s.procs[p].Idle?
    requires var k := WaitsFor(s.kind, s.procs[p]); k.Some? && k.value < |s.slots| ==> s.slots[k.value].owner.None?
    ensures Continues(NextStep(s.kind, s.procs[p], p)) && Enabled(s, NextStep(s.kind, s.procs[p], p))
  {
    assert ProcOk(s, p);
  }

  /** No deadlock: while any call is running some call can go on, because whoever holds a slot's lock waits for none. */
  lemma SomeoneMoves(s: State, p: nat) returns (step: Step)
    requires Inv(s) && Staged(s) && p < |s.procs| && !s.procs[p].Idle?
    ensures Continues(step) && Enabled(s, step)
  {
    var q, k := p, WaitsFor(s.kind, s.procs[p]);
    if k.Some? && k.value < |s.slots| && s.slots[k.value].owner.Some? {
      assert SlotOk(s, k.value);
      q := s.slots[k.value].owner.value;
    }
    UnblockedMoves(s, q);
    step := NextStep(s.kind, s.procs[q], q);
  }

  predicate Quiet(s: State) {
    forall p :: 0 <= p < |s.procs| ==> s.procs[p].Idle?
  }

  lemma {:induction false} Drains(s: State) returns (steps: seq<Step>)
    requires Inv(s) && Staged(s)
    ensures IsRun(s, steps) && Quiet(After(s, steps)) && |steps| <= TotalWork(s.procs, |s.slots|)
    ensures forall i :: 0 <= i < |steps| ==> Continues(steps[i])
    decreases TotalWork(s.procs, |s.slots|)
  {
    steps := [];
    if p :| 0 <= p < |s.procs| && !s.procs[p].Idle? {
      var step := SomeoneMoves(s, p);
      StepKeepsInv(s, step);
      StepKeepsStaged(s, step);
      WorkGoesDown(s, step);
      var rest := Drains(Apply(s, step));
      steps := [step] + rest;
      assert steps[1..] == rest;
    }
  }

  /** From every reachable state of either sender the running Sends and Closes alone can go on to their return, in a
      bounded number of steps; and if a Close has marked the sender closed, then no session is open. */
  lemma EveryCallReturns(kind: Kind, size: nat, steps: seq<Step>) returns (more: seq<Step>)
    requires IsRun(NewSender(kind, size), steps)
    ensures var s := After(NewSender(kind, size), steps);
            && IsRun(s, more) && Quiet(After(s, more)) && |more| <= TotalWork(s.procs, |s.slots|)
            && (forall i :: 0 <= i < |more| ==> Continues(more[i]))
            && (After(s, more).closed ==> NothingOpen(After(s, more)))
  {
    NewSenderInv(kind, size);
    RunKeepsInv(NewSender(kind, size), steps);
    RunKeepsStaged(NewSender(kind, size), steps);
    var s := After(NewSender(kind, size), steps);
    more := Drains(s);
    RunKeepsInv(s, more);
    RunKeepsWalkedOrWalking(NewSender(kind, size), steps);
    RunKeepsWalkedOrWalking(s, more);
    if After(s, more).closed { AllWalkedStaysEmpty(After(s, more), []); }
  }

  function Walks(steps: seq<Step>, p: nat): nat {
    if steps == [] then 0 else (if steps[0] == Walk(p) then 1 else 0) + Walks(steps[1..], p)
  }

  lemma OneStepOfClose(s: State, step: Step, p: nat)
    requires Enabled(s, step) && p < |s.procs| && s.procs[p].Closing? && s.procs[p].i <= |s.slots|
    ensures p < |Apply(s, step).procs|
    ensures Apply(s, step).procs[p] ==
            if step != Walk(p) then s.procs[p] else if s.procs[p].i < |s.slots| then Closing(s.procs[p].i + 1) else Idle(CloseWalked)
  {
    if step != Walk(p) { OtherStepLeavesClose(s, step, p); }
  }

  lemma OtherStepLeavesClose(s: State, step: Step, p: nat)
    requires Enabled(s, step) && p < |s.procs| && s.procs[p].Closing? && step != Walk(p)
    ensures p < |Apply(s, step).procs| && Apply(s, step).procs[p] == s.procs[p]
  {
  }

  lemma {:induction false} WalksFrom(s: State, p: nat, steps: seq<Step>)
    requires ReturnsAfter(s, p, steps) && s.procs[p].Closing? && s.procs[p].i <= |s.slots|
    ensures Walks(steps, p) == |s.slots| - s.procs[p].i + 1
    decreases |steps|
  {
    OneStepOfClose(s, steps[0], p);
    StepKeepsSlotCount(s, steps[0]);
    if Apply(s, steps[0]).procs[p].Closing? { WalksFrom(Apply(s, steps[0]), p, steps[1..]); }
  }

  /** In every run from its beginning to its return, with whatever runs beside it, a Close of a QUIC sender, or of a smux
      sender that it finds open, takes one step for each slot and one to return. */
  lemma CloseTakesOneStepPerSlot(s: State, p: nat, steps: seq<Step>)
    requires Enabled(s, BeginClose(p)) && (s.kind.Quic? || !s.closed)
    requires ReturnsAfter(Apply(s, BeginClose(p)), p, steps)
    ensures Walks(steps, p) == |s.slots| + 1
  {
    WalksFrom(Apply(s, BeginClose(p)), p, steps);
  }
}
