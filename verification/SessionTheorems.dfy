/** No session leaks, in any interleaving of Send, Close and connections that break. */
module SessionTheorems {
  import opened Octets
  import opened SessionSlots

  predicate Holds(c: Call) {
    c.Sending? && (c.at.Locked? || PastCheck(c))
  }

  predicate PastCheck(c: Call) {
    c.Sending? && (c.at.Checked? || c.at.Dialled? || c.at.Opening?)
  }

  ghost predicate SlotOk(s: State, k: nat)
    requires k < |s.slots|
  {
    var x := s.slots[k];
    && (x.session.Some? ==> x.session.value < |s.sessions|)
    && (x.walked ==> s.closed && x.session.None?)
    && (x.owner.Some? ==> x.owner.value < |s.procs| && Holds(s.procs[x.owner.value]) && s.procs[x.owner.value].k == k)
  }

  ghost predicate ProcOk(s: State, p: nat)
    requires p < |s.procs|
  {
    var c := s.procs[p];
    && (c.Sending? ==> c.k < |s.slots|)
    && (Holds(c) ==> s.slots[c.k].owner == Some(p))
    && (PastCheck(c) ==> !s.slots[c.k].walked)
    && (c.Sending? && (c.at.Dialled? || c.at.Opening?) ==> s.slots[c.k].session.Some?)
    && (c.Closing? ==> s.closed && c.i <= |s.slots| && forall k :: 0 <= k < c.i ==> s.slots[k].walked)
    && (c == Idle(CloseWalked) ==> s.closed && forall k :: 0 <= k < |s.slots| ==> s.slots[k].walked)
  }

  /** An open session is in a slot, and no two slots hold the same. */
  ghost predicate Held(s: State) {
    && (forall i :: 0 <= i < |s.sessions| && s.sessions[i] ==> exists k :: 0 <= k < |s.slots| && s.slots[k].session == Some(i))
    && (forall j, k :: 0 <= j < k < |s.slots| && s.slots[j].session.Some? ==> s.slots[j].session != s.slots[k].session)
  }

  ghost predicate Inv(s: State) {
    && (forall k :: 0 <= k < |s.slots| ==> SlotOk(s, k))
    && (forall p :: 0 <= p < |s.procs| ==> ProcOk(s, p))
    && Held(s)
  }

  lemma NewSenderInv(kind: Kind, size: nat)
    ensures Inv(NewSender(kind, size))
  {
  }

  /** Goroutine `p` moves; of the slots, `k` may change owner, session and mark. */
  ghost predicate Touches(s: State, s': State, p: nat, k: nat) {
    && p < |s.procs| == |s'.procs| && |s'.slots| == |s.slots| && (s.closed ==> s'.closed)
    && (forall q :: 0 <= q < |s.procs| && q != p ==> s'.procs[q] == s.procs[q])
    && (forall j :: 0 <= j < |s.slots| && j != k ==> s'.slots[j] == s.slots[j])
    && |s.sessions| <= |s'.sessions|
    && (k < |s.slots| ==>
          && (s'.slots[k].owner != s.slots[k].owner ==> (s.slots[k].owner.None? || s.slots[k].owner == Some(p)) && (s'.slots[k].owner.None? || s'.slots[k].owner == Some(p)))
          && (s.slots[k].walked ==> s'.slots[k].walked)
          && (s'.slots[k].walked && !s.slots[k].walked ==> s.slots[k].owner.None?)
          && (s'.slots[k].session != s.slots[k].session ==> s.slots[k].owner.None? || s.slots[k].owner == Some(p))
          && SlotOk(s', k))
    && ProcOk(s', p)
    && (Holds(s.procs[p]) ==> s.procs[p].k == k)
  }

  lemma TouchKeepsInv(s: State, s': State, p: nat, k: nat)
    requires Inv(s) && Touches(s, s', p, k) && Held(s')
    ensures Inv(s')
  {
    forall j | 0 <= j < |s'.slots| ensures SlotOk(s', j) {
      assert SlotOk(s, j);
    }
    forall q | 0 <= q < |s'.procs| ensures ProcOk(s', q) {
      assert ProcOk(s, q);
    }
  }

  /** Nothing about the sessions has changed. */
  lemma SameSessionsHeld(s: State, s': State)
    requires Held(s) && |s'.slots| == |s.slots| && s'.sessions == s.sessions
    requires forall k :: 0 <= k < |s.slots| ==> s'.slots[k].session == s.slots[k].session
    ensures Held(s')
  {
    forall i | 0 <= i < |s'.sessions| && s'.sessions[i] ensures exists k :: 0 <= k < |s'.slots| && s'.slots[k].session == Some(i) {
      var k :| 0 <= k < |s.slots| && s.slots[k].session == Some(i);
      assert s'.slots[k].session == Some(i);
    }
  }

  /** Closing a slot closes the one session that it held. */
  lemma CloseSlotHeld(s: State, k: nat)
    requires Held(s) && k < |s.slots| && (s.slots[k].session.Some? ==> s.slots[k].session.value < |s.sessions|)
    ensures Held(s.CloseSlot(k))
  {
    var s' := s.CloseSlot(k);
    forall i | 0 <= i < |s'.sessions| && s'.sessions[i] ensures exists j :: 0 <= j < |s'.slots| && s'.slots[j].session == Some(i) {
      assert s.sessions[i];
      var j :| 0 <= j < |s.slots| && s.slots[j].session == Some(i);
      assert j != k && s'.slots[j].session == Some(i);
    }
  }

  /** A dialled session goes into a slot that holds no open one. */
  lemma DialHeld(s: State, s': State, k: nat)
    requires Held(s) && k < |s.slots| && !s.Live(k)
    requires forall j :: 0 <= j < |s.slots| && s.slots[j].session.Some? ==> s.slots[j].session.value < |s.sessions|
    requires s'.sessions == s.sessions + [true] && |s'.slots| == |s.slots| && s'.slots[k].session == Some(|s.sessions|)
    requires forall j :: 0 <= j < |s.slots| && j != k ==> s'.slots[j].session == s.slots[j].session
    ensures Held(s')
  {
    forall i | 0 <= i < |s'.sessions| && s'.sessions[i] ensures exists j :: 0 <= j < |s'.slots| && s'.slots[j].session == Some(i) {
      if i < |s.sessions| {
        var j :| 0 <= j < |s.slots| && s.slots[j].session == Some(i);
        assert j != k && s'.slots[j].session == Some(i);
      } else {
        assert s'.slots[k].session == Some(i);
      }
    }
  }

  lemma PeerClosesKeepsInv(s: State, i: nat)
    requires Inv(s) && Enabled(s, PeerCloses(i))
    ensures Inv(Apply(s, PeerCloses(i)))
  {
    var s' := Apply(s, PeerCloses(i));
    forall j | 0 <= j < |s'.sessions| && s'.sessions[j] ensures exists k :: 0 <= k < |s'.slots| && s'.slots[k].session == Some(j) {
      assert s.sessions[j];
    }
    forall k | 0 <= k < |s'.slots| ensures SlotOk(s', k) { assert SlotOk(s, k); }
    forall p | 0 <= p < |s'.procs| ensures ProcOk(s', p) { assert ProcOk(s, p); }
  }

  lemma SpawnKeepsInv(s: State)
    requires Inv(s)
    ensures Inv(Apply(s, Spawn))
  {
    var s' := Apply(s, Spawn);
    SameSessionsHeld(s, s');
    forall k | 0 <= k < |s'.slots| ensures SlotOk(s', k) { assert SlotOk(s, k); }
    forall p | 0 <= p < |s'.procs| ensures ProcOk(s', p) { if p < |s.procs| { assert ProcOk(s, p); } }
  }

  /** Steps that touch no slot. */
  lemma PlainKeepsInv(s: State, step: Step)
    requires Inv(s) && Enabled(s, step) && (step.Pick? || step.FirstLook? || step.BeginClose?)
    ensures Inv(Apply(s, step))
  {
    assert ProcOk(s, step.p);
    SameSessionsHeld(s, Apply(s, step));
    TouchKeepsInv(s, Apply(s, step), step.p, |s.slots|);
  }

  /** Steps that take or leave the lock, and no more. */
  lemma LockKeepsInv(s: State, step: Step)
    requires Inv(s) && Enabled(s, step)
    requires step.Lock? || step.Look? || step.Open? || (step.Dial? && s.Live(s.procs[step.p].k))
    ensures Inv(Apply(s, step))
  {
    var k := s.procs[step.p].k;
    assert ProcOk(s, step.p) && SlotOk(s, k);
    SameSessionsHeld(s, Apply(s, step));
    if step.Look? { LookTouches(s, step); } else if step.Open? { OpenTouches(s, step); } else { TakeTouches(s, step); }
    TouchKeepsInv(s, Apply(s, step), step.p, k);
  }

  lemma LookTouches(s: State, step: Step)
    requires step.Look? && Enabled(s, step) && ProcOk(s, step.p) && SlotOk(s, s.procs[step.p].k)
    ensures Touches(s, Apply(s, step), step.p, s.procs[step.p].k)
  {
  }

  lemma OpenTouches(s: State, step: Step)
    requires step.Open? && Enabled(s, step) && ProcOk(s, step.p) && SlotOk(s, s.procs[step.p].k)
    ensures Touches(s, Apply(s, step), step.p, s.procs[step.p].k)
  {
  }

  lemma TakeTouches(s: State, step: Step)
    requires Enabled(s, step) && (step.Lock? || (step.Dial? && s.Live(s.procs[step.p].k)))
    requires ProcOk(s, step.p) && SlotOk(s, s.procs[step.p].k)
    ensures Touches(s, Apply(s, step), step.p, s.procs[step.p].k)
  {
  }

  lemma LookAgainKeepsInv(s: State, p: nat)
    requires Inv(s) && Enabled(s, LookAgain(p))
    ensures Inv(Apply(s, LookAgain(p)))
  {
    var k := s.procs[p].k;
    var s' := Apply(s, LookAgain(p));
    assert ProcOk(s, p) && SlotOk(s, k);
    if s.closed {
      CloseSlotHeld(s, k);
      SameSessionsHeld(s.CloseSlot(k), s');
    } else {
      SameSessionsHeld(s, s');
    }
    TouchKeepsInv(s, s', p, k);
  }

  lemma ResetKeepsInv(s: State, p: nat)
    requires Inv(s) && Enabled(s, Reset(p))
    ensures Inv(Apply(s, Reset(p)))
  {
    var k := s.procs[p].k;
    var s' := Apply(s, Reset(p));
    assert ProcOk(s, p) && SlotOk(s, k);
    CloseSlotHeld(s, k);
    SameSessionsHeld(s.CloseSlot(k), s');
    TouchKeepsInv(s, s', p, k);
  }

  lemma WalkKeepsInv(s: State, p: nat)
    requires Inv(s) && Enabled(s, Walk(p))
    ensures Inv(Apply(s, Walk(p)))
  {
    var i := s.procs[p].i;
    var s' := Apply(s, Walk(p));
    assert ProcOk(s, p);
    if i < |s.slots| {
      assert SlotOk(s, i);
      CloseSlotHeld(s, i);
      SameSessionsHeld(s.CloseSlot(i), s');
    } else {
      SameSessionsHeld(s, s');
    }
    TouchKeepsInv(s, s', p, i);
  }

  lemma DialKeepsInv(s: State, p: nat, fails: bool)
    requires Inv(s) && Enabled(s, Dial(p, fails)) && !s.Live(s.procs[p].k)
    ensures Inv(Apply(s, Dial(p, fails)))
  {
    var k := s.procs[p].k;
    var s' := Apply(s, Dial(p, fails));
    assert ProcOk(s, p);
    assert SlotOk(s, k);
    var t := if s.kind.Quic? then s.CloseSlot(k) else s;
    assert Held(t) by { if s.kind.Quic? { CloseSlotHeld(s, k); } }
    if fails {
      SameSessionsHeld(t, s');
    } else {
      forall j | 0 <= j < |s.slots| ensures s.slots[j].session.Some? ==> s.slots[j].session.value < |s.sessions| {
        assert SlotOk(s, j);
      }
      DialHeld(t, s', k);
    }
    TouchKeepsInv(s, s', p, k);
  }

  lemma StepKeepsInv(s: State, step: Step)
    requires Inv(s) && Enabled(s, step)
    ensures Inv(Apply(s, step))
  {
    match step
    case Spawn => SpawnKeepsInv(s);
    case Pick(_, _) => PlainKeepsInv(s, step);
    case FirstLook(_, _) => PlainKeepsInv(s, step);
    case BeginClose(_) => PlainKeepsInv(s, step);
    case Lock(_) => LockKeepsInv(s, step);
    case Look(_, _) => LockKeepsInv(s, step);
    case Open(_, _, _) => LockKeepsInv(s, step);
    case LookAgain(p) => LookAgainKeepsInv(s, p);
    case Reset(p) => ResetKeepsInv(s, p);
    case Walk(p) => WalkKeepsInv(s, p);
    case Dial(p, fails) => if s.Live(s.procs[p].k) { LockKeepsInv(s, step); } else { DialKeepsInv(s, p, fails); }
    case PeerCloses(i) => PeerClosesKeepsInv(s, i);
  }

  lemma {:induction false} RunKeepsInv(s: State, steps: seq<Step>)
    requires Inv(s) && IsRun(s, steps)
    ensures Inv(After(s, steps))
    decreases |steps|
  {
    if steps != [] {
      StepKeepsInv(s, steps[0]);
      RunKeepsInv(Apply(s, steps[0]), steps[1..]);
    }
  }

  /** No leaked session: in every run, each session that was dialled is closed or held in a slot, in one only. */
  lemma NoSessionLeaks(kind: Kind, size: nat, steps: seq<Step>, i: nat)
    requires IsRun(NewSender(kind, size), steps)
    requires var s := After(NewSender(kind, size), steps); i < |s.sessions| && s.sessions[i]
    ensures var s := After(NewSender(kind, size), steps);
            exists k :: 0 <= k < |s.slots| && s.slots[k].session == Some(i)
              && forall j :: 0 <= j < |s.slots| && j != k ==> s.slots[j].session != Some(i)
  {
    NewSenderInv(kind, size);
    RunKeepsInv(NewSender(kind, size), steps);
    var s := After(NewSender(kind, size), steps);
    var k :| 0 <= k < |s.slots| && s.slots[k].session == Some(i);
    forall j | 0 <= j < |s.slots| && j != k ensures s.slots[j].session != Some(i) {
      if j < k { assert s.slots[j].session.Some? ==> s.slots[j].session != s.slots[k].session; }
    }
  }

  lemma WalkedStays(s: State, step: Step, k: nat)
    requires Enabled(s, step) && k < |s.slots| && s.slots[k].walked
    ensures k < |Apply(s, step).slots| && Apply(s, step).slots[k].walked
  {
  }

  lemma {:induction false} WalkedStaysOverRuns(s: State, steps: seq<Step>, k: nat)
    requires IsRun(s, steps) && k < |s.slots| && s.slots[k].walked
    ensures k < |After(s, steps).slots| && After(s, steps).slots[k].walked
    decreases |steps|
  {
    if steps != [] {
      WalkedStays(s, steps[0], k);
      WalkedStaysOverRuns(Apply(s, steps[0]), steps[1..], k);
    }
  }

  /** Once Close has passed over a slot, the slot is empty for good: no Send that is under way fills it again. */
  lemma WalkedSlotStaysEmpty(kind: Kind, size: nat, before: seq<Step>, after: seq<Step>, k: nat)
    requires IsRun(NewSender(kind, size), before) && IsRun(After(NewSender(kind, size), before), after)
    requires var s := After(NewSender(kind, size), before); k < |s.slots| && s.slots[k].walked
    ensures var s := After(After(NewSender(kind, size), before), after); k < |s.slots| && s.slots[k].session.None?
  {
    NewSenderInv(kind, size);
    RunKeepsInv(NewSender(kind, size), before);
    var s := After(NewSender(kind, size), before);
    RunKeepsInv(s, after);
    WalkedStaysOverRuns(s, after, k);
    assert SlotOk(After(s, after), k);
  }

  lemma StepKeepsSlotCount(s: State, step: Step)
    requires Enabled(s, step)
    ensures |Apply(s, step).slots| == |s.slots|
  {
  }

  lemma {:induction false} SlotCountStays(s: State, steps: seq<Step>)
    requires IsRun(s, steps)
    ensures |After(s, steps).slots| == |s.slots|
    decreases |steps|
  {
    if steps != [] {
      StepKeepsSlotCount(s, steps[0]);
      SlotCountStays(Apply(s, steps[0]), steps[1..]);
    }
  }

  predicate NothingOpen(s: State) {
    forall i :: 0 <= i < |s.sessions| ==> !s.sessions[i]
  }

  predicate AllWalked(s: State) {
    forall k :: 0 <= k < |s.slots| ==> s.slots[k].walked
  }

  /** All slots passed over: no session is open, then and ever after. */
  lemma AllWalkedStaysEmpty(s: State, after: seq<Step>)
    requires Inv(s) && AllWalked(s) && IsRun(s, after)
    ensures NothingOpen(After(s, after))
  {
    RunKeepsInv(s, after);
    SlotCountStays(s, after);
    var t := After(s, after);
    forall k | 0 <= k < |t.slots| ensures t.slots[k].session.None? {
      WalkedStaysOverRuns(s, after, k);
      assert SlotOk(t, k);
    }
  }

  /** The Close of goroutine `p` is under way, or has passed over every slot. */
  predicate Walking(s: State, p: nat) {
    p < |s.procs| && (s.procs[p].Closing? || AllWalked(s))
  }

  lemma StepKeepsWalking(s: State, step: Step, p: nat)
    requires Inv(s) && Enabled(s, step) && Walking(s, p)
    ensures Walking(Apply(s, step), p)
  {
    assert ProcOk(s, p);
    StepKeepsSlotCount(s, step);
    if AllWalked(s) { AllStayWalked(s, step); }
  }

  lemma {:induction false} RunKeepsWalking(s: State, steps: seq<Step>, p: nat)
    requires Inv(s) && IsRun(s, steps) && Walking(s, p)
    ensures Walking(After(s, steps), p)
    decreases |steps|
  {
    if steps != [] {
      StepKeepsInv(s, steps[0]);
      StepKeepsWalking(s, steps[0], p);
      RunKeepsWalking(Apply(s, steps[0]), steps[1..], p);
    }
  }

  /** Close of a QUIC sender, and of a smux sender that it finds open: whatever runs beside it, once it has returned no
      session is open, then and in every continuation. */
  lemma NothingOpenAfterClose(kind: Kind, size: nat, before: seq<Step>, p: nat, during: seq<Step>, after: seq<Step>)
    requires IsRun(NewSender(kind, size), before)
    requires Enabled(After(NewSender(kind, size), before), BeginClose(p)) && (kind.Quic? || !After(NewSender(kind, size), before).closed)
    requires IsRun(Apply(After(NewSender(kind, size), before), BeginClose(p)), during)
    requires var s := After(Apply(After(NewSender(kind, size), before), BeginClose(p)), during);
             p < |s.procs| && !s.procs[p].Closing? && IsRun(s, after)
    ensures NothingOpen(After(After(Apply(After(NewSender(kind, size), before), BeginClose(p)), during), after))
  {
    NewSenderInv(kind, size);
    RunKeepsInv(NewSender(kind, size), before);
    KindStays(NewSender(kind, size), before);
    ReturnedMeansEmpty(After(NewSender(kind, size), before), p, during, after);
  }

  lemma {:induction false} KindStays(s: State, steps: seq<Step>)
    requires IsRun(s, steps)
    ensures After(s, steps).kind == s.kind
    decreases |steps|
  {
    if steps != [] {
      StepKeepsKind(s, steps[0]);
      KindStays(Apply(s, steps[0]), steps[1..]);
    }
  }

  lemma StepKeepsKind(s: State, step: Step)
    requires Enabled(s, step)
    ensures Apply(s, step).kind == s.kind
  {
  }

  lemma ReturnedMeansEmpty(s: State, p: nat, during: seq<Step>, after: seq<Step>)
    requires Inv(s) && Enabled(s, BeginClose(p)) && (s.kind.Quic? || !s.closed)
    requires IsRun(Apply(s, BeginClose(p)), during)
    requires var t := After(Apply(s, BeginClose(p)), during); p < |t.procs| && !t.procs[p].Closing? && IsRun(t, after)
    ensures NothingOpen(After(After(Apply(s, BeginClose(p)), during), after))
  {
    var s' := Apply(s, BeginClose(p));
    StepKeepsInv(s, BeginClose(p));
    RunKeepsWalking(s', during, p);
    RunKeepsInv(s', during);
    AllWalkedStaysEmpty(After(s', during), after);
  }

  /** The run `steps` ends where the Close of goroutine `p` returns. */
  predicate ReturnsAfter(s: State, p: nat, steps: seq<Step>)
    decreases |steps|
  {
    p < |s.procs| &&
    if s.procs[p].Closing? then steps != [] && Enabled(s, steps[0]) && ReturnsAfter(Apply(s, steps[0]), p, steps[1..])
    else steps == []
  }

  lemma {:induction false} ReturnIsARun(s: State, p: nat, steps: seq<Step>)
    requires ReturnsAfter(s, p, steps)
    ensures IsRun(s, steps) && p < |After(s, steps).procs| && !After(s, steps).procs[p].Closing?
    decreases |steps|
  {
    if s.procs[p].Closing? { ReturnIsARun(Apply(s, steps[0]), p, steps[1..]); }
  }

  /** The Close of goroutine `p` returns after `steps` and a session is open then. */
  predicate LeavesOpen(s: State, p: nat, steps: seq<Step>) {
    ReturnsAfter(s, p, steps) && IsRun(s, steps) && !NothingOpen(After(s, steps))
  }

  /** Exactly when the return of a Close means that everything is closed: if the sender is a QUIC sender, or the call
      finds it open, or nothing was open at the call.  A second smux Close returns at once and leaves every session as
      it is. */
  lemma CloseClosesExactlyWhen(s: State, p: nat)
    requires Inv(s) && Enabled(s, BeginClose(p))
    ensures (forall steps :: !LeavesOpen(Apply(s, BeginClose(p)), p, steps)) <==>
            s.kind.Quic? || !s.closed || NothingOpen(s)
    ensures s.kind.Smux? && s.closed ==>
              Apply(s, BeginClose(p)).procs[p].Idle? && Apply(s, BeginClose(p)).sessions == s.sessions
  {
    var s' := Apply(s, BeginClose(p));
    if s.kind.Quic? || !s.closed {
      forall steps | ReturnsAfter(s', p, steps) ensures !LeavesOpen(s', p, steps) {
        ReturnIsARun(s', p, steps);
        ReturnedMeansEmpty(s, p, steps, []);
      }
    } else if !NothingOpen(s) {
      assert LeavesOpen(s', p, []);
    } else {
      forall steps | ReturnsAfter(s', p, steps) ensures !LeavesOpen(s', p, steps) {
        assert steps == [];
      }
    }
  }

  /** A closed sender has been passed over by a Close, or is being. */
  ghost predicate WalkedOrWalking(s: State) {
    s.closed ==> AllWalked(s) || exists p :: 0 <= p < |s.procs| && s.procs[p].Closing?
  }

  lemma StepKeepsWalkedOrWalking(s: State, step: Step)
    requires Inv(s) && WalkedOrWalking(s) && Enabled(s, step)
    ensures WalkedOrWalking(Apply(s, step))
  {
    var s' := Apply(s, step);
    if s.closed {
      var p: nat := 0;
      if !AllWalked(s) { p :| 0 <= p < |s.procs| && s.procs[p].Closing?; }
      if AllWalked(s) { AllStayWalked(s, step); } else { StepKeepsWalking(s, step, p); }
    } else if s'.closed {
      assert s'.procs[step.p].Closing?;
    }
  }

  lemma AllStayWalked(s: State, step: Step)
    requires Enabled(s, step) && AllWalked(s)
    ensures AllWalked(Apply(s, step))
  {
    StepKeepsSlotCount(s, step);
    forall k | 0 <= k < |s.slots| ensures Apply(s, step).slots[k].walked { WalkedStays(s, step, k); }
  }

  lemma {:induction false} RunKeepsWalkedOrWalking(s: State, steps: seq<Step>)
    requires Inv(s) && WalkedOrWalking(s) && IsRun(s, steps)
    ensures WalkedOrWalking(After(s, steps))
    decreases |steps|
  {
    if steps != [] {
      StepKeepsInv(s, steps[0]);
      StepKeepsWalkedOrWalking(s, steps[0]);
      RunKeepsWalkedOrWalking(Apply(s, steps[0]), steps[1..]);
    }
  }

  /** A run of a sender, a Close at its end that finds `closed` and `walked` as given, and its return with a session open. */
  ghost predicate Misleads(kind: Kind, closed: bool, walked: bool, size: nat, before: seq<Step>, p: nat, steps: seq<Step>) {
    && IsRun(NewSender(kind, size), before)
    && var s := After(NewSender(kind, size), before);
       && s.closed == closed && AllWalked(s) == walked && Enabled(s, BeginClose(p)) && LeavesOpen(Apply(s, BeginClose(p)), p, steps)
  }

  /** What a caller can go by: over all senders of a kind and all runs, the return of a Close means that no session is
      open, if and only if the sender is a QUIC sender, or the call finds it open, or an earlier Close has passed over
      all slots. */
  lemma CloseIsReliableExactlyWhen(kind: Kind, closed: bool, walked: bool)
    ensures (forall size: nat, before, p: nat, steps :: !Misleads(kind, closed, walked, size, before, p, steps)) <==>
            kind.Quic? || !closed || walked
  {
    if kind.Quic? || !closed || walked {
      forall size: nat, before, p: nat, steps ensures !Misleads(kind, closed, walked, size, before, p, steps) {
        if Misleads(kind, closed, walked, size, before, p, steps) { NeverMisleads(kind, size, before, p, steps); }
      }
    } else {
      var before := OpenWhileClosing();
      var s := After(NewSender(Smux, 1), before);
      assert s.sessions[0];
      assert LeavesOpen(Apply(s, BeginClose(2)), 2, []);
      assert !s.slots[0].walked;
      assert Misleads(Smux, true, false, 1, before, 2, []);
    }
  }

  lemma NeverMisleads(kind: Kind, size: nat, before: seq<Step>, p: nat, steps: seq<Step>)
    requires IsRun(NewSender(kind, size), before)
    requires var s := After(NewSender(kind, size), before);
             Enabled(s, BeginClose(p)) && (kind.Quic? || !s.closed || AllWalked(s))
    ensures !LeavesOpen(Apply(After(NewSender(kind, size), before), BeginClose(p)), p, steps)
  {
    var s := After(NewSender(kind, size), before);
    NewSenderInv(kind, size);
    RunKeepsInv(NewSender(kind, size), before);
    KindStays(NewSender(kind, size), before);
    if AllWalked(s) { AllWalkedStaysEmpty(s, []); }
    CloseClosesExactlyWhen(s, p);
  }

  /** So the nil of a second smux Close says nothing about the sessions: here it has returned while the first Close
      is still about to walk and the session is open. */
  lemma SecondCloseMayReturnEarly() returns (steps: seq<Step>)
    ensures IsRun(NewSender(Smux, 1), steps)
    ensures var s := After(NewSender(Smux, 1), steps);
            && s.procs == [Idle(Opened(0)), Closing(0), Idle(CloseSkipped)]
            && s.sessions == [true] && s.slots == [Slot(Some(0), None, false)]
  {
    var end := State(Smux, true, 1, [Slot(Some(0), None, false)], [true], [Idle(Opened(0)), Closing(0), Idle(CloseSkipped)]);
    steps := Cons(ClosingState(), BeginClose(2), end, []);
    steps := OpensThenCloses(steps);
  }

  /** The state before that second Close. */
  function ClosingState(): State {
    State(Smux, true, 1, [Slot(Some(0), None, false)], [true], [Idle(Opened(0)), Closing(0), Idle(Nothing)])
  }

  lemma OpenWhileClosing() returns (steps: seq<Step>)
    ensures IsRun(NewSender(Smux, 1), steps) && After(NewSender(Smux, 1), steps) == ClosingState()
  {
    steps := OpensThenCloses([]);
  }

  /** A Send opens a session, and a first Close begins. */
  lemma OpensThenCloses(rest: seq<Step>) returns (steps: seq<Step>)
    requires IsRun(ClosingState(), rest)
    ensures IsRun(NewSender(Smux, 1), steps) && After(NewSender(Smux, 1), steps) == After(ClosingState(), rest)
  {
    var s0 := NewSender(Smux, 1);
    var free := Slot(None, None, false);
    var mine := Slot(None, Some(0), false);
    assert s0.slots == [free];
    var idle := Idle(Nothing);
    var s3 := State(Smux, false, 0, [free], [], [idle, idle, idle]);
    var s6 := State(Smux, false, 1, [mine], [], [Sending(0, false, Locked), idle, idle]);
    var s10 := State(Smux, false, 1, [Slot(Some(0), None, false)], [true], [Idle(Opened(0)), idle, idle]);
    steps := Cons(s10, BeginClose(1), ClosingState(), rest);
    steps := Dials(s6, s10, steps);
    steps := Locks(s3, s6, steps);
    steps := Cons(State(Smux, false, 0, [free], [], [idle, idle]), Spawn, s3, steps);
    steps := Cons(State(Smux, false, 0, [free], [], [idle]), Spawn, State(Smux, false, 0, [free], [], [idle, idle]), steps);
    steps := Cons(s0, Spawn, State(Smux, false, 0, [free], [], [idle]), steps);
  }

  lemma Cons(s: State, step: Step, s': State, rest: seq<Step>) returns (steps: seq<Step>)
    requires Enabled(s, step) && Apply(s, step) == s' && IsRun(s', rest)
    ensures steps == [step] + rest && IsRun(s, steps) && After(s, steps) == After(s', rest)
  {
    steps := [step] + rest;
    assert steps[1..] == rest;
  }

  lemma Locks(s: State, s': State, rest: seq<Step>) returns (steps: seq<Step>)
    requires s == State(Smux, false, 0, [Slot(None, None, false)], [], [Idle(Nothing), Idle(Nothing), Idle(Nothing)])
    requires s' == s.(next := 1, slots := [Slot(None, Some(0), false)], procs := [Sending(0, false, Locked), Idle(Nothing), Idle(Nothing)])
    requires IsRun(s', rest)
    ensures IsRun(s, steps) && After(s, steps) == After(s', rest)
  {
    var entered := s.(next := 1, procs := [Sending(0, false, Entering), Idle(Nothing), Idle(Nothing)]);
    var looked := entered.(procs := [Sending(0, false, Waiting), Idle(Nothing), Idle(Nothing)]);
    steps := Cons(looked, Lock(0), s', rest);
    steps := Cons(entered, FirstLook(0, false), looked, steps);
    steps := Cons(s, Pick(0, false), entered, steps);
  }

  lemma Dials(s: State, s': State, rest: seq<Step>) returns (steps: seq<Step>)
    requires s == State(Smux, false, 1, [Slot(None, Some(0), false)], [], [Sending(0, false, Locked), Idle(Nothing), Idle(Nothing)])
    requires s' == State(Smux, false, 1, [Slot(Some(0), None, false)], [true], [Idle(Opened(0)), Idle(Nothing), Idle(Nothing)])
    requires IsRun(s', rest)
    ensures IsRun(s, steps) && After(s, steps) == After(s', rest)
  {
    var checked := s.(procs := [Sending(0, false, Checked), Idle(Nothing), Idle(Nothing)]);
    var dialled := checked.(slots := [Slot(Some(0), Some(0), false)], sessions := [true], procs := [Sending(0, false, Dialled), Idle(Nothing), Idle(Nothing)]);
    var again := dialled.(procs := [Sending(0, false, Opening), Idle(Nothing), Idle(Nothing)]);
    steps := Cons(again, Open(0, false, false), s', rest);
    steps := Cons(dialled, LookAgain(0), again, steps);
    steps := Cons(checked, Dial(0, false), dialled, steps);
    steps := Cons(s, Look(0, false), checked, steps);
  }
}
