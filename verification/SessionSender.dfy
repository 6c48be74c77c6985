/** The Sender objects of internal/ingestsmux/client.go and internal/ingestquic/client.go: whole calls as functions of
    the state, the class that computes them, and the fact that an undisturbed attempt is a run of the step relation. */
module SessionSender {
  import opened Octets
  import opened SessionSlots
  import opened SessionTheorems

  /** What the outside world decides during one attempt to open a stream. */
  datatype Fate = Fate(cancelled: bool, dialFails: bool, openFails: bool, retryable: bool)

  /** openStreamOnce on slot `k`: the state, the session used, and whether a failure is tried again. */
  function Attempt(s: State, k: nat, f: Fate): (State, Option<nat>, bool)
    requires k < |s.slots|
  {
    if s.closed || f.cancelled then (s, None, s.kind.Smux?)
    else
      var s' := Redialled(s, k, f);
      if s'.slots[k].session.None? || (!s.Live(k) && f.dialFails) then (s', None, s.kind.Smux?)
      else if f.openFails then (s', None, s.kind.Smux? || f.retryable)
      else (s', s'.slots[k].session, false)
  }

  /** A live session is kept, any other is replaced. */
  function Redialled(s: State, k: nat, f: Fate): (r: State)
    requires k < |s.slots|
    ensures |r.slots| == |s.slots|
  {
    if s.Live(k) then s
    else
      var s' := if s.kind.Quic? then s.CloseSlot(k) else s;
      if f.dialFails then s'
      else s'.SetSlot(k, s'.slots[k].(session := Some(|s.sessions|))).(sessions := s'.sessions + [true])
  }

  /** openStream: the next slot in turn, and one more attempt on it after a reset. */
  function OpenCall(s: State, refused: bool, first: Fate, second: Fate): (State, Option<nat>)
    requires |s.slots| > 0
  {
    if s.kind.Quic? && (s.closed || refused) then (s, None)
    else
      var k := s.next % |s.slots|;
      var (s1, r1, again) := Attempt(s.(next := s.next + 1), k, first);
      if r1.Some? || !again then (s1, r1)
      else var (s2, r2, _) := Attempt(s1.CloseSlot(k), k, second); (s2, r2)
  }

  function WalkFrom(s: State, i: nat): (r: State)
    ensures |r.slots| == |s.slots|
    decreases |s.slots| - i
  {
    if i >= |s.slots| then s else WalkFrom(s.CloseSlot(i).SetSlot(i, Slot(None, None, true)), i + 1)
  }

  function CloseCall(s: State): State {
    if s.kind.Smux? && s.closed then s else WalkFrom(s.(closed := true), 0)
  }

  /** A session is returned only from an open sender, and then it is the one in the slot whose turn it was. */
  lemma OpenedIsHeld(s: State, refused: bool, first: Fate, second: Fate)
    requires |s.slots| > 0
    ensures var (r, session) := OpenCall(s, refused, first, second);
            |r.slots| == |s.slots| && (session.Some? ==> !s.closed && r.slots[s.next % |s.slots|].session == session)
  {
  }

  lemma {:induction false} WalkEmpties(s: State, i: nat)
    requires Held(s) && forall k :: 0 <= k < |s.slots| && s.slots[k].session.Some? ==> s.slots[k].session.value < |s.sessions|
    requires i <= |s.slots| && forall k :: 0 <= k < i ==> s.slots[k].session.None?
    ensures var r := WalkFrom(s, i);
            && (forall k :: 0 <= k < |r.slots| ==> r.slots[k].session.None?)
            && |r.sessions| == |s.sessions| && forall j :: 0 <= j < |r.sessions| ==> !r.sessions[j]
    decreases |s.slots| - i
  {
    if i < |s.slots| {
      var s' := s.CloseSlot(i).SetSlot(i, Slot(None, None, true));
      CloseSlotHeld(s, i);
      SameSessionsHeld(s.CloseSlot(i), s');
      WalkEmpties(s', i + 1);
    }
  }

  /** A Close that finds the sender open leaves no slot filled and no session open. */
  lemma CloseEmpties(s: State)
    requires Inv(s) && (s.kind.Quic? || !s.closed)
    ensures var r := CloseCall(s);
            && (forall k :: 0 <= k < |r.slots| ==> r.slots[k].session.None?)
            && forall j :: 0 <= j < |r.sessions| ==> !r.sessions[j]
  {
    forall k | 0 <= k < |s.slots| ensures s.slots[k].session.Some? ==> s.slots[k].session.value < |s.sessions| {
      assert SlotOk(s, k);
    }
    var s' := s.(closed := true);
    SameSessionsHeld(s, s');
    WalkEmpties(s', 0);
  }

  // ----- an undisturbed attempt is a run -----

  /** What the goroutine does after the attempt. */
  function Outcome(c: Call, session: Option<nat>, again: bool): Call
    requires c.Sending?
  {
    if session.Some? then Idle(Opened(session.value)) else AfterFailure(c, again)
  }

  /** `s'` is `s` with the lock of slot `k` given back and goroutine `p` moved on. */
  predicate Ends(s: State, s': State, k: nat, p: nat, c: Call)
    requires k < |s.slots| && p < |s.procs|
  {
    s' == s.Unlock(k).To(p, c)
  }

  lemma OpenIsARun(s: State, p: nat, f: Fate) returns (steps: seq<Step>)
    requires Enabled(s, Open(p, f.openFails, f.retryable)) && !f.cancelled
    ensures IsRun(s, steps)
    ensures var c, x := s.procs[p], s.slots[s.procs[p].k].session;
            Ends(s, After(s, steps), c.k, p, if f.openFails then AfterFailure(c, s.kind.Smux? || f.retryable) else Idle(Opened(x.value)))
  {
    var step := Open(p, f.openFails, f.retryable);
    steps := Cons(s, step, Apply(s, step), []);
  }

  /** From the dialling to the opening. */
  lemma DialledRun(s: State, p: nat, f: Fate, s2: State, rest: seq<Step>) returns (steps: seq<Step>)
    requires Enabled(s, Dial(p, f.dialFails)) && !s.closed && (s.Live(s.procs[p].k) || !f.dialFails)
    requires s2 == Redialled(s, s.procs[p].k, f).To(p, s.procs[p].(at := Opening)) && IsRun(s2, rest)
    ensures IsRun(s, steps) && After(s, steps) == After(s2, rest)
  {
    var s1 := Apply(s, Dial(p, f.dialFails));
    if s1.procs[p].at.Dialled? {
      assert s1.procs[p := s.procs[p].(at := Opening)] == s2.procs;
      steps := Cons(s1, LookAgain(p), s2, rest);
    } else {
      assert s2 == s1;
      steps := rest;
    }
    steps := Cons(s, Dial(p, f.dialFails), s1, steps);
  }

  /** From the dialling on. */
  lemma DialIsARun(s: State, p: nat, f: Fate) returns (steps: seq<Step>)
    requires Enabled(s, Dial(p, f.dialFails)) && !s.closed && !f.cancelled
    ensures IsRun(s, steps)
    ensures var c := s.procs[p];
            var (r, session, again) := Attempt(s, c.k, f);
            Ends(r, After(s, steps), c.k, p, Outcome(c, session, again))
  {
    var c := s.procs[p];
    var k := c.k;
    if !s.Live(k) && f.dialFails {
      steps := Cons(s, Dial(p, f.dialFails), Apply(s, Dial(p, f.dialFails)), []);
    } else {
      var r := Redialled(s, k, f);
      var s2 := r.To(p, c.(at := Opening));
      steps := OpenIsARun(s2, p, f);
      MovedTwice(r, k, p, c.(at := Opening), Outcome(c, Attempt(s, k, f).1, Attempt(s, k, f).2));
      steps := DialledRun(s, p, f, s2, steps);
    }
  }

  lemma MovedTwice(r: State, k: nat, p: nat, c: Call, d: Call)
    requires k < |r.slots| && p < |r.procs|
    ensures r.To(p, c).Unlock(k).To(p, d) == r.Unlock(k).To(p, d)
  {
    assert r.procs[p := c][p := d] == r.procs[p := d];
  }

  /** An attempt on a closed sender, or with a cancelled context. */
  lemma RefusedIsARun(s: State, p: nat, f: Fate) returns (steps: seq<Step>)
    requires IsSending(s, p, Entering) && s.slots[s.procs[p].k].owner.None? && (s.closed || f.cancelled)
    ensures IsRun(s, steps) && After(s, steps) == s.To(p, Outcome(s.procs[p], None, s.kind.Smux?))
  {
    if s.kind.Smux? {
      steps := Cons(s, FirstLook(p, f.cancelled), Apply(s, FirstLook(p, f.cancelled)), []);
    } else {
      var locked := Apply(s, Lock(p));
      var end := Apply(locked, Look(p, f.cancelled));
      assert end.slots == s.slots && end.procs == s.procs[p := Outcome(s.procs[p], None, false)];
      steps := Cons(locked, Look(p, f.cancelled), end, []);
      steps := Cons(s, Lock(p), locked, steps);
    }
  }

  lemma AttemptIsARun(s: State, p: nat, f: Fate) returns (steps: seq<Step>)
    requires IsSending(s, p, Entering) && s.slots[s.procs[p].k].owner.None?
    ensures IsRun(s, steps)
    ensures var c := s.procs[p];
            var (r, session, again) := Attempt(s, c.k, f);
            After(s, steps) == r.To(p, Outcome(c, session, again))
  {
    var c := s.procs[p];
    var k := c.k;
    var first, look := FirstLook(p, f.cancelled), Look(p, f.cancelled);
    var waiting := if s.kind.Smux? then s.To(p, c.(at := Waiting)) else s;
    var locked := Apply(waiting, Lock(p));
    if s.closed || f.cancelled {
      steps := RefusedIsARun(s, p, f);
    } else {
      var checked := Apply(locked, look);
      steps := DialIsARun(checked, p, f);
      assert checked == LockedBy(s, k, p, c.(at := Checked)) by {
        assert checked.procs == s.procs[p := c.(at := Checked)];
      }
      SameAttempt(s, checked, p, k, f);
      steps := Cons(locked, look, checked, steps);
      steps := Cons(waiting, Lock(p), locked, steps);
      if s.kind.Smux? { steps := Cons(s, first, waiting, steps); }
    }
  }

  /** The state with slot `k` locked by goroutine `p`, which has gone on to `c`. */
  function LockedBy(s: State, k: nat, p: nat, c: Call): State
    requires k < |s.slots| && p < |s.procs|
  {
    s.SetSlot(k, s.slots[k].(owner := Some(p))).To(p, c)
  }

  lemma CloseSlotLocked(s: State, k: nat, p: nat, c: Call)
    requires k < |s.slots| && p < |s.procs|
    ensures LockedBy(s, k, p, c).CloseSlot(k) == LockedBy(s.CloseSlot(k), k, p, c)
  {
    assert LockedBy(s, k, p, c).CloseSlot(k).slots == LockedBy(s.CloseSlot(k), k, p, c).slots;
  }

  lemma RedialledLocked(s: State, k: nat, p: nat, c: Call, f: Fate)
    requires k < |s.slots| && p < |s.procs|
    ensures Redialled(LockedBy(s, k, p, c), k, f) == LockedBy(Redialled(s, k, f), k, p, c)
  {
    CloseSlotLocked(s, k, p, c);
    assert Redialled(LockedBy(s, k, p, c), k, f).slots == LockedBy(Redialled(s, k, f), k, p, c).slots;
  }

  lemma UnlockedAgain(r: State, k: nat, p: nat, c: Call, d: Call)
    requires k < |r.slots| && p < |r.procs| && r.slots[k].owner.None?
    ensures LockedBy(r, k, p, c).Unlock(k).To(p, d) == r.To(p, d)
  {
    assert LockedBy(r, k, p, c).Unlock(k).slots == r.slots;
    assert LockedBy(r, k, p, c).procs[p := d] == r.procs[p := d];
  }

  /** Who holds the lock makes no difference to an attempt. */
  lemma SameAttempt(s: State, t: State, p: nat, k: nat, f: Fate)
    requires p < |s.procs| && k < |s.slots| && s.slots[k].owner.None? && s.procs[p].Sending? && s.procs[p].k == k
    requires t == LockedBy(s, k, p, s.procs[p].(at := Checked))
    ensures var (r, session, again) := Attempt(s, k, f);
            var (r', session', again') := Attempt(t, k, f);
            && session' == session && again' == again
            && r'.Unlock(k).To(p, Outcome(t.procs[p], session, again)) == r.To(p, Outcome(s.procs[p], session, again))
  {
    var (r, session, again) := Attempt(s, k, f);
    var c := s.procs[p].(at := Checked);
    RedialledLocked(s, k, p, c, f);
    UnlockedAgain(s, k, p, c, Outcome(c, session, again));
    UnlockedAgain(Redialled(s, k, f), k, p, c, Outcome(c, session, again));
  }

  // ----- the object -----

  class Sender {
    const kind: Kind
    var closed: bool
    var next: nat
    const slots: array<Option<nat>>
    var sessions: seq<bool>
    ghost var walked: seq<bool>

    ghost predicate Valid()
      reads this, slots
    {
      && slots.Length > 0 && |walked| == slots.Length
      && forall k :: 0 <= k < slots.Length && slots[k].Some? ==> slots[k].value < |sessions|
    }

    ghost function View(): State
      requires Valid()
      reads this, slots
    {
      State(kind, closed, next, seq(slots.Length, k requires 0 <= k < slots.Length reads this, slots requires Valid() =>
        Slot(slots[k], None, walked[k])), sessions, [])
    }

    /** NewSender; the smux sender demands a size of at least one, the QUIC sender falls back to its default. */
    constructor (kind: Kind, size: nat)
      requires size > 0
      ensures Valid() && fresh(slots) && View() == NewSender(kind, size)
    {
      this.kind, closed, next, sessions := kind, false, 0, [];
      slots := new Option<nat>[size](_ => None);
      walked := seq(size, _ => false);
      new;
      assert View().slots == NewSender(kind, size).slots;
    }

    /** Whatever is left of the slots after a Close: nothing. */
    lemma ClosedIsEmpty(before: State)
      requires Valid() && View() == CloseCall(before) && Inv(before) && (kind.Quic? || !before.closed)
      ensures forall k :: 0 <= k < slots.Length ==> slots[k].None?
      ensures forall j :: 0 <= j < |sessions| ==> !sessions[j]
    {
      CloseEmpties(before);
      forall k | 0 <= k < slots.Length ensures slots[k].None? { assert View().slots[k].session == slots[k]; }
    }

    /** closeSessionSlotLocked, closeSlotConnLocked. */
    method CloseSlot(k: nat)
      requires Valid() && k < slots.Length
      modifies this`sessions, slots
      ensures Valid() && View() == old(View()).CloseSlot(k)
    {
      if slots[k].None? {
        assert View().slots == View().CloseSlot(k).slots;
        return;
      }
      sessions := sessions[slots[k].value := false];
      slots[k] := None;
      assert View().slots == old(View()).CloseSlot(k).slots;
    }

    method Dial(k: nat, f: Fate)
      requires Valid() && k < slots.Length
      modifies this`sessions, slots
      ensures Valid() && View() == Redialled(old(View()), k, f)
    {
      if slots[k].Some? && sessions[slots[k].value] { return; }
      if kind.Quic? { CloseSlot(k); }
      if f.dialFails { return; }
      ghost var was := View();
      slots[k] := Some(|sessions|);
      sessions := sessions + [true];
      assert View().slots == was.slots[k := was.slots[k].(session := Some(|was.sessions|))];
    }

    method OpenStreamOnce(k: nat, f: Fate) returns (session: Option<nat>, retry: bool)
      requires Valid() && k < slots.Length
      modifies this`sessions, slots
      ensures Valid() && (View(), session, retry) == Attempt(old(View()), k, f)
    {
      if closed || f.cancelled { return None, kind.Smux?; }
      var live := slots[k].Some? && sessions[slots[k].value];
      Dial(k, f);
      if slots[k].None? || (!live && f.dialFails) { return None, kind.Smux?; }
      if f.openFails { return None, kind.Smux? || f.retryable; }
      return slots[k], false;
    }

    method OpenStream(refused: bool, first: Fate, second: Fate) returns (session: Option<nat>)
      requires Valid()
      modifies this`sessions, this`next, slots
      ensures Valid() && (View(), session) == OpenCall(old(View()), refused, first, second)
    {
      if kind.Quic? && (closed || refused) { return None; }
      var k := next % slots.Length;
      next := next + 1;
      assert View() == old(View()).(next := next);
      var retry;
      session, retry := OpenStreamOnce(k, first);
      if session.Some? || !retry { return; }
      CloseSlot(k);
      session, retry := OpenStreamOnce(k, second);
    }

    method Close()
      requires Valid()
      modifies this, slots
      ensures Valid() && View() == CloseCall(old(View()))
      ensures old(Inv(View()) && (kind.Quic? || !closed)) ==>
                (forall k :: 0 <= k < slots.Length ==> slots[k].None?) && forall j :: 0 <= j < |sessions| ==> !sessions[j]
    {
      if kind.Smux? && closed { return; }
      ghost var before := View();
      closed := true;
      assert View() == old(View()).(closed := true);
      for i := 0 to slots.Length
        invariant Valid() && WalkFrom(View(), i) == CloseCall(old(View()))
      {
        ghost var was := View();
        CloseSlot(i);
        assert View().slots[i].session.None?;
        walked := walked[i := true];
        assert View().slots == was.CloseSlot(i).SetSlot(i, Slot(None, None, true)).slots;
      }
      if Inv(before) { ClosedIsEmpty(before); }
    }
  }
}
