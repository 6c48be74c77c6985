/** When openStream succeeds, and with which session, said of what the outside decides (internal/ingestsmux/client.go,
    internal/ingestquic/client.go); and the fact that an undisturbed openStream is a run of the step relation. */
module SessionOutcomes {
  import opened Octets
  import opened SessionSlots
  import opened SessionTheorems
  import opened SessionSender

  /** Slots hold sessions that have been dialled. */
  predicate Dialled(s: State) {
    forall k :: 0 <= k < |s.slots| && s.slots[k].session.Some? ==> s.slots[k].session.value < |s.sessions|
  }

  /** The attempt gets through, with or without a live session in the slot. */
  predicate Good(f: Fate, live: bool) {
    !f.cancelled && (live || !f.dialFails) && !f.openFails
  }

  /** A failed attempt is tried again: always by the smux sender, by the QUIC sender only if opening the stream failed and
      may be retried. */
  predicate Again(kind: Kind, f: Fate, live: bool) {
    kind.Smux? || (!f.cancelled && (live || !f.dialFails) && f.openFails && f.retryable)
  }

  lemma FirstAttempt(s: State, k: nat, f: Fate)
    requires k < |s.slots| && Dialled(s)
    ensures var live := s.slots[k].session.Some? && s.sessions[s.slots[k].session.value];
            var (r, session, again) := Attempt(s, k, f);
            && Dialled(r) && |r.slots| == |s.slots| && r.closed == s.closed && r.kind == s.kind && r.next == s.next
            && (session.Some? <==> !s.closed && Good(f, live))
            && (session.Some? ==> session.value < |r.sessions| && r.sessions[session.value] && r.slots[k].session == session)
            && (session.Some? && live ==> r == s)
            && (session.Some? && !live ==> session == Some(|s.sessions|) && |r.sessions| == |s.sessions| + 1)
            && (session.None? ==> (again <==> if s.closed then s.kind.Smux? else Again(s.kind, f, live)))
            && |r.sessions| <= |s.sessions| + 1
  {
  }

  lemma AfterReset(s: State, k: nat)
    requires k < |s.slots| && Dialled(s)
    ensures var r := s.CloseSlot(k);
            Dialled(r) && |r.slots| == |s.slots| && r.closed == s.closed && r.kind == s.kind && r.slots[k].session.None? && |r.sessions| == |s.sessions|
  {
  }

  /** `r` and `session` are what comes of the attempts on slot `k` of `s`: a session exactly if the sender is open and the
      first attempt gets through, or is tried again on a fresh session and gets through then.  It is open and held in that
      slot; a live session is used as it is, without dialling. */
  predicate Opens(s: State, k: nat, first: Fate, second: Fate, r: State, session: Option<nat>)
    requires k < |s.slots| && Dialled(s)
  {
    var live := s.slots[k].session.Some? && s.sessions[s.slots[k].session.value];
    && (session.Some? <==> !s.closed && (Good(first, live) || (Again(s.kind, first, live) && Good(second, false))))
    && (session.Some? ==>
          && |r.slots| == |s.slots| && session.value < |r.sessions| && r.sessions[session.value] && r.slots[k].session == session
          && r.next == s.next)
    && (session.Some? && live && Good(first, live) ==> session == s.slots[k].session && r.sessions == s.sessions)
    && (session.Some? && !(live && Good(first, live)) ==> session.value >= |s.sessions|)
  }

  /** The first attempt, and if it fails and is tried again, the second. */
  function Tried(s: State, k: nat, first: Fate, second: Fate): (State, Option<nat>)
    requires k < |s.slots|
  {
    var (s1, r1, again) := Attempt(s, k, first);
    if r1.Some? || !again then (s1, r1) else Retried(s1, k, second)
  }

  function Retried(s: State, k: nat, f: Fate): (State, Option<nat>)
    requires k < |s.slots|
  {
    var (r, session, _) := Attempt(s.CloseSlot(k), k, f);
    (r, session)
  }

  lemma TwoAttempts(s: State, k: nat, first: Fate, second: Fate)
    requires k < |s.slots| && Dialled(s)
    ensures Opens(s, k, first, second, Tried(s, k, first, second).0, Tried(s, k, first, second).1)
  {
    FirstAttempt(s, k, first);
    var (s1, r1, again) := Attempt(s, k, first);
    if r1.None? && again { SecondAttempt(s1, k, second, |s.sessions|); }
  }

  lemma SecondAttempt(s: State, k: nat, f: Fate, before: nat)
    requires k < |s.slots| && Dialled(s) && before <= |s.sessions|
    ensures var (r, session) := Retried(s, k, f);
            && (session.Some? <==> !s.closed && Good(f, false)) && |r.slots| == |s.slots| && r.next == s.next
            && (session.Some? ==> before <= session.value < |r.sessions| && r.sessions[session.value] && r.slots[k].session == session)
  {
    AfterReset(s, k);
    FirstAttempt(s.CloseSlot(k), k, f);
  }

  /** Exactly when openStream returns a stream, and on which session: nothing for a closed or refused QUIC sender, and
      otherwise what comes of the attempts on the slot whose turn it is. */
  lemma OpensExactlyWhen(s: State, refused: bool, first: Fate, second: Fate)
    requires |s.slots| > 0 && Dialled(s)
    ensures s.kind.Quic? && (s.closed || refused) ==> OpenCall(s, refused, first, second) == (s, None)
    ensures !(s.kind.Quic? && (s.closed || refused)) ==>
              && OpenCall(s, refused, first, second) == Tried(s.(next := s.next + 1), s.next % |s.slots|, first, second)
              && Opens(s.(next := s.next + 1), s.next % |s.slots|, first, second,
                       Tried(s.(next := s.next + 1), s.next % |s.slots|, first, second).0,
                       Tried(s.(next := s.next + 1), s.next % |s.slots|, first, second).1)
  {
    TwoAttempts(s.(next := s.next + 1), s.next % |s.slots|, first, second);
  }

  // ----- an undisturbed openStream is a run -----

  /** An attempt neither looks at the goroutines nor takes the lock for good. */
  lemma AttemptAside(s: State, k: nat, f: Fate, p: nat, c: Call)
    requires k < |s.slots| && p < |s.procs|
    ensures var (r, session, again) := Attempt(s, k, f);
            && Attempt(s.To(p, c), k, f) == (r.To(p, c), session, again)
            && |r.slots| == |s.slots| && |r.procs| == |s.procs| && r.slots[k].owner == s.slots[k].owner && r.kind == s.kind
  {
  }

  lemma Twice(s: State, p: nat, c: Call, d: Call)
    requires p < |s.procs|
    ensures s.To(p, c).To(p, d) == s.To(p, d)
  {
    assert s.procs[p := c][p := d] == s.procs[p := d];
  }

  function Answered(session: Option<nat>): Call {
    Idle(if session.Some? then Opened(session.value) else Failed)
  }

  /** `r` with the answer of goroutine `p`. */
  function Returned(r: State, p: nat, session: Option<nat>): State {
    if p < |r.procs| then r.To(p, Answered(session)) else r
  }

  /** One attempt, from a goroutine that is about to make it. */
  lemma AttemptRun(s: State, p: nat, c: Call, f: Fate) returns (steps: seq<Step>)
    requires p < |s.procs| && c.Sending? && c.at.Entering? && c.k < |s.slots| && s.slots[c.k].owner.None?
    ensures var (r, session, again) := Attempt(s, c.k, f);
            IsRun(s.To(p, c), steps) && After(s.To(p, c), steps) == r.To(p, Outcome(c, session, again))
  {
    var (r, session, again) := Attempt(s, c.k, f);
    steps := AttemptIsARun(s.To(p, c), p, f);
    AttemptAside(s, c.k, f, p, c);
    Twice(r, p, c, Outcome(c, session, again));
  }

  lemma {:induction false} Joined(s: State, a: seq<Step>, b: seq<Step>)
    requires IsRun(s, a) && IsRun(After(s, a), b)
    ensures IsRun(s, a + b) && After(s, a + b) == After(After(s, a), b)
    decreases |a|
  {
    if a == [] {
      assert a + b == b;
    } else {
      Joined(Apply(s, a[0]), a[1..], b);
      assert (a + b)[1..] == a[1..] + b;
    }
  }

  /** Reset and the second attempt. */
  lemma SecondRun(s: State, p: nat, c: Call, f: Fate) returns (steps: seq<Step>)
    requires p < |s.procs| && c.Sending? && c.at.Resetting? && !c.retried && c.k < |s.slots| && s.slots[c.k].owner.None?
    ensures var (r, session, _) := Attempt(s.CloseSlot(c.k), c.k, f);
            IsRun(s.To(p, c), steps) && After(s.To(p, c), steps) == r.To(p, Answered(session))
  {
    var t, d := s.CloseSlot(c.k), c.(retried := true, at := Entering);
    steps := AttemptRun(t, p, d, f);
    Twice(t, p, c, d);
    assert s.To(p, c).CloseSlot(c.k) == t.To(p, c);
    steps := Cons(s.To(p, c), Reset(p), t.To(p, d), steps);
  }

  /** openStream, undisturbed: pick a slot, attempt, and perhaps reset and attempt once more. */
  lemma OpenStreamIsARun(s: State, p: nat, refused: bool, first: Fate, second: Fate) returns (steps: seq<Step>)
    requires Free(s, p) && |s.slots| > 0 && s.slots[s.next % |s.slots|].owner.None?
    ensures var (r, session) := OpenCall(s, refused, first, second);
            IsRun(s, steps) && After(s, steps) == Returned(r, p, session) && p < |r.procs|
  {
    if s.kind.Quic? && (s.closed || refused) {
      steps := Cons(s, Pick(p, refused), s.To(p, Idle(Failed)), []);
    } else {
      var k := s.next % |s.slots|;
      var s0, c := s.(next := s.next + 1), Sending(k, false, Entering);
      steps := BothAttempts(s0, p, c, first, second);
      steps := Cons(s, Pick(p, refused), s0.To(p, c), steps);
    }
  }

  lemma BothAttempts(s: State, p: nat, c: Call, first: Fate, second: Fate) returns (steps: seq<Step>)
    requires p < |s.procs| && c.Sending? && c.at.Entering? && !c.retried && c.k < |s.slots| && s.slots[c.k].owner.None?
    ensures var (s1, r1, again) := Attempt(s, c.k, first);
            IsRun(s.To(p, c), steps)
            && if r1.Some? || !again then After(s.To(p, c), steps) == Returned(s1, p, r1) && p < |s1.procs|
               else var (s2, r2, _) := Attempt(s1.CloseSlot(c.k), c.k, second); After(s.To(p, c), steps) == Returned(s2, p, r2) && p < |s2.procs|
  {
    var (s1, r1, again) := Attempt(s, c.k, first);
    AttemptAside(s, c.k, first, p, c);
    steps := AttemptRun(s, p, c, first);
    if r1.None? && again { steps := Retries(s.To(p, c), steps, s1, p, c, second); }
  }

  lemma Retries(s0: State, steps: seq<Step>, s: State, p: nat, c: Call, f: Fate) returns (all: seq<Step>)
    requires p < |s.procs| && c.Sending? && c.at.Entering? && !c.retried && c.k < |s.slots| && s.slots[c.k].owner.None?
    requires IsRun(s0, steps) && After(s0, steps) == s.To(p, c.(at := Resetting))
    ensures var (r, session, _) := Attempt(s.CloseSlot(c.k), c.k, f);
            IsRun(s0, all) && After(s0, all) == Returned(r, p, session) && p < |r.procs|
  {
    var more := SecondRun(s, p, c.(at := Resetting), f);
    AttemptAside(s.CloseSlot(c.k), c.k, f, p, c);
    Joined(s0, steps, more);
    all := steps + more;
  }
}
