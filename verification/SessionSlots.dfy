/** The session slots of the smux and QUIC ingest senders (internal/ingestsmux/client.go,
    internal/ingestquic/client.go) as a step relation: lazy dialling under a slot's lock races with Close. */
module SessionSlots {
  import opened Octets

  /** The two senders differ in three places: a second Close of the smux sender returns at once, the smux sender looks
      at its closed flag once more after dialling, and the QUIC sender retries only when opening a stream failed. */
  datatype Kind = Smux | Quic

  /** `walked` records that a Close has passed over the slot. */
  datatype Slot = Slot(session: Option<nat>, owner: Option<nat>, walked: bool)

  datatype At = Entering | Waiting | Locked | Checked | Dialled | Opening | Resetting

  datatype Answer = Nothing | Opened(session: nat) | Failed | CloseWalked | CloseSkipped

  datatype Call =
    | Idle(answer: Answer)
    | Sending(k: nat, retried: bool, at: At)
    | Closing(i: nat)

  /** `sessions[i]` says whether the i-th session dialled is open. */
  datatype State = State(kind: Kind, closed: bool, next: nat, slots: seq<Slot>, sessions: seq<bool>, procs: seq<Call>)
  {
    function To(p: nat, c: Call): State
      requires p < |procs|
    {
      this.(procs := procs[p := c])
    }

    function SetSlot(k: nat, x: Slot): State
      requires k < |slots|
    {
      this.(slots := slots[k := x])
    }

    /** closeSessionSlotLocked. */
    function CloseSlot(k: nat): State
      requires k < |slots|
    {
      var s := if slots[k].session.Some? && slots[k].session.value < |sessions|
               then this.(sessions := sessions[slots[k].session.value := false]) else this;
      s.SetSlot(k, slots[k].(session := None))
    }

    function Unlock(k: nat): State
      requires k < |slots|
    {
      SetSlot(k, slots[k].(owner := None))
    }

    predicate Live(k: nat) {
      k < |slots| && slots[k].session.Some? && slots[k].session.value < |sessions| && sessions[slots[k].session.value]
    }
  }

  function NewSender(kind: Kind, size: nat): State {
    State(kind, false, 0, seq(size, _ => Slot(None, None, false)), [], [])
  }

  datatype Step =
    | Spawn
    | Pick(p: nat, refused: bool)
    | FirstLook(p: nat, cancelled: bool)
    | Lock(p: nat)
    | Look(p: nat, cancelled: bool)
    | Dial(p: nat, fails: bool)
    | LookAgain(p: nat)
    | Open(p: nat, fails: bool, retryable: bool)
    | Reset(p: nat)
    | BeginClose(p: nat)
    | Walk(p: nat)
    | PeerCloses(session: nat)

  predicate IsSending(s: State, p: nat, at: At) {
    p < |s.procs| && s.procs[p].Sending? && s.procs[p].at == at && s.procs[p].k < |s.slots|
  }

  predicate Free(s: State, p: nat) {
    p < |s.procs| && s.procs[p].Idle?
  }

  predicate Enabled(s: State, step: Step) {
    match step
    case Spawn => true
    case Pick(p, _) => Free(s, p) && |s.slots| > 0
    case FirstLook(p, _) => IsSending(s, p, Entering) && s.kind.Smux?
    case Lock(p) => IsSending(s, p, if s.kind.Smux? then Waiting else Entering) && s.slots[s.procs[p].k].owner.None?
    case Look(p, _) => IsSending(s, p, Locked)
    case Dial(p, _) => IsSending(s, p, Checked)
    case LookAgain(p) => IsSending(s, p, Dialled)
    case Open(p, _, _) => IsSending(s, p, Opening) && s.slots[s.procs[p].k].session.Some?
    case Reset(p) => IsSending(s, p, Resetting) && s.slots[s.procs[p].k].owner.None?
    case BeginClose(p) => Free(s, p)
    case Walk(p) => p < |s.procs| && s.procs[p].Closing? && (s.procs[p].i < |s.slots| ==> s.slots[s.procs[p].i].owner.None?)
    case PeerCloses(i) => i < |s.sessions|
  }

  /** What a failed attempt does next. */
  function AfterFailure(c: Call, retry: bool): Call
    requires c.Sending?
  {
    if retry && !c.retried then c.(at := Resetting) else Idle(Failed)
  }

  function Apply(s: State, step: Step): State
    requires Enabled(s, step)
  {
    match step
    case Spawn => s.(procs := s.procs + [Idle(Nothing)])
    case Pick(p, refused) =>
      if s.kind.Quic? && (s.closed || refused) then s.To(p, Idle(Failed))
      else s.(next := s.next + 1).To(p, Sending(s.next % |s.slots|, false, Entering))
    case FirstLook(p, cancelled) =>
      if s.closed || cancelled then s.To(p, AfterFailure(s.procs[p], true)) else s.To(p, s.procs[p].(at := Waiting))
    case Lock(p) => s.SetSlot(s.procs[p].k, s.slots[s.procs[p].k].(owner := Some(p))).To(p, s.procs[p].(at := Locked))
    case Look(p, cancelled) =>
      if s.closed || cancelled then s.Unlock(s.procs[p].k).To(p, AfterFailure(s.procs[p], s.kind.Smux?))
      else s.To(p, s.procs[p].(at := Checked))
    case Dial(p, fails) =>
      (var k := s.procs[p].k;
       if s.Live(k) then s.To(p, s.procs[p].(at := Opening))
       else
         var s' := if s.kind.Quic? then s.CloseSlot(k) else s;
         if fails then s'.Unlock(k).To(p, AfterFailure(s.procs[p], s.kind.Smux?))
         else s'.SetSlot(k, s'.slots[k].(session := Some(|s.sessions|))).(sessions := s'.sessions + [true])
               .To(p, s.procs[p].(at := if s.kind.Smux? then Dialled else Opening)))
    case LookAgain(p) =>
      (var k := s.procs[p].k;
       if s.closed then s.CloseSlot(k).Unlock(k).To(p, AfterFailure(s.procs[p], true))
       else s.To(p, s.procs[p].(at := Opening)))
    case Open(p, fails, retryable) =>
      (var k := s.procs[p].k;
       if fails then s.Unlock(k).To(p, AfterFailure(s.procs[p], s.kind.Smux? || retryable))
       else s.Unlock(k).To(p, Idle(Opened(s.slots[k].session.value))))
    case Reset(p) => s.CloseSlot(s.procs[p].k).To(p, s.procs[p].(retried := true, at := Entering))
    case BeginClose(p) =>
      if s.kind.Smux? && s.closed then s.To(p, Idle(CloseSkipped)) else s.(closed := true).To(p, Closing(0))
    case Walk(p) =>
      (var i := s.procs[p].i;
       if i < |s.slots| then s.CloseSlot(i).SetSlot(i, Slot(None, None, true)).To(p, Closing(i + 1))
       else s.To(p, Idle(CloseWalked)))
    case PeerCloses(i) => s.(sessions := s.sessions[i := false])
  }

  predicate IsRun(s: State, steps: seq<Step>)
    decreases |steps|
  {
    steps != [] ==> Enabled(s, steps[0]) && IsRun(Apply(s, steps[0]), steps[1..])
  }

  function After(s: State, steps: seq<Step>): State
    requires IsRun(s, steps)
    decreases |steps|
  {
    if steps == [] then s else After(Apply(s, steps[0]), steps[1..])
  }
}
