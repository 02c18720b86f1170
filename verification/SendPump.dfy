/** The sending half of a session: sender threads, one io thread, two buffers, at most one write in flight. */
module SendPump {
  import opened Bytes
  import opened Threads

  type Data = seq<Byte>

  /** Who holds write_mutex_. */
  datatype Owner = Free | HeldBySender(t: nat) | HeldByIo

  /** Where a thread is inside send: outside, spinning, holding the lock, having appended, having released. */
  datatype SenderPc = Idle | Waiting(data: Data) | Locked(data: Data) | Appended | Released

  /** Where the io thread is: between handlers, or at a point of the flush handler, do_send or the write completion. */
  datatype IoPc = Quiet | Flushing | Entering | WantSwap | HoldSwap | HeldSwapped | Swapped | WantCheck | Checking

  datatype Write = NoWrite | InFlight(bytes: Data)

  /** connected: the socket has once been open; a session has one connection. */
  datatype Pump = Pump(
    open: bool, connected: bool, failed: bool, lock: Owner,
    sendBuffer: Data, cacheBuffer: Data, sending: bool,
    write: Write, written: Data,
    flushes: nat, closes: nat,
    io: IoPc, senders: map<nat, SenderPc>,
    log: seq<Data>)

  datatype Action =
    | Begin(t: nat, data: Data) | Acquire(t: nat) | Append(t: nat) | Release(t: nat) | Post(t: nat)
    | Open | RunFlush | Io | WriteDone | WriteFailed(partial: nat) | PostClose | RunClose

  function PcOf(s: Pump, t: nat): SenderPc {
    if t in s.senders then s.senders[t] else Idle
  }

  /** A new session, not yet connected. */
  function Init(): Pump {
    Pump(false, false, false, Free, [], [], false, NoWrite, [], 0, 0, Quiet, map[], [])
  }

  /** One atomic step; an action that is not enabled leaves the state as it is. */
  function Step(s: Pump, a: Action): Pump {
    match a
    case Begin(t, data) =>
      if PcOf(s, t).Idle? then s.(senders := s.senders[t := Waiting(data)]) else s
    case Acquire(t) =>
      if PcOf(s, t).Waiting? && s.lock.Free?
      then s.(lock := HeldBySender(t), senders := s.senders[t := Locked(PcOf(s, t).data)]) else s
    case Append(t) =>
      if PcOf(s, t).Locked?
      then s.(sendBuffer := s.sendBuffer + PcOf(s, t).data, log := s.log + [PcOf(s, t).data],
              senders := s.senders[t := Appended]) else s
    case Release(t) =>
      if PcOf(s, t).Appended? then s.(lock := Free, senders := s.senders[t := Released]) else s
    case Post(t) =>
      if PcOf(s, t).Released? then s.(flushes := s.flushes + 1, senders := s.senders[t := Idle]) else s
    case Open => if s.connected then s else s.(open := true, connected := true)
    case RunFlush =>
      if s.io.Quiet? && s.flushes > 0 then s.(flushes := s.flushes - 1, io := Flushing) else s
    case Io => IoStep(s)
    case WriteDone =>
      if s.io.Quiet? && s.write.InFlight?
      then s.(sending := false, cacheBuffer := [], written := s.written + s.write.bytes, write := NoWrite,
              io := WantCheck)
      else s
    case WriteFailed(n) =>
      if s.io.Quiet? && s.write.InFlight? && n <= |s.write.bytes|
      then s.(sending := false, failed := true, written := s.written + s.write.bytes[..n], write := NoWrite,
              closes := s.closes + 1)
      else s
    case PostClose => s.(closes := s.closes + 1)
    case RunClose =>
      if s.io.Quiet? && s.closes > 0 then s.(closes := s.closes - 1, open := false) else s
  }

  /** The io thread's next step inside a handler. */
  function IoStep(s: Pump): Pump {
    match s.io
    case Quiet => s
    case Flushing => s.(io := if s.sending then Quiet else Entering)
    case Entering => s.(io := if s.open then WantSwap else Quiet)
    case WantSwap => if s.lock.Free? then s.(lock := HeldByIo, io := HoldSwap) else s
    case HoldSwap => s.(sendBuffer := s.cacheBuffer, cacheBuffer := s.sendBuffer, io := HeldSwapped)
    case HeldSwapped => s.(lock := Free, io := Swapped)
    case Swapped =>
      if s.cacheBuffer == [] then s.(sending := false, io := Quiet)
      else s.(sending := true, write := InFlight(s.cacheBuffer), io := Quiet)
    case WantCheck => if s.lock.Free? then s.(lock := HeldByIo, io := Checking) else s
    case Checking => s.(lock := Free, io := if s.sendBuffer == [] then Quiet else Entering)
  }

  /** k steps of the io thread with nobody interfering. */
  function Ios(s: Pump, k: nat): Pump
    decreases k
  {
    if k == 0 then s else Ios(IoStep(s), k - 1)
  }

  function Exec(s: Pump, acts: seq<Action>): Pump {
    if acts == [] then s else Step(Exec(s, acts[..|acts| - 1]), acts[|acts| - 1])
  }

  // ---------------------------------------------------------------- invariants

  predicate Holding(pc: SenderPc) {
    pc.Locked? || pc.Appended?
  }

  /** The lock is held by exactly the thread that is inside a critical section. */
  ghost predicate LockInv(s: Pump) {
    && (forall t: nat :: Holding(PcOf(s, t)) <==> s.lock == HeldBySender(t))
    && (s.lock.HeldByIo? <==> s.io.HoldSwap? || s.io.HeldSwapped? || s.io.Checking?)
  }

  /** The outstanding write is of cache_buffer_ as it is, and do_send is not running meanwhile. */
  ghost predicate WriteInv(s: Pump) {
    && (s.open || s.failed || s.write.InFlight? ==> s.connected)
    && (s.sending <==> s.write.InFlight?)
    && (s.write.InFlight? ==> s.cacheBuffer == s.write.bytes != [] && (s.io.Quiet? || s.io.Flushing?))
    && (s.io.WantSwap? || s.io.HoldSwap? || s.io.HeldSwapped? || s.io.Swapped? ==> s.open)
    && (!s.failed && s.cacheBuffer != [] ==> s.write.InFlight? || s.io.HeldSwapped? || s.io.Swapped?)
    && (!s.failed && s.io.HeldSwapped? ==> s.sendBuffer == [])
  }

  ghost predicate OrderInv(s: Pump) {
    !s.failed ==> s.written + s.cacheBuffer + s.sendBuffer == Flatten(s.log)
  }

  /** Something is under way that will look at send_buffer_. */
  ghost predicate Awake(s: Pump) {
    || s.write.InFlight?
    || s.flushes > 0
    || s.io.Flushing? || s.io.Entering? || s.io.WantSwap? || s.io.HoldSwap? || s.io.WantCheck? || s.io.Checking?
    || exists t: nat :: PcOf(s, t).Appended? || PcOf(s, t).Released?
  }

  ghost predicate WakeInv(s: Pump) {
    s.open && !s.failed && s.sendBuffer != [] ==> Awake(s)
  }

  ghost predicate Inv(s: Pump) {
    LockInv(s) && WriteInv(s) && OrderInv(s)
  }

  /** The socket is connected although bytes wait that nothing under way will look at: a flush has come too early,
      when do_send still found the socket closed. */
  ghost predicate BlindOpen(s: Pump, a: Action) {
    a.Open? && !s.connected && s.sendBuffer != [] && !Awake(s)
  }

  predicate HolderAt(s: Pump, t: nat) {
    Holding(PcOf(s, t)) <==> s.lock == HeldBySender(t)
  }

  predicate SenderAction(a: Action) {
    a.Begin? || a.Acquire? || a.Append? || a.Release? || a.Post?
  }

  lemma SenderKeepsHolder(s: Pump, a: Action, t: nat)
    requires SenderAction(a) && HolderAt(s, a.t) && HolderAt(s, t)
    ensures HolderAt(Step(s, a), t)
  {
    var s' := Step(s, a);
    assert t != a.t ==> PcOf(s', t) == PcOf(s, t);
  }

  lemma StepKeepsHolder(s: Pump, a: Action, t: nat)
    requires LockInv(s)
    ensures HolderAt(Step(s, a), t)
  {
    assert HolderAt(s, t);
    if SenderAction(a) {
      assert HolderAt(s, a.t);
      SenderKeepsHolder(s, a, t);
    } else {
      assert PcOf(Step(s, a), t) == PcOf(s, t);
    }
  }

  lemma StepKeepsIoHolder(s: Pump, a: Action)
    requires LockInv(s)
    ensures var s' := Step(s, a);
            s'.lock.HeldByIo? <==> s'.io.HoldSwap? || s'.io.HeldSwapped? || s'.io.Checking?
  {
    if a.Append? || a.Release? {
      assert HolderAt(s, a.t);
    }
  }

  lemma StepKeepsLock(s: Pump, a: Action)
    requires LockInv(s)
    ensures LockInv(Step(s, a))
  {
    var s' := Step(s, a);
    StepKeepsIoHolder(s, a);
    forall t: nat ensures Holding(PcOf(s', t)) <==> s'.lock == HeldBySender(t) {
      StepKeepsHolder(s, a, t);
    }
  }

  lemma StepKeepsWrite(s: Pump, a: Action)
    requires LockInv(s) && WriteInv(s)
    ensures WriteInv(Step(s, a))
  {
  }

  lemma StepKeepsOrder(s: Pump, a: Action)
    requires LockInv(s) && WriteInv(s) && OrderInv(s)
    ensures OrderInv(Step(s, a))
  {
    if a.Append? && PcOf(s, a.t).Locked? {
      FlattenSnoc(s.log, PcOf(s, a.t).data);
      assert s.written + s.cacheBuffer + (s.sendBuffer + PcOf(s, a.t).data)
          == (s.written + s.cacheBuffer + s.sendBuffer) + PcOf(s, a.t).data;
    } else if a.WriteDone? {
      assert s.written + s.cacheBuffer + [] == s.written + s.cacheBuffer;
    } else if a.Io? && s.io.HoldSwap? && !s.failed {
      assert s.cacheBuffer == [];
      assert s.written + [] + s.sendBuffer == s.written + s.sendBuffer + [];
    }
  }

  lemma StepKeepsWake(s: Pump, a: Action)
    requires LockInv(s) && WriteInv(s) && WakeInv(s) && !BlindOpen(s, a)
    ensures WakeInv(Step(s, a))
  {
    var s' := Step(s, a);
    if s'.open && !s'.failed && s'.sendBuffer != [] && s' != s {
      if a.Append? {
        assert PcOf(s', a.t).Appended?;
      } else if exists t: nat :: PcOf(s, t).Appended? || PcOf(s, t).Released? {
        var t: nat :| PcOf(s, t).Appended? || PcOf(s, t).Released?;
        assert PcOf(s', t).Appended? || PcOf(s', t).Released? || s'.flushes > 0;
      }
    }
  }

  lemma {:induction false} Reachable(acts: seq<Action>)
    ensures Inv(Exec(Init(), acts))
    decreases |acts|
  {
    if acts == [] {
    } else {
      var s, a := Exec(Init(), acts[..|acts| - 1]), acts[|acts| - 1];
      Reachable(acts[..|acts| - 1]);
      StepKeepsLock(s, a);
      StepKeepsWrite(s, a);
      StepKeepsOrder(s, a);
    }
  }

  // ---------------------------------------------------------------- results over all runs

  /** Until a write fails: bytes written, then those in flight, then those waiting are all data appended, in order. */
  lemma PumpOrder(acts: seq<Action>)
    ensures var s := Exec(Init(), acts);
            !s.failed ==> s.written + s.cacheBuffer + s.sendBuffer == Flatten(s.log) && s.written <= Flatten(s.log)
  {
    Reachable(acts);
    var s := Exec(Init(), acts);
    PrefixOfJoin(s.written, s.cacheBuffer, s.sendBuffer, 0);
  }

  lemma FailingStepLeavesPrefix(s: Pump, n: nat)
    requires WriteInv(s) && OrderInv(s) && !s.failed && s.write.InFlight? && n <= |s.write.bytes|
    ensures s.written + s.write.bytes[..n] <= Flatten(s.log)
  {
    PrefixOfJoin(s.written, s.write.bytes, s.sendBuffer, n);
  }

  lemma PrefixOfJoin(a: Data, b: Data, c: Data, n: nat)
    requires n <= |b|
    ensures a <= a + b + c && a + b[..n] <= a + b + c
  {
  }

  /** The first failed write still leaves a prefix on the wire. */
  lemma FirstFailure(acts: seq<Action>, a: Action)
    requires !Exec(Init(), acts).failed
    ensures Exec(Init(), acts + [a]).written <= Flatten(Exec(Init(), acts + [a]).log)
  {
    assert (acts + [a])[..|acts|] == acts;
    Reachable(acts);
    AnyStepLeavesPrefix(Exec(Init(), acts), a);
  }

  lemma AnyStepLeavesPrefix(s: Pump, a: Action)
    requires LockInv(s) && WriteInv(s) && OrderInv(s) && !s.failed
    ensures Step(s, a).written <= Flatten(Step(s, a).log)
  {
    var s' := Step(s, a);
    if s'.failed {
      FailingStepLeavesPrefix(s, a.partial);
    } else {
      StepKeepsOrder(s, a);
      PrefixOfJoin(s'.written, s'.cacheBuffer, s'.sendBuffer, 0);
    }
  }

  /** At most one write is outstanding: a write starts only when none is, on an open socket, and its buffer stays
      untouched until it ends. */
  lemma OneWriteAtATime(acts: seq<Action>, a: Action)
    ensures var s := Exec(Init(), acts);
            var s' := Step(s, a);
            && (s.write.InFlight? ==> s.cacheBuffer == s.write.bytes)
            && (s.io.Swapped? ==> s.write.NoWrite?)   // the point at which do_send starts a write
            && (s.write.InFlight? && s'.write.InFlight? ==> s'.write == s.write && s'.cacheBuffer == s.cacheBuffer)
            && (s'.write.InFlight? && s'.write != s.write ==> s.write.NoWrite? && s.open)
  {
    Reachable(acts);
  }

  /** The socket is never connected while bytes wait unattended. */
  ghost predicate Sighted(acts: seq<Action>) {
    || acts == []
    || (Sighted(acts[..|acts| - 1]) && !BlindOpen(Exec(Init(), acts[..|acts| - 1]), acts[|acts| - 1]))
  }

  /** At every point of the run, unsent bytes on a healthy open socket are in somebody's care. */
  ghost predicate AwakeThroughout(acts: seq<Action>) {
    WakeInv(Exec(Init(), acts)) && (acts == [] || AwakeThroughout(acts[..|acts| - 1]))
  }

  /** No wakeup is lost in a run if and only if the socket is not connected behind a flush that came too early. */
  lemma {:induction false} NoLostWakeupExactly(acts: seq<Action>)
    ensures AwakeThroughout(acts) <==> Sighted(acts)
    decreases |acts|
  {
    if acts != [] {
      var prefix, a := acts[..|acts| - 1], acts[|acts| - 1];
      NoLostWakeupExactly(prefix);
      Reachable(prefix);
      if AwakeThroughout(prefix) { WakeStepExactly(Exec(Init(), prefix), a); }
    }
  }

  lemma WakeStepExactly(s: Pump, a: Action)
    requires LockInv(s) && WriteInv(s) && WakeInv(s)
    ensures WakeInv(Step(s, a)) <==> !BlindOpen(s, a)
  {
    if BlindOpen(s, a) { BlindOpenBreaks(s); } else { StepKeepsWake(s, a); }
  }

  lemma BlindOpenBreaks(s: Pump)
    requires WriteInv(s) && BlindOpen(s, Open)
    ensures !WakeInv(Step(s, Open))
  {
    var s' := Step(s, Open);
    forall t: nat ensures PcOf(s', t) == PcOf(s, t) {}
  }

  /** What that means: unsent bytes on a healthy open socket are about to be looked at. */
  lemma NoLostWakeup(acts: seq<Action>)
    requires Sighted(acts)
    ensures var s := Exec(Init(), acts);
            s.open && !s.failed && s.sendBuffer != [] ==>
              || s.write.InFlight?
              || s.flushes > 0
              || !s.io.Quiet?
              || exists t: nat :: PcOf(s, t).Appended? || PcOf(s, t).Released?
  {
    NoLostWakeupExactly(acts);
  }

  /** From every reachable state in which the session is still to be connected: connecting it loses no wakeup, then or
      later, if and only if no bytes wait or something under way will look at them. */
  lemma OpeningExactly(acts: seq<Action>)
    requires !Exec(Init(), acts).connected
    ensures var s := Exec(Init(), acts);
            (forall more :: WakeInv(Exec(Step(s, Open), more))) <==> s.sendBuffer == [] || Awake(s)
  {
    Reachable(acts);
    OpeningFrom(Exec(Init(), acts));
  }

  lemma OpeningFrom(s: Pump)
    requires LockInv(s) && WriteInv(s) && !s.connected
    ensures (forall more :: WakeInv(Exec(Step(s, Open), more))) <==> s.sendBuffer == [] || Awake(s)
  {
    var s' := Step(s, Open);
    if s.sendBuffer == [] || Awake(s) {
      StepKeepsLock(s, Open);
      StepKeepsWrite(s, Open);
      StepKeepsWake(s, Open);
      forall more ensures WakeInv(Exec(s', more)) { StaysAwake(s', more); }
    } else {
      BlindOpenBreaks(s);
      NowIsAContinuation(s');
    }
  }

  lemma NowIsAContinuation(s: Pump)
    requires !WakeInv(s)
    ensures exists more :: !WakeInv(Exec(s, more))
  {
    var none: seq<Action> := [];
    assert Exec(s, none) == s;
  }

  lemma {:induction false} StaysAwake(s: Pump, acts: seq<Action>)
    requires LockInv(s) && WriteInv(s) && WakeInv(s) && s.connected
    ensures var s' := Exec(s, acts); LockInv(s') && WriteInv(s') && WakeInv(s') && s'.connected
    decreases |acts|
  {
    if acts != [] {
      var r, a := Exec(s, acts[..|acts| - 1]), acts[|acts| - 1];
      StaysAwake(s, acts[..|acts| - 1]);
      StepKeepsLock(r, a);
      StepKeepsWrite(r, a);
      StepKeepsWake(r, a);
      OpenedStays(r, a);
    }
  }

  lemma OpenedStays(s: Pump, a: Action)
    requires s.connected
    ensures Step(s, a).connected
  {
  }

  /** When nothing is under way on a healthy open socket, everything appended has been written. */
  lemma QuiescentMeansSent(acts: seq<Action>)
    requires Sighted(acts)
    ensures Unattended(Exec(Init(), acts)) ==> Exec(Init(), acts).written == Flatten(Exec(Init(), acts).log)
  {
    Reachable(acts);
    NoLostWakeupExactly(acts);
    var s := Exec(Init(), acts);
    if s.sendBuffer == [] && s.cacheBuffer == [] && !s.failed {
      assert s.written + s.cacheBuffer + s.sendBuffer == s.written;
    }
  }

  /** A healthy open session in which nothing is under way. */
  ghost predicate Unattended(s: Pump) {
    s.open && !s.failed && s.io.Quiet? && s.flushes == 0 && s.write.NoWrite? && forall t: nat :: PcOf(s, t).Idle?
  }

  /** After a failed write a close handler is posted or the socket is already closed. */
  lemma {:induction false} FailureCloses(acts: seq<Action>)
    ensures var s := Exec(Init(), acts); s.failed ==> s.closes > 0 || !s.open
    decreases |acts|
  {
    if acts != [] {
      FailureCloses(acts[..|acts| - 1]);
      Reachable(acts[..|acts| - 1]);
      CloseStays(Exec(Init(), acts[..|acts| - 1]), acts[|acts| - 1]);
    }
  }

  lemma CloseStays(s: Pump, a: Action)
    requires WriteInv(s) && (s.failed ==> s.closes > 0 || !s.open)
    ensures var s' := Step(s, a); s'.failed ==> s'.closes > 0 || !s'.open
  {
  }

  /** Two senders, or a sender and the io thread, are never inside their critical sections together. */
  lemma MutualExclusion(acts: seq<Action>, t: nat, u: nat)
    ensures var s := Exec(Init(), acts);
            Holding(PcOf(s, t)) ==>
              && (Holding(PcOf(s, u)) ==> t == u)
              && !s.io.HoldSwap? && !s.io.HeldSwapped? && !s.io.Checking?
  {
    Reachable(acts);
  }

  // ---------------------------------------------------------------- handlers that nobody interferes with

  ghost predicate Leads(o: Pump, s: Pump) {
    exists acts :: Exec(o, acts) == s
  }

  ghost predicate Reaches(s: Pump) {
    Leads(Init(), s)
  }

  /** A set of states that no step leaves. */
  ghost predicate Closed(reach: Pump -> bool) {
    forall s: Pump, a: Action :: reach(s) ==> reach(Step(s, a))
  }

  lemma Continuations(o: Pump) returns (reach: Pump -> bool)
    ensures Closed(reach) && reach(o) && forall s :: reach(s) ==> Leads(o, s)
  {
    reach := s => Leads(o, s);
    assert Exec(o, []) == o;
    forall s: Pump, a: Action | reach(s) ensures reach(Step(s, a)) {
      var acts :| Exec(o, acts) == s;
      assert (acts + [a])[..|acts|] == acts;
      assert Exec(o, acts + [a]) == Step(s, a);
    }
  }

  lemma {:induction false} LeadsIos(reach: Pump -> bool, s: Pump, k: nat)
    requires Closed(reach) && reach(s)
    ensures reach(Ios(s, k))
    decreases k
  {
    if k > 0 {
      assert Step(s, Io) == IoStep(s);
      LeadsIos(reach, IoStep(s), k - 1);
    }
  }

  /** All of send, from the outside. */
  function Sent(s: Pump, t: nat, data: Data): Pump {
    Step(Step(Step(Step(Step(s, Begin(t, data)), Acquire(t)), Append(t)), Release(t)), Post(t))
  }

  lemma LeadsSent(reach: Pump -> bool, s: Pump, t: nat, data: Data)
    requires Closed(reach) && reach(s)
    ensures reach(Sent(s, t, data))
  {
    var s1 := Step(s, Begin(t, data));
    var s2 := Step(s1, Acquire(t));
    var s3 := Step(s2, Append(t));
    var s4 := Step(s3, Release(t));
    assert reach(s1) && reach(s2) && reach(s3) && reach(s4);
  }

  /** The flush handler, and the completion of a successful write, each run to the end. */
  function Flushed(s: Pump): Pump { Ios(Step(s, RunFlush), 6) }
  function Completed(s: Pump): Pump { Ios(Step(s, WriteDone), 7) }

  lemma LeadsHandlers(reach: Pump -> bool, s: Pump)
    requires Closed(reach) && reach(s)
    ensures reach(Flushed(s)) && reach(Completed(s))
  {
    LeadsIos(reach, Step(s, RunFlush), 6);
    LeadsIos(reach, Step(s, WriteDone), 7);
  }

  function AfterSend(s: Pump, t: nat, data: Data): Pump {
    s.(sendBuffer := s.sendBuffer + data, log := s.log + [data],
       flushes := s.flushes + 1, senders := s.senders[t := Idle])
  }

  /** What an undisturbed send amounts to. */
  lemma SendOnce(s: Pump, t: nat, data: Data)
    requires PcOf(s, t).Idle? && s.lock.Free?
    ensures Sent(s, t, data) == AfterSend(s, t, data)
  {
    var s1 := Step(s, Begin(t, data));
    var s2 := Step(s1, Acquire(t));
    assert s2.senders == s.senders[t := Locked(data)];
    var s3 := Step(s2, Append(t));
    assert s3.senders == s.senders[t := Appended];
    var s4 := Step(s3, Release(t));
    assert s4.senders == s.senders[t := Released];
  }

  /** do_send as five steps of the io thread. */
  lemma DoSendOnce(s: Pump)
    requires s.io.Entering? && s.lock.Free?
    ensures Ios(s, 5) ==
            if !s.open then s.(io := Quiet)
            else if s.sendBuffer == [] then
              s.(sendBuffer := s.cacheBuffer, cacheBuffer := [], sending := false, io := Quiet)
            else s.(sendBuffer := s.cacheBuffer, cacheBuffer := s.sendBuffer, sending := true,
                    write := InFlight(s.sendBuffer), io := Quiet)
  {
    if !s.open {
      QuietStays(s.(io := Quiet), 4);
    } else {
      var s1 := s.(io := WantSwap);
      assert Ios(s, 5) == Ios(s1, 4);
      var s2 := s1.(lock := HeldByIo, io := HoldSwap);
      assert Ios(s1, 4) == Ios(s2, 3);
      var s3 := s2.(sendBuffer := s.cacheBuffer, cacheBuffer := s.sendBuffer, io := HeldSwapped);
      assert Ios(s2, 3) == Ios(s3, 2);
      var s4 := s3.(lock := Free, io := Swapped);
      assert Ios(s3, 2) == Ios(s4, 1) == Ios(IoStep(s4), 0);
    }
  }

  lemma {:induction false} QuietStays(s: Pump, k: nat)
    requires s.io.Quiet?
    ensures Ios(s, k) == s
    decreases k
  {
    if k > 0 { QuietStays(s, k - 1); }
  }

  /** What an undisturbed flush of an idle pump amounts to. */
  lemma FlushOnce(s: Pump)
    requires s.io.Quiet? && s.flushes > 0 && s.lock.Free? && s.open && !s.sending
    ensures Flushed(s) ==
            var f := s.(flushes := s.flushes - 1, sendBuffer := s.cacheBuffer, cacheBuffer := s.sendBuffer);
            if s.sendBuffer == [] then f else f.(sending := true, write := InFlight(s.sendBuffer))
  {
    var e := s.(flushes := s.flushes - 1, io := Entering);
    assert Flushed(s) == Ios(e, 5);
    DoSendOnce(e);
  }

  /** What an undisturbed completion amounts to: it sends again unless nothing has arrived meanwhile. */
  lemma CompleteOnce(s: Pump)
    requires s.io.Quiet? && s.write.InFlight? && s.lock.Free?
    ensures var c := s.(sending := false, cacheBuffer := [], written := s.written + s.write.bytes, write := NoWrite);
            Completed(s) == if s.sendBuffer == [] then c else Ios(c.(io := Entering), 5)
  {
    var c := s.(sending := false, cacheBuffer := [], written := s.written + s.write.bytes, write := NoWrite);
    var c2 := c.(lock := HeldByIo, io := Checking);
    assert Completed(s) == Ios(c.(io := WantCheck), 7) == Ios(c2, 6) == Ios(IoStep(c2), 5);
    if s.sendBuffer == [] { QuietStays(c, 5); }
  }

  // ---------------------------------------------------------------- after the first failure

  /** A write has failed after n bytes of cache_buffer_, which is still there, and no other has been started since. */
  ghost predicate Stalled(s: Pump, sent: Data, n: nat) {
    && s.connected && s.io.Quiet? && s.write.NoWrite? && !s.sending
    && n <= |s.cacheBuffer| && s.cacheBuffer != []
    && s.written == sent + s.cacheBuffer[..n]
    && sent + s.cacheBuffer + s.sendBuffer == Flatten(s.log)
  }

  lemma FailureStalls(s: Pump, n: nat)
    requires WriteInv(s) && OrderInv(s) && !s.failed && s.io.Quiet? && s.write.InFlight? && n <= |s.write.bytes|
    ensures Stalled(Step(s, WriteFailed(n)), s.written, n)
  {
  }

  /** No write is outstanding, and none will be started. */
  ghost predicate Finished(s: Pump) {
    && s.connected && !s.open && s.write.NoWrite?
    && !s.io.WantSwap? && !s.io.HoldSwap? && !s.io.HeldSwapped? && !s.io.Swapped?
  }

  lemma {:induction false} FinishedStays(s: Pump, acts: seq<Action>)
    requires Finished(s)
    ensures Finished(Exec(s, acts)) && Exec(s, acts).written == s.written && s.log <= Exec(s, acts).log
    decreases |acts|
  {
    if acts != [] {
      FinishedStays(s, acts[..|acts| - 1]);
      FinishedStep(Exec(s, acts[..|acts| - 1]), acts[|acts| - 1]);
    }
  }

  lemma FinishedStep(s: Pump, a: Action)
    requires Finished(s)
    ensures Finished(Step(s, a)) && Step(s, a).written == s.written && s.log <= Step(s, a).log
  {
  }

  lemma {:induction false} FlattenPrefix(a: seq<Data>, b: seq<Data>)
    requires a <= b
    ensures Flatten(a) <= Flatten(b)
  {
    FlattenConcat(a, b[|a|..]);
    assert b == a + b[|a|..];
  }

  /** A sender inside its critical section can finish it. */
  lemma LockComesFree(reach: Pump -> bool, s: Pump, sent: Data, n: nat) returns (r: Pump)
    requires Closed(reach) && reach(s) && LockInv(s) && Stalled(s, sent, n) && s.open
    ensures reach(r) && Stalled(r, sent, n) && r.open && r.lock.Free?
  {
    r := s;
    if s.lock.HeldBySender? {
      var t := s.lock.t;
      assert Holding(PcOf(s, t));
      if PcOf(s, t).Locked? {
        var data := PcOf(s, t).data;
        r := Step(s, Append(t));
        FlattenSnoc(s.log, data);
        assert sent + s.cacheBuffer + (s.sendBuffer + data) == (sent + s.cacheBuffer + s.sendBuffer) + data;
      }
      r := Step(r, Release(t));
    }
  }

  /** One more byte is sent and flushed: it goes out in front of the bytes of the failed write. */
  lemma FlushBehindFailure(reach: Pump -> bool, s: Pump, sent: Data, n: nat, d: Byte) returns (r: Pump)
    requires Closed(reach) && reach(s) && Stalled(s, sent, n) && s.open && s.lock.Free?
    ensures reach(r) && r.io.Quiet? && r.open && r.lock.Free?
    ensures r.write == InFlight(s.sendBuffer + [d]) && r.sendBuffer == s.cacheBuffer && r.written == s.written
    ensures Flatten(r.log) == sent + s.cacheBuffer + s.sendBuffer + [d]
  {
    var t := Another(s.senders);
    LeadsSent(reach, s, t, [d]);
    SendOnce(s, t, [d]);
    FlattenSnoc(s.log, [d]);
    var s1 := Sent(s, t, [d]);
    LeadsHandlers(reach, s1);
    FlushOnce(s1);
    r := Flushed(s1);
  }

  /** When some bytes had not gone out, the byte lands in the place of another. */
  lemma PartialFailureBreaks(reach: Pump -> bool, s: Pump, sent: Data, n: nat) returns (r: Pump)
    requires Closed(reach) && reach(s) && Stalled(s, sent, n) && s.open && s.lock.Free? && n < |s.cacheBuffer|
    ensures reach(r) && !(r.written <= Flatten(r.log))
  {
    var whole, p := sent + s.cacheBuffer + s.sendBuffer, |sent| + n + |s.sendBuffer|;
    var d: Byte := if whole[p] == 0 then 1 else 0;
    var q := FlushBehindFailure(reach, s, sent, n, d);
    r := Step(q, WriteDone);
    assert r.written == s.written + (s.sendBuffer + [d]);
    assert r.written[p] == d && Flatten(r.log)[p] == whole[p];
  }

  /** When all had gone out, they go out once more. */
  lemma CompleteFailureBreaks(reach: Pump -> bool, s: Pump, sent: Data, n: nat) returns (r: Pump)
    requires Closed(reach) && reach(s) && Stalled(s, sent, n) && s.open && s.lock.Free? && n == |s.cacheBuffer|
    ensures reach(r) && !(r.written <= Flatten(r.log))
  {
    var q := FlushBehindFailure(reach, s, sent, n, 0);
    LeadsHandlers(reach, q);
    CompleteOnce(q);
    var c := q.(sending := false, cacheBuffer := [], written := q.written + q.write.bytes, write := NoWrite,
                io := Entering);
    DoSendOnce(c);
    r := Step(Completed(q), WriteDone);
    assert |r.written| > |Flatten(r.log)|;
  }

  /** After a failed write, before another is started: the bytes on the wire stay a prefix of the data appended,
      whatever happens, if and only if the socket is closed. */
  lemma StalledExactly(s: Pump, sent: Data, n: nat)
    requires LockInv(s) && Stalled(s, sent, n)
    ensures (forall more :: Exec(s, more).written <= Flatten(Exec(s, more).log)) <==> !s.open
  {
    if s.open {
      var reach := Continuations(s);
      var q := LockComesFree(reach, s, sent, n);
      var r;
      if n < |q.cacheBuffer| {
        r := PartialFailureBreaks(reach, q, sent, n);
      } else {
        r := CompleteFailureBreaks(reach, q, sent, n);
      }
      var more :| Exec(s, more) == r;
      assert !(Exec(s, more).written <= Flatten(Exec(s, more).log));
    } else {
      PrefixOfJoin(sent, s.cacheBuffer, s.sendBuffer, n);
      forall more ensures Exec(s, more).written <= Flatten(Exec(s, more).log) {
        FinishedStays(s, more);
        FlattenPrefix(s.log, Exec(s, more).log);
      }
    }
  }

  /** From every reachable state: when a write fails for the first time, after any number of its bytes, the order on the
      wire is safe from then on if and only if the socket has been closed by then. */
  lemma OrderAfterFailureExactly(acts: seq<Action>, n: nat)
    requires var s := Exec(Init(), acts);
             !s.failed && s.io.Quiet? && s.write.InFlight? && n <= |s.write.bytes|
    ensures var s' := Step(Exec(Init(), acts), WriteFailed(n));
            s'.failed && ((forall more :: Exec(s', more).written <= Flatten(Exec(s', more).log)) <==> !s'.open)
  {
    Reachable(acts);
    var s := Exec(Init(), acts);
    FailureStalls(s, n);
    StepKeepsLock(s, WriteFailed(n));
    StalledExactly(Step(s, WriteFailed(n)), s.written, n);
  }

  /** A reachable state: the first byte is in flight, the second waits, a flush is posted. */
  function TwoSends(): Pump {
    Pump(true, true, false, Free, [2], [1], true, InFlight([1]), [], 1, 0, Quiet, map[0 := Idle], [[1], [2]])
  }

  lemma TwoSendsReachable(reach: Pump -> bool)
    requires Closed(reach) && reach(Init())
    ensures reach(TwoSends())
  {
    var s0 := Init().(open := true, connected := true);
    assert Step(Init(), Open) == s0;
    var s1 := s0.(sendBuffer := [1], log := [[1]], flushes := 1, senders := map[0 := Idle]);
    LeadsSent(reach, s0, 0, [1]);
    FirstSend(s0);
    var s2 := s1.(flushes := 0, sendBuffer := [], cacheBuffer := [1], sending := true, write := InFlight([1]));
    LeadsHandlers(reach, s1);
    FlushOnce(s1);
    LeadsSent(reach, s2, 0, [2]);
    SecondSend(s2);
  }

  lemma FirstSend(s: Pump)
    requires s == Init().(open := s.open, connected := s.connected)
    ensures Sent(s, 0, [1]) == s.(sendBuffer := [1], log := [[1]], flushes := 1, senders := map[0 := Idle])
  {
    SendOnce(s, 0, [1]);
    assert [] + [1] == [1] && s.log + [[1]] == [[1]] && s.senders[0 := Idle] == map[0 := Idle];
  }

  lemma SecondSend(s: Pump)
    requires s == TwoSends().(sendBuffer := [], log := [[1]], flushes := 0)
    ensures Sent(s, 0, [2]) == TwoSends()
  {
    SendOnce(s, 0, [2]);
    assert [[1]] + [[2]] == [[1], [2]] && [] + [2] == [2] && s.senders[0 := Idle] == s.senders;
  }

  /** So the order can be lost: two sends, the first write fails before its first byte, and the posted flush sends
      the second. */
  lemma OrderLostAfterFailure()
    ensures exists s :: Reaches(s) && s.open && s.failed && !(s.written <= Flatten(s.log))
  {
    var reach := Continuations(Init());
    TwoSendsReachable(reach);
    var s3 := TwoSends();
    var s4 := s3.(sending := false, failed := true, write := NoWrite, closes := 1);
    assert reach(s4) by { assert Step(s3, WriteFailed(0)) == s4; }
    var s5 := s4.(flushes := 0, sendBuffer := [1], cacheBuffer := [2], sending := true, write := InFlight([2]));
    assert reach(s5) by { LeadsHandlers(reach, s4); FlushOnce(s4); }
    var s6 := s5.(sending := false, cacheBuffer := [], written := [2], write := NoWrite, io := WantCheck);
    assert reach(s6) by { assert [] + [2] == [2]; assert Step(s5, WriteDone) == s6; }
    assert Flatten(s6.log)[0] == 1 by {
      assert s6.log == [[1]] + [[2]];
      FlattenCons([1], [[2]]);
    }
  }

  /** A flush of a session that is not connected does nothing. */
  lemma FlushTooEarly(s: Pump)
    requires s.io.Quiet? && s.flushes > 0 && s.lock.Free? && !s.open && !s.sending
    ensures Flushed(s) == s.(flushes := s.flushes - 1)
  {
    var e := s.(flushes := s.flushes - 1, io := Entering);
    assert Flushed(s) == Ios(e, 5);
    DoSendOnce(e);
  }

  /** So a wakeup can be lost: a send whose flush runs before the session is connected leaves its bytes behind, on an
      open and healthy socket with nothing under way. */
  lemma WakeupLostBeforeConnect()
    ensures exists s :: Reaches(s) && Unattended(s) && s.sendBuffer != []
  {
    var reach := Continuations(Init());
    LeadsSent(reach, Init(), 0, [1]);
    FirstSend(Init());
    var s1 := Init().(sendBuffer := [1], log := [[1]], flushes := 1, senders := map[0 := Idle]);
    LostBehindFlush(reach, s1);
  }

  lemma LostBehindFlush(reach: Pump -> bool, s: Pump)
    requires Closed(reach) && reach(s)
    requires s == Init().(sendBuffer := [1], log := [[1]], flushes := 1, senders := map[0 := Idle])
    ensures exists r :: reach(r) && Unattended(r) && r.sendBuffer != []
  {
    LeadsHandlers(reach, s);
    FlushTooEarly(s);
    var r := s.(flushes := 0, open := true, connected := true);
    assert Step(Flushed(s), Open) == r;
    assert Unattended(r);
  }
}
