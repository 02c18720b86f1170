/** The bounded lock-free ring: its sizing, and its producers and consumers as interleaved atomic steps. */
module RingQueue {
  import opened Bits

  const MIN_SIZE: nat := 16384
  const MAX_REQUEST: nat := 0x4000_0000
  const TOKEN: int := -1

  // ---------------------------------------------------------------- sizing

  ghost predicate IsPow2(n: nat) {
    exists k: nat :: n == Pow2(k)
  }

  /** The capacity chosen for a request: a power of two, for large requests the largest one below the request. */
  method SetSize(request: int) returns (size: nat)
    requires request <= MAX_REQUEST
    ensures IsPow2(size) && size >= MIN_SIZE
    ensures request <= MIN_SIZE ==> size == MIN_SIZE
    ensures request > MIN_SIZE ==> size < request <= 2 * size
  {
    assert Pow2(14) == MIN_SIZE;
    size := MIN_SIZE;
    if request <= MIN_SIZE { return; }
    ghost var k: nat := 14;
    while size < request
      invariant k >= 14 && size == Pow2(k)
      invariant size / 2 < request
      invariant size > MIN_SIZE ==> k > 14
      invariant size <= MAX_REQUEST
      decreases 2 * request - size
    {
      PowersBelow(k);
      size := size * 2;
      k := k + 1;
    }
    size := size / 2;
    assert size == Pow2(k - 1);
    if k - 1 < 14 {}
    PowersGrow(14, k - 1);
  }

  /** A power of two below 2^30 stays within 2^30 when doubled: the shift never overflows an int. */
  lemma PowersBelow(k: nat)
    ensures Pow2(k) < MAX_REQUEST ==> 2 * Pow2(k) <= MAX_REQUEST
  {
    Pow2Of30();
    if k >= 30 { PowersGrow(30, k); } else { PowersGrow(k + 1, 30); }
  }

  lemma {:induction false} PowersGrow(j: nat, k: nat)
    requires j <= k
    ensures Pow2(j) <= Pow2(k)
    decreases k - j
  {
    if j < k { PowersGrow(j, k - 1); }
  }

  /** The slot of a ticket. */
  function Slot(n: int, size: nat): (slot: nat)
    requires size > 0
    ensures slot < size
  {
    AndAtMost(n, size - 1);
    And(n, size - 1)
  }

  /** With a power-of-two size the mask is the remainder, also for ticket -1. */
  lemma SlotIsRemainder(n: int, size: nat)
    requires IsPow2(size)
    ensures size > 0 && Slot(n, size) == n % size < size
  {
    var k: nat :| size == Pow2(k);
    AndMask(n, k);
  }

  /** Tickets share a slot only when they are a whole number of rounds apart: any size consecutive ones are distinct. */
  lemma SlotsDistinct(m: int, n: int, size: nat)
    requires IsPow2(size) && m < n < m + size
    ensures size > 0 && Slot(m, size) != Slot(n, size)
  {
    SlotIsRemainder(m, size);
    SlotIsRemainder(n, size);
    if m % size == n % size { SameRemainder(m, n, size); }
  }

  lemma OneRoundLater(m: int, size: nat)
    requires IsPow2(size)
    ensures size > 0 && Slot(m, size) == Slot(m + size, size)
  {
    SlotIsRemainder(m, size);
    SlotIsRemainder(m + size, size);
    var q, r := m / size, m % size;
    assert m + size == (q + 1) * size + r;
    ModUnique(m + size, size, q + 1, r);
  }

  // ---------------------------------------------------------------- the machine

  /** A producer inside Enqueue(v): one shared load, store or CAS per step. */
  datatype Producer<T> =
    | POut
    | PTest(v: T)                      // about to load one of the counters for the capacity test
    | PTestDeq(v: T, e: int)           // has loaded m_enqueue_num, about to load m_dequeue_num and test
    | PTestEnq(v: T, d: int)           // has loaded m_dequeue_num, about to load m_enqueue_num and test
    | PLoad(v: T)                      // about to load old_num
    | PToken(v: T, seen: int)          // about to load again, for the test against -1
    | PCas(v: T, seen: int)            // about to try the claim
    | PStore(v: T, seen: int)          // owns the token, about to write the slot
    | PPublish(v: T, seen: int)        // about to give the token back

  /** A consumer inside Dequeue. */
  datatype Consumer<T> =
    | COut
    | CLoad                            // about to load old_num_
    | CTest(seen: int)                 // about to load one of the counters for the emptiness test
    | CTestEnq(seen: int, d: int)      // has loaded m_dequeue_num, about to load m_enqueue_num and test
    | CTestDeq(seen: int, e: int)      // has loaded m_enqueue_num, about to load m_dequeue_num and test
    | CIndex(seen: int)                // about to load m_dequeue_num as index
    | CRead(seen: int, d: int)         // about to read the slot
    | CCas(seen: int, v: T)            // about to try to take the ticket

  /** The shared words, the threads, and four histories: values and tickets in claim order,
      values in the order taken, and values in the order Enqueue was called with them. */
  datatype Ring<T> = Ring(
    size: nat, data: seq<T>, enq: int, deq: int,
    producers: map<nat, Producer<T>>, consumers: map<nat, Consumer<T>>,
    claimed: seq<T>, tickets: seq<int>, taken: seq<T>, offered: seq<T>)

  /** choice: what the language leaves open in the step, that is, which operand of a test is loaded first
      (the one on the right), or whether a CAS fails although it could succeed. */
  datatype Action<T> =
    | Enqueue(t: nat, v: T)
    | Produce(t: nat, choice: bool)
    | Dequeue(t: nat)
    | Consume(t: nat, choice: bool)

  function ProducerOf<T>(s: Ring<T>, t: nat): Producer<T> {
    if t in s.producers then s.producers[t] else POut
  }

  function ConsumerOf<T>(s: Ring<T>, t: nat): Consumer<T> {
    if t in s.consumers then s.consumers[t] else COut
  }

  predicate Shaped<T>(s: Ring<T>) {
    s.size > 0 && |s.data| == s.size + 1
  }

  /** A new ring; the slots hold whatever they were allocated with. */
  function Init<T>(size: nat, slots: seq<T>): Ring<T> {
    Ring(size, slots, 0, 0, map[], map[], [], [], [], [])
  }

  /** One atomic step; an action that is not enabled leaves the state as it is. */
  function Step<T>(s: Ring<T>, a: Action<T>): (s': Ring<T>)
    requires Shaped(s)
    ensures Shaped(s') && s'.size == s.size
  {
    match a
    case Enqueue(t, v) =>
      if ProducerOf(s, t).POut?
      then s.(producers := s.producers[t := PTest(v)], offered := s.offered + [v]) else s
    case Produce(t, choice) => ProducerStep(s, t, choice)
    case Dequeue(t) =>
      if ConsumerOf(s, t).COut? then s.(consumers := s.consumers[t := CLoad]) else s
    case Consume(t, choice) => ConsumerStep(s, t, choice)
  }

  function ProducerStep<T>(s: Ring<T>, t: nat, choice: bool): (s': Ring<T>)
    requires Shaped(s)
    ensures Shaped(s') && s'.size == s.size
  {
    match ProducerOf(s, t)
    case POut => s
    case PTest(v) => s.(producers := s.producers[t := if choice then PTestEnq(v, s.deq) else PTestDeq(v, s.enq)])
    case PTestDeq(v, e) =>
      s.(producers := s.producers[t := if e - s.deq >= s.size then PTest(v) else PLoad(v)])
    case PTestEnq(v, d) =>
      s.(producers := s.producers[t := if s.enq - d >= s.size then PTest(v) else PLoad(v)])
    case PLoad(v) => s.(producers := s.producers[t := PToken(v, s.enq)])
    case PToken(v, seen) =>
      s.(producers := s.producers[t := if s.enq == TOKEN then PLoad(v) else PCas(v, seen)])
    case PCas(v, seen) =>
      if s.enq == seen && !choice
      then s.(enq := TOKEN, producers := s.producers[t := PStore(v, seen)],
              claimed := s.claimed + [v], tickets := s.tickets + [seen])
      else s.(producers := s.producers[t := PLoad(v)])
    case PStore(v, seen) =>
      s.(data := s.data[Slot(seen, s.size) := v], producers := s.producers[t := PPublish(v, seen)])
    case PPublish(v, seen) =>
      s.(enq := seen + 1, producers := s.producers[t := POut])
  }

  function ConsumerStep<T>(s: Ring<T>, t: nat, choice: bool): (s': Ring<T>)
    requires Shaped(s)
    ensures Shaped(s') && s'.size == s.size
  {
    match ConsumerOf(s, t)
    case COut => s
    case CLoad => s.(consumers := s.consumers[t := CTest(s.deq)])
    case CTest(seen) =>
      s.(consumers := s.consumers[t := if choice then CTestDeq(seen, s.enq) else CTestEnq(seen, s.deq)])
    case CTestEnq(seen, d) =>
      s.(consumers := s.consumers[t := if d >= s.enq then CLoad else CIndex(seen)])
    case CTestDeq(seen, e) =>
      s.(consumers := s.consumers[t := if s.deq >= e then CLoad else CIndex(seen)])
    case CIndex(seen) => s.(consumers := s.consumers[t := CRead(seen, s.deq)])
    case CRead(seen, d) =>
      s.(consumers := s.consumers[t := CCas(seen, s.data[Slot(d, s.size)])])
    case CCas(seen, v) =>
      if s.deq == seen && !choice
      then s.(deq := seen + 1, consumers := s.consumers[t := COut], taken := s.taken + [v])
      else s.(consumers := s.consumers[t := CLoad])
  }

  function Exec<T>(s: Ring<T>, acts: seq<Action<T>>): (s': Ring<T>)
    requires Shaped(s)
    ensures Shaped(s') && s'.size == s.size
  {
    if acts == [] then s else Step(Exec(s, acts[..|acts| - 1]), acts[|acts| - 1])
  }

  // ---------------------------------------------------------------- side conditions on runs

  /** The step is a successful claim, of the ticket found. */
  predicate Claims<T>(s: Ring<T>, a: Action<T>) {
    a.Produce? && !a.choice && ProducerOf(s, a.t).PCas? && s.enq == ProducerOf(s, a.t).seen
  }

  /** The two loads of the counter disagree in the one way that matters: the first saw the token, the second does
      not. */
  predicate StaleToken<T>(s: Ring<T>, a: Action<T>) {
    a.Produce? && ProducerOf(s, a.t).PToken? && ProducerOf(s, a.t).seen == TOKEN && s.enq != TOKEN
  }

  /** No waiting value that differs from v is in the slot of the next ticket. */
  ghost predicate Harmless<T>(s: Ring<T>, v: T)
    requires s.size > 0
  {
    forall i :: 0 <= i < |s.claimed| && s.deq <= i && Slot(i, s.size) == Slot(|s.claimed|, s.size) ==> s.claimed[i] == v
  }

  /** Fewer values than the capacity are claimed and not taken. */
  predicate Roomy<T>(s: Ring<T>) {
    |s.claimed| - s.deq < s.size
  }

  /** What the steps of a run are asked to observe; each level includes those before it. */
  datatype Care = Anything | FreshLoads | HarmlessClaims

  ghost predicate Heeds<T>(care: Care, s: Ring<T>, a: Action<T>)
    requires Shaped(s)
  {
    && (care.FreshLoads? || care.HarmlessClaims? ==> !StaleToken(s, a))
    && (care.HarmlessClaims? && Claims(s, a) ==> Harmless(s, ProducerOf(s, a.t).v))
  }

  ghost predicate Run<T>(care: Care, s: Ring<T>, acts: seq<Action<T>>)
    requires Shaped(s)
  {
    || acts == []
    || (Run(care, s, acts[..|acts| - 1]) && Heeds(care, Exec(s, acts[..|acts| - 1]), acts[|acts| - 1]))
  }

  /** A run of this care leads from s to s'. */
  ghost predicate Leads<T(!new)>(care: Care, s: Ring<T>, s': Ring<T>)
    requires Shaped(s)
  {
    exists acts: seq<Action<T>> :: Run(care, s, acts) && Exec(s, acts) == s'
  }

  lemma LeadsNowhere<T(!new)>(care: Care, s: Ring<T>)
    requires Shaped(s)
    ensures Leads(care, s, s)
  {
    var none: seq<Action<T>> := [];
    assert Run(care, s, none) && Exec(s, none) == s;
  }

  lemma LeadsStep<T(!new)>(care: Care, o: Ring<T>, s: Ring<T>, a: Action<T>)
    requires Shaped(o) && Leads(care, o, s)
    ensures Shaped(s) && s.size == o.size
    ensures Heeds(care, s, a) ==> Leads(care, o, Step(s, a))
  {
    var acts: seq<Action<T>> :| Run(care, o, acts) && Exec(o, acts) == s;
    assert (acts + [a])[..|acts|] == acts;
    assert Exec(o, acts + [a]) == Step(s, a);
    assert Heeds(care, s, a) ==> Run(care, o, acts + [a]);
  }

  // ---------------------------------------------------------------- invariants

  predicate Owns<T>(pc: Producer<T>) {
    pc.PStore? || pc.PPublish?
  }

  /** Tickets whose value has been published. */
  function Tail<T>(s: Ring<T>): int {
    if s.enq == TOKEN then |s.claimed| - 1 else |s.claimed|
  }

  /** Tickets are 0, 1, 2, ... in claim order; the counter is the next one, or -1 while its owner, the only one, works;
      and nobody is about to claim the token itself. */
  ghost predicate TokenInv<T>(s: Ring<T>) {
    && |s.tickets| == |s.claimed|
    && (forall i :: 0 <= i < |s.tickets| ==> s.tickets[i] == i)
    && (s.enq == TOKEN ==> |s.claimed| > 0)
    && (s.enq != TOKEN ==> s.enq == |s.claimed|)
    && (forall t: nat :: ProducerInv(s, ProducerOf(s, t)))
    && OneOwner(s)
  }

  ghost predicate OneOwner<T>(s: Ring<T>) {
    forall t: nat, u: nat :: Owns(ProducerOf(s, t)) && Owns(ProducerOf(s, u)) ==> t == u
  }

  ghost predicate ProducerInv<T>(s: Ring<T>, pc: Producer<T>) {
    && (pc.PCas? ==> pc.seen != TOKEN)
    && (Owns(pc) ==> OwnerInv(s, pc))
  }

  ghost predicate OwnerInv<T>(s: Ring<T>, pc: Producer<T>)
    requires Owns(pc)
  {
    && s.enq == TOKEN
    && pc.seen == |s.claimed| - 1 >= 0
    && pc.v == s.claimed[pc.seen]
    && (pc.PPublish? && Shaped(s) ==> s.data[Slot(pc.seen, s.size)] == pc.v)
  }

  /** Live tickets are in their slots, and two that share a slot have the same value. */
  ghost predicate RingInv<T>(s: Ring<T>) {
    && Shaped(s)
    && 0 <= s.deq <= Tail(s)
    && (forall i :: s.deq <= i < Tail(s) ==> s.data[Slot(i, s.size)] == s.claimed[i])
    && (forall i, j :: s.deq <= i < j < |s.claimed| ==> Agree(s, i, j))
    && s.taken == s.claimed[..s.deq]
  }

  ghost predicate Agree<T>(s: Ring<T>, i: nat, j: nat)
    requires s.size > 0 && i < |s.claimed| && j < |s.claimed|
  {
    Slot(i, s.size) == Slot(j, s.size) ==> s.claimed[i] == s.claimed[j]
  }

  /** What a consumer knows: if its ticket is still next, it holds the value of that ticket. */
  ghost predicate ConsumerInv<T>(s: Ring<T>, pc: Consumer<T>) {
    match pc
    case COut => true
    case CLoad => true
    case CTest(seen) => 0 <= seen <= s.deq
    case CTestEnq(seen, d) => 0 <= seen <= d <= s.deq
    case CTestDeq(seen, e) => 0 <= seen <= s.deq && e <= Tail(s)
    case CIndex(seen) => 0 <= seen <= s.deq && seen < Tail(s)
    case CRead(seen, d) => 0 <= seen <= d <= s.deq && seen < Tail(s)
    case CCas(seen, v) => 0 <= seen <= s.deq && seen < Tail(s) && (s.deq == seen ==> v == s.claimed[seen])
  }

  ghost predicate Inv<T>(s: Ring<T>) {
    TokenInv(s) && RingInv(s) && forall t: nat :: ConsumerInv(s, ConsumerOf(s, t))
  }

  // ---------------------------------------------------------------- preservation: the token

  lemma ProducerKeepsToken<T>(s: Ring<T>, t: nat, choice: bool)
    requires TokenInv(s) && Shaped(s) && !StaleToken(s, Produce(t, choice))
    ensures TokenInv(ProducerStep(s, t, choice))
  {
    var s' := ProducerStep(s, t, choice);
    MoverKeepsToken(s, t, choice);
    forall u: nat
      ensures ProducerInv(s', ProducerOf(s', u))
      ensures u == t || (ProducerOf(s', u) == ProducerOf(s, u) && !(Owns(ProducerOf(s, u)) && Owns(ProducerOf(s', t))))
    {
      if u != t { OtherKeepsToken(s, t, choice, u); }
    }
  }

  /** The producer that moves: it owns the token afterwards only if it did before or nobody did. */
  lemma MoverKeepsToken<T>(s: Ring<T>, t: nat, choice: bool)
    requires TokenInv(s) && Shaped(s) && !StaleToken(s, Produce(t, choice))
    ensures var s' := ProducerStep(s, t, choice);
            && ProducerInv(s', ProducerOf(s', t))
            && (Owns(ProducerOf(s', t)) ==> Owns(ProducerOf(s, t)) || s.enq != TOKEN)
  {
    assert ProducerInv(s, ProducerOf(s, t));
  }

  /** Any other producer. */
  lemma OtherKeepsToken<T>(s: Ring<T>, t: nat, choice: bool, u: nat)
    requires TokenInv(s) && Shaped(s) && !StaleToken(s, Produce(t, choice)) && u != t
    ensures var s' := ProducerStep(s, t, choice);
            && ProducerOf(s', u) == ProducerOf(s, u) && ProducerInv(s', ProducerOf(s', u))
            && !(Owns(ProducerOf(s, u)) && Owns(ProducerOf(s', t)))
  {
    assert ProducerInv(s, ProducerOf(s, t)) && ProducerInv(s, ProducerOf(s, u));
  }

  lemma TokenInvFrame<T>(s: Ring<T>, s': Ring<T>)
    requires TokenInv(s) && s'.(deq := s.deq, taken := s.taken, consumers := s.consumers) == s
    ensures TokenInv(s')
  {
    forall u: nat ensures ProducerOf(s', u) == ProducerOf(s, u) && ProducerInv(s', ProducerOf(s', u)) {
      assert ProducerInv(s, ProducerOf(s, u));
    }
  }

  lemma CallKeepsToken<T>(s: Ring<T>, t: nat, v: T)
    requires TokenInv(s) && Shaped(s)
    ensures TokenInv(Step(s, Enqueue(t, v)))
  {
    var s' := Step(s, Enqueue(t, v));
    forall u: nat
      ensures ProducerInv(s', ProducerOf(s', u))
      ensures Owns(ProducerOf(s', u)) ==> ProducerOf(s', u) == ProducerOf(s, u)
    {
      assert ProducerInv(s, ProducerOf(s, u));
    }
  }

  lemma StepKeepsToken<T>(s: Ring<T>, a: Action<T>)
    requires TokenInv(s) && Shaped(s) && !StaleToken(s, a)
    ensures TokenInv(Step(s, a))
  {
    match a {
      case Produce(t, choice) => ProducerKeepsToken(s, t, choice);
      case Enqueue(t, v) => CallKeepsToken(s, t, v);
      case _ => TokenInvFrame(s, Step(s, a));
    }
  }

  // ---------------------------------------------------------------- preservation: the ring

  /** The store under the token spares every waiting value, in its slot or by being equal to it. */
  lemma StoreSparesLive<T>(s: Ring<T>, v: T)
    requires RingInv(s) && s.enq == TOKEN && |s.claimed| > 0 && v == s.claimed[|s.claimed| - 1]
    ensures forall i :: s.deq <= i < Tail(s) ==> s.data[Slot(Tail(s), s.size) := v][Slot(i, s.size)] == s.claimed[i]
  {
    forall i | s.deq <= i < Tail(s) && Slot(i, s.size) == Slot(Tail(s), s.size) ensures s.claimed[i] == v {
      assert Agree(s, i, Tail(s));
    }
  }

  lemma ClaimKeepsRing<T>(s: Ring<T>, v: T, s': Ring<T>)
    requires RingInv(s) && s.enq == |s.claimed| && Harmless(s, v)
    requires s' == s.(enq := TOKEN, claimed := s.claimed + [v], producers := s'.producers, tickets := s'.tickets)
    ensures RingInv(s')
  {
    forall i, j | s'.deq <= i < j < |s'.claimed| ensures Agree(s', i, j) {
      if j < |s.claimed| { assert Agree(s, i, j); }
    }
  }

  lemma ProducerKeepsRing<T>(s: Ring<T>, t: nat, choice: bool)
    requires TokenInv(s) && RingInv(s) && Heeds(HarmlessClaims, s, Produce(t, choice))
    ensures RingInv(ProducerStep(s, t, choice)) && Tail(s) <= Tail(ProducerStep(s, t, choice))
    ensures s.claimed <= ProducerStep(s, t, choice).claimed
  {
    var pc, s' := ProducerOf(s, t), ProducerStep(s, t, choice);
    assert ProducerInv(s, pc);
    if Claims(s, Produce(t, choice)) {
      ClaimKeepsRing(s, pc.v, s');
    } else {
      if pc.PStore? { StoreSparesLive(s, pc.v); }
      forall i, j | s'.deq <= i < j < |s'.claimed| ensures Agree(s', i, j) { assert Agree(s, i, j); }
    }
  }

  lemma ConsumerKeepsShared<T>(s: Ring<T>, t: nat, choice: bool)
    requires RingInv(s) && ConsumerInv(s, ConsumerOf(s, t))
    ensures var s' := ConsumerStep(s, t, choice);
            && RingInv(s')
            && s'.(deq := s.deq, taken := s.taken, consumers := s.consumers) == s
            && s.deq <= s'.deq
  {
    var s' := ConsumerStep(s, t, choice);
    forall i, j | s'.deq <= i < j < |s'.claimed| ensures Agree(s', i, j) { assert Agree(s, i, j); }
  }

  lemma ConsumerKeepsConsumer<T>(s: Ring<T>, t: nat, choice: bool, u: nat)
    requires TokenInv(s) && RingInv(s) && ConsumerInv(s, ConsumerOf(s, t)) && ConsumerInv(s, ConsumerOf(s, u))
    ensures ConsumerInv(ConsumerStep(s, t, choice), ConsumerOf(ConsumerStep(s, t, choice), u))
  {
    var pc := ConsumerOf(s, t);
    if pc.CRead? && s.deq == pc.seen {
      assert s.data[Slot(pc.d, s.size)] == s.claimed[pc.seen];
    }
  }

  lemma ConsumerKeeps<T>(s: Ring<T>, t: nat, choice: bool)
    requires Inv(s)
    ensures Inv(ConsumerStep(s, t, choice))
  {
    var s' := ConsumerStep(s, t, choice);
    ConsumerKeepsShared(s, t, choice);
    TokenInvFrame(s, s');
    forall u: nat ensures ConsumerInv(s', ConsumerOf(s', u)) {
      ConsumerKeepsConsumer(s, t, choice, u);
    }
  }

  lemma ProducerKeeps<T>(s: Ring<T>, t: nat, choice: bool)
    requires Inv(s) && Heeds(HarmlessClaims, s, Produce(t, choice))
    ensures Inv(ProducerStep(s, t, choice))
  {
    var s' := ProducerStep(s, t, choice);
    ProducerKeepsToken(s, t, choice);
    ProducerKeepsRing(s, t, choice);
    forall u: nat ensures ConsumerInv(s', ConsumerOf(s', u)) {
      assert ConsumerOf(s', u) == ConsumerOf(s, u) && ConsumerInv(s, ConsumerOf(s, u));
    }
  }

  lemma CallsKeep<T>(s: Ring<T>, a: Action<T>)
    requires Inv(s) && (a.Enqueue? || a.Dequeue?)
    ensures Inv(Step(s, a))
  {
    var s' := Step(s, a);
    StepKeepsToken(s, a);
    forall i, j | s'.deq <= i < j < |s'.claimed| ensures Agree(s', i, j) { assert Agree(s, i, j); }
    forall u: nat ensures ConsumerInv(s', ConsumerOf(s', u)) {
      assert ConsumerInv(s, ConsumerOf(s, u));
    }
  }

  lemma StepKeeps<T>(s: Ring<T>, a: Action<T>)
    requires Inv(s) && Heeds(HarmlessClaims, s, a)
    ensures Inv(Step(s, a))
  {
    match a {
      case Produce(t, choice) => ProducerKeeps(s, t, choice);
      case Consume(t, choice) => ConsumerKeeps(s, t, choice);
      case _ => CallsKeep(s, a);
    }
  }

  lemma InitInv<T>(size: nat, slots: seq<T>)
    requires size > 0 && |slots| == size + 1
    ensures Shaped(Init(size, slots)) && Inv(Init(size, slots))
  {
  }

  lemma {:induction false} RunKeepsToken<T>(s: Ring<T>, acts: seq<Action<T>>)
    requires Shaped(s) && TokenInv(s) && Run(FreshLoads, s, acts)
    ensures TokenInv(Exec(s, acts))
    decreases |acts|
  {
    if acts != [] {
      RunKeepsToken(s, acts[..|acts| - 1]);
      StepKeepsToken(Exec(s, acts[..|acts| - 1]), acts[|acts| - 1]);
    }
  }

  lemma {:induction false} RunKeeps<T>(s: Ring<T>, acts: seq<Action<T>>)
    requires Shaped(s) && Inv(s) && Run(HarmlessClaims, s, acts)
    ensures Inv(Exec(s, acts))
    decreases |acts|
  {
    if acts != [] {
      RunKeeps(s, acts[..|acts| - 1]);
      StepKeeps(Exec(s, acts[..|acts| - 1]), acts[|acts| - 1]);
    }
  }

  // ---------------------------------------------------------------- results for any number of producers and consumers

  /** When no load is stale: at most one producer owns the token, the counter is -1 while it does, and tickets are
      handed out as 0, 1, 2, ... in claim order, each once, however full the ring gets. */
  lemma OneTokenOwner<T>(size: nat, slots: seq<T>, acts: seq<Action<T>>)
    requires size > 0 && |slots| == size + 1 && Run(FreshLoads, Init(size, slots), acts)
    ensures var s := Exec(Init(size, slots), acts);
            && OneOwner(s)
            && (forall t: nat :: Owns(ProducerOf(s, t)) ==> s.enq == TOKEN)
            && |s.tickets| == |s.claimed|
            && (forall i :: 0 <= i < |s.tickets| ==> s.tickets[i] == i)
  {
    InitInv(size, slots);
    RunKeepsToken(Init(size, slots), acts);
    var s := Exec(Init(size, slots), acts);
    forall t: nat | Owns(ProducerOf(s, t)) ensures s.enq == TOKEN { assert ProducerInv(s, ProducerOf(s, t)); }
  }

  /** First in, first out: when moreover every claim is harmless, the values taken are the first deq values claimed,
      in claim order, each once. */
  lemma HarmlessRunsAreFifo<T>(size: nat, slots: seq<T>, acts: seq<Action<T>>)
    requires size > 0 && |slots| == size + 1 && Run(HarmlessClaims, Init(size, slots), acts)
    ensures var s := Exec(Init(size, slots), acts);
            0 <= s.deq == |s.taken| <= |s.claimed| && s.taken == s.claimed[..s.deq]
  {
    InitInv(size, slots);
    RunKeeps(Init(size, slots), acts);
  }

  /** Between a consumer's read of a slot and its successful CAS the slot does not change its value:
      whenever the CAS can succeed, the value held is still in the slot, and is the ticket's. */
  lemma NoOverwriteBeforeCas<T>(size: nat, slots: seq<T>, acts: seq<Action<T>>, t: nat)
    requires size > 0 && |slots| == size + 1 && Run(HarmlessClaims, Init(size, slots), acts)
    ensures var s := Exec(Init(size, slots), acts);
            ConsumerOf(s, t).CCas? && ConsumerOf(s, t).seen == s.deq ==>
              var c := ConsumerOf(s, t);
              && 0 <= c.seen < |s.claimed|
              && c.v == s.claimed[c.seen] == s.data[Slot(c.seen, s.size)]
  {
    InitInv(size, slots);
    RunKeeps(Init(size, slots), acts);
    var s := Exec(Init(size, slots), acts);
    assert ConsumerInv(s, ConsumerOf(s, t));
  }

  // ---------------------------------------------------------------- room

  /** A claim that leaves no more than the capacity waiting is harmless, whatever its value: its slot is not in use. */
  lemma RoomIsHarmless<T>(s: Ring<T>, v: T)
    requires IsPow2(s.size) && s.size > 0 && Roomy(s)
    ensures Harmless(s, v)
  {
    forall i | 0 <= i < |s.claimed| && s.deq <= i ensures Slot(i, s.size) != Slot(|s.claimed|, s.size) {
      SlotsDistinct(i, |s.claimed|, s.size);
    }
  }

  /** Room is also needed, as soon as there are two different values to claim with. */
  lemma RoomIsExact<T>(s: Ring<T>, x: T, y: T)
    requires RingInv(s) && IsPow2(s.size) && x != y
    ensures Roomy(s) <==> Harmless(s, x) && Harmless(s, y)
  {
    if Roomy(s) {
      RoomIsHarmless(s, x);
      RoomIsHarmless(s, y);
    } else {
      var i := |s.claimed| - s.size;
      OneRoundLater(i, s.size);
      assert 0 <= i < |s.claimed| && s.deq <= i && Slot(i, s.size) == Slot(|s.claimed|, s.size);
    }
  }

  /** No stale load, and no claim when the ring is full. */
  ghost predicate RoomyRun<T>(s: Ring<T>, acts: seq<Action<T>>)
    requires Shaped(s)
  {
    || acts == []
    || var r, a := Exec(s, acts[..|acts| - 1]), acts[|acts| - 1];
       RoomyRun(s, acts[..|acts| - 1]) && !StaleToken(r, a) && (Claims(r, a) ==> Roomy(r))
  }

  /** A run that never claims a full ring is harmless, and never more than the capacity is waiting. */
  lemma {:induction false} RoomyRuns<T>(s: Ring<T>, acts: seq<Action<T>>)
    requires Shaped(s) && IsPow2(s.size) && |s.claimed| - s.deq <= s.size && RoomyRun(s, acts)
    ensures Run(HarmlessClaims, s, acts)
    ensures |Exec(s, acts).claimed| - Exec(s, acts).deq <= s.size
    decreases |acts|
  {
    if acts != [] {
      var prefix, a := acts[..|acts| - 1], acts[|acts| - 1];
      RoomyRuns(s, prefix);
      var r := Exec(s, prefix);
      if Claims(r, a) { RoomIsHarmless(r, ProducerOf(r, a.t).v); }
      WaitingGrows(r, a);
    }
  }

  /** Only a claim makes more values wait, and by one. */
  lemma WaitingGrows<T>(s: Ring<T>, a: Action<T>)
    requires Shaped(s)
    ensures var s' := Step(s, a);
            |s'.claimed| - s'.deq <= |s.claimed| - s.deq + if Claims(s, a) then 1 else 0
  {
  }

  /** The guarantee with many producers: without stale loads and claims of a full ring, values come out in claim order,
      each once, and never more than the capacity is waiting. */
  lemma RoomyRunsAreFifo<T>(size: nat, slots: seq<T>, acts: seq<Action<T>>)
    requires IsPow2(size) && size > 0 && |slots| == size + 1 && RoomyRun(Init(size, slots), acts)
    ensures var s := Exec(Init(size, slots), acts);
            0 <= s.deq == |s.taken| <= |s.claimed| <= s.deq + s.size && s.taken == s.claimed[..s.deq]
  {
    RoomyRuns(Init(size, slots), acts);
    HarmlessRunsAreFifo(size, slots, acts);
  }

  // ---------------------------------------------------------------- callers that keep the ring from filling up

  /** The thread is inside Enqueue and has not claimed yet. */
  predicate IsPending<T>(s: Ring<T>, t: nat) {
    !ProducerOf(s, t).POut? && !Owns(ProducerOf(s, t))
  }

  function PendingOnes<T>(s: Ring<T>): set<nat> {
    set t | t in s.producers && IsPending(s, t)
  }

  /** Every value offered is claimed or still with a pending producer; the counter counts what was taken. */
  ghost predicate OfferInv<T>(s: Ring<T>) {
    |s.offered| == |s.claimed| + |PendingOnes(s)| && s.deq == |s.taken|
  }

  lemma PendingChange<T>(s: Ring<T>, a: Action<T>)
    requires Shaped(s)
    ensures var s' := Step(s, a);
            PendingOnes(s') == if a.Enqueue? && ProducerOf(s, a.t).POut? then PendingOnes(s) + {a.t}
                               else if Claims(s, a) then PendingOnes(s) - {a.t}
                               else PendingOnes(s)
    ensures a.Enqueue? && ProducerOf(s, a.t).POut? ==> a.t !in PendingOnes(s)
    ensures Claims(s, a) ==> a.t in PendingOnes(s)
  {
    var s' := Step(s, a);
    forall t: nat | !((a.Enqueue? || a.Produce?) && t == a.t) ensures IsPending(s', t) == IsPending(s, t) {}
    assert forall t: nat :: t in PendingOnes(s) <==> IsPending(s, t);
    assert forall t: nat :: t in PendingOnes(s') <==> IsPending(s', t);
  }

  lemma StepKeepsOffers<T>(s: Ring<T>, a: Action<T>)
    requires Shaped(s) && OfferInv(s)
    ensures OfferInv(Step(s, a))
  {
    PendingChange(s, a);
    var pending := PendingOnes(s);
    if a.Enqueue? && ProducerOf(s, a.t).POut? {
      assert |pending + {a.t}| == |pending| + 1;
    } else if Claims(s, a) {
      assert |pending - {a.t}| == |pending| - 1;
    }
  }

  /** No stale load, and at no time more than the capacity of values offered and not taken. */
  ghost predicate ModestRun<T>(s: Ring<T>, acts: seq<Action<T>>)
    requires Shaped(s)
  {
    && |Exec(s, acts).offered| - |Exec(s, acts).taken| <= s.size
    && (acts == []
        || (ModestRun(s, acts[..|acts| - 1]) && !StaleToken(Exec(s, acts[..|acts| - 1]), acts[|acts| - 1])))
  }

  lemma {:induction false} ModestRuns<T>(s: Ring<T>, acts: seq<Action<T>>)
    requires Shaped(s) && OfferInv(s) && ModestRun(s, acts)
    ensures RoomyRun(s, acts) && OfferInv(Exec(s, acts))
    decreases |acts|
  {
    if acts != [] {
      var prefix, a := acts[..|acts| - 1], acts[|acts| - 1];
      ModestRuns(s, prefix);
      var r := Exec(s, prefix);
      StepKeepsOffers(r, a);
      if Claims(r, a) {
        PendingChange(r, a);
        assert |PendingOnes(r)| > 0;
      }
    }
  }

  /** A condition that callers can see to: producers that never have more values under way than the capacity. */
  lemma ModestRunsAreFifo<T>(size: nat, slots: seq<T>, acts: seq<Action<T>>)
    requires IsPow2(size) && size > 0 && |slots| == size + 1 && ModestRun(Init(size, slots), acts)
    ensures var s := Exec(Init(size, slots), acts);
            RoomyRun(Init(size, slots), acts) && 0 <= s.deq == |s.taken| <= |s.claimed| && s.taken == s.claimed[..s.deq]
  {
    assert PendingOnes(Init(size, slots)) == {};
    ModestRuns(Init(size, slots), acts);
    RoomyRunsAreFifo(size, slots, acts);
  }

  // ---------------------------------------------------------------- one call of Enqueue at a time

  /** Enqueue is only entered while no producer is inside it. */
  ghost predicate SerialRun<T>(s: Ring<T>, acts: seq<Action<T>>)
    requires Shaped(s)
  {
    || acts == []
    || var r, a := Exec(s, acts[..|acts| - 1]), acts[|acts| - 1];
       SerialRun(s, acts[..|acts| - 1]) && (a.Enqueue? && ProducerOf(r, a.t).POut? ==> AllOut(r))
  }

  ghost predicate AllOut<T>(s: Ring<T>) {
    forall t: nat :: ProducerOf(s, t).POut?
  }

  /** What the only producer inside knows: nobody else moves the counter, and a passed capacity test stays passed. */
  ghost predicate SoloInv<T>(s: Ring<T>, p: nat) {
    && (forall t: nat :: t != p ==> ProducerOf(s, t).POut?)
    && (Owns(ProducerOf(s, p)) <==> s.enq == TOKEN)
    && match ProducerOf(s, p)
       case POut => s.offered == s.claimed
       case PTest(v) => s.offered == s.claimed + [v]
       case PTestDeq(v, e) => s.offered == s.claimed + [v] && e == s.enq
       case PTestEnq(v, d) => s.offered == s.claimed + [v] && d <= s.deq
       case PLoad(v) => s.offered == s.claimed + [v] && s.enq - s.deq < s.size
       case PToken(v, seen) => s.offered == s.claimed + [v] && s.enq - s.deq < s.size && seen == s.enq
       case PCas(v, seen) => s.offered == s.claimed + [v] && s.enq - s.deq < s.size && seen == s.enq
       case _ => s.offered == s.claimed
  }

  lemma SoloStep<T>(s: Ring<T>, a: Action<T>, p: nat)
    requires Shaped(s) && TokenInv(s) && SoloInv(s, p)
    requires a.Enqueue? || a.Produce? ==> a.t == p
    ensures !StaleToken(s, a) && (Claims(s, a) ==> Roomy(s)) && SoloInv(Step(s, a), p)
  {
    var s' := Step(s, a);
    assert ProducerInv(s, ProducerOf(s, p));
    forall t: nat | t != p ensures ProducerOf(s', t) == ProducerOf(s, t) {}
  }

  /** Whoever acts as a producer is the one inside, or becomes it. */
  lemma SerialStep<T>(s: Ring<T>, a: Action<T>, p: nat)
    requires Shaped(s) && TokenInv(s) && SoloInv(s, p)
    requires a.Enqueue? && ProducerOf(s, a.t).POut? ==> AllOut(s)
    ensures !StaleToken(s, a) && (Claims(s, a) ==> Roomy(s)) && exists q: nat :: SoloInv(Step(s, a), q)
  {
    if (a.Enqueue? || a.Produce?) && a.t != p {
      assert ProducerOf(s, a.t).POut?;
      if a.Enqueue? {
        assert ProducerOf(s, p).POut?;
        assert SoloInv(s, a.t);
        SoloStep(s, a, a.t);
      } else {
        assert SoloInv(Step(s, a), p);
      }
    } else {
      SoloStep(s, a, p);
    }
  }

  /** The capacity test and the token test make every claim sound when Enqueue is not entered by two threads at once. */
  lemma {:induction false} SerialRunsAreRoomy<T>(size: nat, slots: seq<T>, acts: seq<Action<T>>)
    requires IsPow2(size) && size > 0 && |slots| == size + 1 && SerialRun(Init(size, slots), acts)
    ensures RoomyRun(Init(size, slots), acts)
    ensures exists p: nat :: SoloInv(Exec(Init(size, slots), acts), p)
    decreases |acts|
  {
    var s := Init(size, slots);
    if acts == [] {
      assert Exec(s, acts) == s && SoloInv(Exec(s, acts), 0);
    } else {
      var prefix, a := acts[..|acts| - 1], acts[|acts| - 1];
      SerialRunsAreRoomy(size, slots, prefix);
      var p: nat :| SoloInv(Exec(s, prefix), p);
      RoomyRuns(s, prefix);
      InitInv(size, slots);
      RunKeeps(s, prefix);
      SerialStep(Exec(s, prefix), a, p);
      var q: nat :| SoloInv(Step(Exec(s, prefix), a), q);
      assert SoloInv(Exec(s, acts), q);
    }
  }

  /** Then the ring is a FIFO outright: consumers take exactly the values offered, in order, once each. */
  lemma SerialProducersFifo<T>(size: nat, slots: seq<T>, acts: seq<Action<T>>)
    requires IsPow2(size) && size > 0 && |slots| == size + 1 && SerialRun(Init(size, slots), acts)
    ensures var s := Exec(Init(size, slots), acts);
            && s.taken <= s.claimed <= s.offered
            && s.deq == |s.taken|
            && |s.offered| <= |s.claimed| + 1
            && |s.claimed| - s.deq <= s.size
  {
    SerialRunsAreRoomy(size, slots, acts);
    RoomyRunsAreFifo(size, slots, acts);
    var s := Exec(Init(size, slots), acts);
    var p: nat :| SoloInv(s, p);
  }

  /** The values that Enqueue is called with in the run, in order: those of the calls by threads that were outside. */
  function CalledWith<T>(s: Ring<T>, acts: seq<Action<T>>): seq<T>
    requires Shaped(s)
  {
    if acts == [] then []
    else
      var front, a := acts[..|acts| - 1], acts[|acts| - 1];
      CalledWith(s, front) + if a.Enqueue? && ProducerOf(Exec(s, front), a.t).POut? then [a.v] else []
  }

  lemma {:induction false} OfferedAreCalls<T>(s: Ring<T>, acts: seq<Action<T>>)
    requires Shaped(s)
    ensures Exec(s, acts).offered == s.offered + CalledWith(s, acts)
    decreases |acts|
  {
    if acts == [] {
      assert s.offered + [] == s.offered;
    } else {
      OfferedAreCalls(s, acts[..|acts| - 1]);
      OfferedStep(Exec(s, acts[..|acts| - 1]), acts[|acts| - 1]);
    }
  }

  lemma OfferedStep<T>(s: Ring<T>, a: Action<T>)
    requires Shaped(s)
    ensures Step(s, a).offered == s.offered + if a.Enqueue? && ProducerOf(s, a.t).POut? then [a.v] else []
  {
    assert s.offered + [] == s.offered;
  }

  ghost predicate OneProducer<T>(acts: seq<Action<T>>, p: nat) {
    forall i :: 0 <= i < |acts| && (acts[i].Enqueue? || acts[i].Produce?) ==> acts[i].t == p
  }

  lemma {:induction false} OneProducerIsSerial<T>(s: Ring<T>, acts: seq<Action<T>>, p: nat)
    requires Shaped(s) && AllOut(s) && OneProducer(acts, p)
    ensures SerialRun(s, acts) && forall t: nat :: t != p ==> ProducerOf(Exec(s, acts), t).POut?
    decreases |acts|
  {
    if acts != [] {
      var prefix, a := acts[..|acts| - 1], acts[|acts| - 1];
      assert OneProducer(prefix, p);
      OneProducerIsSerial(s, prefix, p);
      var r := Exec(s, prefix);
      forall t: nat | t != p ensures ProducerOf(Step(r, a), t).POut? {
        assert ProducerOf(r, t).POut?;
      }
    }
  }

  /** In particular with one producer and any number of consumers. */
  lemma SingleProducerFifo<T>(size: nat, slots: seq<T>, acts: seq<Action<T>>, p: nat)
    requires IsPow2(size) && size > 0 && |slots| == size + 1 && OneProducer(acts, p)
    ensures var s := Exec(Init(size, slots), acts);
            && s.taken <= s.claimed <= s.offered
            && s.deq == |s.taken|
            && |s.offered| <= |s.claimed| + 1
            && |s.claimed| - s.deq <= s.size
  {
    OneProducerIsSerial(Init(size, slots), acts, p);
    SerialProducersFifo(size, slots, acts);
  }
}
