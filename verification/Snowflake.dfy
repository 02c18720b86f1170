/** The snowflake id generator: 41 bits of milliseconds, 5 + 5 bits of node, 12 bits of sequence. */
module Snowflake {
  import opened Bits

  const TWEPOCH: int := 1534780800000
  const WORKER_ID_BITS: nat := 5
  const DATACENTER_ID_BITS: nat := 5
  const SEQUENCE_BITS: nat := 12
  const MAX_WORKER_ID: nat := Shl(1, WORKER_ID_BITS) - 1
  const MAX_DATACENTER_ID: nat := Shl(1, DATACENTER_ID_BITS) - 1
  const WORKER_ID_SHIFT: nat := SEQUENCE_BITS
  const DATACENTER_ID_SHIFT: nat := SEQUENCE_BITS + WORKER_ID_BITS
  const TIMESTAMP_LEFT_SHIFT: nat := SEQUENCE_BITS + WORKER_ID_BITS + DATACENTER_ID_BITS
  const SEQUENCE_MASK: nat := Shl(1, SEQUENCE_BITS) - 1
  const MAX_SEQUENCE: nat := 4096
  const WINDOW: nat := 0x200_0000_0000

  /** The generator's fields; tick counts the clock readings taken so far. */
  datatype Gen = Gen(worker: int, datacenter: int, last: int, sequence: int, tick: nat)

  datatype InitResult = InitOk | WorkerOutOfRange | DatacenterOutOfRange

  /** A clock is the sequence of values that successive readings return. */
  ghost predicate Monotone(clock: nat -> int) {
    forall i: nat, j: nat :: i <= j ==> clock(i) <= clock(j)
  }

  /** What the constructor and every operation keep. */
  ghost predicate Inv(clock: nat -> int, g: Gen) {
    && 0 <= g.worker < 32
    && 0 <= g.datacenter < 32
    && 0 <= g.sequence < 4096
    && (g.last == -1 || (g.tick > 0 && g.last == clock(g.tick - 1) && g.last >= TWEPOCH))
  }

  /** The id that the generator returns once its fields have been advanced to g. */
  function Compose(g: Gen): nat
    requires g.last >= TWEPOCH && g.worker >= 0 && g.datacenter >= 0 && g.sequence >= 0
  {
    Or(Or(Or(Shl(g.last - TWEPOCH, TIMESTAMP_LEFT_SHIFT), Shl(g.datacenter, DATACENTER_ID_SHIFT)),
          Shl(g.worker, WORKER_ID_SHIFT)), g.sequence)
  }

  /** One call: how the fields move, in terms of the clock readings the call takes. */
  ghost predicate NextRel(clock: nat -> int, g: Gen, g': Gen) {
    && g'.worker == g.worker
    && g'.datacenter == g.datacenter
    && var now := clock(g.tick);
       if now != g.last then
         // a new millisecond restarts the sequence
         g' == g.(last := now, sequence := 0, tick := g.tick + 1)
       else if g.sequence < MAX_SEQUENCE - 1 then
         g' == g.(sequence := g.sequence + 1, tick := g.tick + 1)
       else
         // exhausted: the first later reading beyond this millisecond is used
         && g'.sequence == 0
         && g.tick + 2 <= g'.tick
         && g'.last == clock(g'.tick - 1)
         && g'.last > g.last
         && (forall k: nat :: g.tick + 1 <= k < g'.tick - 1 ==> clock(k) <= g.last)
  }

  // ---------------------------------------------------------------- the class

  class Generator {
    const clock: nat -> int
    var tick: nat
    var lastTimestamp: int
    var workerId: int
    var datacenterId: int
    var sequence: int

    function State(): Gen
      reads this
    {
      Gen(workerId, datacenterId, lastTimestamp, sequence, tick)
    }

    constructor (clock: nat -> int)
      ensures this.clock == clock
      ensures State() == Gen(0, 0, -1, 0, 0)
      ensures Inv(clock, State())
    {
      this.clock := clock;
      tick, lastTimestamp, workerId, datacenterId, sequence := 0, -1, 0, 0, 0;
    }

    method Init(worker: int, datacenter: int) returns (r: InitResult)
      modifies this`workerId, this`datacenterId
      ensures r == InitOk <==> 0 <= worker < 32 && 0 <= datacenter < 32
      ensures r == WorkerOutOfRange <==> !(0 <= worker < 32)
      ensures r == InitOk ==> State() == old(State()).(worker := worker, datacenter := datacenter)
      ensures r != InitOk ==> State() == old(State())
      ensures old(Inv(clock, State())) ==> Inv(clock, State())
    {
      if worker > MAX_WORKER_ID || worker < 0 { return WorkerOutOfRange; }
      if datacenter > MAX_DATACENTER_ID || datacenter < 0 { return DatacenterOutOfRange; }
      workerId := worker;
      datacenterId := datacenter;
      return InitOk;
    }

    method Millisecond() returns (t: int)
      modifies this`tick
      ensures t == clock(old(tick)) && tick == old(tick) + 1
    {
      t := clock(tick);
      tick := tick + 1;
    }

    /** Polls until the clock passes last; it does pass it, at reading pass or before. */
    method WaitNextMillis(last: int, ghost pass: nat) returns (t: int)
      requires Monotone(clock) && clock(pass) > last
      modifies this`tick
      ensures t > last
      ensures old(tick) < tick && t == clock(tick - 1)
      ensures forall k: nat :: old(tick) <= k < tick - 1 ==> clock(k) <= last
    {
      t := Millisecond();
      while t <= last
        invariant old(tick) < tick && t == clock(tick - 1)
        invariant forall k: nat :: old(tick) <= k < tick - 1 ==> clock(k) <= last
        decreases pass + 1 - tick
      {
        assert tick - 1 < pass;
        t := Millisecond();
      }
    }

    method Next() returns (id: nat)
      requires Monotone(clock) && Inv(clock, State()) && clock(tick) >= TWEPOCH
      requires exists j: nat :: clock(j) > clock(tick)   // time goes on
      modifies this
      ensures NextRel(clock, old(State()), State())
      ensures Inv(clock, State()) && lastTimestamp >= TWEPOCH
      ensures id == Compose(State())
    {
      ghost var pass: nat :| clock(pass) > clock(tick);
      var timestamp := Millisecond();
      if lastTimestamp == timestamp {
        assert And(sequence + 1, SEQUENCE_MASK) == if sequence == 4095 then 0 else sequence + 1 by {
          MaskedIncrement(sequence);
        }
        sequence := And(sequence + 1, SEQUENCE_MASK);
        if sequence == 0 {
          timestamp := WaitNextMillis(lastTimestamp, pass);
        }
      } else {
        sequence := 0;
      }
      lastTimestamp := timestamp;
      id := Compose(State());
    }
  }

  lemma MaskedIncrement(s: int)
    requires 0 <= s < 4096
    ensures And(s + 1, SEQUENCE_MASK) == if s == 4095 then 0 else s + 1
  {
    assert SEQUENCE_MASK == Pow2(12) - 1;
    AndMask(s + 1, 12);
    assert Pow2(12) == 4096;
    ModUnique(s + 1, 4096, if s == 4095 then 1 else 0, if s == 4095 then 0 else s + 1);
  }

  // ---------------------------------------------------------------- fields

  /** The shift-and-or id is the weighted sum of its four fields. */
  lemma ComposeIsWeightedSum(g: Gen)
    requires g.last >= TWEPOCH && 0 <= g.worker < 32 && 0 <= g.datacenter < 32 && 0 <= g.sequence < 4096
    ensures Compose(g) ==
            (g.last - TWEPOCH) * 4194304 + g.datacenter * 131072 + g.worker * 4096 + g.sequence
  {
    var t := g.last - TWEPOCH;
    OrDatacenter(t, g.datacenter);
    OrWorker(t * 32 + g.datacenter, g.worker);
    OrSequence((t * 32 + g.datacenter) * 32 + g.worker, g.sequence);
  }

  lemma OrDatacenter(t: nat, d: nat)
    requires d < 32
    ensures Or(Shl(t, TIMESTAMP_LEFT_SHIFT), Shl(d, DATACENTER_ID_SHIFT)) == Shl(t * 32 + d, DATACENTER_ID_SHIFT)
  {
    assert Pow2(22) == 4194304 && Pow2(17) == 131072 && Pow2(12) == 4096;
    OrDisjoint(t, 22, d * 131072);
  }

  lemma OrWorker(a: nat, w: nat)
    requires w < 32
    ensures Or(Shl(a, DATACENTER_ID_SHIFT), Shl(w, WORKER_ID_SHIFT)) == Shl(a * 32 + w, WORKER_ID_SHIFT)
  {
    assert Pow2(17) == 131072 && Pow2(12) == 4096;
    OrDisjoint(a, 17, w * 4096);
  }

  lemma OrSequence(a: nat, s: nat)
    requires s < 4096
    ensures Or(Shl(a, WORKER_ID_SHIFT), s) == a * 4096 + s
  {
    assert Pow2(12) == 4096;
    OrDisjoint(a, 12, s);
  }

  /** Division and remainder recover every field of an id. */
  lemma FieldsRecovered(g: Gen)
    requires g.last >= TWEPOCH && 0 <= g.worker < 32 && 0 <= g.datacenter < 32 && 0 <= g.sequence < 4096
    ensures var id := Compose(g);
            && id / 4194304 + TWEPOCH == g.last
            && id / 131072 % 32 == g.datacenter
            && id / 4096 % 32 == g.worker
            && id % 4096 == g.sequence
  {
    ComposeIsWeightedSum(g);
    var id, t := Compose(g), g.last - TWEPOCH;
    var low12, low17 := g.sequence, g.worker * 4096 + g.sequence;
    var high12 := (t * 32 + g.datacenter) * 32 + g.worker;
    ModUnique(id, 4096, high12, low12);
    ModUnique(high12, 32, t * 32 + g.datacenter, g.worker);
    ModUnique(id, 131072, t * 32 + g.datacenter, low17);
    ModUnique(t * 32 + g.datacenter, 32, t, g.datacenter);
    ModUnique(id, 4194304, t, g.datacenter * 131072 + low17);
  }

  // ---------------------------------------------------------------- runs

  /** A run: run[0] is a state the generator can be in, run[i] for i > 0 the state after the i-th call. */
  ghost predicate IsRun(clock: nat -> int, run: seq<Gen>) {
    && |run| > 0
    && Inv(clock, run[0])
    && (forall i :: 0 <= i < |run| - 1 ==> NextRel(clock, run[i], run[i + 1]))
    && (forall i :: 0 < i < |run| ==> TWEPOCH <= run[i].last < TWEPOCH + WINDOW)
  }

  ghost predicate Later(g: Gen, g': Gen) {
    g.last < g'.last || (g.last == g'.last && g.sequence < g'.sequence)
  }

  lemma NextKeepsInv(clock: nat -> int, g: Gen, g': Gen)
    requires Monotone(clock) && Inv(clock, g) && NextRel(clock, g, g') && g'.last >= TWEPOCH
    ensures Inv(clock, g') && Later(g, g')
    ensures g'.last == g.last ==> g'.sequence == g.sequence + 1
  {
  }

  lemma {:induction false} RunFacts(clock: nat -> int, run: seq<Gen>, i: nat, j: nat)
    requires Monotone(clock) && IsRun(clock, run) && i <= j < |run|
    ensures Inv(clock, run[i]) && Inv(clock, run[j])
    ensures run[i].worker == run[j].worker && run[i].datacenter == run[j].datacenter
    ensures i < j ==> Later(run[i], run[j])
    ensures run[i].last == run[j].last ==> run[j].sequence == run[i].sequence + (j - i)
    decreases j
  {
    if j > 0 {
      if i < j {
        RunFacts(clock, run, i, j - 1);
      } else {
        RunFacts(clock, run, j - 1, j - 1);
      }
      assert NextRel(clock, run[j - 1], run[j - 1 + 1]);
      NextKeepsInv(clock, run[j - 1], run[j]);
    }
  }

  /** On one node, later fields make a larger id. */
  lemma LaterIsLarger(g: Gen, g': Gen)
    requires g.last >= TWEPOCH && 0 <= g.worker < 32 && 0 <= g.datacenter < 32 && 0 <= g.sequence < 4096
    requires g'.worker == g.worker && g'.datacenter == g.datacenter && 0 <= g'.sequence < 4096 && Later(g, g')
    ensures Compose(g) < Compose(g')
  {
    ComposeIsWeightedSum(g);
    ComposeIsWeightedSum(g');
  }

  /** Ids of one generator strictly increase over every run and fit in 63 bits. */
  lemma IdsIncrease(clock: nat -> int, run: seq<Gen>, i: nat, j: nat)
    requires Monotone(clock) && IsRun(clock, run) && 0 < i < j < |run|
    ensures Inv(clock, run[i]) && Inv(clock, run[j])
    ensures Compose(run[i]) < Compose(run[j]) < 0x8000_0000_0000_0000
  {
    RunFacts(clock, run, i, j);
    LaterIsLarger(run[i], run[j]);
    ComposeIsWeightedSum(run[j]);
  }

  /** No millisecond is used for more than 4096 ids. */
  lemma AtMost4096PerMillisecond(clock: nat -> int, run: seq<Gen>, i: nat, j: nat)
    requires Monotone(clock) && IsRun(clock, run) && 0 < i <= j < |run|
    requires run[i].last == run[j].last
    ensures j - i < 4096
  {
    RunFacts(clock, run, i, j);
  }

  /** Generators on different nodes never produce the same id, whatever their clocks and runs. */
  lemma NodesNeverCollide(clock: nat -> int, run: seq<Gen>, i: nat, clock': nat -> int, run': seq<Gen>, j: nat)
    requires Monotone(clock) && IsRun(clock, run) && 0 < i < |run|
    requires Monotone(clock') && IsRun(clock', run') && 0 < j < |run'|
    requires (run[0].datacenter, run[0].worker) != (run'[0].datacenter, run'[0].worker)
    ensures Inv(clock, run[i]) && Inv(clock', run'[j])
    ensures Compose(run[i]) != Compose(run'[j])
  {
    RunFacts(clock, run, 0, i);
    RunFacts(clock', run', 0, j);
    FieldsRecovered(run[i]);
    FieldsRecovered(run'[j]);
  }
}
