/** The queue object: whole calls of Enqueue and Dequeue, as sequences of the ring's atomic steps. */
module RingObject {
  import opened RingQueue
  import opened RingLimits

  // ---------------------------------------------------------------- whole calls as compositions of steps

  // atomic steps of: the capacity test; claim, store and publication; the emptiness test; a whole take
  const CAPACITY_TEST: nat := 2
  const CLAIM: nat := 5
  const EMPTINESS_TEST: nat := 3
  const TAKE: nat := 6

  /** k claims, and k takes, that fail for no reason: each goes back to its first load. */
  function ClaimTries<T>(s: Ring<T>, t: nat, k: nat): (s': Ring<T>)
    requires Shaped(s)
    ensures Shaped(s') && s'.size == s.size
    decreases k
  {
    if k == 0 then s else ClaimTries(ProducerStep(Produces(s, t, 2), t, true), t, k - 1)
  }

  function TakeTries<T>(s: Ring<T>, u: nat, k: nat): (s': Ring<T>)
    requires Shaped(s)
    ensures Shaped(s') && s'.size == s.size
    decreases k
  {
    if k == 0 then s else TakeTries(ConsumerStep(Consumes(s, u, 5), u, true), u, k - 1)
  }

  /** From behind the capacity test to the end of Enqueue, and from the start of Dequeue's loop to its end. */
  function Putting<T>(s: Ring<T>, t: nat, k: nat): (s': Ring<T>)
    requires Shaped(s)
    ensures Shaped(s') && s'.size == s.size
  {
    Produces(ClaimTries(s, t, k), t, CLAIM)
  }

  function Taking<T>(s: Ring<T>, u: nat, k: nat): (s': Ring<T>)
    requires Shaped(s)
    ensures Shaped(s') && s'.size == s.size
  {
    Consumes(TakeTries(s, u, k), u, TAKE)
  }

  /** Enqueue from its capacity test on, when there is room. */
  function Passing<T>(s: Ring<T>, t: nat, k: nat): (s': Ring<T>)
    requires Shaped(s)
    ensures Shaped(s') && s'.size == s.size
  {
    Putting(Produces(s, t, CAPACITY_TEST), t, k)
  }

  /** Enqueue by t, with k failing claims; when the ring is full, its test fails once, and u takes a value meanwhile. */
  function Enqueued<T>(s: Ring<T>, t: nat, v: T, k: nat, u: nat): (s': Ring<T>)
    requires Shaped(s)
    ensures Shaped(s') && s'.size == s.size
  {
    var called := Step(s, Enqueue(t, v));
    if s.enq - s.deq < s.size then Passing(called, t, k)
    else Passing(Dequeued(Produces(called, t, CAPACITY_TEST), u, 0), t, k)
  }

  /** Dequeue by u of a value that is there. */
  function Dequeued<T>(s: Ring<T>, u: nat, k: nat): (s': Ring<T>)
    requires Shaped(s)
    ensures Shaped(s') && s'.size == s.size
  {
    Taking(Step(s, Dequeue(u)), u, k)
  }

  /** Dequeue by u from an empty ring: its test fails once, and t enqueues v meanwhile. */
  function DequeuedLate<T>(s: Ring<T>, u: nat, k: nat, t: nat, v: T): (s': Ring<T>)
    requires Shaped(s)
    ensures Shaped(s') && s'.size == s.size
  {
    Taking(Enqueued(Consumes(Step(s, Dequeue(u)), u, EMPTINESS_TEST), t, v, 0, u), u, k)
  }

  // ---------------------------------------------------------------- what they amount to

  function AfterPut<T>(s: Ring<T>, t: nat, v: T): Ring<T>
    requires Shaped(s)
  {
    s.(enq := s.enq + 1, producers := s.producers[t := POut], data := s.data[Slot(s.enq, s.size) := v],
       claimed := s.claimed + [v], tickets := s.tickets + [s.enq])
  }

  lemma {:induction false} ClaimTriesChangeNothing<T>(s: Ring<T>, t: nat, k: nat)
    requires Shaped(s) && ProducerOf(s, t).PLoad? && s.enq != TOKEN
    ensures ClaimTries(s, t, k) == s
    decreases k
  {
    if k > 0 {
      var v := ProducerOf(s, t).v;
      var s1 := s.(producers := s.producers[t := PToken(v, s.enq)]);
      var s2 := s.(producers := s.producers[t := PCas(v, s.enq)]);
      assert ProducerStep(s, t, false) == s1;
      assert s1.producers[t := PCas(v, s.enq)] == s2.producers && ProducerStep(s1, t, false) == s2;
      assert s2.producers[t := PLoad(v)] == s.producers && ProducerStep(s2, t, true) == s;
      assert Produces(s, t, 2) == Produces(s1, t, 1) == Produces(s2, t, 0);
      ClaimTriesChangeNothing(s, t, k - 1);
    }
  }

  lemma PuttingOnce<T>(s: Ring<T>, t: nat, k: nat)
    requires Shaped(s) && ProducerOf(s, t).PLoad? && s.enq != TOKEN
    ensures Putting(s, t, k) == AfterPut(s, t, ProducerOf(s, t).v)
  {
    var v := ProducerOf(s, t).v;
    ClaimTriesChangeNothing(s, t, k);
    var s1 := s.(producers := s.producers[t := PToken(v, s.enq)]);
    var s2 := s.(producers := s.producers[t := PCas(v, s.enq)]);
    assert ProducerStep(s, t, false) == s1;
    assert s1.producers[t := PCas(v, s.enq)] == s2.producers && ProducerStep(s1, t, false) == s2;
    var s3 := AfterClaim(s, t, v);
    assert s2.producers[t := PStore(v, s.enq)] == s3.producers && ProducerStep(s2, t, false) == s3;
    ThreeMore(s, t, s1, s2, s3);
    PublishOnce(s3, t);
    assert s3.producers[t := POut] == s.producers[t := POut];
  }

  lemma ThreeMore<T>(s: Ring<T>, t: nat, s1: Ring<T>, s2: Ring<T>, s3: Ring<T>)
    requires Shaped(s) && Shaped(s1) && Shaped(s2) && Shaped(s3)
    requires ProducerStep(s, t, false) == s1 && ProducerStep(s1, t, false) == s2 && ProducerStep(s2, t, false) == s3
    ensures Produces(s, t, 5) == Produces(s3, t, 2)
  {
    assert Produces(s, t, 5) == Produces(s1, t, 4) == Produces(s2, t, 3) == Produces(s3, t, 2);
  }

  lemma {:induction false} TakeTriesChangeNothing<T>(s: Ring<T>, u: nat, k: nat)
    requires Shaped(s) && ConsumerOf(s, u).CLoad? && s.deq < s.enq
    ensures TakeTries(s, u, k) == s
    decreases k
  {
    if k > 0 {
      UpToCas(s, u);
      var s5 := s.(consumers := s.consumers[u := CCas(s.deq, s.data[Slot(s.deq, s.size)])]);
      assert s5.consumers[u := CLoad] == s.consumers && ConsumerStep(s5, u, true) == s;
      TakeTriesChangeNothing(s, u, k - 1);
    }
  }

  lemma TakingOnce<T>(s: Ring<T>, u: nat, k: nat)
    requires Shaped(s) && ConsumerOf(s, u).CLoad? && s.deq < s.enq
    ensures Taking(s, u, k) == Taken(s, u)
  {
    TakeTriesChangeNothing(s, u, k);
    TakeOnce(s, u);
  }

  function CalledBy<T>(s: Ring<T>, t: nat, v: T): Ring<T> {
    s.(producers := s.producers[t := PTest(v)], offered := s.offered + [v])
  }

  lemma CallOnce<T>(s: Ring<T>, t: nat, v: T)
    requires Shaped(s) && ProducerOf(s, t).POut?
    ensures Step(s, Enqueue(t, v)) == CalledBy(s, t, v)
  {
  }

  lemma CapacityTestOnce<T>(s: Ring<T>, t: nat)
    requires Shaped(s) && ProducerOf(s, t).PTest?
    ensures Produces(s, t, CAPACITY_TEST) == if s.enq - s.deq >= s.size then s
                                 else s.(producers := s.producers[t := PLoad(ProducerOf(s, t).v)])
  {
    var v := ProducerOf(s, t).v;
    var s1 := s.(producers := s.producers[t := PTestDeq(v, s.enq)]);
    assert ProducerStep(s, t, false) == s1;
    assert s1.producers[t := PLoad(v)] == s.producers[t := PLoad(v)] && s1.producers[t := PTest(v)] == s.producers;
    assert Produces(s, t, 2) == Produces(s1, t, 1) == Produces(ProducerStep(s1, t, false), t, 0);
  }

  /** Whichever counter is loaded first: with room the capacity test passes, without it starts over. */
  lemma CapacityTestEither<T>(s: Ring<T>, t: nat, choice: bool, other: bool)
    requires Shaped(s) && ProducerOf(s, t).PTest?
    ensures ProducerStep(ProducerStep(s, t, choice), t, other)
         == if s.enq - s.deq >= s.size then s else s.(producers := s.producers[t := PLoad(ProducerOf(s, t).v)])
  {
    var v := ProducerOf(s, t).v;
    var s1 := s.(producers := s.producers[t := if choice then PTestEnq(v, s.deq) else PTestDeq(v, s.enq)]);
    assert ProducerStep(s, t, choice) == s1;
    assert s1.producers[t := PLoad(v)] == s.producers[t := PLoad(v)] && s1.producers[t := PTest(v)] == s.producers;
  }

  /** And the emptiness test, from its first load on. */
  lemma EmptinessTestEither<T>(s: Ring<T>, u: nat, choice: bool, other: bool)
    requires Shaped(s) && ConsumerOf(s, u).CTest?
    ensures ConsumerStep(ConsumerStep(s, u, choice), u, other)
         == s.(consumers := s.consumers[u := if s.deq >= s.enq then CLoad else CIndex(ConsumerOf(s, u).seen)])
  {
    var seen := ConsumerOf(s, u).seen;
    var s1 := s.(consumers := s.consumers[u := if choice then CTestDeq(seen, s.enq) else CTestEnq(seen, s.deq)]);
    assert ConsumerStep(s, u, choice) == s1;
    assert s1.consumers[u := CLoad] == s.consumers[u := CLoad];
    assert s1.consumers[u := CIndex(seen)] == s.consumers[u := CIndex(seen)];
  }

  lemma EmptinessTestOnce<T>(s: Ring<T>, u: nat)
    requires Shaped(s) && ConsumerOf(s, u).CLoad? && s.deq >= s.enq
    ensures Consumes(s, u, EMPTINESS_TEST) == s
  {
    var s1 := s.(consumers := s.consumers[u := CTest(s.deq)]);
    var s2 := s.(consumers := s.consumers[u := CTestEnq(s.deq, s.deq)]);
    assert ConsumerStep(s, u, false) == s1;
    assert s1.consumers[u := CTestEnq(s.deq, s.deq)] == s2.consumers && ConsumerStep(s1, u, false) == s2;
    assert s2.consumers[u := CLoad] == s.consumers && ConsumerStep(s2, u, false) == s;
    assert Consumes(s, u, 3) == Consumes(s1, u, 2) == Consumes(s2, u, 1) == Consumes(s, u, 0);
  }

  lemma DequeuedOnce<T>(s: Ring<T>, u: nat, k: nat)
    requires Shaped(s) && ConsumerOf(s, u).COut? && s.deq < s.enq
    ensures Dequeued(s, u, k) == Taken(s, u)
  {
    var s1 := s.(consumers := s.consumers[u := CLoad]);
    assert Step(s, Dequeue(u)) == s1;
    TakingOnce(s1, u, k);
    assert s1.consumers[u := COut] == s.consumers[u := COut];
  }

  lemma PassingOnce<T>(s: Ring<T>, t: nat, k: nat)
    requires Shaped(s) && ProducerOf(s, t).PTest? && s.enq != TOKEN && s.enq - s.deq < s.size
    ensures Passing(s, t, k) == AfterPut(s, t, ProducerOf(s, t).v)
  {
    CapacityTestOnce(s, t);
    var r := s.(producers := s.producers[t := PLoad(ProducerOf(s, t).v)]);
    PuttingOnce(r, t, k);
    assert r.producers[t := POut] == s.producers[t := POut];
  }

  lemma EnqueuedOverall<T>(s: Ring<T>, t: nat, v: T, k: nat, u: nat)
    requires Shaped(s) && ProducerOf(s, t).POut? && s.enq != TOKEN && s.enq - s.deq <= s.size
    requires s.enq - s.deq == s.size ==> ConsumerOf(s, u).COut?
    ensures var called := CalledBy(s, t, v);
            Enqueued(s, t, v, k, u) == AfterPut(if s.enq - s.deq < s.size then called else Taken(called, u), t, v)
  {
    CallOnce(s, t, v);
    var called := CalledBy(s, t, v);
    if s.enq - s.deq < s.size {
      PassingOnce(called, t, k);
    } else {
      CapacityTestOnce(called, t);
      DequeuedOnce(called, u, 0);
      PassingOnce(Taken(called, u), t, k);
    }
  }

  // ---------------------------------------------------------------- the invariant over whole calls

  lemma PutKeeps<T>(s: Ring<T>, t: nat, v: T)
    requires Inv(s) && IsPow2(s.size) && s.enq != TOKEN && Roomy(s)
    ensures Inv(AfterPut(s, t, v))
  {
    var r := AfterPut(s, t, v);
    RoomIsHarmless(s, v);
    forall w: nat ensures ProducerInv(r, ProducerOf(r, w)) && !Owns(ProducerOf(r, w)) {
      assert ProducerInv(s, ProducerOf(s, w));
    }
    forall w: nat ensures ConsumerInv(r, ConsumerOf(r, w)) { assert ConsumerInv(s, ConsumerOf(s, w)); }
    PutKeepsRing(s, t, v);
  }

  lemma PutKeepsRing<T>(s: Ring<T>, t: nat, v: T)
    requires RingInv(s) && s.enq == |s.claimed| && Harmless(s, v)
    ensures RingInv(AfterPut(s, t, v))
  {
    var r := AfterPut(s, t, v);
    forall i, j | r.deq <= i < j < |r.claimed| ensures Agree(r, i, j) {
      if j < |s.claimed| { assert Agree(s, i, j); }
    }
    forall i | r.deq <= i < Tail(r) ensures r.data[Slot(i, r.size)] == r.claimed[i] {
      if i < |s.claimed| { assert s.data[Slot(i, s.size)] == s.claimed[i]; }
    }
  }

  lemma TakeKeeps<T>(s: Ring<T>, u: nat)
    requires Inv(s) && s.deq < Tail(s)
    ensures Inv(Taken(s, u)) && Taken(s, u).taken == s.taken + [s.claimed[s.deq]]
  {
    var r := Taken(s, u);
    TokenInvFrame(s, r);
    forall w: nat ensures ConsumerInv(r, ConsumerOf(r, w)) { assert ConsumerInv(s, ConsumerOf(s, w)); }
    forall i, j | r.deq <= i < j < |r.claimed| ensures Agree(r, i, j) { assert Agree(s, i, j); }
  }

  // ---------------------------------------------------------------- the object

  /** The queue, used by one thread at a time, except that a thread that has to wait lets another one make one call. */
  class Queue<T(0)> {
    const size: nat
    const data: array<T>
    var enqueueNum: int
    var dequeueNum: int

    // where the threads are, and the histories
    ghost var producers: map<nat, Producer<T>>
    ghost var consumers: map<nat, Consumer<T>>
    ghost var claimed: seq<T>
    ghost var tickets: seq<int>
    ghost var taken: seq<T>
    ghost var offered: seq<T>

    /** The object as a state of the machine. */
    ghost function View(): Ring<T>
      reads this, data
    {
      Ring(size, data[..], enqueueNum, dequeueNum, producers, consumers, claimed, tickets, taken, offered)
    }

    ghost predicate Valid()
      reads this, data
    {
      && IsPow2(size) && size >= MIN_SIZE && data.Length == size + 1
      && Inv(View()) && enqueueNum != TOKEN && |claimed| - dequeueNum <= size
    }

    /** The waiting values, oldest first. */
    ghost function Contents(): (s: seq<T>)
      reads this, data
      requires Valid()
      ensures |s| == enqueueNum - dequeueNum
    {
      claimed[dequeueNum..]
    }

    constructor (request: int)
      requires request <= MAX_REQUEST
      ensures Valid() && fresh(data) && Contents() == [] && View() == Init(size, data[..])
      ensures if request <= MIN_SIZE then size == MIN_SIZE else size < request <= 2 * size
    {
      var n := SetSize(request);
      size := n;
      data := new T[n + 1];
      enqueueNum, dequeueNum := 0, 0;
      producers, consumers, claimed, tickets, taken, offered := map[], map[], [], [], [], [];
      new;
      InitInv(size, data[..]);
    }

    /** Enqueue by t: the value joins the end. When the ring is full, t waits until u has taken the oldest value. */
    method Enqueue(value: T, spurious: nat, ghost t: nat, ghost u: nat) returns (num: int)
      requires Valid() && ProducerOf(View(), t).POut? && (|Contents()| == size ==> ConsumerOf(View(), u).COut?)
      modifies this, data
      ensures Valid() && View() == Enqueued(old(View()), t, value, spurious, u)
      ensures Contents() == (if |old(Contents())| < size then old(Contents()) else old(Contents())[1..]) + [value]
      ensures num == enqueueNum == old(enqueueNum) + 1
    {
      EnqueuedOverall(View(), t, value, spurious, u);
      num := EnqueueWaiting(value, spurious, t, u);
    }

    method EnqueueWaiting(value: T, spurious: nat, ghost t: nat, ghost u: nat) returns (num: int)
      requires Valid() && ProducerOf(View(), t).POut? && (|Contents()| == size ==> ConsumerOf(View(), u).COut?)
      modifies this, data
      ensures Valid() && num == enqueueNum == old(enqueueNum) + 1
      ensures Contents() == (if |old(Contents())| < size then old(Contents()) else old(Contents())[1..]) + [value]
      ensures View() == AfterPut(if old(|Contents()| < size) then CalledBy(old(View()), t, value)
                                 else Taken(CalledBy(old(View()), t, value), u), t, value)
    {
      Call(value, t);
      WaitForRoom(u);
      num := Put(value, spurious, t);
    }

    ghost method Call(value: T, t: nat)
      requires Valid() && ProducerOf(View(), t).POut?
      modifies this`offered, this`producers
      ensures Valid() && Contents() == old(Contents())
      ensures View() == CalledBy(old(View()), t, value)
    {
      CallsKeep(View(), Action.Enqueue(t, value));
      offered := offered + [value];
      producers := producers[t := PTest(value)];
    }

    /** The capacity loop; instead of spinning it lets u take a value. */
    method WaitForRoom(ghost u: nat)
      requires Valid() && (|Contents()| == size ==> ConsumerOf(View(), u).COut?)
      modifies this
      ensures Valid() && |Contents()| < size
      ensures View() == if |old(Contents())| < size then old(View()) else Taken(old(View()), u)
      ensures Contents() == if |old(Contents())| < size then old(Contents()) else old(Contents())[1..]
    {
      while enqueueNum - dequeueNum >= size
        invariant Valid()
        invariant View() == old(View()) || (|old(Contents())| == size && View() == Taken(old(View()), u))
        decreases enqueueNum - dequeueNum
      {
        var _, _ := TakeOldest(0, u);
      }
    }

    /** The claim, the store and the publication; spurious counts the CAS attempts that fail for no reason. */
    method Put(value: T, spurious: nat, ghost t: nat) returns (num: int)
      requires Valid() && ProducerOf(View(), t) == PTest(value) && |Contents()| < size
      modifies this, data
      ensures Valid() && View() == AfterPut(old(View()), t, value)
      ensures Contents() == old(Contents()) + [value] && num == enqueueNum
    {
      PutKeeps(View(), t, value);
      var failures := spurious;
      var oldNum := enqueueNum;
      var done := false;
      while !done
        invariant oldNum == old(enqueueNum) && View() == old(View()).(enq := enqueueNum)
        invariant enqueueNum == if done then TOKEN else oldNum
        decreases !done, failures
      {
        oldNum := enqueueNum;
        if enqueueNum != TOKEN {
          if failures > 0 {
            failures := failures - 1;
          } else {
            enqueueNum := TOKEN;
            done := true;
          }
        }
      }
      claimed, tickets := claimed + [value], tickets + [oldNum];
      data[Slot(oldNum, size)] := value;
      enqueueNum := oldNum + 1;
      producers := producers[t := POut];
      return enqueueNum;
    }

    /** Dequeue by u: yields the oldest value. When the ring is empty, u waits until t has enqueued next. */
    method Dequeue(spurious: nat, ghost u: nat, next: T, ghost t: nat) returns (value: T, num: int)
      requires Valid() && ConsumerOf(View(), u).COut? && ProducerOf(View(), t).POut?
      modifies this, data
      ensures Valid()
      ensures View() == if old(Contents()) != [] then Dequeued(old(View()), u, spurious)
                        else DequeuedLate(old(View()), u, spurious, t, next)
      ensures [value] + Contents() == if old(Contents()) != [] then old(Contents()) else [next]
      ensures num == dequeueNum == old(dequeueNum) + 1
    {
      ghost var s := View();
      CallsKeep(s, Action.Dequeue(u));
      consumers := consumers[u := CLoad];
      ghost var called := View();
      assert called == Step(s, Action.Dequeue(u));
      while dequeueNum >= enqueueNum
        invariant Valid() && dequeueNum == s.deq
        invariant View() == if enqueueNum == s.enq then called else Enqueued(called, t, next, 0, u)
        invariant enqueueNum == s.enq || (s.enq == s.deq && enqueueNum == s.enq + 1 && Contents() == [next])
        invariant ConsumerOf(View(), u).CLoad?
        decreases dequeueNum - enqueueNum
      {
        EnqueuedOverall(called, t, next, 0, u);
        var _ := Enqueue(next, 0, t, u);
      }
      ghost var ready := View();
      value, num := TakeOldest(spurious, u);
      TakingOnce(ready, u, spurious);
      if s.deq >= s.enq { EmptinessTestOnce(called, u); }
    }

    /** The loop once there is a value: reads the slot and tries to take the ticket. */
    method TakeOldest(spurious: nat, ghost u: nat) returns (value: T, num: int)
      requires Valid() && Contents() != [] && (ConsumerOf(View(), u).COut? || ConsumerOf(View(), u).CLoad?)
      modifies this
      ensures Valid() && View() == Taken(old(View()), u)
      ensures old(Contents()) == [value] + Contents()
      ensures num == dequeueNum
    {
      TakeKeeps(View(), u);
      assert View().data[Slot(dequeueNum, size)] == claimed[dequeueNum];
      var failures := spurious;
      value := data[Slot(dequeueNum, size)];
      var done := false;
      while !done
        invariant value == old(data[Slot(dequeueNum, size)])
        invariant View() == old(View()).(deq := dequeueNum)
        invariant dequeueNum == if done then old(dequeueNum) + 1 else old(dequeueNum)
        decreases !done, failures
      {
        var oldNum := dequeueNum;
        var newNum := oldNum + 1;
        value := data[Slot(dequeueNum, size)];
        if failures > 0 {
          failures := failures - 1;
        } else {
          dequeueNum := newNum;
          done := true;
        }
      }
      taken := taken + [value];
      consumers := consumers[u := COut];
      return value, dequeueNum;
    }
  }
}
