/** Where the ring's guarantees end: the side conditions on loads and claims are exact, and runs that violate them
    exist. */
module RingLimits {
  import opened RingQueue
  import opened Threads

  // ---------------------------------------------------------------- threads that nobody interferes with

  /** k steps of producer t, and of consumer u, none of which uses its choice. */
  function Produces<T>(s: Ring<T>, t: nat, k: nat): (s': Ring<T>)
    requires Shaped(s)
    ensures Shaped(s') && s'.size == s.size
    decreases k
  {
    if k == 0 then s else Produces(ProducerStep(s, t, false), t, k - 1)
  }

  function Consumes<T>(s: Ring<T>, u: nat, k: nat): (s': Ring<T>)
    requires Shaped(s)
    ensures Shaped(s') && s'.size == s.size
    decreases k
  {
    if k == 0 then s else Consumes(ConsumerStep(s, u, false), u, k - 1)
  }

  /** An undisturbed Dequeue that finds a value. */
  function Taken<T>(s: Ring<T>, u: nat): Ring<T>
    requires Shaped(s)
  {
    s.(deq := s.deq + 1, consumers := s.consumers[u := COut], taken := s.taken + [s.data[Slot(s.deq, s.size)]])
  }

  /** Up to its CAS it only looks. */
  lemma UpToCas<T>(s: Ring<T>, u: nat)
    requires Shaped(s) && ConsumerOf(s, u).CLoad? && s.deq < s.enq
    ensures Consumes(s, u, 5) == s.(consumers := s.consumers[u := CCas(s.deq, s.data[Slot(s.deq, s.size)])])
  {
    var c, x := s.consumers, s.data[Slot(s.deq, s.size)];
    var s1 := s.(consumers := c[u := CTest(s.deq)]);
    var s2 := s.(consumers := c[u := CTestEnq(s.deq, s.deq)]);
    var s3 := s.(consumers := c[u := CIndex(s.deq)]);
    var s4 := s.(consumers := c[u := CRead(s.deq, s.deq)]);
    var s5 := s.(consumers := c[u := CCas(s.deq, x)]);
    assert ConsumerStep(s, u, false) == s1;
    assert s1.consumers[u := CTestEnq(s.deq, s.deq)] == s2.consumers && ConsumerStep(s1, u, false) == s2;
    assert s2.consumers[u := CIndex(s.deq)] == s3.consumers && ConsumerStep(s2, u, false) == s3;
    assert s3.consumers[u := CRead(s.deq, s.deq)] == s4.consumers && ConsumerStep(s3, u, false) == s4;
    assert s4.consumers[u := CCas(s.deq, x)] == s5.consumers && ConsumerStep(s4, u, false) == s5;
    FiveConsumes(s, u, s1, s2, s3, s4, s5);
  }

  lemma FiveConsumes<T>(s: Ring<T>, u: nat, s1: Ring<T>, s2: Ring<T>, s3: Ring<T>, s4: Ring<T>, s5: Ring<T>)
    requires Shaped(s) && Shaped(s1) && Shaped(s2) && Shaped(s3) && Shaped(s4) && Shaped(s5)
    requires ConsumerStep(s, u, false) == s1 && ConsumerStep(s1, u, false) == s2 && ConsumerStep(s2, u, false) == s3
    requires ConsumerStep(s3, u, false) == s4 && ConsumerStep(s4, u, false) == s5
    ensures Consumes(s, u, 5) == s5
  {
    assert Consumes(s, u, 5) == Consumes(s1, u, 4) == Consumes(s2, u, 3);
    assert Consumes(s2, u, 3) == Consumes(s3, u, 2) == Consumes(s4, u, 1) == Consumes(s5, u, 0);
  }

  lemma TakeOnce<T>(s: Ring<T>, u: nat)
    requires Shaped(s) && ConsumerOf(s, u).CLoad? && s.deq < s.enq
    ensures Consumes(s, u, 6) == Taken(s, u)
  {
    UpToCas(s, u);
    var s5 := s.(consumers := s.consumers[u := CCas(s.deq, s.data[Slot(s.deq, s.size)])]);
    assert s5.consumers[u := COut] == s.consumers[u := COut] && ConsumerStep(s5, u, false) == Taken(s, u);
    OneMore(s, u, 5);
  }

  lemma {:induction false} OneMore<T>(s: Ring<T>, u: nat, k: nat)
    requires Shaped(s)
    ensures Consumes(s, u, k + 1) == ConsumerStep(Consumes(s, u, k), u, false)
    decreases k
  {
    if k > 0 { OneMore(ConsumerStep(s, u, false), u, k - 1); }
  }

  /** The rest of an undisturbed Enqueue from the point where its ticket is claimed. */
  function Published<T>(s: Ring<T>, t: nat, v: T, n: int): Ring<T>
    requires Shaped(s)
  {
    s.(enq := n + 1, producers := s.producers[t := POut], data := s.data[Slot(n, s.size) := v])
  }

  lemma PublishOnce<T>(s: Ring<T>, t: nat)
    requires Shaped(s) && ProducerOf(s, t).PStore?
    ensures Produces(s, t, 2) == Published(s, t, ProducerOf(s, t).v, ProducerOf(s, t).seen)
  {
    var v, n := ProducerOf(s, t).v, ProducerOf(s, t).seen;
    var s1 := s.(data := s.data[Slot(n, s.size) := v], producers := s.producers[t := PPublish(v, n)]);
    assert ProducerStep(s, t, false) == s1;
    assert s1.producers[t := POut] == s.producers[t := POut];
    assert ProducerStep(s1, t, false) == Published(s, t, v, n);
    assert Produces(s, t, 2) == Produces(s1, t, 1) == Produces(Published(s, t, v, n), t, 0);
  }

  // ---------------------------------------------------------------- the same as runs

  /** A set of states that no step of this care leaves. */
  ghost predicate Closed<T(!new)>(care: Care, reach: Ring<T> -> bool) {
    forall s: Ring<T>, a: Action<T> :: Shaped(s) && reach(s) && Heeds(care, s, a) ==> reach(Step(s, a))
  }

  lemma Continuations<T(!new)>(care: Care, o: Ring<T>) returns (reach: Ring<T> -> bool)
    requires Shaped(o)
    ensures Closed(care, reach) && reach(o) && forall s :: reach(s) ==> Leads(care, o, s)
  {
    reach := s => Leads(care, o, s);
    LeadsNowhere(care, o);
    forall s: Ring<T>, a: Action<T> | Shaped(s) && reach(s) && Heeds(care, s, a) ensures reach(Step(s, a)) {
      LeadsStep(care, o, s, a);
    }
  }

  lemma Leading<T(!new)>(care: Care, reach: Ring<T> -> bool, s: Ring<T>, a: Action<T>, s': Ring<T>)
    requires Closed(care, reach) && reach(s) && Shaped(s) && Heeds(care, s, a) && Step(s, a) == s'
    ensures reach(s')
  {
  }

  lemma {:induction false} LeadsConsumes<T(!new)>(care: Care, reach: Ring<T> -> bool, s: Ring<T>, u: nat, k: nat)
    requires Closed(care, reach) && reach(s) && Shaped(s)
    ensures reach(Consumes(s, u, k))
    decreases k
  {
    if k > 0 {
      Leading(care, reach, s, Consume(u, false), ConsumerStep(s, u, false));
      LeadsConsumes(care, reach, ConsumerStep(s, u, false), u, k - 1);
    }
  }

  lemma LeadsTake<T(!new)>(care: Care, reach: Ring<T> -> bool, s: Ring<T>, u: nat)
    requires Closed(care, reach) && reach(s) && Shaped(s) && ConsumerOf(s, u).COut? && s.deq < s.enq
    ensures reach(Taken(s, u))
  {
    var s1 := s.(consumers := s.consumers[u := CLoad]);
    Leading(care, reach, s, Dequeue(u), s1);
    LeadsConsumes(care, reach, s1, u, 6);
    TakeOnce(s1, u);
    assert s1.consumers[u := COut] == s.consumers[u := COut];
  }

  /** k values taken by one consumer: they are what the slots hold. */
  lemma {:induction false} LeadsTakes<T(!new)>(care: Care, reach: Ring<T> -> bool, s: Ring<T>, u: nat, k: nat)
    returns (r: Ring<T>)
    requires Closed(care, reach) && reach(s) && Shaped(s) && ConsumerOf(s, u).COut? && (k > 0 ==> s.deq + k <= s.enq)
    ensures reach(r) && ConsumerOf(r, u).COut?
    ensures r == s.(deq := s.deq + k, taken := r.taken, consumers := r.consumers)
    ensures |r.taken| == |s.taken| + k && s.taken <= r.taken
    ensures forall i :: s.deq <= i < s.deq + k ==> r.taken[|s.taken| + i - s.deq] == s.data[Slot(i, s.size)]
    decreases k
  {
    if k == 0 {
      r := s;
    } else {
      var q := LeadsTakes(care, reach, s, u, k - 1);
      LeadsTake(care, reach, q, u);
      r := Taken(q, u);
    }
  }

  /** A producer that finds room goes from its call to its claim. */
  lemma LeadsToClaim<T(!new)>(care: Care, reach: Ring<T> -> bool, s: Ring<T>, t: nat, v: T)
    requires Closed(care, reach) && reach(s) && Shaped(s)
    requires ProducerOf(s, t).POut? && s.enq != TOKEN && s.enq - s.deq < s.size
    ensures reach(s.(producers := s.producers[t := PCas(v, s.enq)], offered := s.offered + [v]))
  {
    var p := s.producers;
    var s1 := s.(producers := p[t := PTest(v)], offered := s.offered + [v]);
    Leading(care, reach, s, Enqueue(t, v), s1);
    var s2 := s1.(producers := p[t := PTestDeq(v, s.enq)]);
    assert s1.producers[t := PTestDeq(v, s.enq)] == s2.producers;
    Leading(care, reach, s1, Produce(t, false), s2);
    var s3 := s1.(producers := p[t := PLoad(v)]);
    assert s2.producers[t := PLoad(v)] == s3.producers;
    Leading(care, reach, s2, Produce(t, false), s3);
    LeadsFromLoad(care, reach, s3, t);
    assert s3.producers[t := PCas(v, s.enq)] == p[t := PCas(v, s.enq)];
  }

  lemma LeadsFromLoad<T(!new)>(care: Care, reach: Ring<T> -> bool, s: Ring<T>, t: nat)
    requires Closed(care, reach) && reach(s) && Shaped(s) && ProducerOf(s, t).PLoad? && s.enq != TOKEN
    ensures reach(s.(producers := s.producers[t := PCas(ProducerOf(s, t).v, s.enq)]))
  {
    var v := ProducerOf(s, t).v;
    var s4 := s.(producers := s.producers[t := PToken(v, s.enq)]);
    Leading(care, reach, s, Produce(t, false), s4);
    var s5 := s.(producers := s.producers[t := PCas(v, s.enq)]);
    assert s4.producers[t := PCas(v, s.enq)] == s5.producers;
    Leading(care, reach, s4, Produce(t, false), s5);
  }

  function AfterClaim<T>(s: Ring<T>, t: nat, v: T): Ring<T> {
    s.(enq := TOKEN, producers := s.producers[t := PStore(v, s.enq)],
       claimed := s.claimed + [v], tickets := s.tickets + [s.enq])
  }

  lemma LeadsClaim<T(!new)>(care: Care, reach: Ring<T> -> bool, s: Ring<T>, t: nat)
    requires Closed(care, reach) && reach(s) && Shaped(s) && Heeds(care, s, Produce(t, false))
    requires ProducerOf(s, t).PCas? && ProducerOf(s, t).seen == s.enq
    ensures reach(AfterClaim(s, t, ProducerOf(s, t).v))
  {
    Leading(care, reach, s, Produce(t, false), AfterClaim(s, t, ProducerOf(s, t).v));
  }

  lemma LeadsPublish<T(!new)>(care: Care, reach: Ring<T> -> bool, s: Ring<T>, t: nat)
    requires Closed(care, reach) && reach(s) && Shaped(s) && ProducerOf(s, t).PStore?
    ensures reach(Published(s, t, ProducerOf(s, t).v, ProducerOf(s, t).seen))
  {
    PublishOnce(s, t);
    Leading(care, reach, s, Produce(t, false), ProducerStep(s, t, false));
    var s1 := ProducerStep(s, t, false);
    Leading(care, reach, s1, Produce(t, false), ProducerStep(s1, t, false));
    assert Produces(s, t, 2) == Produces(s1, t, 1) == Produces(ProducerStep(s1, t, false), t, 0);
  }

  // ---------------------------------------------------------------- the condition on loads is exact

  /** A stale load lets two producers own the token. */
  lemma StaleLoadBreaks<T(!new)>(s: Ring<T>, a: Action<T>) returns (r: Ring<T>)
    requires Shaped(s) && TokenInv(s) && StaleToken(s, a)
    ensures Leads(FreshLoads, Step(s, a), r) && !OneOwner(r)
  {
    var v := ProducerOf(s, a.t).v;
    var o := s.(producers := s.producers[a.t := PCas(v, TOKEN)]);
    assert Step(s, a) == o;
    var reach := Continuations(FreshLoads, o);
    var w := Another(o.producers);
    var u := Another(o.consumers);
    var excess: nat := if o.enq - o.deq < o.size then 0 else o.enq - o.deq - o.size + 1;
    var s1 := LeadsTakes(FreshLoads, reach, o, u, excess);
    LeadsToClaim(FreshLoads, reach, s1, w, v);
    var s2 := s1.(producers := s1.producers[w := PCas(v, s1.enq)], offered := s1.offered + [v]);
    LeadsClaim(FreshLoads, reach, s2, w);
    var s3 := AfterClaim(s2, w, v);
    assert ProducerOf(s3, a.t) == PCas(v, TOKEN);
    LeadsClaim(FreshLoads, reach, s3, a.t);
    r := AfterClaim(s3, a.t, v);
    assert Owns(ProducerOf(r, a.t)) && Owns(ProducerOf(r, w));
  }

  /** From every reachable state: a step leaves the token with at most one owner, now and in every continuation without
      stale loads, if and only if it is no stale load itself. */
  lemma FreshnessIsExact<T(!new)>(size: nat, slots: seq<T>, acts: seq<Action<T>>, a: Action<T>)
    requires size > 0 && |slots| == size + 1 && Run(FreshLoads, Init(size, slots), acts)
    ensures var s := Exec(Init(size, slots), acts);
            (forall r :: Leads(FreshLoads, Step(s, a), r) ==> OneOwner(r)) <==> !StaleToken(s, a)
  {
    InitInv(size, slots);
    RunKeepsToken(Init(size, slots), acts);
    var s := Exec(Init(size, slots), acts);
    if StaleToken(s, a) {
      var r := StaleLoadBreaks(s, a);
    } else {
      StepKeepsToken(s, a);
      forall r | Leads(FreshLoads, Step(s, a), r) ensures OneOwner(r) {
        var more: seq<Action<T>> :| Run(FreshLoads, Step(s, a), more) && Exec(Step(s, a), more) == r;
        RunKeepsToken(Step(s, a), more);
      }
    }
  }

  // ---------------------------------------------------------------- the condition on claims is exact

  /** Once a slot holds another value than its waiting ticket's, taking up to that ticket yields the wrong value. */
  lemma WrongSlotBreaks<T(!new)>(reach: Ring<T> -> bool, s: Ring<T>, i: nat) returns (r: Ring<T>)
    requires Closed(HarmlessClaims, reach) && reach(s) && Shaped(s) && |s.taken| == s.deq <= i < s.enq
    requires i < |s.claimed| && s.data[Slot(i, s.size)] != s.claimed[i]
    ensures reach(r) && !(r.taken <= r.claimed)
  {
    var u := Another(s.consumers);
    r := LeadsTakes(HarmlessClaims, reach, s, u, i - s.deq + 1);
    assert r.taken[i] == s.data[Slot(i, s.size)];
  }

  /** A claim that is not harmless replaces a waiting value, and a consumer takes the wrong one. */
  lemma HarmfulClaimBreaks<T(!new)>(s: Ring<T>, a: Action<T>) returns (r: Ring<T>)
    requires Inv(s) && Claims(s, a) && !Harmless(s, ProducerOf(s, a.t).v)
    ensures Leads(HarmlessClaims, Step(s, a), r) && !(r.taken <= r.claimed)
  {
    var v, n := ProducerOf(s, a.t).v, s.enq;
    assert ProducerInv(s, ProducerOf(s, a.t));
    var i: nat :| i < |s.claimed| && s.deq <= i && Slot(i, s.size) == Slot(|s.claimed|, s.size) && s.claimed[i] != v;
    var o := AfterClaim(s, a.t, v);
    assert Step(s, a) == o;
    var reach := Continuations(HarmlessClaims, o);
    r := WrongValueTaken(reach, o, a.t, i);
  }

  lemma WrongValueTaken<T(!new)>(reach: Ring<T> -> bool, o: Ring<T>, t: nat, i: nat) returns (r: Ring<T>)
    requires Closed(HarmlessClaims, reach) && reach(o) && Shaped(o) && ProducerOf(o, t).PStore?
    requires var v, n := ProducerOf(o, t).v, ProducerOf(o, t).seen;
             |o.taken| == o.deq <= i < n < |o.claimed| && Slot(i, o.size) == Slot(n, o.size) && o.claimed[i] != v
    ensures reach(r) && !(r.taken <= r.claimed)
  {
    LeadsPublish(HarmlessClaims, reach, o, t);
    r := WrongSlotBreaks(reach, Published(o, t, ProducerOf(o, t).v, ProducerOf(o, t).seen), i);
  }

  /** From every reachable state: a claim keeps first in, first out in every continuation without stale loads and
      harmful claims, if and only if it is harmless itself; when it leaves room, it is. */
  lemma HarmlessnessIsExact<T(!new)>(size: nat, slots: seq<T>, acts: seq<Action<T>>, a: Action<T>)
    requires size > 0 && |slots| == size + 1 && Run(HarmlessClaims, Init(size, slots), acts)
    requires Claims(Exec(Init(size, slots), acts), a)
    ensures var s := Exec(Init(size, slots), acts);
            && ((forall r :: Leads(HarmlessClaims, Step(s, a), r) ==> r.taken <= r.claimed)
                <==> Harmless(s, ProducerOf(s, a.t).v))
            && (IsPow2(size) && Roomy(s) ==> Harmless(s, ProducerOf(s, a.t).v))
  {
    InitInv(size, slots);
    RunKeeps(Init(size, slots), acts);
    var s := Exec(Init(size, slots), acts);
    if IsPow2(size) && Roomy(s) { RoomIsHarmless(s, ProducerOf(s, a.t).v); }
    if !Harmless(s, ProducerOf(s, a.t).v) {
      var r := HarmfulClaimBreaks(s, a);
    } else {
      StepKeeps(s, a);
      forall r | Leads(HarmlessClaims, Step(s, a), r) ensures r.taken <= r.claimed {
        var more: seq<Action<T>> :| Run(HarmlessClaims, Step(s, a), more) && Exec(Step(s, a), more) == r;
        RunKeeps(Step(s, a), more);
      }
    }
  }

  // ---------------------------------------------------------------- runs in which the conditions fail

  /** Two producers own the token, one of them with ticket -1. */
  predicate TwoOwners(s: Ring<nat>) {
    Owns(ProducerOf(s, 0)) && Owns(ProducerOf(s, 1)) && s.tickets == [0, 1, TOKEN]
  }

  /** Producer 0 claims ticket 0; producer 1 loads the token; producer 0 gives it back, and producer 1's test passes;
      producer 0 claims ticket 1, and producer 1 claims the token. */
  lemma TwoLoadsBreakTheToken(size: nat, slots: seq<nat>)
    requires size >= 2 && |slots| == size + 1
    ensures exists s :: Leads(Anything, Init(size, slots), s) && TwoOwners(s)
  {
    var o := Init(size, slots);
    var reach := Continuations(Anything, o);
    LeadsToClaim(Anything, reach, o, 0, 7);
    var s1 := o.(producers := map[0 := PCas(7, 0)], offered := [7]);
    assert o.producers[0 := PCas(7, 0)] == s1.producers && o.offered + [7] == s1.offered;
    LeadsClaim(Anything, reach, s1, 0);
    var s2 := o.(producers := map[0 := PStore(7, 0)], offered := [7], enq := TOKEN, claimed := [7], tickets := [0]);
    assert AfterClaim(s1, 0, 7) == s2;
    SecondLoadsToken(reach, s2);
  }

  lemma SecondLoadsToken(reach: Ring<nat> -> bool, s: Ring<nat>)
    requires Closed(Anything, reach) && reach(s) && Shaped(s) && s.size >= 2
    requires s.enq == TOKEN && s.deq == 0 && s.producers == map[0 := PStore(7, 0)] && s.tickets == [0]
    ensures exists r :: reach(r) && TwoOwners(r)
  {
    var p0 := PStore(7, 0);
    var s1 := s.(producers := map[0 := p0, 1 := PTest(8)], offered := s.offered + [8]);
    Leading(Anything, reach, s, Enqueue(1, 8), s1);
    var s2 := s1.(producers := map[0 := p0, 1 := PTestDeq(8, TOKEN)]);
    Leading(Anything, reach, s1, Produce(1, false), s2);
    var s3 := s1.(producers := map[0 := p0, 1 := PLoad(8)]);
    Leading(Anything, reach, s2, Produce(1, false), s3);
    var s4 := s1.(producers := map[0 := p0, 1 := PToken(8, TOKEN)]);
    Leading(Anything, reach, s3, Produce(1, false), s4);
    FirstPublishesMeanwhile(reach, s4);
  }

  lemma FirstPublishesMeanwhile(reach: Ring<nat> -> bool, s: Ring<nat>)
    requires Closed(Anything, reach) && reach(s) && Shaped(s) && s.size >= 2
    requires s.deq == 0 && s.producers == map[0 := PStore(7, 0), 1 := PToken(8, TOKEN)] && s.tickets == [0]
    ensures exists r :: reach(r) && TwoOwners(r)
  {
    LeadsPublish(Anything, reach, s, 0);
    var s1 := Published(s, 0, 7, 0);
    var s2 := s1.(producers := map[0 := POut, 1 := PCas(8, TOKEN)]);
    Leading(Anything, reach, s1, Produce(1, false), s2);
    BothClaim(reach, s2);
  }

  lemma BothClaim(reach: Ring<nat> -> bool, s: Ring<nat>)
    requires Closed(Anything, reach) && reach(s) && Shaped(s) && s.size >= 2
    requires s.enq == 1 && s.deq == 0 && s.producers == map[0 := POut, 1 := PCas(8, TOKEN)] && s.tickets == [0]
    ensures exists r :: reach(r) && TwoOwners(r)
  {
    LeadsToClaim(Anything, reach, s, 0, 9);
    var s1 := s.(producers := s.producers[0 := PCas(9, 1)], offered := s.offered + [9]);
    LeadsClaim(Anything, reach, s1, 0);
    var s2 := AfterClaim(s1, 0, 9);
    LeadsClaim(Anything, reach, s2, 1);
    var s3 := AfterClaim(s2, 1, 8);
    assert TwoOwners(s3);
  }

  /** The ring can be filled with zeros up to any level below the capacity. */
  lemma {:induction false} Filled(reach: Ring<nat> -> bool, size: nat, slots: seq<nat>, n: nat) returns (s: Ring<nat>)
    requires size > 0 && |slots| == size + 1 && n < size && Closed(Anything, reach) && reach(Init(size, slots))
    ensures reach(s) && Shaped(s) && s.size == size
    ensures s.enq == n == |s.claimed| && s.deq == 0 && forall t: nat :: ProducerOf(s, t).POut?
    ensures n > 0 ==> s.claimed[0] == 0 == s.data[Slot(0, size)]
    decreases n
  {
    if n == 0 {
      s := Init(size, slots);
    } else {
      var r := Filled(reach, size, slots, n - 1);
      LeadsToClaim(Anything, reach, r, 0, 0);
      s := FilledOneMore(reach, r.(producers := r.producers[0 := PCas(0, n - 1)], offered := r.offered + [0]));
      forall t: nat ensures ProducerOf(s, t).POut? { assert ProducerOf(r, t).POut?; }
    }
  }

  lemma FilledOneMore(reach: Ring<nat> -> bool, r: Ring<nat>) returns (s: Ring<nat>)
    requires Closed(Anything, reach) && reach(r) && Shaped(r)
    requires 0 <= r.enq == |r.claimed| && r.deq == 0 && ProducerOf(r, 0) == PCas(0, r.enq)
    requires r.enq > 0 ==> r.claimed[0] == 0 == r.data[Slot(0, r.size)]
    ensures reach(s) && Shaped(s) && s.size == r.size
    ensures s.enq == r.enq + 1 == |s.claimed| && s.deq == 0
    ensures s.claimed[0] == 0 == s.data[Slot(0, s.size)]
    ensures s.producers == r.producers[0 := POut]
  {
    LeadsClaim(Anything, reach, r, 0);
    var c := AfterClaim(r, 0, 0);
    LeadsPublish(Anything, reach, c, 0);
    s := Published(c, 0, 0, r.enq);
    assert s.data[Slot(0, r.size)] == 0;
    assert c.producers[0 := POut] == r.producers[0 := POut];
  }

  /** More than the capacity is claimed, nothing is taken, and the first value is no longer in its slot. */
  predicate Overwritten(s: Ring<nat>, size: nat) {
    && Shaped(s) && s.size == size && s.deq == 0
    && |s.claimed| == size + 1 && s.data[Slot(0, size)] != s.claimed[0]
  }

  /** The capacity test is not part of the claim: two producers that both passed it can over-fill the ring,
      and the second one overwrites the oldest value before anybody has taken it. */
  lemma LateClaimOverwritesLive(size: nat, slots: seq<nat>)
    requires IsPow2(size) && size >= 2 && |slots| == size + 1
    ensures exists s :: Leads(Anything, Init(size, slots), s) && Overwritten(s, size)
  {
    var o, n := Init(size, slots), size - 1;
    var reach := Continuations(Anything, o);
    var r := Filled(reach, size, slots, n);
    LeadsToClaim(Anything, reach, r, 0, 1);
    var a := r.(producers := r.producers[0 := PCas(1, n)], offered := r.offered + [1]);
    assert ProducerOf(r, 1).POut? && ProducerOf(a, 1) == ProducerOf(r, 1);
    LeadsToClaim(Anything, reach, a, 1, 1);
    var b := a.(producers := a.producers[1 := PCas(1, n)], offered := a.offered + [1]);
    LeadsClaim(Anything, reach, b, 0);
    LeadsPublish(Anything, reach, AfterClaim(b, 0, 1), 0);
    var c := Published(AfterClaim(b, 0, 1), 0, 1, n);
    assert c.claimed[0] == r.claimed[0];
    OverfillFrom(reach, c);
  }

  lemma OverfillFrom(reach: Ring<nat> -> bool, c: Ring<nat>)
    requires IsPow2(c.size) && c.size >= 2 && Closed(Anything, reach) && reach(c) && Shaped(c)
    requires c.deq == 0 && c.enq == c.size == |c.claimed| && c.claimed[0] == 0
      && ProducerOf(c, 1) == PCas(1, c.size - 1)
    ensures exists s :: reach(s) && Overwritten(s, c.size)
  {
    var d := c.(producers := c.producers[1 := PLoad(1)]);
    Leading(Anything, reach, c, Produce(1, false), d);
    LeadsFromLoad(Anything, reach, d, 1);
    var f := d.(producers := d.producers[1 := PCas(1, d.enq)]);
    LeadsClaim(Anything, reach, f, 1);
    LeadsPublish(Anything, reach, AfterClaim(f, 1, 1), 1);
    SlotIsRemainder(0, c.size);
    SlotIsRemainder(c.size, c.size);
    var s := Published(AfterClaim(f, 1, 1), 1, 1, c.size);
    assert Overwritten(s, c.size);
  }
}
