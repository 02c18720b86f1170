/** The spin lock: a flag that threads set and test in one step. */
module SpinLocks {

  /** The object. Its try_lock, contrary to its name, reports whether the lock was already held. */
  class SpinLock {
    var flag: bool

    constructor ()
      ensures !flag
    {
      flag := false;
    }

    method TryLock() returns (wasHeld: bool)
      modifies this
      ensures flag && wasHeld == old(flag)
    {
      wasHeld := flag;
      flag := true;
    }

    method Unlock()
      modifies this
      ensures !flag
    {
      flag := false;
    }
  }

  /** try_lock_times against an environment: held(k) tells what the k-th test-and-set finds.
      It gets the lock exactly when one of the first times + 1 attempts finds it free, and stops at the first such. */
  method TryLockTimes(times: nat, held: nat -> bool) returns (acquired: bool, attempts: nat)
    ensures acquired <==> exists k: nat :: k <= times && !held(k)
    ensures acquired ==> attempts > 0 && !held(attempts - 1) && forall k: nat :: k < attempts - 1 ==> held(k)
    ensures !acquired ==> attempts == times + 1
  {
    var k: nat := 0;
    while held(k)
      invariant k <= times
      invariant forall j: nat :: j < k ==> held(j)
      decreases times - k
    {
      if k >= times { return false, k + 1; }
      k := k + 1;
    }
    return true, k + 1;
  }

  // ---------------------------------------------------------------- many threads

  /** Each thread is outside, spinning in lock(), or holding the lock. */
  datatype Pc = Outside | Spinning | Inside

  datatype World = World(flag: bool, threads: map<nat, Pc>)

  datatype Action = Lock(t: nat) | TestAndSet(t: nat) | Unlock(t: nat)

  function PcOf(w: World, t: nat): Pc {
    if t in w.threads then w.threads[t] else Outside
  }

  function Step(w: World, a: Action): World {
    match a
    case Lock(t) => if PcOf(w, t).Outside? then w.(threads := w.threads[t := Spinning]) else w
    case TestAndSet(t) =>
      if !PcOf(w, t).Spinning? then w
      else if w.flag then w.(flag := true)
      else World(true, w.threads[t := Inside])
    case Unlock(t) => if PcOf(w, t).Inside? then World(false, w.threads[t := Outside]) else w
  }

  function Exec(w: World, acts: seq<Action>): World {
    if acts == [] then w else Step(Exec(w, acts[..|acts| - 1]), acts[|acts| - 1])
  }

  ghost predicate Inv(w: World) {
    && (forall t: nat, u: nat :: PcOf(w, t).Inside? && PcOf(w, u).Inside? ==> t == u)
    && (w.flag <==> exists t: nat :: PcOf(w, t).Inside?)
  }

  lemma StepKeeps(w: World, a: Action)
    requires Inv(w)
    ensures Inv(Step(w, a))
  {
    var w' := Step(w, a);
    assert forall t: nat :: t != a.t ==> PcOf(w', t) == PcOf(w, t);
    if w.flag && !(a.Unlock? && PcOf(w, a.t).Inside?) {
      var t: nat :| PcOf(w, t).Inside?;
      assert PcOf(w', t).Inside?;
    } else if a.TestAndSet? && PcOf(w, a.t).Spinning? {
      assert PcOf(w', a.t).Inside?;
    }
  }

  /** A spinning thread gets the lock exactly when no thread holds it. */
  lemma AcquiresExactly(w: World, t: nat)
    requires Inv(w) && PcOf(w, t).Spinning?
    ensures PcOf(Step(w, TestAndSet(t)), t).Inside? <==> forall u: nat :: !PcOf(w, u).Inside?
  {
  }

  /** So behind the unlock of its holder it is there for the next. */
  lemma UnlockLetsIn(w: World, t: nat, u: nat)
    requires Inv(w) && PcOf(w, t).Inside? && PcOf(w, u).Spinning?
    ensures var w' := Step(w, Unlock(t)); PcOf(Step(w', TestAndSet(u)), u).Inside?
  {
    StepKeeps(w, Unlock(t));
    AcquiresExactly(Step(w, Unlock(t)), u);
  }

  /** In every run at most one thread is between lock and unlock, and the flag is set exactly when one is. */
  lemma {:induction false} MutualExclusion(acts: seq<Action>)
    ensures Inv(Exec(World(false, map[]), acts))
    decreases |acts|
  {
    if acts != [] {
      MutualExclusion(acts[..|acts| - 1]);
      StepKeeps(Exec(World(false, map[]), acts[..|acts| - 1]), acts[|acts| - 1]);
    }
  }
}
