/** Thread ids: however many threads there are, there is another one. */
module Threads {

  lemma {:induction false} Above(ids: set<nat>) returns (t: nat)
    ensures forall k :: k in ids ==> k < t
    decreases |ids|
  {
    if ids == {} {
      t := 0;
    } else {
      var k :| k in ids;
      var u := Above(ids - {k});
      t := if k < u then u else k + 1;
      forall j | j in ids ensures j < t { assert j == k || j in ids - {k}; }
    }
  }

  lemma Another<X>(threads: map<nat, X>) returns (t: nat)
    ensures t !in threads
  {
    t := Above(threads.Keys);
  }
}
