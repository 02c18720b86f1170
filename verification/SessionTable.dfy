/** Sessions from creation to close, over all connections of a server, and the map that finds them by id. */
module SessionTable {
  import opened Server
  import Snowflake

  /** How far the latest connection of a session has come: created, its socket connected, in the map, announced; or
      given up before that. */
  datatype Phase = Fresh | Connected | Registered | Announced | Abandoned

  /** Where the session's close handler is. */
  datatype Closer = NotClosing | SocketClosed | Erased

  /** closes: posted close handlers; listed: on_connect has put it into the map and on_close has not since taken it
      out; tries: accepts and connects so far; and how often its socket was opened, on_connect has registered it, and
      on_close has erased it. */
  datatype Session = Session(
    id: int, phase: Phase, open: bool, closes: nat, closer: Closer, listed: bool,
    tries: nat, opens: nat, onConnects: nat, onCloses: nat)

  datatype Notice = ConnectNotice(k: nat) | CloseNotice(k: nat)

  datatype World = World(gen: Snowflake.Gen, all: seq<Session>, table: map<int, SessionPtr>, notices: seq<Notice>)

  datatype Action =
    | Create(next: Snowflake.Gen)            // do_accept or connect draws an id and makes the session
    | Open(k: nat)                           // the accept or connect succeeds; connect only asks for a closed socket
    | Fail(k: nat, socketOpen: bool)         // the connect fails, with or without an open socket, and posts a close
    | Register(k: nat)                       // on_connect, inside the lock
    | Announce(k: nat)                       // on_connect, the notice
    | PostClose(k: nat)                      // a failed read, write or decode, or a caller
    | RunClose(k: nat)                       // the close handler, up to closing the socket
    | Erase(k: nat)                          // on_close, inside the lock
    | Notify(k: nat)                         // on_close, the notice

  function Subject(a: Action): nat {
    match a case Create(_) => 0 case Open(k) => k case Fail(k, _) => k case Register(k) => k case Announce(k) => k
            case PostClose(k) => k case RunClose(k) => k case Erase(k) => k case Notify(k) => k
  }

  function Init(worker: int, datacenter: int): World {
    World(Snowflake.Gen(worker, datacenter, -1, 0, 0), [], map[], [])
  }

  function NewSession(id: int): Session {
    Session(id, Fresh, false, 0, NotClosing, false, 0, 0, 0, 0)
  }

  /** A connect may be tried on a session that has no open socket and no other connect under way, also after a close. */
  predicate CanConnect(s: Session) {
    !s.open && (s.phase.Fresh? || s.phase.Announced? || s.phase.Abandoned?)
  }

  /** One atomic step; an action that is not enabled leaves the world as it is. */
  ghost function Step(clock: nat -> int, w: World, a: Action): World {
    if a.Create? then
      if Snowflake.NextRel(clock, w.gen, a.next) && Snowflake.Inv(clock, a.next) && a.next.last >= Snowflake.TWEPOCH
      then w.(gen := a.next, all := w.all + [NewSession(Snowflake.Compose(a.next))])
      else w
    else if Subject(a) >= |w.all| then w
    else SessionStep(w, a, w.all[Subject(a)])
  }

  function SessionStep(w: World, a: Action, s: Session): World
    requires !a.Create? && Subject(a) < |w.all|
  {
    var k := Subject(a);
    match a
    case Open(_) =>
      if CanConnect(s)
      then w.(all := w.all[k := s.(phase := Connected, open := true,
                                   tries := s.tries + 1, opens := s.opens + 1)]) else w
    case Fail(_, socketOpen) =>
      if CanConnect(s)
      then w.(all := w.all[k := s.(phase := Abandoned, open := socketOpen, closes := s.closes + 1, tries := s.tries + 1,
                                   opens := s.opens + if socketOpen then 1 else 0)]) else w
    case Register(_) =>
      if s.phase.Connected?
      then w.(all := w.all[k := s.(phase := Registered, listed := true, onConnects := s.onConnects + 1)],
              table := w.table[s.id := SessionPtr(k, s.id)]) else w
    case Announce(_) =>
      if s.phase.Registered?
      then w.(all := w.all[k := s.(phase := Announced)], notices := w.notices + [ConnectNotice(k)]) else w
    case PostClose(_) =>   // nobody else has the session before on_connect has registered it
      if s.onConnects > 0 || s.phase.Abandoned? then w.(all := w.all[k := s.(closes := s.closes + 1)]) else w
    case RunClose(_) =>
      if s.closes > 0 && s.closer.NotClosing?
      then w.(all := w.all[k := s.(closes := s.closes - 1, open := false,
                                   closer := if s.open then SocketClosed else NotClosing)]) else w
    case Erase(_) =>
      if s.closer.SocketClosed?
      then w.(all := w.all[k := s.(closer := Erased, listed := false, onCloses := s.onCloses + 1)],
              table := w.table - {s.id}) else w
    case Notify(_) =>
      if s.closer.Erased?
      then w.(all := w.all[k := s.(closer := NotClosing)], notices := w.notices + [CloseNotice(k)]) else w
    case Create(_) => w
  }

  ghost function Exec(clock: nat -> int, w: World, acts: seq<Action>): World {
    if acts == [] then w else Step(clock, Exec(clock, w, acts[..|acts| - 1]), acts[|acts| - 1])
  }

  // ---------------------------------------------------------------- invariants

  /** Every opening of the socket is closed at most once, and registered at most once. */
  predicate SessionInv(s: Session) {
    && s.opens == s.onCloses + (if s.open then 1 else 0) + (if s.closer.SocketClosed? then 1 else 0)
    && s.onConnects + (if s.phase.Connected? then 1 else 0) <= s.opens
    && (s.listed ==> s.onConnects > 0)
    && s.opens <= s.tries
    && (s.phase.Fresh? ==> s == NewSession(s.id))
    && (s.tries <= 1 ==> FirstTryInv(s))
  }

  /** A session that has not been connected again is in the map exactly between its on_connect and its on_close. */
  predicate FirstTryInv(s: Session) {
    && (s.listed <==> s.onConnects > 0 && s.onCloses == 0)
    && (s.phase.Connected? ==> s.closes == 0 && s.closer.NotClosing? && s.onCloses == 0)
    && (s.tries == 0 ==> s.phase.Fresh?)
    && (s.onConnects > 0 ==> !s.phase.Abandoned?)
    && (s.phase.Registered? || s.phase.Announced? ==> s.onConnects > 0)
  }

  /** Ids increase with creation, up to the generator's latest. */
  ghost predicate IdsInv(clock: nat -> int, w: World) {
    && Snowflake.Inv(clock, w.gen)
    && (forall i, j :: 0 <= i < j < |w.all| ==> w.all[i].id < w.all[j].id)
    && (w.all != [] ==> w.gen.last >= Snowflake.TWEPOCH && w.all[|w.all| - 1].id == Snowflake.Compose(w.gen))
  }

  /** The map holds exactly the registered sessions, each under its id. */
  ghost predicate TableInv(w: World) {
    && (forall k :: 0 <= k < |w.all| && w.all[k].listed ==>
          w.all[k].id in w.table && w.table[w.all[k].id] == SessionPtr(k, w.all[k].id))
    && (forall id :: id in w.table ==>
          var p := w.table[id];
          p.sid == id && p.index < |w.all| && w.all[p.index].id == id && w.all[p.index].listed)
  }

  ghost predicate NoticeInv(w: World) {
    forall k :: 0 <= k < |w.all| ==> NoticeInvAt(w.notices, k, w.all[k])
  }

  /** Each side of a connection is notified once, after its half of the work. */
  ghost predicate NoticeInvAt(notices: seq<Notice>, k: nat, s: Session) {
    && SessionInv(s)
    && multiset(notices)[ConnectNotice(k)] == s.onConnects - (if s.phase.Registered? then 1 else 0)
    && multiset(notices)[CloseNotice(k)] == s.onCloses - (if s.closer.Erased? then 1 else 0)
  }

  ghost predicate Inv(clock: nat -> int, w: World) {
    && IdsInv(clock, w) && TableInv(w) && NoticeInv(w)
    && forall n :: n in w.notices ==> n.k < |w.all|
  }

  /** A new id is larger than all before. */
  lemma NewIdIsLargest(clock: nat -> int, w: World, g: Snowflake.Gen)
    requires Snowflake.Monotone(clock) && IdsInv(clock, w)
    requires Snowflake.NextRel(clock, w.gen, g) && Snowflake.Inv(clock, g) && g.last >= Snowflake.TWEPOCH
    ensures forall k :: 0 <= k < |w.all| ==> w.all[k].id < Snowflake.Compose(g)
  {
    if w.all != [] {
      Snowflake.NextKeepsInv(clock, w.gen, g);
      Snowflake.LaterIsLarger(w.gen, g);
    }
  }

  lemma CreateKeeps(clock: nat -> int, w: World, g: Snowflake.Gen)
    requires Snowflake.Monotone(clock) && Inv(clock, w)
    ensures Inv(clock, Step(clock, w, Create(g)))
  {
    var w' := Step(clock, w, Create(g));
    if w' != w {
      NewIdIsLargest(clock, w, g);
      assert forall k :: 0 <= k < |w.all| ==> w'.all[k] == w.all[k];
      var n := |w.all|;
      assert !w'.all[n].listed;
      assert ConnectNotice(n) !in w.notices && CloseNotice(n) !in w.notices;
    }
  }

  /** A session's step changes no other session and no id. */
  lemma SessionStepFrame(clock: nat -> int, w: World, a: Action)
    requires !a.Create? && Subject(a) < |w.all|
    ensures var w' := Step(clock, w, a);
            && |w'.all| == |w.all| && w'.gen == w.gen && w'.all[Subject(a)].id == w.all[Subject(a)].id
            && forall j :: 0 <= j < |w.all| && j != Subject(a) ==> w'.all[j] == w.all[j]
  {
  }

  lemma SessionStepKeepsIds(clock: nat -> int, w: World, a: Action)
    requires IdsInv(clock, w) && !a.Create? && Subject(a) < |w.all|
    ensures IdsInv(clock, Step(clock, w, a))
  {
    SessionStepFrame(clock, w, a);
    var w' := Step(clock, w, a);
    assert forall j :: 0 <= j < |w.all| ==> w'.all[j].id == w.all[j].id;
  }

  lemma SessionStepKeepsTable(clock: nat -> int, w: World, a: Action)
    requires Inv(clock, w) && !a.Create? && Subject(a) < |w.all|
    ensures TableInv(Step(clock, w, a))
  {
    var k := Subject(a);
    var s := w.all[k];
    SessionStepFrame(clock, w, a);
    TableChange(clock, w, a);
    var w' := Step(clock, w, a);
    assert OnlyMoves(w, w', k);
    if a.Register? && s.phase.Connected? {
      TableGains(w, w', k);
    } else if a.Erase? && s.closer.SocketClosed? {
      TableLoses(w, w', k);
    } else {
      TableStays(w, w', k);
    }
  }

  /** How the map and the session's place in it move together. */
  lemma TableChange(clock: nat -> int, w: World, a: Action)
    requires !a.Create? && Subject(a) < |w.all| && SessionInv(w.all[Subject(a)])
    ensures var s := w.all[Subject(a)];
            var w' := Step(clock, w, a);
            var s' := w'.all[Subject(a)];
            if a.Register? && s.phase.Connected? then
              w'.table == w.table[s.id := SessionPtr(Subject(a), s.id)] && s'.listed
            else if a.Erase? && s.closer.SocketClosed? then w'.table == w.table - {s.id} && !s'.listed
            else w'.table == w.table && (s'.listed <==> s.listed)
  {
  }

  /** w' differs from w in session k and in the map only, and no other session has the id of k. */
  ghost predicate OnlyMoves(w: World, w': World, k: nat) {
    && |w'.all| == |w.all| && k < |w.all|
    && w'.all[k].id == w.all[k].id
    && (forall j :: 0 <= j < |w.all| && j != k ==> w'.all[j] == w.all[j] && w.all[j].id != w.all[k].id)
  }

  lemma TableGains(w: World, w': World, k: nat)
    requires TableInv(w) && OnlyMoves(w, w', k) && w'.all[k].listed
    requires w'.table == w.table[w.all[k].id := SessionPtr(k, w.all[k].id)]
    ensures TableInv(w')
  {
  }

  lemma TableLoses(w: World, w': World, k: nat)
    requires TableInv(w) && OnlyMoves(w, w', k) && !w'.all[k].listed
    requires w'.table == w.table - {w.all[k].id}
    ensures TableInv(w')
  {
  }

  lemma TableStays(w: World, w': World, k: nat)
    requires TableInv(w) && OnlyMoves(w, w', k) && (w'.all[k].listed <==> w.all[k].listed)
    requires w'.table == w.table
    ensures TableInv(w')
  {
  }

  /** The notices grow by at most one, about the session that moves. */
  lemma NoticeGrowth(clock: nat -> int, w: World, a: Action)
    requires !a.Create? && Subject(a) < |w.all| && NoticeInvAt(w.notices, Subject(a), w.all[Subject(a)])
    ensures var w' := Step(clock, w, a);
            && (w'.notices == w.notices || (exists n: Notice :: n.k == Subject(a) && w'.notices == w.notices + [n]))
            && NoticeInvAt(w'.notices, Subject(a), w'.all[Subject(a)])
  {
    var k := Subject(a);
    var s := w.all[k];
    if a.Announce? && s.phase.Registered? {
      AnnounceAdds(w.notices, k, s);
    } else if a.Notify? && s.closer.Erased? {
      NotifyAdds(w.notices, k, s);
    } else {
      OtherwiseSilent(w, a, s);
    }
  }

  lemma AnnounceAdds(notices: seq<Notice>, k: nat, s: Session)
    requires NoticeInvAt(notices, k, s) && s.phase.Registered?
    ensures NoticeInvAt(notices + [ConnectNotice(k)], k, s.(phase := Announced))
    ensures ConnectNotice(k).k == k
  {
    assert multiset(notices + [ConnectNotice(k)]) == multiset(notices) + multiset{ConnectNotice(k)};
  }

  lemma NotifyAdds(notices: seq<Notice>, k: nat, s: Session)
    requires NoticeInvAt(notices, k, s) && s.closer.Erased?
    ensures NoticeInvAt(notices + [CloseNotice(k)], k, s.(closer := NotClosing))
    ensures CloseNotice(k).k == k
  {
    assert multiset(notices + [CloseNotice(k)]) == multiset(notices) + multiset{CloseNotice(k)};
  }

  lemma OtherwiseSilent(w: World, a: Action, s: Session)
    requires !a.Create? && Subject(a) < |w.all| && s == w.all[Subject(a)] && NoticeInvAt(w.notices, Subject(a), s)
    requires !(a.Announce? && s.phase.Registered?) && !(a.Notify? && s.closer.Erased?)
    ensures var w' := SessionStep(w, a, s);
            w'.notices == w.notices && NoticeInvAt(w.notices, Subject(a), w'.all[Subject(a)])
  {
  }

  lemma NoticeElsewhere(notices: seq<Notice>, n: Notice, j: nat, s: Session)
    requires NoticeInvAt(notices, j, s) && n.k != j
    ensures NoticeInvAt(notices + [n], j, s)
  {
    assert multiset(notices + [n]) == multiset(notices) + multiset{n};
  }

  lemma SessionStepKeepsNotices(clock: nat -> int, w: World, a: Action)
    requires Inv(clock, w) && !a.Create? && Subject(a) < |w.all|
    ensures NoticeInv(Step(clock, w, a))
    ensures forall n :: n in Step(clock, w, a).notices ==> n.k < |w.all|
  {
    var k := Subject(a);
    var w' := Step(clock, w, a);
    NoticeGrowth(clock, w, a);
    SessionStepFrame(clock, w, a);
    if w'.notices != w.notices {
      var n: Notice :| n.k == k && w'.notices == w.notices + [n];
      forall j | 0 <= j < |w.all| && j != k ensures NoticeInvAt(w'.notices, j, w'.all[j]) {
        NoticeElsewhere(w.notices, n, j, w.all[j]);
      }
    }
  }

  lemma StepKeeps(clock: nat -> int, w: World, a: Action)
    requires Snowflake.Monotone(clock) && Inv(clock, w)
    ensures Inv(clock, Step(clock, w, a))
  {
    if a.Create? {
      CreateKeeps(clock, w, a.next);
    } else if Subject(a) < |w.all| {
      SessionStepFrame(clock, w, a);
      SessionStepKeepsIds(clock, w, a);
      SessionStepKeepsTable(clock, w, a);
      SessionStepKeepsNotices(clock, w, a);
    }
  }

  lemma {:induction false} Reachable(clock: nat -> int, worker: int, datacenter: int, acts: seq<Action>)
    requires Snowflake.Monotone(clock) && 0 <= worker < 32 && 0 <= datacenter < 32
    ensures Inv(clock, Exec(clock, Init(worker, datacenter), acts))
    decreases |acts|
  {
    if acts != [] {
      Reachable(clock, worker, datacenter, acts[..|acts| - 1]);
      StepKeeps(clock, Exec(clock, Init(worker, datacenter), acts[..|acts| - 1]), acts[|acts| - 1]);
    }
  }

  // ---------------------------------------------------------------- results over all runs

  /** The map is faithful: an id leads to session k if and only if k has that id, and on_connect has put it into the map
      and on_close has not taken it out since. */
  lemma TableIsFaithful(clock: nat -> int, worker: int, datacenter: int, acts: seq<Action>, id: int, k: nat)
    requires Snowflake.Monotone(clock) && 0 <= worker < 32 && 0 <= datacenter < 32
    ensures var w := Exec(clock, Init(worker, datacenter), acts);
            (id in w.table && w.table[id].index == k) <==> (k < |w.all| && w.all[k].id == id && w.all[k].listed)
  {
    Reachable(clock, worker, datacenter, acts);
  }

  /** No two sessions ever share an id. */
  lemma IdsAreUnique(clock: nat -> int, worker: int, datacenter: int, acts: seq<Action>, j: nat, k: nat)
    requires Snowflake.Monotone(clock) && 0 <= worker < 32 && 0 <= datacenter < 32
    ensures var w := Exec(clock, Init(worker, datacenter), acts);
            j < |w.all| && k < |w.all| && w.all[j].id == w.all[k].id ==> j == k
  {
    Reachable(clock, worker, datacenter, acts);
  }

  /** However many closes are posted: each opening of a session's socket is followed by at most one on_close, and each
      on_connect and on_close by at most one notice. */
  lemma AtMostOneOnClose(clock: nat -> int, worker: int, datacenter: int, acts: seq<Action>, k: nat)
    requires Snowflake.Monotone(clock) && 0 <= worker < 32 && 0 <= datacenter < 32
    ensures var w := Exec(clock, Init(worker, datacenter), acts);
            k < |w.all| ==>
              && w.all[k].onCloses <= w.all[k].opens && w.all[k].onConnects <= w.all[k].opens
              && multiset(w.notices)[CloseNotice(k)] <= w.all[k].onCloses
              && multiset(w.notices)[ConnectNotice(k)] <= w.all[k].onConnects
  {
    Reachable(clock, worker, datacenter, acts);
    var w := Exec(clock, Init(worker, datacenter), acts);
    if k < |w.all| { assert NoticeInvAt(w.notices, k, w.all[k]); }
  }

  /** A session that is connected once gets at most one on_close, and is in the map exactly from its on_connect to
      that. */
  lemma ConnectedOnce(clock: nat -> int, worker: int, datacenter: int, acts: seq<Action>, k: nat)
    requires Snowflake.Monotone(clock) && 0 <= worker < 32 && 0 <= datacenter < 32
    ensures var w := Exec(clock, Init(worker, datacenter), acts);
            k < |w.all| && w.all[k].tries <= 1 ==>
              && w.all[k].onConnects <= 1 && w.all[k].onCloses <= 1
              && (w.all[k].listed <==> w.all[k].onConnects == 1 && w.all[k].onCloses == 0)
  {
    Reachable(clock, worker, datacenter, acts);
    var w := Exec(clock, Init(worker, datacenter), acts);
    if k < |w.all| { assert NoticeInvAt(w.notices, k, w.all[k]); }
  }

  /** Closing one session leaves every other one findable, and the closed one not. */
  lemma CloseSparesOthers(clock: nat -> int, worker: int, datacenter: int, acts: seq<Action>, k: nat, j: nat)
    requires Snowflake.Monotone(clock) && 0 <= worker < 32 && 0 <= datacenter < 32
    requires var w := Exec(clock, Init(worker, datacenter), acts);
             k < |w.all| && w.all[k].closer.SocketClosed? && j < |w.all| && j != k
    ensures var w := Exec(clock, Init(worker, datacenter), acts);
            var w' := Step(clock, w, Erase(k));
            && w.all[k].id !in w'.table
            && (w.all[j].listed ==> w.all[j].id in w'.table && w'.table[w.all[j].id] == SessionPtr(j, w.all[j].id))
  {
    Reachable(clock, worker, datacenter, acts);
    EraseSparesOthers(clock, Exec(clock, Init(worker, datacenter), acts), k, j);
  }

  lemma EraseSparesOthers(clock: nat -> int, w: World, k: nat, j: nat)
    requires IdsInv(clock, w) && TableInv(w)
    requires k < |w.all| && w.all[k].closer.SocketClosed? && j < |w.all| && j != k
    ensures var w' := Step(clock, w, Erase(k));
            && w.all[k].id !in w'.table
            && (w.all[j].listed ==> w.all[j].id in w'.table && w'.table[w.all[j].id] == SessionPtr(j, w.all[j].id))
  {
    assert w.all[j].id != w.all[k].id;
  }

  /** A close handler that has closed the socket, a caller that connects the session again before on_close has run. */
  ghost function Reconnecting(clock: nat -> int, w: World, k: nat): World {
    var closed := Step(clock, Step(clock, w, PostClose(k)), RunClose(k));
    Step(clock, Step(clock, Step(clock, Step(clock, closed, Open(k)), Register(k)), Announce(k)), Erase(k))
  }

  /** Then on_close takes the reconnected session out of the map: it is open and announced, and cannot be found. */
  lemma ReconnectRace(clock: nat -> int, w: World, k: nat)
    requires k < |w.all| && w.all[k].phase.Announced? && w.all[k].open && w.all[k].closer.NotClosing?
    requires w.all[k].onConnects > 0
    ensures var w' := Reconnecting(clock, w, k);
            && k < |w'.all| && w'.all[k].open && w'.all[k].phase.Announced?
            && w'.all[k].onConnects == w.all[k].onConnects + 1
            && !w'.all[k].listed && w.all[k].id !in w'.table
  {
    var s := w.all[k];
    var s1 := s.(closes := s.closes + 1);
    var w1 := w.(all := w.all[k := s1]);
    assert Step(clock, w, PostClose(k)) == w1;
    var s2 := s.(open := false, closer := SocketClosed);
    var w2 := w.(all := w.all[k := s2]);
    assert w1.all[k := s2] == w2.all && Step(clock, w1, RunClose(k)) == w2;
    var s3 := s2.(phase := Connected, open := true, tries := s.tries + 1, opens := s.opens + 1);
    var w3 := w.(all := w.all[k := s3]);
    assert w2.all[k := s3] == w3.all && Step(clock, w2, Open(k)) == w3;
    ReconnectRest(clock, w3, k);
  }

  lemma ReconnectRest(clock: nat -> int, w: World, k: nat)
    requires k < |w.all| && w.all[k].phase.Connected? && w.all[k].open && w.all[k].closer.SocketClosed?
    ensures var w' := Step(clock, Step(clock, Step(clock, w, Register(k)), Announce(k)), Erase(k));
            && k < |w'.all| && w'.all[k].open && w'.all[k].phase.Announced?
            && w'.all[k].onConnects == w.all[k].onConnects + 1
            && !w'.all[k].listed && w.all[k].id !in w'.table
  {
    var s := w.all[k];
    var s1 := s.(phase := Registered, listed := true, onConnects := s.onConnects + 1);
    var w1 := w.(all := w.all[k := s1], table := w.table[s.id := SessionPtr(k, s.id)]);
    assert Step(clock, w, Register(k)) == w1;
    var s2 := s1.(phase := Announced);
    var w2 := w1.(all := w.all[k := s2], notices := w.notices + [ConnectNotice(k)]);
    assert w1.all[k := s2] == w2.all && Step(clock, w1, Announce(k)) == w2;
  }
}
