/** The objects that hold sessions, as steps of the session table. */
module SessionLink {
  import opened Options
  import opened Server
  import opened TcpSessions
  import opened TcpListeners
  import opened SessionTable
  import Snowflake

  /** The connect and close notices in the packet queue. */
  function Notices(queue: seq<NetPacket>): seq<Notice> {
    if queue == [] then []
    else
      var rest, p := Notices(queue[..|queue| - 1]), queue[|queue| - 1];
      if p.buffer != null then rest
      else rest + [if p.msgid == CONNECTED then ConnectNotice(p.session.index) else CloseNotice(p.session.index)]
  }

  lemma NoticesSnoc(queue: seq<NetPacket>, p: NetPacket)
    requires p.buffer == null
    ensures Notices(queue + [p])
         == Notices(queue)
            + [if p.msgid == CONNECTED then ConnectNotice(p.session.index) else CloseNotice(p.session.index)]
  {
    assert (queue + [p])[..|queue|] == queue;
  }

  /** The handler's map and notices are those of the world. */
  ghost predicate Shows(w: World, handler: ServerBase)
    reads handler
  {
    w.table == handler.sessions && w.notices == Notices(handler.msgQueue)
  }

  /** The session is number k of the world. */
  ghost predicate IsSession(w: World, k: nat, session: TcpSession)
    reads session
  {
    && k < |w.all|
    && session.me == SessionPtr(k, w.all[k].id)
    && session.open == w.all[k].open && session.closes == w.all[k].closes
  }

  /** on_connect, in the two steps that other threads can come between. */
  ghost function Connecting(clock: nat -> int, w: World, k: nat): World {
    Step(clock, Step(clock, w, Register(k)), Announce(k))
  }

  /** The close handler, in its three steps. */
  ghost function ClosingAll(clock: nat -> int, w: World, k: nat): World {
    Step(clock, Step(clock, Step(clock, w, RunClose(k)), Erase(k)), Notify(k))
  }

  lemma ConnectingOnce(clock: nat -> int, w: World, k: nat)
    requires k < |w.all| && CanConnect(w.all[k])
    ensures var s := w.all[k];
            Connecting(clock, Step(clock, w, Open(k)), k)
            == w.(all := w.all[k := Reconnected(s)],
                  table := w.table[s.id := SessionPtr(k, s.id)], notices := w.notices + [ConnectNotice(k)])
  {
    var s := w.all[k];
    var s1 := s.(phase := Connected, open := true, tries := s.tries + 1, opens := s.opens + 1);
    var w1 := w.(all := w.all[k := s1]);
    assert Step(clock, w, Open(k)) == w1;
    var s2 := s1.(phase := Registered, listed := true, onConnects := s.onConnects + 1);
    var w2 := w.(all := w.all[k := s2], table := w.table[s.id := SessionPtr(k, s.id)]);
    assert w1.all[k := s2] == w2.all && Step(clock, w1, Register(k)) == w2;
    assert w2.all[k := Reconnected(s)] == w.all[k := Reconnected(s)];
  }

  function Reconnected(s: Session): Session {
    s.(phase := Announced, open := true, listed := true,
       tries := s.tries + 1, opens := s.opens + 1, onConnects := s.onConnects + 1)
  }

  /** What the close handler amounts to. */
  lemma ClosingOnce(clock: nat -> int, w: World, k: nat)
    requires k < |w.all| && w.all[k].closes > 0 && w.all[k].closer.NotClosing?
    ensures var s := w.all[k];
            var t := s.(closes := s.closes - 1, open := false);
            ClosingAll(clock, w, k)
            == if s.open then w.(all := w.all[k := t.(onCloses := s.onCloses + 1, listed := false)],
                                 table := w.table - {s.id}, notices := w.notices + [CloseNotice(k)])
               else w.(all := w.all[k := t])
  {
    var s := w.all[k];
    var t := s.(closes := s.closes - 1, open := false);
    if s.open {
      var w1 := w.(all := w.all[k := t.(closer := SocketClosed)]);
      assert Step(clock, w, RunClose(k)) == w1;
      var t2 := t.(closer := Erased, listed := false, onCloses := s.onCloses + 1);
      var w2 := w.(all := w.all[k := t2], table := w.table - {s.id});
      assert w1.all[k := t2] == w2.all && Step(clock, w1, Erase(k)) == w2;
      var t3 := t.(onCloses := s.onCloses + 1, listed := false);
      assert w2.all[k := t3] == w.all[k := t3];
    } else {
      var w1 := w.(all := w.all[k := t]);
      assert Step(clock, w, RunClose(k)) == w1 == Step(clock, w1, Erase(k)) == Step(clock, w1, Notify(k));
    }
  }

  /** The listener, its generator and its handler are at this point of the world, and its pending session, new, is the
      latest of the world. */
  ghost predicate Linked(w: World, listener: TcpListener)
    reads listener, listener.generator, listener.handler, listener.pending
  {
    && Shows(w, listener.handler) && w.gen == listener.generator.State() && |w.all| == listener.created
    && listener.listening && listener.pending != null && listener.pending.handler == listener.handler
    && |w.all| > 0 && IsSession(w, |w.all| - 1, listener.pending)
    && w.all[|w.all| - 1] == NewSession(w.all[|w.all| - 1].id)
  }

  /** The first accept creates the first session. */
  method Listen(listener: TcpListener, ghost w: World) returns (ghost w': World)
    requires listener.CanDraw() && listener.pools.Valid() && listener.listening
    requires Shows(w, listener.handler) && w.gen == listener.generator.State() && |w.all| == listener.created
    modifies listener, listener.generator
    ensures w' == Step(listener.generator.clock, w, Create(listener.generator.State())) && Linked(w', listener)
    ensures listener.pending != null && fresh(listener.pending)
  {
    listener.DoAccept();
    w' := Step(listener.generator.clock, w, Create(listener.generator.State()));
  }

  /** A good accept: the socket opens, on_connect runs, and a new session is created, ready for the next accept. */
  method Accept(listener: TcpListener, ghost w: World) returns (ghost w': World)
    requires listener.CanDraw() && listener.pools.Valid() && Linked(w, listener)
    modifies listener, listener.generator, listener.handler
    modifies listener.pending`open, listener.pending`connected, listener.pending`reading
    ensures var clock, k := listener.generator.clock, |w.all| - 1;
            w' == Step(clock, Connecting(clock, Step(clock, w, Open(k)), k), Create(listener.generator.State()))
    ensures Linked(w', listener) && IsSession(w', |w.all| - 1, old(listener.pending))
    ensures listener.pending != null && fresh(listener.pending)
    ensures old(listener.pending).io == old(listener.pending.io)
  {
    ghost var clock, k: nat := listener.generator.clock, |w.all| - 1;
    NoticesSnoc(listener.handler.msgQueue, NetPacket(listener.pending.me, CONNECTED, null));
    ConnectingOnce(clock, w, k);
    listener.AcceptHandler(false);
    w' := Step(clock, Connecting(clock, Step(clock, w, Open(k)), k), Create(listener.generator.State()));
  }

  /** A posted close handler: the three steps, of which the last two do something only the first time. */
  method RunClosePosted(session: TcpSession, ghost clock: nat -> int, ghost w: World, ghost k: nat)
    returns (ghost w': World)
    requires Shows(w, session.handler) && IsSession(w, k, session) && w.all[k].closer.NotClosing?
    requires session.io.Quiet? && session.closes > 0
    modifies session, session.handler
    ensures w' == ClosingAll(clock, w, k) && Shows(w', session.handler) && IsSession(w', k, session)
  {
    NoticesSnoc(session.handler.msgQueue, NetPacket(session.me, CLOSED, null));
    ClosingOnce(clock, w, k);
    session.OnClosePosted();
    w' := ClosingAll(clock, w, k);
  }

  /** close, from a failed read, write or decode of a session that on_connect has registered. */
  method Close(session: TcpSession, ghost clock: nat -> int, ghost w: World, ghost k: nat) returns (ghost w': World)
    requires Shows(w, session.handler) && IsSession(w, k, session) && w.all[k].onConnects > 0
    modifies session`closes
    ensures w' == Step(clock, w, PostClose(k)) && Shows(w', session.handler) && IsSession(w', k, session)
  {
    session.Close();
    w' := Step(clock, w, PostClose(k));
  }

  /** get_session in a world that can be reached: finds session k under its id exactly while on_connect has put it
      into the map and on_close has not taken it out since, and nothing under any other id. */
  method Lookup(handler: ServerBase, sid: int, ghost clock: nat -> int, ghost worker: int, ghost datacenter: int,
                ghost acts: seq<Action>) returns (r: Option<SessionPtr>)
    requires Snowflake.Monotone(clock) && 0 <= worker < 32 && 0 <= datacenter < 32
    requires Shows(Exec(clock, Init(worker, datacenter), acts), handler)
    ensures var all := Exec(clock, Init(worker, datacenter), acts).all;
            && (r.Some? ==> r.value.index < |all| && all[r.value.index].id == sid == r.value.sid
                            && all[r.value.index].listed)
            && (r.None? ==> forall k :: 0 <= k < |all| && all[k].id == sid ==> !all[k].listed)
  {
    Reachable(clock, worker, datacenter, acts);
    r := handler.GetSession(sid);
  }
}
