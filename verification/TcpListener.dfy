/** The accept loop: one session and one fresh id per accept. */
module TcpListeners {
  import opened Options
  import opened Server
  import opened BufferPools
  import opened TcpSessions
  import Snowflake
  import SendPump

  class TcpListener {
    const generator: Snowflake.Generator
    const handler: ServerBase
    const pools: PoolManager
    var listening: bool
    var pending: TcpSession?          // the session of the outstanding accept
    var created: nat

    constructor (generator: Snowflake.Generator, handler: ServerBase, pools: PoolManager)
      ensures this.generator == generator && this.handler == handler && this.pools == pools
      ensures listening && pending == null && created == 0
    {
      this.generator, this.handler, this.pools := generator, handler, pools;
      listening, pending, created := true, null, 0;
    }

    /** What an accept needs of the id generator and its clock. */
    ghost predicate CanDraw()
      reads generator
    {
      && Snowflake.Monotone(generator.clock)
      && Snowflake.Inv(generator.clock, generator.State())
      && generator.clock(generator.tick) >= Snowflake.TWEPOCH
      && exists j: nat :: generator.clock(j) > generator.clock(generator.tick)
    }

    method DoAccept()
      requires CanDraw() && pools.Valid()
      modifies this, generator
      ensures Snowflake.NextRel(generator.clock, old(generator.State()), generator.State())
      ensures Snowflake.Inv(generator.clock, generator.State()) && generator.lastTimestamp >= Snowflake.TWEPOCH
      ensures pending != null && fresh(pending) && pending.handler == handler
      ensures pending.me == SessionPtr(old(created), Snowflake.Compose(generator.State()))
      ensures IsNew(pending) && created == old(created) + 1 && listening == old(listening)
    {
      var id := generator.Next();
      pending := new TcpSession(SessionPtr(created, id), handler, pools);
      created := created + 1;
    }

    /** Not connected, nothing sent, received, posted or armed. */
    ghost predicate IsNew(session: TcpSession)
      reads session, session.parser, session.parser.stream, session.parser.stream.data
      reads session.parser.pools, session.parser.pools.pools, session.parser.pools.free
    {
      && session.View() == SendPump.Init() && session.reading == 0
      && session.Ready() && session.parser.pools == pools && session.parser.received == []
    }

    /** The completion of an accept: the accepted session is announced, registered under its id, and reads; the next
        accept is armed for a new session with a larger id. */
    method AcceptHandler(failed: bool)
      requires CanDraw() && pools.Valid() && pending != null && pending.handler == handler
      modifies this, generator, handler, pending`open, pending`connected, pending`reading
      ensures !old(listening) || failed ==>
        && !listening
        && pending == old(pending) && created == old(created) && generator.State() == old(generator.State())
        && handler.sessions == old(handler.sessions) && handler.msgQueue == old(handler.msgQueue)
      ensures old(listening) && !failed ==>
        && listening
        && handler.sessions == old(handler.sessions)[old(pending).me.sid := old(pending).me]
        && handler.msgQueue == old(handler.msgQueue) + [NetPacket(old(pending).me, CONNECTED, null)]
        && old(pending).View() == old(pending.View()).(open := true, connected := true)
        && old(pending).reading == old(pending.reading) + 1
        && Snowflake.NextRel(generator.clock, old(generator.State()), generator.State())
        && Snowflake.Inv(generator.clock, generator.State()) && generator.lastTimestamp >= Snowflake.TWEPOCH
        && pending != null && fresh(pending) && pending.handler == handler && created == old(created) + 1
        && IsNew(pending)
        && pending.me == SessionPtr(old(created), Snowflake.Compose(generator.State()))
      ensures old(listening) && !failed
              && old(generator.lastTimestamp >= Snowflake.TWEPOCH
                     && pending.me.sid == Snowflake.Compose(generator.State()))
              ==> pending.me.sid > old(pending).me.sid
    {
      if !listening { return; }
      if failed {
        listening := false;
        return;
      }
      pending.Connected();
      pending.Start();
      ghost var before := generator.State();
      DoAccept();
      Snowflake.NextKeepsInv(generator.clock, before, generator.State());
      if before.last >= Snowflake.TWEPOCH {
        Snowflake.LaterIsLarger(before, generator.State());
      }
    }
  }
}
