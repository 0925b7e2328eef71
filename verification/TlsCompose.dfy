/** A client and a server with the same configuration, joined by two reliable ordered
    channels that take and deliver records at any time. */
module TlsCompose {
  import opened Wrappers
  import opened TlsChart
  import opened TlsState
  import opened TlsRun

  /** What can happen: records reach a side, or a side is called while its transport has room for
      so many writes. */
  datatype Event = Arrive(atServer: bool, n: nat) | Call(server: bool, room: nat)

  // ---------------------------------------------------------------- why nothing gets stuck

  /** The side waits for a record of the peer, or has none left to wait for. */
  ghost predicate Stopped(c: Config, server: bool, k: nat) {
    k == Lines(c) || exists q :: Due(c, server, k, q)
  }

  /** If both sides have sent and received the same number of records and neither can go on,
      both are at the end of the chart. Here the side at line i is not ahead. */
  lemma StoppedBehind(c: Config, server: bool, i: nat, k: nat)
    requires i <= k <= Lines(c) && Stopped(c, server, i) && Stopped(c, !server, k)
    requires |Items(c, !server, i)| == |Items(c, !server, k)|
    ensures i == k == Lines(c)
  {
    hide LabelAt, Sent, FromServer, Items;
    if i < Lines(c) {
      var q: nat :| Due(c, server, i, q);
      if q < k { NothingBetween(c, !server, i, k, q); }
    }
  }

  /** A side between two calls, with every record opened that has arrived. */
  ghost predicate Standing(v: Snap, w: Wait) {
    && v.Valid() && v.Conforms(w) && v.io.inbox == []
    && if v.state == DONE then w.WaitOk? else w.WaitReadMessage? || w.WaitReadCcs?
  }

  /** No flight is left unsent while the machine waits for the peer: at the lines where part
      of one is pending the next record is its own. */
  lemma WaitsAfterFlush(v: Snap, w: Wait)
    requires v.Conforms(w) && (w.WaitReadMessage? || w.WaitReadCcs?)
    ensures v.io.pendingFlight == []
    ensures v.trace.line < Lines(v.cfg) && Stopped(v.cfg, v.server, v.trace.line) && v.io.msg.None?
  {
    hide Follows, Agree, LabelAt, NextSent, MessageOf, LineOf, Snap.KnowsChoices, Snap.ClientKnows, Snap.ServerKnows;
    hide Config.SendsTicket, Config.SendsStatus, Config.SendsServerKeyExchange, Config.RequestsCertificate,
      Config.UsesChannelId;
    var c, k := v.cfg, v.trace.line;
    var q: nat :| Due(c, v.server, k, q);
    if v.MidFlight() {
      FullLabels(c);
      ClosingLabels(c);
      if v.server { OwnUntil(c, k, if c.Resumes() then 3 else 6); } else { OwnUntil(c, k, 10); }
      assert false;
    }
  }

  /** Line e is always sent, so the next one sent from k on is no further. */
  lemma OwnUntil(c: Config, k: nat, e: nat)
    requires k <= e < Lines(c) && Sent(c, LabelAt(c, e))
    ensures k <= NextSent(c, k) <= e
  {
    hide LabelAt, Sent;
  }

  /** A side that is done waits for nothing and has nothing left to send or to open. */
  lemma EndsEmpty(v: Snap, w: Wait)
    requires v.Conforms(w) && v.state == DONE && !w.WaitFlush? && !w.WaitEarlyReturn?
    ensures w.WaitOk? && v.trace.line == Lines(v.cfg)
    ensures v.io.pendingFlight == [] && v.io.msg.None? && v.io.inbox == []
  {
    hide Agree, LabelAt, MessageOf, Items, Transcript, Snap.KnowsChoices, Snap.ClientKnows, Snap.ServerKnows;
    assert |v.Upcoming()| == 0;
  }

  /** What a standing side has sent and received. */
  lemma Stands(v: Snap, w: Wait)
    requires Standing(v, w)
    ensures v.trace.line <= Lines(v.cfg) && Stopped(v.cfg, v.server, v.trace.line)
    ensures v.io.outbox == Items(v.cfg, v.server, v.trace.line)
    ensures v.Opened() == |Items(v.cfg, !v.server, v.trace.line)|
    ensures v.state == DONE <==> v.trace.line == Lines(v.cfg)
  {
    hide Agree, LabelAt, MessageOf, Items, Transcript, Snap.InPlace, Due, MessageDue, CcsDue, HasFinished,
      FinishedSealed, Stopped;
    if v.state == DONE { EndsEmpty(v, w); AtEnd(v.cfg, v.server); } else { WaitsAfterFlush(v, w); }
    assert v.io.outbox + [] == v.io.outbox;
  }

  lemma AtEnd(c: Config, server: bool)
    ensures Stopped(c, server, Lines(c))
  {
  }

  /** No deadlock: when both sides stand and everything sent has been opened, both are done. */
  lemma NoDeadlock(c: Snap, wc: Wait, s: Snap, ws: Wait)
    requires Standing(c, wc) && Standing(s, ws) && c.server != s.server && c.cfg == s.cfg
    requires c.Opened() == |s.io.outbox| && s.Opened() == |c.io.outbox|
    ensures c.state == DONE && s.state == DONE
  {
    hide Standing, Stopped, Items, Snap.Opened;
    Stands(c, wc);
    Stands(s, ws);
    if c.trace.line <= s.trace.line {
      StoppedBehind(c.cfg, c.server, c.trace.line, s.trace.line);
    } else {
      StoppedBehind(c.cfg, s.server, s.trace.line, c.trace.line);
    }
  }

  // ---------------------------------------------------------------- arrival

  function Arrived(v: Snap, records: seq<Item>): Snap {
    v.(io := v.io.(inbox := v.io.inbox + records))
  }

  /** The records the peer has sent are the chart's, so more of them keep a side on the chart. */
  lemma ArrivalKeeps(v: Snap, w: Wait, outbox: seq<Item>, n: nat)
    requires v.Conforms(w) && outbox <= Items(v.cfg, !v.server, Lines(v.cfg))
    requires v.Opened() + |v.io.inbox| + n <= |outbox|
    ensures var from := v.Opened() + |v.io.inbox|; Arrived(v, outbox[from..from + n]).Conforms(w)
  {
    hide Agree, Snap.OnChart, MessageDue, CcsDue, Snap.InPlace, Items;
    var from := v.Opened() + |v.io.inbox|;
    ArrivalOnChart(v, outbox, n);
    ArrivalInPlace(v, w, outbox[from..from + n]);
  }

  lemma ArrivalOnChart(v: Snap, outbox: seq<Item>, n: nat)
    requires v.OnChart() && outbox <= Items(v.cfg, !v.server, Lines(v.cfg))
    requires v.Opened() + |v.io.inbox| + n <= |outbox|
    ensures var from := v.Opened() + |v.io.inbox|; Arrived(v, outbox[from..from + n]).OnChart()
  {
    hide Follows, Items;
    var from := v.Opened() + |v.io.inbox|;
    assert |v.Upcoming()| == from - |v.trace.received|;
    FollowsArrival(v.cfg, v.server, v.trace.line, v.io.transcript, v.io.outbox + v.io.pendingFlight, v.trace.received,
                   v.Upcoming(), outbox, n);
    assert Arrived(v, outbox[from..from + n]).Upcoming() == v.Upcoming() + outbox[from..from + n];
  }

  lemma OutboxFromChart(v: Snap, w: Wait)
    requires v.Conforms(w)
    ensures v.io.outbox <= Items(v.cfg, v.server, Lines(v.cfg))
  {
    hide Items, Transcript, Agree, Snap.InPlace, Snap.WaitsForNext;
    ItemsGrow(v.cfg, v.server, v.trace.line, Lines(v.cfg));
  }

  lemma FollowsArrival(c: Config, server: bool, k: nat, t: seq<Msg>, sent: seq<Item>, received: seq<Item>,
                       upcoming: seq<Item>, outbox: seq<Item>, n: nat)
    requires Follows(c, server, k, t, sent, received, upcoming) && outbox <= Items(c, !server, Lines(c))
    requires var from := |received| + |upcoming|; from + n <= |outbox|
    ensures var from := |received| + |upcoming|;
      Follows(c, server, k, t, sent, received, upcoming + outbox[from..from + n])
  {
    hide Items, Transcript;
    var from := |received| + |upcoming|;
    assert received + (upcoming + outbox[from..from + n]) == Items(c, !server, Lines(c))[..from + n];
  }

  lemma ArrivalStaysValid(v: Snap, records: seq<Item>)
    requires v.Valid()
    ensures var v' := Arrived(v, records); v'.Valid() && v'.Rank() == v.Rank() && v'.Opened() == v.Opened()
  {
    hide HasFinished, FinishedSealed, Lawful;
  }

  lemma ArrivalInPlace(v: Snap, w: Wait, records: seq<Item>)
    requires v.InPlace(w)
    ensures Arrived(v, records).InPlace(w)
  {
    hide LineOf, Config.SendsTicket, Config.SendsStatus, Config.RequestsCertificate, Config.UsesChannelId;
  }

  /** The next n records of the peer's outbox reach a side. */
  method Receive(hs: Handshake, outbox: seq<Item>, from: nat, n: nat)
    requires Resumable(hs) && hs.View().Conforms(hs.wait) && from == hs.View().Opened() + |hs.io.inbox|
    requires from + n <= |outbox| && outbox <= Items(hs.cfg, !hs.server, Lines(hs.cfg))
    modifies hs`io
    ensures Resumable(hs) && hs.View().Conforms(hs.wait) && hs.View() == Arrived(old(hs.View()), outbox[from..from + n])
    ensures hs.View().Rank() == old(hs.View().Rank()) && hs.View().Opened() == old(hs.View().Opened())
  {
    hide Snap.Conforms, Snap.Valid, Snap.Opened, Snap.Rank, Items;
    ArrivalStaysValid(hs.View(), outbox[from..from + n]);
    ArrivalKeeps(hs.View(), hs.wait, outbox, n);
    hs.io := hs.io.(inbox := hs.io.inbox + outbox[from..from + n]);
  }

  /** A side that neither failed nor returned early nor was stopped by anything but an empty
      channel stands. */
  lemma Stand(hs: Handshake)
    requires Resumable(hs) && hs.View().Conforms(hs.wait)
    requires hs.state == DONE || (hs.io.inbox == [] && (hs.wait.WaitReadMessage? || hs.wait.WaitReadCcs?))
    ensures Standing(hs.View(), hs.wait) && hs.io.inbox == []
  {
    hide Snap.Conforms, Snap.Valid;
    if hs.state == DONE { EndsEmpty(hs.View(), hs.wait); }
  }

  /** Only done has rank zero. */
  lemma SameRank(v: Snap, v': Snap)
    requires v.Rank() == v'.Rank() && v'.state == DONE
    ensures v.state == DONE
  {
  }

  /** A side that is done has seen the whole handshake. */
  lemma Completed(v: Snap, w: Wait)
    requires v.Conforms(w) && v.state == DONE && !w.WaitFlush? && !w.WaitEarlyReturn?
    ensures v.io.transcript == Transcript(v.cfg, Lines(v.cfg))
    ensures v.io.outbox == Items(v.cfg, v.server, Lines(v.cfg))
  {
    hide Agree, LabelAt, MessageOf, Items, Transcript, Snap.InPlace;
    EndsEmpty(v, w);
    assert v.io.outbox + [] == v.io.outbox;
  }

  /** A client that is done has passed the place of an early return if the handshake had one. */
  lemma EarlyPassed(v: Snap, w: Wait)
    requires v.Conforms(w) && v.state == DONE && !w.WaitFlush? && !w.WaitEarlyReturn? && !v.server
    ensures v.BeforeEarly() <==> !(v.cfg.falseStart && v.cfg.cipher.kx == EcdheKx && !v.cfg.Resumes())
  {
    hide Agree, LabelAt, MessageOf, Items, Transcript;
    EndsEmpty(v, w);
  }

  lemma {:induction false} TranscriptsGrow(c: Config, i: nat, k: nat)
    requires i <= k <= Lines(c)
    ensures Transcript(c, i) <= Transcript(c, k)
    decreases k
  {
    hide LabelAt, MessageOf;
    if i < k { TranscriptsGrow(c, i, k - 1); }
  }

  /** At any time one side's transcript continues the other's. */
  lemma OneTranscript(c: Snap, wc: Wait, s: Snap, ws: Wait)
    requires c.Conforms(wc) && s.Conforms(ws) && c.cfg == s.cfg
    ensures if c.trace.line <= s.trace.line then c.io.transcript <= s.io.transcript
      else s.io.transcript <= c.io.transcript
  {
    hide Agree, LabelAt, MessageOf, Items, Snap.InPlace, Snap.WaitsForNext;
    TranscriptsGrow(c.cfg, if c.trace.line <= s.trace.line then c.trace.line else s.trace.line,
                    if c.trace.line <= s.trace.line then s.trace.line else c.trace.line);
  }

  /** When a side checks a Finished message, its transcript is the one the peer computed it
      over: that of the chart up to the peer's Finished. */
  lemma FinishedChecks(v: Snap)
    requires v.Valid() && v.Conforms(WaitOk) && v.io.msg.Some?
    requires v.state == READ_SERVER_FINISHED || v.state == READ_CLIENT_FINISHED
    ensures exists q: nat | q < Lines(v.cfg)
        && LabelAt(v.cfg, q) == (if v.server then LClientFinished else LServerFinished) ::
      && v.io.transcript == Transcript(v.cfg, q)
      && v.io.msg.value == Finished((v.cfg.mac)(!v.server, Transcript(v.cfg, q)))
  {
    hide Agree, LabelAt, Items, Transcript, HasFinished, FinishedSealed, NextSent;
    ClosingLabels(v.cfg);
    var q := v.trace.line;
    NextFrom(v.cfg, q);
    v.LoadedIs(q);
  }

  // ---------------------------------------------------------------- the two sides together

  /** How many calls returned early. */
  function Earlies(results: seq<RunResult>): nat {
    if results == [] then 0
    else Earlies(results[..|results| - 1]) + if results[|results| - 1].RunEarly? then 1 else 0
  }

  class Session {
    const client: Handshake
    const server: Handshake
    /** How many records have arrived at each side. */
    var toClient: nat
    var toServer: nat

    /** Both sides are on the chart of their common configuration, and what has arrived at one
        was sent by the other. */
    ghost predicate Valid()
      reads this, client, server
    {
      var c, s := client.View(), server.View();
      && client != server && !c.server && s.server && c.cfg == s.cfg
      && Resumable(client) && Resumable(server)
      && c.Conforms(client.wait) && s.Conforms(server.wait)
      && c.Opened() + |c.io.inbox| == toClient <= |s.io.outbox|
      && s.Opened() + |s.io.inbox| == toServer <= |c.io.outbox|
    }

    constructor (cfg: Config)
      requires Agree(cfg)
      ensures Valid() && fresh(client) && fresh(server) && client.cfg == cfg
    {
      hide Agree, Snap.Conforms, Snap.Valid, Snap.Opened;
      client := new Handshake(false, cfg);
      server := new Handshake(true, cfg);
      toClient, toServer := 0, 0;
    }

    /** The next n records reach a side. */
    method Deliver(atServer: bool, n: nat)
      requires Valid() && n <= if atServer then |client.io.outbox| - toServer else |server.io.outbox| - toClient
      modifies this, client`io, server`io
      ensures Valid()
      ensures client.View().Rank() == old(client.View().Rank()) && server.View().Rank() == old(server.View().Rank())
      ensures client.io.outbox == old(client.io.outbox) && server.io.outbox == old(server.io.outbox)
      ensures client.io.pendingFlight == old(client.io.pendingFlight)
      ensures server.io.pendingFlight == old(server.io.pendingFlight)
      ensures client.wait == old(client.wait) && server.wait == old(server.wait)
      ensures client.View().BeforeEarly() == old(client.View().BeforeEarly())
      ensures unchanged(if atServer then client else server)
      ensures toServer == old(toServer) + (if atServer then n else 0)
      ensures toClient == old(toClient) + (if atServer then 0 else n)
    {
      hide Snap.Conforms, Snap.Valid, Snap.Opened, Snap.Rank, Items;
      if atServer {
        OutboxFromChart(client.View(), client.wait);
        Receive(server, client.io.outbox, toServer, n);
        toServer := toServer + n;
        return;
      }
      OutboxFromChart(server.View(), server.wait);
      Receive(client, server.io.outbox, toClient, n);
      toClient := toClient + n;
    }

    /** One side's SSL_do_handshake. */
    method Call(atServer: bool, room: nat) returns (r: RunResult)
      requires Valid()
      modifies client, server
      ensures Valid() && !r.RunError?
      ensures unchanged(if atServer then client else server)
      ensures var hs := if atServer then server else client;
        && Ran(old(hs.View()), false, hs.View())
        && Drained(old(hs.wait), old(hs.View()), room, hs.wait, hs.View())
        && (r.RunDone? ==> hs.state == DONE)
        && (r.RunEarly? ==> !atServer && hs.View().Rank() < old(hs.View()).Rank() && hs.View().AtEarly())
        && (r.RunEarly? ==> old(hs.View()).BeforeEarly())
        && hs.View().BeforeEarly() == (old(hs.View()).BeforeEarly() && !r.RunEarly?)
        && (r.RunBlocked? ==>
              hs.wait.WaitFlush? || (hs.io.inbox == [] && (hs.wait.WaitReadMessage? || hs.wait.WaitReadCcs?)))
    {
      hide Snap.Conforms, Snap.Valid, Snap.Opened, Snap.Rank;
      if atServer {
        r := Run(server, room);
      } else {
        r := Run(client, room);
      }
    }

    /** Whatever arrives when, and whoever is called when, no call fails, and just one returns early
        if the client gets past the place of an early return. */
    method Follow(schedule: seq<Event>) returns (results: seq<RunResult>)
      requires Valid()
      modifies this, client, server
      ensures Valid()
      ensures |results| <= |schedule| && forall i :: 0 <= i < |results| ==> !results[i].RunError?
      ensures Earlies(results) == if old(client.View().BeforeEarly()) && !client.View().BeforeEarly() then 1 else 0
    {
      hide Snap.Conforms, Snap.Valid, Snap.Opened, Snap.Rank, Ran, Snap.AtEarly;
      results := [];
      for i := 0 to |schedule|
        invariant Valid() && |results| <= i
        invariant Earlies(results) == if old(client.View().BeforeEarly()) && !client.View().BeforeEarly() then 1 else 0
        invariant !old(client.View().BeforeEarly()) ==> !client.View().BeforeEarly()
        invariant forall j :: 0 <= j < |results| ==> !results[j].RunError?
      {
        match schedule[i]
        case Arrive(atServer, n) =>
          var waiting := if atServer then |client.io.outbox| - toServer else |server.io.outbox| - toClient;
          Deliver(atServer, if n <= waiting then n else waiting);
        case Call(atServer, room) =>
          var r := Call(atServer, room);
          assert (results + [r])[..|results|] == results;
          results := results + [r];
      }
    }

    /** What is left to do for both sides. */
    ghost function Ranks(): nat
      reads client, server
    {
      client.View().Rank() + server.View().Rank()
    }

    ghost function Writes(): nat
      reads client, server
    {
      Unflushed(client.wait, client.View()) + Unflushed(server.wait, server.View())
    }

    /** Deliver everything and call, first the client, then the server, with room for at least one
        write each. Unless both are done one of them gets on. */
    method Round(clientRoom: nat, serverRoom: nat) returns (early: nat)
      requires Valid() && !(client.state == DONE && server.state == DONE) && clientRoom > 0 && serverRoom > 0
      modifies this, client, server
      ensures Valid()
      ensures Ranks() < old(Ranks()) || (Ranks() == old(Ranks()) && Writes() < old(Writes()))
      ensures early == if old(client.View().BeforeEarly()) && !client.View().BeforeEarly() then 1 else 0
      ensures !old(client.View().BeforeEarly()) ==> !client.View().BeforeEarly()
    {
      hide Snap.Conforms, Snap.Valid, Snap.Opened, Snap.Rank, Standing, Snap.BeforeEarly, Snap.AtEarly;
      ghost var c, s, wc, ws := client.View(), server.View(), client.wait, server.wait;
      Deliver(false, |server.io.outbox| - toClient);
      var r := Call(false, clientRoom);
      early := if r.RunEarly? then 1 else 0;
      Deliver(true, |client.io.outbox| - toServer);
      r := Call(true, serverRoom);
      if client.View().Rank() == c.Rank() && server.View().Rank() == s.Rank() && !wc.WaitFlush? && !ws.WaitFlush? {
        Stand(client);
        Stand(server);
        NoDeadlock(client.View(), client.wait, server.View(), server.wait);
        SameRank(c, client.View());
        SameRank(s, server.View());
      }
    }

    /** Delivering and calling in turns brings both sides to the end, however little the transports
        take at a time, with one transcript: all of the chart's messages, and each Finished over
        exactly what precedes it. A client that was not past that place returns early just once if
        the handshake is a full one for which False Start is set, and else never. */
    method Complete(rooms: nat -> nat) returns (early: nat)
      requires Valid() && forall i :: rooms(i) > 0
      modifies this, client, server
      ensures Valid() && client.state == DONE && server.state == DONE
      ensures client.io.transcript == server.io.transcript == Transcript(client.cfg, Lines(client.cfg))
      ensures client.io.outbox == Items(client.cfg, false, Lines(client.cfg))
      ensures server.io.outbox == Items(client.cfg, true, Lines(client.cfg))
      ensures old(client.View().BeforeEarly()) ==>
        var c := client.cfg; early == if c.falseStart && c.cipher.kx == EcdheKx && !c.Resumes() then 1 else 0
    {
      hide Snap.Conforms, Snap.Valid, Snap.Opened, Snap.Rank, Transcript, Items, Ranks, Writes, Snap.BeforeEarly;
      var i: nat := 0;
      early := 0;
      while client.state != DONE || server.state != DONE
        invariant Valid()
        invariant old(client.View().BeforeEarly()) ==> early == if client.View().BeforeEarly() then 0 else 1
        invariant !old(client.View().BeforeEarly()) ==> !client.View().BeforeEarly()
        decreases Ranks(), Writes()
      {
        var e := Round(rooms(i), rooms(i + 1));
        early := early + e;
        i := i + 2;
      }
      Completed(client.View(), client.wait);
      Completed(server.View(), server.wait);
      EarlyPassed(client.View(), client.wait);
    }
  }
}
