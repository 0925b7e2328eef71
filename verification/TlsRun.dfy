/** ssl_run_handshake and the two state loops it drives. */
module TlsRun {
  import opened Wrappers
  import opened TlsChart
  import opened TlsOrder
  import opened TlsState
  import TlsClient
  import TlsServer

  /** The switch of ssl_client_handshake. */
  method ClientStep(hs: Handshake) returns (ret: Wait)
    requires hs.Valid() && !hs.server && hs.state != DONE
    modifies hs`state, hs`neg, hs`keys, hs`io, hs`trace
    ensures Step(old(hs.View()), ret, hs.View())
  {
    hide Step, Snap.Conforms, HasFinished, FinishedSealed;
    if hs.state == START_CONNECT {
      ret := TlsClient.DoStartConnect(hs);
    } else if hs.state == ENTER_EARLY_DATA {
      ret := TlsClient.DoEnterEarlyData(hs);
    } else if hs.state == READ_SERVER_HELLO {
      ret := TlsClient.DoReadServerHello(hs);
    } else if hs.state == READ_SERVER_CERTIFICATE {
      ret := TlsClient.DoReadServerCertificate(hs);
    } else if hs.state == READ_CERTIFICATE_STATUS {
      ret := TlsClient.DoReadCertificateStatus(hs);
    } else if hs.state == VERIFY_SERVER_CERTIFICATE {
      ret := TlsClient.DoVerifyServerCertificate(hs);
    } else if hs.state == READ_SERVER_KEY_EXCHANGE {
      ret := TlsClient.DoReadServerKeyExchange(hs);
    } else if hs.state == READ_CERTIFICATE_REQUEST {
      ret := TlsClient.DoReadCertificateRequest(hs);
    } else if hs.state == READ_SERVER_HELLO_DONE {
      ret := TlsClient.DoReadServerHelloDone(hs);
    } else if hs.state == SEND_CLIENT_CERTIFICATE {
      ret := TlsClient.DoSendClientCertificate(hs);
    } else if hs.state == SEND_CLIENT_KEY_EXCHANGE {
      ret := TlsClient.DoSendClientKeyExchange(hs);
    } else if hs.state == SEND_CLIENT_CERTIFICATE_VERIFY {
      ret := TlsClient.DoSendClientCertificateVerify(hs);
    } else if hs.state == SEND_CLIENT_FINISHED {
      ret := TlsClient.DoSendClientFinished(hs);
    } else if hs.state == FINISH_FLIGHT {
      ret := TlsClient.DoFinishFlight(hs);
    } else if hs.state == READ_SESSION_TICKET {
      ret := TlsClient.DoReadSessionTicket(hs);
    } else if hs.state == CLIENT_PROCESS_CCS {
      ret := TlsClient.DoProcessChangeCipherSpec(hs);
    } else if hs.state == READ_SERVER_FINISHED {
      ret := TlsClient.DoReadServerFinished(hs);
    } else {
      ret := TlsClient.DoFinishClientHandshake(hs);
    }
  }

  /** The switch of ssl_server_handshake. */
  method ServerStep(hs: Handshake) returns (ret: Wait)
    requires hs.Valid() && hs.server && hs.state != DONE
    modifies hs`state, hs`neg, hs`keys, hs`io, hs`trace
    ensures Step(old(hs.View()), ret, hs.View())
  {
    hide Step, Snap.Conforms, HasFinished, FinishedSealed;
    if hs.state == START_ACCEPT {
      ret := TlsServer.DoStartAccept(hs);
    } else if hs.state == READ_CLIENT_HELLO {
      ret := TlsServer.DoReadClientHello(hs);
    } else if hs.state == SELECT_CERTIFICATE {
      ret := TlsServer.DoSelectCertificate(hs);
    } else if hs.state == SELECT_PARAMETERS {
      ret := TlsServer.DoSelectParameters(hs);
    } else if hs.state == SEND_SERVER_HELLO {
      ret := TlsServer.DoSendServerHello(hs);
    } else if hs.state == SEND_SERVER_CERTIFICATE {
      ret := TlsServer.DoSendServerCertificate(hs);
    } else if hs.state == SEND_SERVER_KEY_EXCHANGE {
      ret := TlsServer.DoSendServerKeyExchange(hs);
    } else if hs.state == SEND_SERVER_HELLO_DONE {
      ret := TlsServer.DoSendServerHelloDone(hs);
    } else if hs.state == READ_CLIENT_CERTIFICATE {
      ret := TlsServer.DoReadClientCertificate(hs);
    } else if hs.state == VERIFY_CLIENT_CERTIFICATE {
      ret := TlsServer.DoVerifyClientCertificate(hs);
    } else if hs.state == READ_CLIENT_KEY_EXCHANGE {
      ret := TlsServer.DoReadClientKeyExchange(hs);
    } else if hs.state == READ_CLIENT_CERTIFICATE_VERIFY {
      ret := TlsServer.DoReadClientCertificateVerify(hs);
    } else if hs.state == READ_CLIENT_CCS {
      ret := TlsServer.DoReadChangeCipherSpec(hs);
    } else if hs.state == SERVER_PROCESS_CCS {
      ret := TlsServer.DoProcessChangeCipherSpec(hs);
    } else if hs.state == READ_NEXT_PROTO {
      ret := TlsServer.DoReadNextProto(hs);
    } else if hs.state == READ_CHANNEL_ID {
      ret := TlsServer.DoReadChannelId(hs);
    } else if hs.state == READ_CLIENT_FINISHED {
      ret := TlsServer.DoReadClientFinished(hs);
    } else if hs.state == SEND_SERVER_FINISHED {
      ret := TlsServer.DoSendServerFinished(hs);
    } else {
      ret := TlsServer.DoFinishServerHandshake(hs);
    }
  }

  /** What any number of transitions, the last of which returned ret, keep. */
  ghost predicate Steps(v: Snap, ret: Wait, v': Snap) {
    && v'.Valid() && v'.io.inbox == v.io.inbox && v'.io.outbox == v.io.outbox
    && v'.Opened() == v.Opened()
    && (ret.WaitReadMessage? ==> v'.io.msg.None?)
    && (v'.state == DONE ==> ret.WaitOk?)
    && EarlyOnce(v, ret, v')
    && (v.Conforms(WaitOk) ==> v'.Conforms(ret))
  }

  /** ssl_client_handshake and ssl_server_handshake: transitions until one has to wait. Every
      transition lowers the rank, so there are finitely many. */
  method DoHandshake(hs: Handshake) returns (ret: Wait)
    requires hs.Valid()
    modifies hs`state, hs`neg, hs`keys, hs`io, hs`trace
    ensures ret.WaitOk? ==> hs.state == DONE
    ensures hs.state == FINISH_FLIGHT ==> ret.WaitFlush?
    ensures Steps(old(hs.View()), ret, hs.View())
    ensures !ret.WaitError? ==>
      || hs.View().Rank() < old(hs.View()).Rank()
      || (hs.View() == old(hs.View()) && (ret.WaitReadMessage? || ret.WaitOk?))
  {
    hide Snap.Conforms, Snap.Valid, Snap.Rank, Snap.BeforeEarly;
    ghost var v := hs.View();
    ret := WaitOk;
    while hs.state != DONE
      invariant ret.WaitOk? && Steps(v, WaitOk, hs.View())
      invariant hs.View() == v || (hs.View().Rank() < v.Rank() && hs.state != FINISH_FLIGHT)
      decreases hs.View().Rank()
    {
      if hs.server {
        ret := ServerStep(hs);
      } else {
        ret := ClientStep(hs);
      }
      if ret != WaitOk {
        return;
      }
    }
  }

  // ---------------------------------------------------------------- resolving a wait

  /** The first n pending records go out. A record of which only a part is written
      counts as pending; the peer cannot open it. */
  function Flushed(v: Snap, n: nat): Snap
    requires n <= |v.io.pendingFlight|
  {
    v.(io := v.io.(outbox := v.io.outbox + v.io.pendingFlight[..n], pendingFlight := v.io.pendingFlight[n..]))
  }

  /** The next record is one ssl_open_handshake takes. */
  predicate Opens(v: Snap) {
    v.io.inbox != [] && v.io.inbox[0].content.HandshakeRecord? && v.io.inbox[0].encrypted == v.keys.reading
  }

  /** Its message is in hs_buf. */
  function OpenMessage(v: Snap): Snap
    requires Opens(v)
  {
    var record := v.io.inbox[0].content;
    v.(io := v.io.(msg := Some(record.msg), more := record.more, inbox := v.io.inbox[1..]))
  }

  /** The next record is one ssl_open_change_cipher_spec takes: not while a message is left over. */
  predicate OpensCcs(v: Snap) {
    && v.io.msg.None? && v.io.inbox != []
    && v.io.inbox[0].content.ChangeCipherSpec? && v.io.inbox[0].encrypted == v.keys.reading
  }

  function OpenCcs(v: Snap): Snap
    requires OpensCcs(v)
  {
    v.(io := v.io.(inbox := v.io.inbox[1..]), trace := Trace(v.trace.received + [v.io.inbox[0]], v.trace.line + 1))
  }

  lemma FlushKeeps(v: Snap, n: nat)
    requires n <= |v.io.pendingFlight|
    ensures v.Valid() ==> Flushed(v, n).Valid() && Flushed(v, n).Rank() == v.Rank()
    ensures v.Conforms(WaitFlush) ==> Flushed(v, n).Conforms(WaitFlush)
    ensures v.Conforms(WaitFlush) && n == |v.io.pendingFlight| ==> Flushed(v, n).Conforms(WaitOk)
  {
    hide Follows, HasFinished, Agree, LabelAt, Sent, Lawful;
    var a, b := v.io.pendingFlight[..n], v.io.pendingFlight[n..];
    assert v.io.outbox + a + b == v.io.outbox + v.io.pendingFlight by { assert v.io.pendingFlight == a + b; }
  }

  /** A machine on the chart that waits for a message finds one in the next record. */
  lemma OpenKeeps(v: Snap)
    requires v.io.msg.None? && v.io.inbox != [] && v.Conforms(WaitReadMessage)
    ensures Opens(v) && OpenMessage(v).Conforms(WaitOk)
  {
    hide Follows, Agree, LabelAt, Sent, NextSent, MessageOf, Snap.InPlace, FromServer, IsCcs, Sealed;
    var q :| Due(v.cfg, v.server, v.trace.line, q) && !IsCcs(LabelAt(v.cfg, q))
      && Sealed(LabelAt(v.cfg, q)) == v.keys.reading;
    assert v.Upcoming() == v.io.inbox;
    FollowsNext(v.cfg, v.server, v.trace.line, v.io.transcript, v.io.outbox + v.io.pendingFlight, v.trace.received,
      v.io.inbox, q);
    assert OpenMessage(v).Upcoming() == v.io.inbox;
    OpenInPlace(v);
  }

  lemma OpenInPlace(v: Snap)
    requires Opens(v) && v.InPlace(WaitReadMessage)
    ensures OpenMessage(v).InPlace(WaitOk)
  {
    hide LineOf, Config.SendsTicket, Config.SendsStatus, Config.RequestsCertificate, Config.UsesChannelId;
  }

  /** And one that waits for a ChangeCipherSpec finds that. */
  lemma CcsKeeps(v: Snap)
    requires v.Valid() && v.io.inbox != [] && v.Conforms(WaitReadCcs)
    ensures OpensCcs(v) && OpenCcs(v).Conforms(WaitOk)
  {
    hide Follows, Agree, LabelAt, Sent, NextSent, MessageOf, Snap.InPlace, HasFinished, FinishedSealed;
    var k := v.trace.line;
    assert v.Upcoming() == v.io.inbox && !v.keys.reading;
    FollowsNext(v.cfg, v.server, k, v.io.transcript, v.io.outbox + v.io.pendingFlight, v.trace.received, v.io.inbox, k);
    assert OpenCcs(v).Upcoming() == v.io.inbox[1..];
    CcsInPlace(v);
  }

  lemma CcsInPlace(v: Snap)
    requires OpensCcs(v) && v.InPlace(WaitReadCcs) && v.state in {CLIENT_PROCESS_CCS, SERVER_PROCESS_CCS}
    requires v.server == (v.state == SERVER_PROCESS_CCS)
    ensures OpenCcs(v).InPlace(WaitOk)
  {
    hide LabelAt, Config.SendsTicket, Config.SendsStatus, Config.RequestsCertificate, Config.UsesChannelId;
    ClosingLabels(v.cfg);
  }

  // ---------------------------------------------------------------- ssl_run_handshake

  datatype RunResult = RunError | RunBlocked | RunEarly | RunDone

  /** Between two calls a handshake waits for nothing, for a record, for the transport to take
      the rest of a flight, or has failed. */
  ghost predicate Resumable(hs: Handshake)
    reads hs
  {
    && hs.Valid() && !hs.wait.WaitEarlyReturn?
    && (hs.wait.WaitReadMessage? ==> hs.io.msg.None?)
    && (hs.state == DONE ==> hs.wait.WaitOk?)
    && (hs.state == FINISH_FLIGHT ==> hs.wait.WaitFlush?)
  }

  /** The pending records the handshake waits to send, and the flush itself. */
  function Unflushed(w: Wait, v: Snap): nat {
    if w.WaitFlush? then |v.io.pendingFlight| + 1 else 0
  }

  /** What a call, or a part of one, does to a handshake: records only move on, and unless it
      fails the rank does not rise, and nothing is written without lowering it. */
  ghost predicate Ran(v: Snap, failed: bool, v': Snap) {
    && v.io.outbox <= v'.io.outbox
    && |v'.io.inbox| + v'.Opened() == |v.io.inbox| + v.Opened()
    && (failed || v'.Rank() < v.Rank()
        || (v'.Rank() == v.Rank() && v'.io.outbox + v'.io.pendingFlight == v.io.outbox + v.io.pendingFlight))
  }

  /** A call that does not lower the rank flushes as much as there is room for. */
  ghost predicate Drained(w: Wait, v: Snap, room: nat, w': Wait, v': Snap) {
    v'.Rank() == v.Rank() ==>
      && Unflushed(w', v') == (if room < Unflushed(w, v) then Unflushed(w, v) - room else 0)
      && (!w.WaitFlush? ==> v'.io.outbox == v.io.outbox)
  }

  /** Neither resolution touches what the safety invariant speaks of. */
  lemma OpenStaysValid(v: Snap)
    ensures Opens(v) && v.io.msg.None? && v.Valid() ==> OpenMessage(v).Valid() && OpenMessage(v).Rank() == v.Rank()
    ensures OpensCcs(v) && v.Valid() ==> OpenCcs(v).Valid() && OpenCcs(v).Rank() == v.Rank()
  {
    hide HasFinished, FinishedSealed;
  }

  lemma WaitsAgree(v: Snap)
    ensures !v.Conforms(WaitError)
    ensures v.Conforms(WaitEarlyReturn) ==> v.Conforms(WaitOk)
    ensures v.Conforms(WaitReadCcs) ==> v.io.msg.None?
  {
    hide Agree, Snap.OnChart, LineOf, LabelAt;
  }

  /** flush_flight and the BIO_flush behind it. */
  method FlushFlight(hs: Handshake, room: nat) returns (done: bool, left: nat)
    requires hs.Valid()
    modifies hs`io
    ensures var v, v' := old(hs.View()), hs.View();
      && v'.Valid() && v'.Rank() == v.Rank() && v.io.outbox <= v'.io.outbox && v'.io.inbox == v.io.inbox
      && v'.Opened() == v.Opened() && v'.io.outbox + v'.io.pendingFlight == v.io.outbox + v.io.pendingFlight
      && Unflushed(WaitFlush, v') == (if done then 1 else Unflushed(WaitFlush, v) - room)
      && (done <==> Unflushed(WaitFlush, v) <= room)
      && left == (if done then room - Unflushed(WaitFlush, v) else 0)
      && (v.Conforms(WaitFlush) ==> v'.Conforms(if done then WaitOk else WaitFlush))
  {
    hide Snap.Conforms, Snap.Valid, Snap.Rank;
    ghost var v := hs.View();
    var flight := hs.io.pendingFlight;
    var n := if room < |flight| then room else |flight|;
    FlushKeeps(v, n);
    hs.io := hs.io.(outbox := hs.io.outbox + flight[..n], pendingFlight := flight[n..]);
    assert hs.View() == Flushed(v, n) && flight == flight[..n] + flight[n..];
    done := room > |flight|;
    left := if done then room - |flight| - 1 else 0;
  }

  /** The switch on hs->wait: what the handshake was waiting for happens, or the call ends. The
      transport has room for so many more writes in this call, each of one record or the final
      BIO_flush. A record that cannot be used stays and fails again. */
  method Resolve(hs: Handshake, room: nat) returns (r: Option<RunResult>, left: nat)
    requires hs.Valid() && (hs.wait.WaitReadMessage? ==> hs.io.msg.None?)
    modifies hs`wait, hs`io, hs`trace
    ensures var v, v', w := old(hs.View()), hs.View(), old(hs.wait);
      && v'.Valid() && v'.Rank() == v.Rank() && Ran(v, false, v')
      && (!w.WaitFlush? ==> v'.io.outbox == v.io.outbox && left == room)
      && (r.None? ==>
            && hs.wait == w && !w.WaitEarlyReturn?
            && (w.WaitFlush? ==> Unflushed(w, v) <= room && v'.io.pendingFlight == [])
            && |v'.io.inbox| == |v.io.inbox| - (if w.WaitReadMessage? || w.WaitReadCcs? then 1 else 0)
            && (v.Conforms(w) ==> v'.Conforms(WaitOk)))
      && (r.Some? ==>
            && !hs.wait.WaitEarlyReturn? && (hs.wait.WaitReadMessage? ==> hs.io.msg.None?)
            && (if w.WaitFlush? then
                  && r.value.RunBlocked? && hs.wait == w
                  && room < Unflushed(w, v) && Unflushed(w, v') == Unflushed(w, v) - room
                else v' == v && !hs.wait.WaitFlush? && (hs.wait == w || hs.wait.WaitOk?))
            && !r.value.RunDone? && (r.value.RunEarly? <==> w.WaitEarlyReturn?)
            && (r.value.RunBlocked? && !w.WaitFlush? ==>
                  hs.io.inbox == [] && (hs.wait.WaitReadMessage? || hs.wait.WaitReadCcs?))
            && (v.Conforms(w) ==> !r.value.RunError? && v'.Conforms(hs.wait)))
  {
    hide Snap.Conforms, Snap.Valid, Snap.Rank;
    ghost var v := hs.View();
    left := room;
    WaitsAgree(v);
    OpenStaysValid(v);
    if hs.wait.WaitError? {
      return Some(RunError), left;
    }
    if hs.wait.WaitFlush? {
      var done: bool;
      done, left := FlushFlight(hs, room);
      return if done then None else Some(RunBlocked), left;
    }
    if hs.wait.WaitReadMessage? {
      if hs.io.inbox == [] {
        return Some(RunBlocked), left;
      }
      if v.Conforms(WaitReadMessage) { OpenKeeps(v); }
      var item := hs.io.inbox[0];
      if !item.content.HandshakeRecord? || item.encrypted != hs.keys.reading {
        return Some(RunError), left;
      }
      hs.io := hs.io.(msg := Some(item.content.msg), more := item.content.more, inbox := hs.io.inbox[1..]);
      assert hs.View() == OpenMessage(v);
      return None, left;
    }
    if hs.wait.WaitReadCcs? {
      if hs.io.msg.Some? {
        // tls_can_accept_handshake_data, before any record is looked at.
        return Some(RunError), left;
      }
      if hs.io.inbox == [] {
        return Some(RunBlocked), left;
      }
      if v.Conforms(WaitReadCcs) { CcsKeeps(v); }
      var item := hs.io.inbox[0];
      if !item.content.ChangeCipherSpec? || item.encrypted != hs.keys.reading {
        return Some(RunError), left;
      }
      hs.io := hs.io.(inbox := hs.io.inbox[1..]);
      hs.trace := Trace(hs.trace.received + [item], hs.trace.line + 1);
      assert hs.View() == OpenCcs(v);
      return None, left;
    }
    if hs.wait.WaitEarlyReturn? {
      hs.wait := WaitOk;
      return Some(RunEarly), left;
    }
    r := None;
  }

  /** A handshake that ended in success, whatever the peer sent: both directions switched keys,
      both Finished messages were exchanged over all that preceded them and the own ones sealed,
      the transcript is in order from the ClientHello to the last Finished, and in a full
      handshake the certificates were checked. */
  ghost predicate Succeeded(v: Snap) {
    && v.state == DONE && v.keys.reading && v.keys.writing
    && HasFinished(v.cfg, false, v.io.transcript) && HasFinished(v.cfg, true, v.io.transcript)
    && FinishedSealed(v.io.outbox)
    && PlaceOf(v.cfg, v.server, FlowOf(v.cfg, v.server, v.neg), v.io.transcript) == (if v.neg.session then 8 else 16)
    && (!v.neg.session && !v.server && v.neg.newCipher.certAuth ==>
          v.neg.peerChain != 0 && (v.cfg.verifies)(false, v.neg.peerChain))
    && (!v.neg.session && v.server ==>
          if v.neg.peerChain != 0 then (v.cfg.verifies)(true, v.neg.peerChain)
          else v.neg.certRequest ==> !v.cfg.failIfNoPeerCert)
  }

  /** Success means that the transcript holds the whole handshake: the chart's messages in their
      order, the peer's all acceptable, none missing that was negotiated. */
  lemma SuccessIsWhole(v: Snap)
    requires Succeeded(v)
    ensures WholeHandshake(v.cfg, v.server, FlowOf(v.cfg, v.server, v.neg), v.io.transcript)
  {
    hide PlaceOf, HasFinished, FinishedSealed, WholeHandshake;
    LastLineMakesWhole(v.cfg, v.server, FlowOf(v.cfg, v.server, v.neg), v.io.transcript);
  }

  /** What the safety invariant gives at any time: a Finished was only sent once the write keys
      were switched and only accepted once the read keys were, each over all that preceded it. */
  lemma Safe(v: Snap)
    requires v.Valid()
    ensures v.OwnFinished() ==> v.keys.writing && HasFinished(v.cfg, v.server, v.io.transcript)
    ensures v.PeerFinished() ==> v.keys.reading && HasFinished(v.cfg, !v.server, v.io.transcript)
    ensures FinishedSealed(v.io.outbox)
    ensures v.state == DONE ==> Succeeded(v)
  {
    hide HasFinished, FinishedSealed, PlaceOf;
  }

  lemma RanThrough(v: Snap, found: Snap, resumed: Snap, ret: Wait, v': Snap)
    requires Ran(v, false, found) && Ran(found, false, resumed) && Steps(resumed, ret, v')
    requires ret.WaitError? || v' == resumed || v'.Rank() < resumed.Rank()
    ensures Ran(v, ret.WaitError?, v') && resumed.Rank() <= found.Rank() <= v.Rank()
  {
    hide Snap.Conforms, Snap.Valid, Snap.Rank, EarlyOnce, Snap.Opened;
  }

  lemma RanOn(v: Snap, found: Snap, failed: bool, v': Snap)
    ensures Ran(v, false, v)
    ensures Ran(v, false, found) && Ran(found, false, v') ==>
      Ran(v, failed, v') && v'.Rank() <= found.Rank() <= v.Rank()
  {
  }

  lemma SameEarly(v: Snap, v': Snap)
    requires v.server == v'.server && v.cfg == v'.cfg && v.state == v'.state && v.neg == v'.neg
    ensures v.BeforeEarly() == v'.BeforeEarly()
  {
  }

  /** What an early return finds: the own Finished is out and its keys are in use, and the peer's
      Finished is still to come. */
  lemma EarlyIsAtEarly(v: Snap, ret: Wait, v': Snap)
    requires v.Valid() && v'.Valid() && EarlyOnce(v, ret, v')
    requires v.state == FINISH_FLIGHT ==> v.io.pendingFlight == []
    ensures v'.BeforeEarly() == (v.BeforeEarly() && !ret.WaitEarlyReturn?)
    ensures ret.WaitEarlyReturn? ==> v.BeforeEarly() && v'.AtEarly()
  {
    hide HasFinished, FinishedSealed, Lawful;
  }

  /** ssl_run_handshake, with a transport that takes so many writes during the call: whatever the
      peer sends it ends, and it reports success only after the key switches and Finished messages
      of both directions. It blocks when no record is there or the transport is full. */
  method Run(hs: Handshake, room: nat) returns (r: RunResult)
    requires Resumable(hs)
    modifies hs`state, hs`wait, hs`neg, hs`keys, hs`io, hs`trace
    ensures Resumable(hs) && Ran(old(hs.View()), r.RunError?, hs.View())
    ensures r.RunError? || Drained(old(hs.wait), old(hs.View()), room, hs.wait, hs.View())
    ensures r.RunDone? ==> Succeeded(hs.View())
    ensures r.RunEarly? ==> hs.View().Rank() < old(hs.View()).Rank() && hs.View().AtEarly()
    ensures r.RunEarly? ==> old(hs.View()).BeforeEarly()
    ensures hs.View().BeforeEarly() == (old(hs.View()).BeforeEarly() && !r.RunEarly?)
    ensures r.RunBlocked? ==>
      hs.wait.WaitFlush? || (hs.io.inbox == [] && (hs.wait.WaitReadMessage? || hs.wait.WaitReadCcs?))
    ensures old(hs.View().Conforms(hs.wait)) ==> !r.RunError? && hs.View().Conforms(hs.wait)
  {
    hide Snap.Conforms, Snap.Valid, Snap.Rank, Snap.Opened, HasFinished, FinishedSealed, Succeeded, Snap.AtEarly,
      Snap.BeforeEarly, EarlyOnce, Ran;
    ghost var v, w := hs.View(), hs.wait;
    ghost var conforms := v.Conforms(w);
    RanOn(v, v, false, v);
    var left := room;
    while true
      invariant hs.Valid() && Ran(v, false, hs.View())
      invariant hs.wait.WaitReadMessage? ==> hs.io.msg.None?
      invariant hs.state == DONE ==> hs.wait.WaitOk?
      invariant hs.state == FINISH_FLIGHT ==> hs.wait.WaitFlush?
      invariant hs.View().BeforeEarly() == (v.BeforeEarly() && !hs.wait.WaitEarlyReturn?)
      invariant hs.wait.WaitEarlyReturn? ==> hs.View().AtEarly() && v.BeforeEarly()
      invariant conforms ==> hs.View().Conforms(hs.wait)
      invariant hs.View().Rank() == v.Rank() ==>
        && !hs.wait.WaitEarlyReturn?
        && (if hs.wait.WaitFlush? then hs.View() == v && hs.wait == w && left == room
            else Unflushed(w, v) <= room && (!w.WaitFlush? ==> hs.io.outbox == v.io.outbox))
      decreases hs.View().Rank(), |hs.io.inbox|, if hs.wait.WaitReadMessage? || hs.wait.WaitReadCcs? then 0 else 1
    {
      var resolved: Option<RunResult>;
      ghost var found := hs.View();
      resolved, left := Resolve(hs, left);
      SameEarly(found, hs.View());
      if resolved.Some? {
        RanOn(v, found, resolved.value.RunError?, hs.View());
        return resolved.value;
      }
      // Run the state machine again.
      ghost var resumed := hs.View();
      hs.wait := DoHandshake(hs);
      WaitsAgree(hs.View());
      RanThrough(v, found, resumed, hs.wait, hs.View());
      EarlyIsAtEarly(resumed, hs.wait, hs.View());
      if hs.wait.WaitError? {
        return RunError;
      }
      if hs.wait.WaitOk? {
        Safe(hs.View());
        return RunDone;
      }
    }
  }
}
