/** handshake_client.cc for TLS 1.0 to 1.2. Each do_ function keeps the safety invariant
    whatever the server sends, and follows the chart as long as the server does; the lemmas
    in front of those that read say which message the chart has next. */
module TlsClient {
  import opened Wrappers
  import opened TlsChart
  import opened TlsState
  import TlsLawful

  method DoStartConnect(hs: Handshake) returns (ret: Wait)
    requires hs.Valid() && !hs.server && hs.state == START_CONNECT
    modifies hs`state, hs`neg, hs`keys, hs`io, hs`trace
    ensures Step(old(hs.View()), ret, hs.View())
  {
    hide Follows, HasFinished, FinishedSealed, NextSent, Agree, Lawful;
    TlsLawful.StartConnect(hs.View(), ClientHello(hs.Contents()));
    hs.AddMessage(ClientHello(hs.Contents()), LClientHello);
    hs.state := ENTER_EARLY_DATA;
    ret := WaitFlush;
  }

  /** Neither DTLS nor early data. */
  method DoEnterEarlyData(hs: Handshake) returns (ret: Wait)
    requires hs.Valid() && !hs.server && hs.state == ENTER_EARLY_DATA
    modifies hs`state, hs`neg, hs`keys, hs`io, hs`trace
    ensures Step(old(hs.View()), ret, hs.View())
  {
    hide Follows, HasFinished, FinishedSealed, NextSent, Agree, Lawful;
    TlsLawful.EnterEarlyData(hs.View());
    hs.state := READ_SERVER_HELLO;
    ret := WaitOk;
  }

  /** The server's choices are taken over, and the handshake is a full or an abbreviated one. */
  function HelloRead(v: Snap): Snap
    requires v.io.msg.Some? && v.io.msg.value.ServerHello?
  {
    var n := TlsLawful.Adopt(v.neg, v.io.msg.value.choices);
    v.Take().(neg := n, state := if n.session then READ_SESSION_TICKET else READ_SERVER_CERTIFICATE)
  }

  lemma HelloNext(v: Snap)
    requires v.Valid() && !v.server && v.state == READ_SERVER_HELLO && v.Conforms(WaitOk)
    ensures v.io.msg.None? ==> v.Conforms(WaitReadMessage)
    ensures v.io.msg.Some? ==>
      var m := v.io.msg.value;
      m.ServerHello? && (v.cfg.accepts)(false, m) && HelloRead(v).Conforms(WaitOk)
  {
    hide Follows, NextSent, Lawful, HasFinished, FinishedSealed, Accepted, Config.SendsTicket, Config.SendsStatus,
      Config.SendsServerKeyExchange, Config.RequestsCertificate, Config.UsesChannelId;
    NextFrom(v.cfg, 1);
    v.Peek(1, LServerHello);
  }

  method DoReadServerHello(hs: Handshake) returns (ret: Wait)
    requires hs.Valid() && !hs.server && hs.state == READ_SERVER_HELLO
    modifies hs`state, hs`neg, hs`keys, hs`io, hs`trace
    ensures Step(old(hs.View()), ret, hs.View())
    ensures var v := old(hs.View());
      if v.io.msg.None? then ret.WaitReadMessage?
      else if v.io.msg.value.ServerHello? && (v.cfg.accepts)(false, v.io.msg.value) then
        ret.WaitOk? && hs.View() == HelloRead(v)
      else ret.WaitError?
  {
    hide Follows, HasFinished, FinishedSealed, NextSent, Snap.Conforms, Lawful;
    TlsLawful.ReadServerHello(hs.View(), hs.View().Shown());
    if hs.View().Conforms(WaitOk) { HelloNext(hs.View()); }
    if hs.io.msg.None? {
      return WaitReadMessage;
    }
    hs.View().TakeKeeps();
    var msg := hs.io.msg.value;
    if !msg.ServerHello? || !(hs.cfg.accepts)(false, msg) {
      return WaitError;
    }
    hs.neg := TlsLawful.Adopt(hs.neg, msg.choices);
    hs.TakeMessage();
    if hs.neg.session {
      hs.state := READ_SESSION_TICKET;
      return WaitOk;
    }
    hs.state := READ_SERVER_CERTIFICATE;
    ret := WaitOk;
  }

  lemma CertificateNext(v: Snap)
    requires v.Valid() && !v.server && v.state == READ_SERVER_CERTIFICATE && v.Conforms(WaitOk)
    ensures if v.neg.newCipher.certAuth then v.Next(LServerCertificate, 2) else v.Skip().OnChart()
  {
    hide Follows, NextSent, LabelAt, Lawful, HasFinished, FinishedSealed, Agree;
    FullLabels(v.cfg);
    NextFrom(v.cfg, 2);
    if v.neg.newCipher.certAuth { v.Peek(2, LServerCertificate); } else { v.SkipFollows(); }
  }

  method DoReadServerCertificate(hs: Handshake) returns (ret: Wait)
    requires hs.Valid() && !hs.server && hs.state == READ_SERVER_CERTIFICATE
    modifies hs`state, hs`neg, hs`keys, hs`io, hs`trace
    ensures Step(old(hs.View()), ret, hs.View())
  {
    hide Follows, HasFinished, FinishedSealed, NextSent, LabelAt, MessageOf, Sent, Due, MessageDue, CcsDue,
      Accepted, Config.SendsTicket, Config.SendsStatus, Config.SendsServerKeyExchange, Config.RequestsCertificate,
      Config.UsesChannelId, Lawful;
    TlsLawful.ReadServerCertificate(hs.View(), hs.View().Shown());
    if hs.View().Conforms(WaitOk) { CertificateNext(hs.View()); }
    if !hs.neg.newCipher.certAuth {
      hs.SkipLine();
      hs.state := READ_CERTIFICATE_STATUS;
      return WaitOk;
    }
    if hs.io.msg.None? {
      return WaitReadMessage;
    }
    hs.View().TakeKeeps();
    var msg := hs.io.msg.value;
    if !msg.Certificate? || !(hs.cfg.accepts)(false, msg) || msg.chain == 0 {
      return WaitError;
    }
    hs.neg := hs.neg.(peerChain := msg.chain);
    hs.TakeMessage();
    hs.state := READ_CERTIFICATE_STATUS;
    ret := WaitOk;
  }

  lemma StatusNext(v: Snap)
    requires v.Valid() && !v.server && v.state == READ_CERTIFICATE_STATUS && v.Conforms(WaitOk)
    ensures if v.neg.certificateStatusExpected then v.Next(LCertificateStatus, 3) else v.Skip().OnChart()
  {
    hide Follows, NextSent, LabelAt, Lawful, HasFinished, FinishedSealed, Agree;
    FullLabels(v.cfg);
    NextFrom(v.cfg, 3);
    if v.neg.certificateStatusExpected { v.Peek(3, LCertificateStatus); } else { v.SkipFollows(); }
  }

  method DoReadCertificateStatus(hs: Handshake) returns (ret: Wait)
    requires hs.Valid() && !hs.server && hs.state == READ_CERTIFICATE_STATUS
    modifies hs`state, hs`neg, hs`keys, hs`io, hs`trace
    ensures Step(old(hs.View()), ret, hs.View())
    ensures var v, next := old(hs.View()), VERIFY_SERVER_CERTIFICATE;
      if !v.neg.certificateStatusExpected then ret.WaitOk? && hs.View() == v.Skip().(state := next)
      else if v.io.msg.None? then ret.WaitReadMessage?
      else if !v.io.msg.value.CertificateStatus? then ret.WaitOk? && hs.View() == v.(state := next)
      else if (v.cfg.accepts)(false, v.io.msg.value) then ret.WaitOk? && hs.View() == v.Take().(state := next)
      else ret.WaitError?
  {
    hide Follows, HasFinished, FinishedSealed, NextSent, LabelAt, MessageOf, Sent, Due, MessageDue, CcsDue, Agree,
      Config.SendsTicket, Config.SendsStatus, Config.SendsServerKeyExchange, Config.RequestsCertificate,
      Config.UsesChannelId, Lawful;
    TlsLawful.ReadCertificateStatus(hs.View(), hs.View().Shown());
    if hs.View().Conforms(WaitOk) { StatusNext(hs.View()); }
    if !hs.neg.certificateStatusExpected {
      hs.SkipLine();
      hs.state := VERIFY_SERVER_CERTIFICATE;
      return WaitOk;
    }
    if hs.io.msg.None? {
      return WaitReadMessage;
    }
    hs.View().TakeKeeps();
    var msg := hs.io.msg.value;
    if !msg.CertificateStatus? {
      // The server changed its mind.
      hs.state := VERIFY_SERVER_CERTIFICATE;
      return WaitOk;
    }
    if !(hs.cfg.accepts)(false, msg) {
      return WaitError;
    }
    hs.TakeMessage();
    hs.state := VERIFY_SERVER_CERTIFICATE;
    ret := WaitOk;
  }

  method DoVerifyServerCertificate(hs: Handshake) returns (ret: Wait)
    requires hs.Valid() && !hs.server && hs.state == VERIFY_SERVER_CERTIFICATE
    modifies hs`state, hs`neg, hs`keys, hs`io, hs`trace
    ensures Step(old(hs.View()), ret, hs.View())
  {
    hide Follows, HasFinished, FinishedSealed, NextSent, LabelAt, MessageOf, Sent, Due, MessageDue, CcsDue,
      Accepted, Config.SendsTicket, Config.SendsStatus, Config.SendsServerKeyExchange, Config.RequestsCertificate,
      Config.UsesChannelId, Lawful;
    TlsLawful.VerifyServerCertificate(hs.View());
    if hs.neg.newCipher.certAuth && !(hs.cfg.verifies)(false, hs.neg.peerChain) {
      return WaitError;
    }
    hs.state := READ_SERVER_KEY_EXCHANGE;
    ret := WaitOk;
  }

  lemma KeyExchangeNext(v: Snap)
    requires v.Valid() && !v.server && v.state == READ_SERVER_KEY_EXCHANGE && v.Conforms(WaitOk)
    ensures v.cfg.SendsServerKeyExchange() ==> v.Next(LServerKeyExchange, 4)
    ensures !v.cfg.SendsServerKeyExchange() ==>
      && v.Skip().OnChart()
      && if v.cfg.RequestsCertificate() then v.Next(LCertificateRequest, 5) else v.Next(LServerHelloDone, 6)
  {
    hide Follows, NextSent, LabelAt, Lawful, HasFinished, FinishedSealed, Agree, Config.SendsTicket,
      Config.SendsStatus, Config.SendsServerKeyExchange, Config.RequestsCertificate, Config.UsesChannelId;
    FullLabels(v.cfg);
    NextFrom(v.cfg, 4);
    NextFrom(v.cfg, 5);
    NextFrom(v.cfg, 6);
    v.SkipFollows();
    if v.cfg.SendsServerKeyExchange() {
      v.Peek(4, LServerKeyExchange);
    } else if v.cfg.RequestsCertificate() {
      v.Peek(5, LCertificateRequest);
    } else {
      v.Peek(6, LServerHelloDone);
    }
  }

  method DoReadServerKeyExchange(hs: Handshake) returns (ret: Wait)
    requires hs.Valid() && !hs.server && hs.state == READ_SERVER_KEY_EXCHANGE
    modifies hs`state, hs`neg, hs`keys, hs`io, hs`trace
    ensures Step(old(hs.View()), ret, hs.View())
  {
    hide Follows, HasFinished, FinishedSealed, NextSent, LabelAt, MessageOf, Sent, Due, MessageDue, CcsDue,
      Accepted, Config.SendsTicket, Config.SendsStatus, Config.RequestsCertificate, Config.UsesChannelId, Lawful;
    TlsLawful.ReadServerKeyExchange(hs.View(), hs.View().Shown());
    if hs.View().Conforms(WaitOk) { KeyExchangeNext(hs.View()); }
    if hs.io.msg.None? {
      return WaitReadMessage;
    }
    hs.View().TakeKeeps();
    var msg := hs.io.msg.value;
    if !msg.ServerKeyExchange? {
      if hs.neg.newCipher.RequiresServerKeyExchange() {
        return WaitError;
      }
      hs.SkipLine();
      hs.state := READ_CERTIFICATE_REQUEST;
      return WaitOk;
    }
    if hs.neg.newCipher.kx == RsaKx || !(hs.cfg.accepts)(false, msg) {
      return WaitError;
    }
    hs.TakeMessage();
    hs.state := READ_CERTIFICATE_REQUEST;
    ret := WaitOk;
  }

  lemma AgreeHere(v: Snap)
    requires v.Conforms(WaitOk)
    ensures Agree(v.cfg)
  {
  }

  lemma RequestsNeedCertificates(c: Config)
    ensures c.RequestsCertificate() ==> c.cipher.certAuth
  {
  }

  lemma RequestNext(v: Snap)
    requires v.Valid() && !v.server && v.state == READ_CERTIFICATE_REQUEST && v.Conforms(WaitOk)
    ensures v.cfg.RequestsCertificate() ==> v.neg.newCipher.certAuth && v.Next(LCertificateRequest, 5)
    ensures !v.cfg.RequestsCertificate() ==>
      v.Next(LServerHelloDone, 6) && v.Skip().(state := READ_SERVER_HELLO_DONE).Conforms(WaitOk)
    ensures v.io.msg.None? ==> v.Conforms(WaitReadMessage)
    ensures v.cfg.RequestsCertificate() && v.io.msg.Some? ==>
      v.Take().(neg := v.neg.(certRequest := true), state := READ_SERVER_HELLO_DONE).Conforms(WaitOk)
  {
    hide Follows, NextSent, LabelAt, Lawful, HasFinished, FinishedSealed, Agree, Config.SendsTicket,
      Config.SendsStatus, Config.SendsServerKeyExchange, Config.RequestsCertificate, Config.UsesChannelId;
    RequestsNeedCertificates(v.cfg);
    FullLabels(v.cfg);
    NextFrom(v.cfg, 5);
    NextFrom(v.cfg, 6);
    v.SkipFollows();
    if v.cfg.RequestsCertificate() { v.Peek(5, LCertificateRequest); } else { v.Peek(6, LServerHelloDone); }
  }

  method DoReadCertificateRequest(hs: Handshake) returns (ret: Wait)
    requires hs.Valid() && !hs.server && hs.state == READ_CERTIFICATE_REQUEST
    modifies hs`state, hs`neg, hs`keys, hs`io, hs`trace
    ensures Step(old(hs.View()), ret, hs.View())
  {
    hide Follows, HasFinished, FinishedSealed, NextSent, Snap.Conforms, Snap.OnChart, MessageDue, Lawful,
      Config.RequestsCertificate;
    TlsLawful.ReadCertificateRequest(hs.View(), hs.View().Shown());
    if hs.View().Conforms(WaitOk) { RequestNext(hs.View()); AgreeHere(hs.View()); }
    if !hs.neg.newCipher.certAuth {
      hs.SkipLine();
      hs.state := READ_SERVER_HELLO_DONE;
      return WaitOk;
    }
    if hs.io.msg.None? {
      return WaitReadMessage;
    }
    hs.View().TakeKeeps();
    var msg := hs.io.msg.value;
    if msg.ServerHelloDone? {
      hs.SkipLine();
      hs.state := READ_SERVER_HELLO_DONE;
      return WaitOk;
    }
    if !msg.CertificateRequest? || !(hs.cfg.accepts)(false, msg) {
      return WaitError;
    }
    hs.neg := hs.neg.(certRequest := true);
    hs.TakeMessage();
    hs.state := READ_SERVER_HELLO_DONE;
    ret := WaitOk;
  }

  lemma HelloDoneNext(v: Snap)
    requires v.Valid() && !v.server && v.state == READ_SERVER_HELLO_DONE && v.Conforms(WaitOk)
    ensures v.Next(LServerHelloDone, 6)
  {
    hide Follows, NextSent, LabelAt, Lawful, HasFinished, FinishedSealed, Agree;
    FullLabels(v.cfg);
    NextFrom(v.cfg, 6);
    v.Peek(6, LServerHelloDone);
  }

  method DoReadServerHelloDone(hs: Handshake) returns (ret: Wait)
    requires hs.Valid() && !hs.server && hs.state == READ_SERVER_HELLO_DONE
    modifies hs`state, hs`neg, hs`keys, hs`io, hs`trace
    ensures Step(old(hs.View()), ret, hs.View())
  {
    hide Follows, HasFinished, FinishedSealed, NextSent, LabelAt, MessageOf, Sent, Due, MessageDue, CcsDue, Agree,
      Config.SendsTicket, Config.SendsStatus, Config.SendsServerKeyExchange, Config.RequestsCertificate,
      Config.UsesChannelId, Lawful;
    TlsLawful.ReadServerHelloDone(hs.View(), hs.View().Shown());
    if hs.View().Conforms(WaitOk) { HelloDoneNext(hs.View()); }
    if hs.io.msg.None? {
      return WaitReadMessage;
    }
    hs.View().TakeKeeps();
    var msg := hs.io.msg.value;
    if !msg.ServerHelloDone? {
      return WaitError;
    }
    hs.TakeMessage();
    hs.state := SEND_CLIENT_CERTIFICATE;
    ret := WaitOk;
  }

  lemma CertificateDue(v: Snap)
    requires v.Valid() && !v.server && v.state == SEND_CLIENT_CERTIFICATE && v.Conforms(WaitOk)
    ensures v.MaySendIf(v.neg.certRequest, LClientCertificate, Certificate(v.cfg.clientChain))
  {
    hide Follows, NextSent, LabelAt, Lawful, HasFinished, FinishedSealed, Agree;
    FullLabels(v.cfg);
  }

  method DoSendClientCertificate(hs: Handshake) returns (ret: Wait)
    requires hs.Valid() && !hs.server && hs.state == SEND_CLIENT_CERTIFICATE
    modifies hs`state, hs`neg, hs`keys, hs`io, hs`trace
    ensures Step(old(hs.View()), ret, hs.View())
  {
    hide Follows, HasFinished, FinishedSealed, NextSent, Agree, LabelAt, MessageOf, Sent, Snap.MaySendIf, Due,
      MessageDue, CcsDue, Config.SendsTicket, Config.SendsStatus, Config.SendsServerKeyExchange,
      Config.RequestsCertificate, Config.UsesChannelId, Lawful;
    TlsLawful.SendClientCertificate(hs.View(), Certificate(hs.cfg.clientChain));
    if hs.View().Conforms(WaitOk) { CertificateDue(hs.View()); }
    hs.AddMessageIf(hs.neg.certRequest, Certificate(hs.cfg.clientChain), LClientCertificate);
    hs.state := SEND_CLIENT_KEY_EXCHANGE;
    ret := WaitOk;
  }

  method DoSendClientKeyExchange(hs: Handshake) returns (ret: Wait)
    requires hs.Valid() && !hs.server && hs.state == SEND_CLIENT_KEY_EXCHANGE
    modifies hs`state, hs`neg, hs`keys, hs`io, hs`trace
    ensures Step(old(hs.View()), ret, hs.View())
  {
    hide Follows, HasFinished, FinishedSealed, NextSent, Agree, LabelAt, Due, MessageDue, CcsDue,
      Config.SendsTicket, Config.SendsStatus, Config.SendsServerKeyExchange, Config.RequestsCertificate,
      Config.UsesChannelId, Lawful;
    TlsLawful.SendClientKeyExchange(hs.View(), ClientKeyExchange(hs.Contents()));
    FullLabels(hs.cfg);
    hs.AddMessage(ClientKeyExchange(hs.Contents()), LClientKeyExchange);
    hs.state := SEND_CLIENT_CERTIFICATE_VERIFY;
    ret := WaitOk;
  }

  lemma VerifyDue(v: Snap)
    requires v.Valid() && !v.server && v.state == SEND_CLIENT_CERTIFICATE_VERIFY && v.Conforms(WaitOk)
    ensures v.MaySendIf(v.neg.certRequest && v.cfg.clientChain != 0, LCertificateVerify,
                        CertificateVerify((v.cfg.contents)(false, v.io.transcript)))
  {
    hide Follows, NextSent, LabelAt, Lawful, HasFinished, FinishedSealed, Agree;
    FullLabels(v.cfg);
  }

  method DoSendClientCertificateVerify(hs: Handshake) returns (ret: Wait)
    requires hs.Valid() && !hs.server && hs.state == SEND_CLIENT_CERTIFICATE_VERIFY
    modifies hs`state, hs`neg, hs`keys, hs`io, hs`trace
    ensures Step(old(hs.View()), ret, hs.View())
  {
    hide Follows, HasFinished, FinishedSealed, NextSent, Agree, LabelAt, MessageOf, Sent, Snap.MaySendIf, Due,
      MessageDue, CcsDue, Config.SendsTicket, Config.SendsStatus, Config.SendsServerKeyExchange,
      Config.RequestsCertificate, Config.UsesChannelId, Lawful;
    TlsLawful.SendClientCertificateVerify(hs.View(), CertificateVerify(hs.Contents()));
    if hs.View().Conforms(WaitOk) { VerifyDue(hs.View()); }
    var hasCertificate := hs.cfg.clientChain != 0;
    hs.AddMessageIf(hs.neg.certRequest && hasCertificate, CertificateVerify(hs.Contents()), LCertificateVerify);
    hs.state := SEND_CLIENT_FINISHED;
    ret := WaitOk;
  }

  lemma CcsDueNow(v: Snap)
    requires !v.server && v.trace.line == ClientCcsLine(v.cfg)
    ensures v.Sends(LClientCcs)
  {
    hide LabelAt;
    ClosingLabels(v.cfg);
  }

  lemma NextProtoDue(v: Snap)
    requires !v.server && v.trace.line == ClientCcsLine(v.cfg) + 1 && v.keys.writing
    requires v.neg.nextProtoNegSeen == v.cfg.npn
    ensures v.MaySendIf(v.neg.nextProtoNegSeen, LNextProto, NextProto((v.cfg.contents)(false, v.io.transcript)))
  {
    hide LabelAt;
    ClosingLabels(v.cfg);
  }

  lemma ChannelIdDue(v: Snap)
    requires !v.server && v.trace.line == ClientCcsLine(v.cfg) + 2 && v.keys.writing
    requires v.neg.channelIdValid == v.cfg.UsesChannelId()
    ensures v.MaySendIf(v.neg.channelIdValid, LChannelId, ChannelId((v.cfg.contents)(false, v.io.transcript)))
  {
    hide LabelAt, Config.UsesChannelId;
    ClosingLabels(v.cfg);
  }

  /** The ChangeCipherSpec and what do_send_client_finished puts between that and the Finished
      message. */
  function WithExtensions(v: Snap): Snap {
    var v1 := v.SwitchWrite();
    var v2 := v1.AddIf(v.neg.nextProtoNegSeen, NextProto((v.cfg.contents)(v.server, v1.io.transcript)));
    v2.AddIf(v.neg.channelIdValid, ChannelId((v.cfg.contents)(v.server, v2.io.transcript)))
  }

  lemma ExtensionsKeep(v: Snap)
    ensures var e := WithExtensions(v);
      e == v.(io := v.io.(transcript := e.io.transcript, pendingFlight := e.io.pendingFlight),
              keys := v.keys.(writing := true), trace := Trace(v.trace.received, v.trace.line + 3))
    ensures !v.keys.writing ==>
      SwitchesAt(v.io.pendingFlight, |v.io.pendingFlight|, WithExtensions(v).Finish().io.pendingFlight)
  {
  }

  /** The part of do_send_client_finished before the Finished message. */
  method SendClientExtensions(hs: Handshake)
    requires !hs.server
    modifies hs`keys, hs`io, hs`trace
    ensures hs.View() == WithExtensions(old(hs.View()))
    ensures old(FinishedSealed(hs.io.pendingFlight)) ==> FinishedSealed(hs.io.pendingFlight)
    ensures old(HasFinished(hs.cfg, false, hs.io.transcript)) ==> HasFinished(hs.cfg, false, hs.io.transcript)
    ensures old(HasFinished(hs.cfg, true, hs.io.transcript)) ==> HasFinished(hs.cfg, true, hs.io.transcript)
    ensures hs.neg.nextProtoNegSeen == hs.cfg.npn && hs.neg.channelIdValid == hs.cfg.UsesChannelId() ==>
      old(hs.View()).OnChart() && old(hs.trace).line == ClientCcsLine(hs.cfg) && !old(hs.keys).writing ==>
      hs.View().OnChart()
    ensures var k := TlsLawful.FlightLine(false, hs.neg);
      old(InOrder(hs.cfg, false, hs.neg, hs.io.transcript, k)) ==>
        InOrder(hs.cfg, false, hs.neg, hs.io.transcript, k + 3)
  {
    hide Follows, HasFinished, FinishedSealed, NextSent, LabelAt, MessageOf, Sent, Snap.MaySendIf, Snap.Sends,
      ClientCcsLine, Config.UsesChannelId, InOrder, TlsLawful.FlightLine;
    ghost var conforms := hs.trace.line == ClientCcsLine(hs.cfg) && hs.neg.nextProtoNegSeen == hs.cfg.npn
      && hs.neg.channelIdValid == hs.cfg.UsesChannelId();
    if conforms { CcsDueNow(hs.View()); }
    hs.SwitchWriteKeys();
    if conforms { NextProtoDue(hs.View()); }
    TlsLawful.ClientExtensions(hs.cfg, hs.neg, hs.io.transcript, NextProto(hs.Contents()));
    hs.AddMessageIf(hs.neg.nextProtoNegSeen, NextProto(hs.Contents()), LNextProto);
    if conforms { ChannelIdDue(hs.View()); }
    TlsLawful.ClientExtensions(hs.cfg, hs.neg, hs.io.transcript, ChannelId(hs.Contents()));
    hs.AddMessageIf(hs.neg.channelIdValid, ChannelId(hs.Contents()), LChannelId);
  }

  method DoSendClientFinished(hs: Handshake) returns (ret: Wait)
    requires hs.Valid() && !hs.server && hs.state == SEND_CLIENT_FINISHED
    modifies hs`state, hs`neg, hs`keys, hs`io, hs`trace
    ensures Step(old(hs.View()), ret, hs.View())
    ensures ret.WaitFlush? && hs.View() == WithExtensions(old(hs.View())).Finish().(state := FINISH_FLIGHT)
    ensures SwitchesAt(old(hs.io.pendingFlight), |old(hs.io.pendingFlight)|, hs.io.pendingFlight)
  {
    hide Follows, HasFinished, FinishedSealed, NextSent, Agree, LabelAt, Due, MessageDue, CcsDue,
      Config.SendsTicket, Config.SendsStatus, Config.SendsServerKeyExchange, Config.RequestsCertificate,
      Config.UsesChannelId, Lawful, InOrder, TlsLawful.FlightLine, WithExtensions, SwitchesAt;
    ghost var v := hs.View();
    ExtensionsKeep(v);
    ClosingLabels(hs.cfg);
    SendClientExtensions(hs);
    TlsLawful.SendClientFinished(v, hs.io.transcript, Finished((hs.cfg.mac)(false, hs.io.transcript)));
    hs.SendFinished();
    hs.state := FINISH_FLIGHT;
    ret := WaitFlush;
  }

  method DoFinishFlight(hs: Handshake) returns (ret: Wait)
    requires hs.Valid() && !hs.server && hs.state == FINISH_FLIGHT
    modifies hs`state, hs`neg, hs`keys, hs`io, hs`trace
    ensures Step(old(hs.View()), ret, hs.View())
    ensures var v := old(hs.View());
      if v.neg.session then ret.WaitOk? && hs.View() == v.(state := FINISH_CLIENT_HANDSHAKE)
      else
        && hs.View() == v.(state := READ_SESSION_TICKET)
        && ret == if v.cfg.falseStart && v.neg.newCipher.kx == EcdheKx then WaitEarlyReturn else WaitOk
  {
    hide Follows, HasFinished, FinishedSealed, NextSent, LabelAt, MessageOf, Sent, Due, MessageDue, CcsDue, Agree,
      Config.SendsTicket, Config.SendsStatus, Config.SendsServerKeyExchange, Config.RequestsCertificate,
      Config.UsesChannelId, Lawful;
    TlsLawful.FinishFlight(hs.View());
    if hs.neg.session {
      hs.state := FINISH_CLIENT_HANDSHAKE;
      return WaitOk;
    }
    hs.state := READ_SESSION_TICKET;
    if hs.cfg.falseStart && hs.neg.newCipher.kx == EcdheKx {
      return WaitEarlyReturn;
    }
    ret := WaitOk;
  }

  lemma TicketNext(v: Snap)
    requires v.Valid() && !v.server && v.state == READ_SESSION_TICKET && v.Conforms(WaitOk)
    ensures !v.neg.ticketExpected ==> v.Skip().(state := CLIENT_PROCESS_CCS).Conforms(WaitReadCcs)
    ensures v.neg.ticketExpected && v.io.msg.None? ==> v.Conforms(WaitReadMessage)
    ensures v.neg.ticketExpected && v.io.msg.Some? ==>
      var m := v.io.msg.value;
      && m.NewSessionTicket? && (v.cfg.accepts)(false, m)
      && v.Take().(neg := v.neg.(ticketExpected := m.ticket != 0), state := CLIENT_PROCESS_CCS).Conforms(WaitReadCcs)
  {
    hide Follows, NextSent, LabelAt, Lawful, HasFinished, FinishedSealed, Agree, Config.SendsTicket,
      Config.SendsStatus, Config.SendsServerKeyExchange, Config.RequestsCertificate, Config.UsesChannelId;
    ClosingLabels(v.cfg);
    var k := TicketLine(v.cfg);
    NextFrom(v.cfg, k);
    NextFrom(v.cfg, k + 1);
    if v.neg.ticketExpected { v.Peek(k, LNewSessionTicket); } else { v.NothingLoaded(k + 1); v.SkipFollows(); }
  }

  method DoReadSessionTicket(hs: Handshake) returns (ret: Wait)
    requires hs.Valid() && !hs.server && hs.state == READ_SESSION_TICKET
    modifies hs`state, hs`neg, hs`keys, hs`io, hs`trace
    ensures Step(old(hs.View()), ret, hs.View())
    ensures var v, next := old(hs.View()), CLIENT_PROCESS_CCS;
      if !v.neg.ticketExpected then ret.WaitReadCcs? && hs.View() == v.Skip().(state := next)
      else if v.io.msg.None? then ret.WaitReadMessage?
      else if v.io.msg.value.NewSessionTicket? && (v.cfg.accepts)(false, v.io.msg.value) then
        && ret.WaitReadCcs?
        && hs.View() == v.Take().(neg := v.neg.(ticketExpected := v.io.msg.value.ticket != 0), state := next)
      else ret.WaitError?
  {
    hide Follows, HasFinished, FinishedSealed, NextSent, Snap.Conforms, Lawful;
    TlsLawful.ReadSessionTicket(hs.View(), hs.View().Shown());
    if hs.View().Conforms(WaitOk) { TicketNext(hs.View()); }
    if !hs.neg.ticketExpected {
      hs.SkipLine();
      hs.state := CLIENT_PROCESS_CCS;
      return WaitReadCcs;
    }
    if hs.io.msg.None? {
      return WaitReadMessage;
    }
    hs.View().TakeKeeps();
    var msg := hs.io.msg.value;
    if !msg.NewSessionTicket? || !(hs.cfg.accepts)(false, msg) {
      return WaitError;
    }
    // An empty ticket means that the server has changed its mind.
    hs.neg := hs.neg.(ticketExpected := msg.ticket != 0);
    hs.TakeMessage();
    hs.state := CLIENT_PROCESS_CCS;
    ret := WaitReadCcs;
  }

  lemma NothingBeforeFinished(v: Snap)
    requires v.Valid() && !v.server && v.state == CLIENT_PROCESS_CCS && v.Conforms(WaitOk)
    ensures v.io.msg.None?
  {
    hide Follows, NextSent, LabelAt, Lawful, HasFinished, FinishedSealed, Agree;
    ClosingLabels(v.cfg);
    NextFrom(v.cfg, TicketLine(v.cfg) + 2);
    v.NothingLoaded(TicketLine(v.cfg) + 2);
  }

  method DoProcessChangeCipherSpec(hs: Handshake) returns (ret: Wait)
    requires hs.Valid() && !hs.server && hs.state == CLIENT_PROCESS_CCS
    modifies hs`state, hs`neg, hs`keys, hs`io, hs`trace
    ensures Step(old(hs.View()), ret, hs.View())
    ensures var v := old(hs.View());
      if v.io.msg.None? then
        ret.WaitOk? && hs.View() == v.(keys := v.keys.(reading := true), state := READ_SERVER_FINISHED)
      else ret.WaitError? && hs.View() == v
  {
    hide Follows, HasFinished, FinishedSealed, NextSent, LabelAt, MessageOf, Sent, Due, MessageDue, CcsDue, Agree,
      Config.SendsTicket, Config.SendsStatus, Config.SendsServerKeyExchange, Config.RequestsCertificate,
      Config.UsesChannelId, Lawful;
    TlsLawful.ClientProcessCcs(hs.View());
    if hs.View().Conforms(WaitOk) { NothingBeforeFinished(hs.View()); }
    var ok := hs.SwitchReadKeys();
    if !ok {
      return WaitError;
    }
    hs.state := READ_SERVER_FINISHED;
    ret := WaitOk;
  }

  lemma FinishedNext(v: Snap)
    requires v.Valid() && !v.server && v.state == READ_SERVER_FINISHED && v.Conforms(WaitOk)
    ensures v.io.msg.None? ==> v.Conforms(WaitReadMessage)
    ensures v.io.msg.Some? ==>
      var mac := (v.cfg.mac)(true, v.io.transcript);
      var next := if v.neg.session then SEND_CLIENT_FINISHED else FINISH_CLIENT_HANDSHAKE;
      && v.io.msg.value == Finished(mac)
      && v.Take().(keys := SaveFinished(v.keys, true, mac), state := next).Conforms(WaitOk)
  {
    hide Follows, NextSent, LabelAt, Lawful, HasFinished, FinishedSealed, Agree, Config.SendsTicket,
      Config.SendsStatus, Config.SendsServerKeyExchange, Config.RequestsCertificate, Config.UsesChannelId;
    ClosingLabels(v.cfg);
    var k := TicketLine(v.cfg) + 2;
    NextFrom(v.cfg, k);
    v.Peek(k, LServerFinished);
    FinishedAdded(v.cfg, true, v.io.transcript);
    if v.io.msg.Some? { v.LoadedIs(k); }
  }

  method DoReadServerFinished(hs: Handshake) returns (ret: Wait)
    requires hs.Valid() && !hs.server && hs.state == READ_SERVER_FINISHED
    modifies hs`state, hs`neg, hs`keys, hs`io, hs`trace
    ensures Step(old(hs.View()), ret, hs.View())
    ensures var v := old(hs.View());
      var mac := (v.cfg.mac)(true, v.io.transcript);
      if v.io.msg.None? then ret.WaitReadMessage?
      else if v.io.msg.value == Finished(mac) then
        var next := if v.neg.session then SEND_CLIENT_FINISHED else FINISH_CLIENT_HANDSHAKE;
        ret.WaitOk? && hs.View() == v.Take().(keys := SaveFinished(v.keys, true, mac), state := next)
      else ret.WaitError?
  {
    hide Follows, HasFinished, FinishedSealed, NextSent, Snap.Conforms, Lawful;
    TlsLawful.ReadServerFinished(hs.View(), hs.View().Shown());
    if hs.View().Conforms(WaitOk) { FinishedNext(hs.View()); }
    if hs.io.msg.Some? { hs.View().TakeKeeps(); }
    ret := hs.GetFinished();
    if ret != WaitOk {
      return;
    }
    if hs.neg.session {
      hs.state := SEND_CLIENT_FINISHED;
      return;
    }
    hs.state := FINISH_CLIENT_HANDSHAKE;
  }

  method DoFinishClientHandshake(hs: Handshake) returns (ret: Wait)
    requires hs.Valid() && !hs.server && hs.state == FINISH_CLIENT_HANDSHAKE
    modifies hs`state, hs`neg, hs`keys, hs`io, hs`trace
    ensures Step(old(hs.View()), ret, hs.View())
  {
    hide Follows, HasFinished, FinishedSealed, NextSent, LabelAt, MessageOf, Sent, Due, MessageDue, CcsDue, Agree,
      Config.SendsTicket, Config.SendsStatus, Config.SendsServerKeyExchange, Config.RequestsCertificate,
      Config.UsesChannelId, Lawful;
    TlsLawful.FinishClientHandshake(hs.View());
    hs.state := DONE;
    ret := WaitOk;
  }
}
