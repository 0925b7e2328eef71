/** handshake_server.cc for TLS 1.0 to 1.2, in the manner of TlsClient.dfy: safe whatever the
    client sends, on the chart as long as the client is. */
module TlsServer {
  import opened Wrappers
  import opened TlsChart
  import opened TlsState
  import TlsLawful

  method DoStartAccept(hs: Handshake) returns (ret: Wait)
    requires hs.Valid() && hs.server && hs.state == START_ACCEPT
    modifies hs`state, hs`neg, hs`keys, hs`io, hs`trace
    ensures Step(old(hs.View()), ret, hs.View())
  {
    hide Follows, HasFinished, FinishedSealed, NextSent, LabelAt, MessageOf, Sent, Due, MessageDue, CcsDue, Agree,
      Config.SendsTicket, Config.SendsStatus, Config.SendsServerKeyExchange, Config.RequestsCertificate,
      Config.UsesChannelId, Lawful;
    TlsLawful.StartAccept(hs.View());
    hs.state := READ_CLIENT_HELLO;
    ret := WaitOk;
  }

  lemma HelloNext(v: Snap)
    requires v.Valid() && v.server && v.state == READ_CLIENT_HELLO && v.Conforms(WaitOk)
    ensures v.Next(LClientHello, 0)
  {
    hide Follows, NextSent, Lawful, HasFinished, FinishedSealed, Agree;
    NextFrom(v.cfg, 0);
    v.Peek(0, LClientHello);
  }

  /** The message stays in hs_buf until do_select_parameters has used it. */
  method DoReadClientHello(hs: Handshake) returns (ret: Wait)
    requires hs.Valid() && hs.server && hs.state == READ_CLIENT_HELLO
    modifies hs`state, hs`neg, hs`keys, hs`io, hs`trace
    ensures Step(old(hs.View()), ret, hs.View())
  {
    hide Follows, HasFinished, FinishedSealed, NextSent, LabelAt, MessageOf, Sent, Due, MessageDue, CcsDue, Agree,
      Config.SendsTicket, Config.SendsStatus, Config.SendsServerKeyExchange, Config.RequestsCertificate,
      Config.UsesChannelId, Lawful;
    TlsLawful.ReadClientHello(hs.View());
    if hs.View().Conforms(WaitOk) { HelloNext(hs.View()); }
    if hs.io.msg.None? {
      return WaitReadMessage;
    }
    var msg := hs.io.msg.value;
    if !msg.ClientHello? || !(hs.cfg.accepts)(true, msg) {
      return WaitError;
    }
    hs.neg := hs.neg.(nextProtoNegSeen := hs.cfg.npn, channelIdValid := hs.cfg.channelId);
    hs.state := SELECT_CERTIFICATE;
    ret := WaitOk;
  }

  method DoSelectCertificate(hs: Handshake) returns (ret: Wait)
    requires hs.Valid() && hs.server && hs.state == SELECT_CERTIFICATE
    modifies hs`state, hs`neg, hs`keys, hs`io, hs`trace
    ensures Step(old(hs.View()), ret, hs.View())
  {
    hide Follows, HasFinished, FinishedSealed, NextSent, LabelAt, MessageOf, Sent, Due, MessageDue, CcsDue, Agree,
      Config.SendsTicket, Config.SendsStatus, Config.SendsServerKeyExchange, Config.RequestsCertificate,
      Config.UsesChannelId, Lawful;
    TlsLawful.SelectCertificate(hs.View());
    if hs.io.msg.None? {
      // ssl_hs_read_message, but the ClientHello is still there.
      assert false;
    }
    hs.neg := hs.neg.(newCipher := hs.cfg.cipher);
    hs.state := SELECT_PARAMETERS;
    ret := WaitOk;
  }

  lemma ParametersNext(v: Snap)
    requires v.Valid() && v.server && v.state == SELECT_PARAMETERS && v.Conforms(WaitOk)
    ensures v.io.msg.Some?
      && v.Take().(neg := TlsLawful.Decide(v.cfg, v.neg), state := SEND_SERVER_HELLO).Conforms(WaitOk)
  {
    hide Follows, NextSent, Lawful, HasFinished, FinishedSealed, Agree;
    NextFrom(v.cfg, 0);
    v.Peek(0, LClientHello);
  }

  method DoSelectParameters(hs: Handshake) returns (ret: Wait)
    requires hs.Valid() && hs.server && hs.state == SELECT_PARAMETERS
    modifies hs`state, hs`neg, hs`keys, hs`io, hs`trace
    ensures Step(old(hs.View()), ret, hs.View())
    ensures var v := old(hs.View());
      && ret.WaitOk? && v.io.msg.Some?
      && hs.View() == v.Take().(neg := TlsLawful.Decide(v.cfg, v.neg), state := SEND_SERVER_HELLO)
  {
    hide Follows, HasFinished, FinishedSealed, NextSent, Snap.Conforms, Lawful;
    TlsLawful.SelectParameters(hs.View(), hs.View().Shown());
    if hs.View().Conforms(WaitOk) { ParametersNext(hs.View()); }
    if hs.io.msg.None? {
      // ssl_hs_read_message, but the ClientHello is still there.
      assert false;
    }
    hs.View().TakeKeeps();
    hs.neg := TlsLawful.Decide(hs.cfg, hs.neg);
    hs.TakeMessage();
    hs.state := SEND_SERVER_HELLO;
    ret := WaitOk;
  }

  function ChoicesOf(n: Negotiated): Choices {
    Choices(n.newCipher, n.session, n.ticketExpected, n.certificateStatusExpected, n.nextProtoNegSeen, n.channelIdValid)
  }

  lemma HelloDue(v: Snap)
    requires v.Valid() && v.server && v.state == SEND_SERVER_HELLO && v.Conforms(WaitOk)
    ensures var neg := TlsLawful.Announce(v.cfg, v.neg);
      var m := ServerHello(ChoicesOf(neg), (v.cfg.contents)(true, v.io.transcript));
      v.(neg := neg).Add(m).(state := TlsLawful.AfterHello(neg)).Conforms(WaitOk)
  {
    hide Follows, NextSent, Lawful, HasFinished, FinishedSealed, Agree, Config.SendsTicket,
      Config.RequestsCertificate;
    var neg := TlsLawful.Announce(v.cfg, v.neg);
    v.AddFollows(ServerHello(ChoicesOf(neg), (v.cfg.contents)(true, v.io.transcript)), LServerHello);
  }

  method DoSendServerHello(hs: Handshake) returns (ret: Wait)
    requires hs.Valid() && hs.server && hs.state == SEND_SERVER_HELLO
    modifies hs`state, hs`neg, hs`keys, hs`io, hs`trace
    ensures Step(old(hs.View()), ret, hs.View())
  {
    hide Follows, HasFinished, FinishedSealed, NextSent, LabelAt, MessageOf, Sent, Snap.Conforms, Snap.OnChart,
      Lawful;
    TlsLawful.SendServerHello(hs.View(), ServerHello(ChoicesOf(TlsLawful.Announce(hs.cfg, hs.neg)), hs.Contents()));
    if hs.View().Conforms(WaitOk) { HelloDue(hs.View()); }
    hs.neg := TlsLawful.Announce(hs.cfg, hs.neg);
    hs.AddMessage(ServerHello(ChoicesOf(hs.neg), hs.Contents()), LServerHello);
    hs.state := TlsLawful.AfterHello(hs.neg);
    ret := WaitOk;
  }

  lemma CertificateDue(v: Snap)
    requires v.Valid() && v.server && v.state == SEND_SERVER_CERTIFICATE && v.Conforms(WaitOk)
    ensures v.MaySendIf(v.neg.newCipher.certAuth, LServerCertificate, Certificate(v.cfg.serverChain))
  {
    hide Follows, NextSent, LabelAt, Lawful, HasFinished, FinishedSealed, Agree;
    FullLabels(v.cfg);
  }

  /** After the certificate, the status. */
  lemma StatusDue(v: Snap)
    requires v.OnChart() && v.server && !v.cfg.Resumes() && v.trace.line == 3 && !v.keys.writing && v.KnowsChoices()
    ensures v.MaySendIf(v.neg.newCipher.certAuth && v.neg.certificateStatusExpected, LCertificateStatus,
                        CertificateStatus((v.cfg.contents)(true, v.io.transcript)))
  {
    hide Follows, NextSent, LabelAt;
    FullLabels(v.cfg);
  }

  lemma CertificateSent(v: Snap)
    requires v.Valid() && v.server && v.state == SEND_SERVER_CERTIFICATE && v.Conforms(WaitOk)
    ensures v.neg.newCipher.certAuth ==> v.cfg.serverChain != 0
    ensures var v1 := v.AddIf(v.neg.newCipher.certAuth, Certificate(v.cfg.serverChain));
      var v2 := v1.AddIf(v.neg.newCipher.certAuth && v.neg.certificateStatusExpected,
                         CertificateStatus((v.cfg.contents)(true, v1.io.transcript)));
      v2.(neg := v.neg.(serverParams := NeedsParams(v.cfg, v.neg)), state := SEND_SERVER_KEY_EXCHANGE).Conforms(WaitOk)
  {
    hide Follows, NextSent, LabelAt, Lawful, HasFinished, FinishedSealed, MessageOf, Sent, Snap.MaySendIf, Accepted,
      Config.SendsTicket, Config.SendsStatus, Config.RequestsCertificate, Config.UsesChannelId;
    CertificateDue(v);
    v.AddIfFollows(v.neg.newCipher.certAuth, Certificate(v.cfg.serverChain), LServerCertificate);
    var v1 := v.AddIf(v.neg.newCipher.certAuth, Certificate(v.cfg.serverChain));
    StatusDue(v1);
    v1.AddIfFollows(v.neg.newCipher.certAuth && v.neg.certificateStatusExpected,
                    CertificateStatus((v.cfg.contents)(true, v1.io.transcript)), LCertificateStatus);
  }

  method DoSendServerCertificate(hs: Handshake) returns (ret: Wait)
    requires hs.Valid() && hs.server && hs.state == SEND_SERVER_CERTIFICATE
    modifies hs`state, hs`neg, hs`keys, hs`io, hs`trace
    ensures Step(old(hs.View()), ret, hs.View())
  {
    hide Follows, HasFinished, FinishedSealed, NextSent, Snap.Conforms, Snap.OnChart, Snap.MaySendIf, Lawful,
      NeedsParams;
    ghost var v := hs.View();
    if v.Conforms(WaitOk) { CertificateSent(v); }
    var cipher := hs.neg.newCipher;
    if cipher.certAuth && hs.cfg.serverChain == 0 {
      return WaitError;
    }
    hs.AddMessageIf(cipher.certAuth, Certificate(hs.cfg.serverChain), LServerCertificate);
    TlsLawful.SendServerCertificate(
      v, Certificate(hs.cfg.serverChain), CertificateStatus(hs.Contents()),
      cipher.certAuth && hs.neg.certificateStatusExpected);
    hs.AddMessageIf(cipher.certAuth && hs.neg.certificateStatusExpected,
                    CertificateStatus(hs.Contents()), LCertificateStatus);
    hs.neg := hs.neg.(serverParams := NeedsParams(hs.cfg, hs.neg));
    hs.state := SEND_SERVER_KEY_EXCHANGE;
    ret := WaitOk;
  }

  lemma KeyExchangeDue(v: Snap)
    requires v.Valid() && v.server && v.state == SEND_SERVER_KEY_EXCHANGE && v.Conforms(WaitOk)
    ensures v.MaySendIf(v.neg.serverParams, LServerKeyExchange,
      ServerKeyExchange((v.cfg.contents)(true, v.io.transcript)))
  {
    hide Follows, NextSent, LabelAt, Lawful, HasFinished, FinishedSealed, Agree;
    FullLabels(v.cfg);
  }

  method DoSendServerKeyExchange(hs: Handshake) returns (ret: Wait)
    requires hs.Valid() && hs.server && hs.state == SEND_SERVER_KEY_EXCHANGE
    modifies hs`state, hs`neg, hs`keys, hs`io, hs`trace
    ensures Step(old(hs.View()), ret, hs.View())
  {
    hide Follows, HasFinished, FinishedSealed, NextSent, LabelAt, MessageOf, Sent, Due, MessageDue, CcsDue, Agree,
      Config.SendsTicket, Config.SendsStatus, Config.SendsServerKeyExchange, Config.RequestsCertificate,
      Config.UsesChannelId, Snap.MaySendIf, Lawful;
    TlsLawful.SendServerKeyExchange(hs.View(), ServerKeyExchange(hs.Contents()));
    if hs.View().Conforms(WaitOk) { KeyExchangeDue(hs.View()); }
    hs.AddMessageIf(hs.neg.serverParams, ServerKeyExchange(hs.Contents()), LServerKeyExchange);
    hs.neg := hs.neg.(serverParams := false);
    hs.state := SEND_SERVER_HELLO_DONE;
    ret := WaitOk;
  }

  lemma RequestDue(v: Snap)
    requires v.Valid() && v.server && v.state == SEND_SERVER_HELLO_DONE && v.Conforms(WaitOk)
    ensures v.MaySendIf(v.neg.certRequest, LCertificateRequest,
      CertificateRequest((v.cfg.contents)(true, v.io.transcript)))
  {
    hide Follows, NextSent, LabelAt, Lawful, HasFinished, FinishedSealed, Agree;
    FullLabels(v.cfg);
  }

  lemma HelloDoneDue(v: Snap)
    requires v.OnChart() && v.server && !v.cfg.Resumes() && v.trace.line == 6 && !v.keys.writing
    ensures v.Sends(LServerHelloDone) && v.MaySend(LServerHelloDone, ServerHelloDone)
  {
    hide Follows, NextSent, LabelAt;
    FullLabels(v.cfg);
  }

  method DoSendServerHelloDone(hs: Handshake) returns (ret: Wait)
    requires hs.Valid() && hs.server && hs.state == SEND_SERVER_HELLO_DONE
    modifies hs`state, hs`neg, hs`keys, hs`io, hs`trace
    ensures Step(old(hs.View()), ret, hs.View())
  {
    hide Follows, HasFinished, FinishedSealed, NextSent, LabelAt, MessageOf, Sent, Due, MessageDue, CcsDue, Agree,
      Config.SendsTicket, Config.SendsStatus, Config.SendsServerKeyExchange, Config.RequestsCertificate,
      Config.UsesChannelId, Snap.MaySendIf, Snap.Sends, Snap.MaySend, Lawful;
    TlsLawful.SendServerHelloDone(hs.View(), CertificateRequest(hs.Contents()));
    ghost var conforms := hs.View().Conforms(WaitOk);
    if conforms { RequestDue(hs.View()); }
    hs.AddMessageIf(hs.neg.certRequest, CertificateRequest(hs.Contents()), LCertificateRequest);
    if conforms { HelloDoneDue(hs.View()); }
    hs.AddMessage(ServerHelloDone, LServerHelloDone);
    hs.state := READ_CLIENT_CERTIFICATE;
    ret := WaitFlush;
  }

  lemma CertificateNext(v: Snap)
    requires v.Valid() && v.server && v.state == READ_CLIENT_CERTIFICATE && v.Conforms(WaitOk)
    ensures v.neg.certRequest && v.cfg.clientChain == 0 ==> !v.cfg.failIfNoPeerCert
    ensures !v.neg.certRequest ==> v.Skip().(state := VERIFY_CLIENT_CERTIFICATE).Conforms(WaitOk)
    ensures v.neg.certRequest && v.io.msg.None? ==> v.Conforms(WaitReadMessage)
    ensures v.neg.certRequest && v.io.msg.Some? ==>
      var m := v.io.msg.value;
      && m.Certificate? && m.chain == v.cfg.clientChain && (v.cfg.accepts)(true, m)
      && v.Take().(neg := v.neg.(peerChain := m.chain), state := VERIFY_CLIENT_CERTIFICATE).Conforms(WaitOk)
  {
    hide Follows, NextSent, LabelAt, Lawful, HasFinished, FinishedSealed, Accepted, Transcript, Items,
      Config.SendsTicket, Config.SendsStatus, Config.SendsServerKeyExchange, Config.RequestsCertificate,
      Config.UsesChannelId;
    FullLabels(v.cfg);
    NextFrom(v.cfg, 7);
    if v.neg.certRequest { v.Peek(7, LClientCertificate); } else { v.SkipFollows(); }
  }

  method DoReadClientCertificate(hs: Handshake) returns (ret: Wait)
    requires hs.Valid() && hs.server && hs.state == READ_CLIENT_CERTIFICATE
    modifies hs`state, hs`neg, hs`keys, hs`io, hs`trace
    ensures Step(old(hs.View()), ret, hs.View())
  {
    hide Follows, HasFinished, FinishedSealed, NextSent, Snap.Conforms, Lawful;
    TlsLawful.ReadClientCertificate(hs.View(), hs.View().Shown());
    if hs.View().Conforms(WaitOk) { CertificateNext(hs.View()); }
    if !hs.neg.certRequest {
      hs.SkipLine();
      hs.state := VERIFY_CLIENT_CERTIFICATE;
      return WaitOk;
    }
    if hs.io.msg.None? {
      return WaitReadMessage;
    }
    hs.View().TakeKeeps();
    var msg := hs.io.msg.value;
    if !msg.Certificate? || !(hs.cfg.accepts)(true, msg) {
      return WaitError;
    }
    if msg.chain == 0 && hs.cfg.failIfNoPeerCert {
      return WaitError;
    }
    hs.neg := hs.neg.(peerChain := msg.chain);
    hs.TakeMessage();
    hs.state := VERIFY_CLIENT_CERTIFICATE;
    ret := WaitOk;
  }

  method DoVerifyClientCertificate(hs: Handshake) returns (ret: Wait)
    requires hs.Valid() && hs.server && hs.state == VERIFY_CLIENT_CERTIFICATE
    modifies hs`state, hs`neg, hs`keys, hs`io, hs`trace
    ensures Step(old(hs.View()), ret, hs.View())
  {
    hide Follows, HasFinished, FinishedSealed, NextSent, LabelAt, MessageOf, Sent, Due, MessageDue, CcsDue,
      Accepted, Config.SendsTicket, Config.SendsStatus, Config.SendsServerKeyExchange, Config.RequestsCertificate,
      Config.UsesChannelId, Lawful;
    TlsLawful.VerifyClientCertificate(hs.View());
    if hs.neg.peerChain != 0 && !(hs.cfg.verifies)(true, hs.neg.peerChain) {
      return WaitError;
    }
    hs.state := READ_CLIENT_KEY_EXCHANGE;
    ret := WaitOk;
  }

  lemma KeyExchangeNext(v: Snap)
    requires v.Valid() && v.server && v.state == READ_CLIENT_KEY_EXCHANGE && v.Conforms(WaitOk)
    ensures v.Next(LClientKeyExchange, 8)
  {
    hide Follows, NextSent, LabelAt, Lawful, HasFinished, FinishedSealed, Agree;
    FullLabels(v.cfg);
    NextFrom(v.cfg, 8);
    v.Peek(8, LClientKeyExchange);
  }

  method DoReadClientKeyExchange(hs: Handshake) returns (ret: Wait)
    requires hs.Valid() && hs.server && hs.state == READ_CLIENT_KEY_EXCHANGE
    modifies hs`state, hs`neg, hs`keys, hs`io, hs`trace
    ensures Step(old(hs.View()), ret, hs.View())
  {
    hide Follows, HasFinished, FinishedSealed, NextSent, LabelAt, MessageOf, Sent, Due, MessageDue, CcsDue, Agree,
      Config.SendsTicket, Config.SendsStatus, Config.SendsServerKeyExchange, Config.RequestsCertificate,
      Config.UsesChannelId, Lawful;
    TlsLawful.ReadClientKeyExchange(hs.View(), hs.View().Shown());
    if hs.View().Conforms(WaitOk) { KeyExchangeNext(hs.View()); }
    if hs.io.msg.None? {
      return WaitReadMessage;
    }
    hs.View().TakeKeeps();
    var msg := hs.io.msg.value;
    if !msg.ClientKeyExchange? || !(hs.cfg.accepts)(true, msg) {
      return WaitError;
    }
    hs.TakeMessage();
    hs.state := READ_CLIENT_CERTIFICATE_VERIFY;
    ret := WaitOk;
  }

  lemma VerifyNext(v: Snap)
    requires v.Valid() && v.server && v.state == READ_CLIENT_CERTIFICATE_VERIFY && v.Conforms(WaitOk)
    ensures if v.neg.peerChain != 0 then v.Next(LCertificateVerify, 9) else v.Skip().OnChart()
  {
    hide Follows, NextSent, LabelAt, Lawful, HasFinished, FinishedSealed, Agree;
    FullLabels(v.cfg);
    NextFrom(v.cfg, 9);
    if v.neg.peerChain != 0 { v.Peek(9, LCertificateVerify); } else { v.SkipFollows(); }
  }

  /** Required exactly when the client has sent a certificate. */
  method DoReadClientCertificateVerify(hs: Handshake) returns (ret: Wait)
    requires hs.Valid() && hs.server && hs.state == READ_CLIENT_CERTIFICATE_VERIFY
    modifies hs`state, hs`neg, hs`keys, hs`io, hs`trace
    ensures Step(old(hs.View()), ret, hs.View())
  {
    hide Follows, HasFinished, FinishedSealed, NextSent, LabelAt, MessageOf, Sent, Due, MessageDue, CcsDue, Agree,
      Config.SendsTicket, Config.SendsStatus, Config.SendsServerKeyExchange, Config.RequestsCertificate,
      Config.UsesChannelId, Lawful;
    TlsLawful.ReadClientCertificateVerify(hs.View(), hs.View().Shown());
    if hs.View().Conforms(WaitOk) { VerifyNext(hs.View()); }
    if hs.neg.peerChain == 0 {
      hs.SkipLine();
      hs.state := READ_CLIENT_CCS;
      return WaitOk;
    }
    if hs.io.msg.None? {
      return WaitReadMessage;
    }
    hs.View().TakeKeeps();
    var msg := hs.io.msg.value;
    if !msg.CertificateVerify? || !(hs.cfg.accepts)(true, msg) {
      return WaitError;
    }
    hs.TakeMessage();
    hs.state := READ_CLIENT_CCS;
    ret := WaitOk;
  }

  lemma CcsNext(v: Snap)
    requires v.Valid() && v.server && v.state == READ_CLIENT_CCS && v.Conforms(WaitOk)
    ensures v.io.msg.None? && CcsDue(v.cfg, true, v.trace.line)
  {
    hide Follows, NextSent, LabelAt, Lawful, HasFinished, FinishedSealed, Agree;
    ClosingLabels(v.cfg);
    NextFrom(v.cfg, ClientCcsLine(v.cfg));
    v.NothingLoaded(ClientCcsLine(v.cfg));
  }

  method DoReadChangeCipherSpec(hs: Handshake) returns (ret: Wait)
    requires hs.Valid() && hs.server && hs.state == READ_CLIENT_CCS
    modifies hs`state, hs`neg, hs`keys, hs`io, hs`trace
    ensures Step(old(hs.View()), ret, hs.View())
  {
    hide Follows, HasFinished, FinishedSealed, NextSent, LabelAt, MessageOf, Sent, Due, MessageDue, CcsDue, Agree,
      Config.SendsTicket, Config.SendsStatus, Config.SendsServerKeyExchange, Config.RequestsCertificate,
      Config.UsesChannelId, Lawful;
    TlsLawful.ReadClientCcs(hs.View());
    if hs.View().Conforms(WaitOk) { CcsNext(hs.View()); }
    hs.state := SERVER_PROCESS_CCS;
    ret := WaitReadCcs;
  }

  /** What follows the client's ChangeCipherSpec is sealed. */
  lemma NothingBeforeSealed(v: Snap)
    requires v.Valid() && v.server && v.state == SERVER_PROCESS_CCS && v.Conforms(WaitOk)
    ensures v.io.msg.None?
  {
    hide Follows, NextSent, LabelAt, Lawful, HasFinished, FinishedSealed, Agree;
    ClosingLabels(v.cfg);
    var k := ClientCcsLine(v.cfg) + 1;
    NextFrom(v.cfg, k);
    NextFrom(v.cfg, k + 1);
    NextFrom(v.cfg, k + 2);
    v.NothingLoaded(NextSent(v.cfg, k));
  }

  method DoProcessChangeCipherSpec(hs: Handshake) returns (ret: Wait)
    requires hs.Valid() && hs.server && hs.state == SERVER_PROCESS_CCS
    modifies hs`state, hs`neg, hs`keys, hs`io, hs`trace
    ensures Step(old(hs.View()), ret, hs.View())
    ensures var v := old(hs.View());
      if v.io.msg.None? then
        ret.WaitOk? && hs.View() == v.(keys := v.keys.(reading := true), state := READ_NEXT_PROTO)
      else ret.WaitError? && hs.View() == v
  {
    hide Follows, HasFinished, FinishedSealed, NextSent, LabelAt, MessageOf, Sent, Due, MessageDue, CcsDue, Agree,
      Config.SendsTicket, Config.SendsStatus, Config.SendsServerKeyExchange, Config.RequestsCertificate,
      Config.UsesChannelId, Lawful;
    TlsLawful.ServerProcessCcs(hs.View());
    if hs.View().Conforms(WaitOk) { NothingBeforeSealed(hs.View()); }
    var ok := hs.SwitchReadKeys();
    if !ok {
      return WaitError;
    }
    hs.state := READ_NEXT_PROTO;
    ret := WaitOk;
  }

  lemma NextProtoNext(v: Snap)
    requires v.Valid() && v.server && v.state == READ_NEXT_PROTO && v.Conforms(WaitOk)
    ensures if v.neg.nextProtoNegSeen then v.Next(LNextProto, ClientCcsLine(v.cfg) + 1) else v.Skip().OnChart()
  {
    hide Follows, NextSent, LabelAt, Lawful, HasFinished, FinishedSealed, Agree;
    ClosingLabels(v.cfg);
    NextFrom(v.cfg, ClientCcsLine(v.cfg) + 1);
    if v.neg.nextProtoNegSeen { v.Peek(ClientCcsLine(v.cfg) + 1, LNextProto); } else { v.SkipFollows(); }
  }

  method DoReadNextProto(hs: Handshake) returns (ret: Wait)
    requires hs.Valid() && hs.server && hs.state == READ_NEXT_PROTO
    modifies hs`state, hs`neg, hs`keys, hs`io, hs`trace
    ensures Step(old(hs.View()), ret, hs.View())
  {
    hide Follows, HasFinished, FinishedSealed, NextSent, LabelAt, MessageOf, Sent, Due, MessageDue, CcsDue, Agree,
      Config.SendsTicket, Config.SendsStatus, Config.SendsServerKeyExchange, Config.RequestsCertificate,
      Config.UsesChannelId, Lawful;
    TlsLawful.ReadNextProto(hs.View(), hs.View().Shown());
    if hs.View().Conforms(WaitOk) { NextProtoNext(hs.View()); }
    if !hs.neg.nextProtoNegSeen {
      hs.SkipLine();
      hs.state := READ_CHANNEL_ID;
      return WaitOk;
    }
    if hs.io.msg.None? {
      return WaitReadMessage;
    }
    hs.View().TakeKeeps();
    var msg := hs.io.msg.value;
    if !msg.NextProto? || !(hs.cfg.accepts)(true, msg) {
      return WaitError;
    }
    hs.TakeMessage();
    hs.state := READ_CHANNEL_ID;
    ret := WaitOk;
  }

  lemma ChannelIdNext(v: Snap)
    requires v.Valid() && v.server && v.state == READ_CHANNEL_ID && v.Conforms(WaitOk)
    ensures if v.neg.channelIdValid then v.Next(LChannelId, ClientCcsLine(v.cfg) + 2) else v.Skip().OnChart()
  {
    hide Follows, NextSent, LabelAt, Lawful, HasFinished, FinishedSealed, Agree;
    ClosingLabels(v.cfg);
    NextFrom(v.cfg, ClientCcsLine(v.cfg) + 2);
    if v.neg.channelIdValid { v.Peek(ClientCcsLine(v.cfg) + 2, LChannelId); } else { v.SkipFollows(); }
  }

  method DoReadChannelId(hs: Handshake) returns (ret: Wait)
    requires hs.Valid() && hs.server && hs.state == READ_CHANNEL_ID
    modifies hs`state, hs`neg, hs`keys, hs`io, hs`trace
    ensures Step(old(hs.View()), ret, hs.View())
  {
    hide Follows, HasFinished, FinishedSealed, NextSent, LabelAt, MessageOf, Sent, Due, MessageDue, CcsDue, Agree,
      Config.SendsTicket, Config.SendsStatus, Config.SendsServerKeyExchange, Config.RequestsCertificate,
      Config.UsesChannelId, Lawful;
    TlsLawful.ReadChannelId(hs.View(), hs.View().Shown());
    if hs.View().Conforms(WaitOk) { ChannelIdNext(hs.View()); }
    if !hs.neg.channelIdValid {
      hs.SkipLine();
      hs.state := READ_CLIENT_FINISHED;
      return WaitOk;
    }
    if hs.io.msg.None? {
      return WaitReadMessage;
    }
    hs.View().TakeKeeps();
    var msg := hs.io.msg.value;
    if !msg.ChannelId? || !(hs.cfg.accepts)(true, msg) {
      return WaitError;
    }
    hs.TakeMessage();
    hs.state := READ_CLIENT_FINISHED;
    ret := WaitOk;
  }

  lemma FinishedNext(v: Snap)
    requires v.Valid() && v.server && v.state == READ_CLIENT_FINISHED && v.Conforms(WaitOk)
    ensures v.io.msg.Some? ==>
      var mac := (v.cfg.mac)(false, v.io.transcript);
      && v.io.msg.value == Finished(mac)
      && v.Take().(keys := SaveFinished(v.keys, false, mac),
                   state := if v.neg.session then FINISH_SERVER_HANDSHAKE else SEND_SERVER_FINISHED).Conforms(WaitOk)
    ensures v.io.msg.None? ==> v.Conforms(WaitReadMessage)
  {
    hide Follows, NextSent, LabelAt, Lawful, HasFinished, FinishedSealed, Agree, MessageOf, Config.SendsTicket,
      Config.SendsStatus, Config.SendsServerKeyExchange, Config.RequestsCertificate, Config.UsesChannelId;
    ClosingLabels(v.cfg);
    var k := ClientCcsLine(v.cfg) + 3;
    NextFrom(v.cfg, k);
    v.Peek(k, LClientFinished);
    FinishedAdded(v.cfg, false, v.io.transcript);
    if v.io.msg.Some? { v.LoadedIs(k); }
  }

  method DoReadClientFinished(hs: Handshake) returns (ret: Wait)
    requires hs.Valid() && hs.server && hs.state == READ_CLIENT_FINISHED
    modifies hs`state, hs`neg, hs`keys, hs`io, hs`trace
    ensures Step(old(hs.View()), ret, hs.View())
  {
    hide Follows, HasFinished, FinishedSealed, NextSent, Snap.Conforms, Lawful;
    TlsLawful.ReadClientFinished(hs.View(), hs.View().Shown());
    if hs.View().Conforms(WaitOk) { FinishedNext(hs.View()); }
    if hs.io.msg.Some? { hs.View().TakeKeeps(); }
    ret := hs.GetFinished();
    if ret != WaitOk {
      return;
    }
    if hs.neg.session {
      hs.state := FINISH_SERVER_HANDSHAKE;
      return WaitOk;
    }
    hs.state := SEND_SERVER_FINISHED;
  }

  lemma TicketDue(v: Snap)
    requires v.server && v.OnChart() && v.trace.line == TicketLine(v.cfg) && !v.keys.writing
    requires v.neg.ticketExpected == v.cfg.SendsTicket()
    ensures v.MaySendIf(v.neg.ticketExpected, LNewSessionTicket, NewSessionTicket(v.cfg.ticket))
  {
    hide Follows, NextSent, LabelAt;
    ClosingLabels(v.cfg);
  }

  lemma CcsDueNow(v: Snap)
    requires v.server && v.trace.line == TicketLine(v.cfg) + 1
    ensures v.Sends(LServerCcs)
  {
    hide LabelAt;
    ClosingLabels(v.cfg);
  }

  /** A new ticket and the ChangeCipherSpec of do_send_server_finished. */
  function WithTicket(v: Snap): Snap {
    v.AddIf(v.neg.ticketExpected, NewSessionTicket(v.cfg.ticket)).SwitchWrite()
  }

  lemma FinishedSent(v: Snap)
    requires v.Valid() && v.server && v.state == SEND_SERVER_FINISHED && v.Conforms(WaitOk)
    ensures var next := if v.neg.session then READ_CLIENT_CCS else FINISH_SERVER_HANDSHAKE;
      WithTicket(v).Finish().(state := next).Conforms(WaitFlush)
  {
    hide Follows, NextSent, LabelAt, Lawful, HasFinished, FinishedSealed, MessageOf, Snap.MaySendIf, Agree,
      Config.SendsTicket, Config.SendsStatus, Config.RequestsCertificate, Config.UsesChannelId;
    ClosingLabels(v.cfg);
    TicketDue(v);
    v.AddIfFollows(v.neg.ticketExpected, NewSessionTicket(v.cfg.ticket), LNewSessionTicket);
    var v1 := v.AddIf(v.neg.ticketExpected, NewSessionTicket(v.cfg.ticket));
    CcsDueNow(v1);
    v1.SwitchFollows();
    v1.SwitchWrite().FinishFollows();
  }

  method SendTicketAndSwitch(hs: Handshake)
    requires hs.server
    modifies hs`keys, hs`io, hs`trace
    ensures hs.View() == WithTicket(old(hs.View()))
    ensures old(FinishedSealed(hs.io.pendingFlight)) ==> FinishedSealed(hs.io.pendingFlight)
    ensures old(HasFinished(hs.cfg, false, hs.io.transcript)) ==> HasFinished(hs.cfg, false, hs.io.transcript)
    ensures old(HasFinished(hs.cfg, true, hs.io.transcript)) ==> HasFinished(hs.cfg, true, hs.io.transcript)
    ensures var k := TlsLawful.FlightLine(true, hs.neg);
      old(InOrder(hs.cfg, true, hs.neg, hs.io.transcript, k)) ==> InOrder(hs.cfg, true, hs.neg, hs.io.transcript, k + 2)
  {
    hide HasFinished, FinishedSealed, Snap.OnChart, Snap.MaySendIf, Snap.Sends, InOrder, TlsLawful.FlightLine;
    TlsLawful.ServerTicket(hs.cfg, hs.neg, hs.io.transcript, NewSessionTicket(hs.cfg.ticket));
    hs.AddMessageIf(hs.neg.ticketExpected, NewSessionTicket(hs.cfg.ticket), LNewSessionTicket);
    hs.SwitchWriteKeys();
  }

  method DoSendServerFinished(hs: Handshake) returns (ret: Wait)
    requires hs.Valid() && hs.server && hs.state == SEND_SERVER_FINISHED
    modifies hs`state, hs`neg, hs`keys, hs`io, hs`trace
    ensures Step(old(hs.View()), ret, hs.View())
    ensures var v := old(hs.View());
      && ret.WaitFlush?
      && hs.View() == WithTicket(v).Finish().(
           state := if v.neg.session then READ_CLIENT_CCS else FINISH_SERVER_HANDSHAKE)
    ensures var flight := old(hs.io.pendingFlight);
      SwitchesAt(flight, |flight| + (if old(hs.neg).ticketExpected then 1 else 0), hs.io.pendingFlight)
  {
    hide Follows, HasFinished, FinishedSealed, NextSent, Snap.Conforms, Snap.OnChart, Snap.Sends, Lawful, InOrder,
      TlsLawful.FlightLine;
    ghost var v := hs.View();
    if v.Conforms(WaitOk) { FinishedSent(v); }
    SendTicketAndSwitch(hs);
    TlsLawful.SendServerFinished(v, hs.io.transcript, Finished((hs.cfg.mac)(true, hs.io.transcript)));
    hs.SendFinished();
    if hs.neg.session {
      hs.state := READ_CLIENT_CCS;
      return WaitFlush;
    }
    hs.state := FINISH_SERVER_HANDSHAKE;
    ret := WaitFlush;
  }

  method DoFinishServerHandshake(hs: Handshake) returns (ret: Wait)
    requires hs.Valid() && hs.server && hs.state == FINISH_SERVER_HANDSHAKE
    modifies hs`state, hs`neg, hs`keys, hs`io, hs`trace
    ensures Step(old(hs.View()), ret, hs.View())
  {
    hide Follows, HasFinished, FinishedSealed, NextSent, LabelAt, MessageOf, Sent, Due, MessageDue, CcsDue, Agree,
      Config.SendsTicket, Config.SendsStatus, Config.SendsServerKeyExchange, Config.RequestsCertificate,
      Config.UsesChannelId, Lawful;
    TlsLawful.FinishServerHandshake(hs.View());
    hs.state := DONE;
    ret := WaitOk;
  }
}
