/** Every transition of both machines keeps the transcript in order and the certificates
    checked: one lemma a state, each for any message whatever. */
module TlsLawful {
  import opened Wrappers
  import opened TlsChart
  import opened TlsOrder
  import opened TlsState

  /** What a message adds to a lawful transcript. */
  lemma Added(v: Snap, m: Msg)
    requires v.Valid()
    ensures var f := FlowOf(v.cfg, v.server, v.neg);
      && InOrder(v.cfg, v.server, v.neg, v.io.transcript, LineAt(v.state, v.neg.session))
      && PlaceOf(v.cfg, v.server, f, v.io.transcript + [m]) ==
         NextPlace(v.cfg, v.server, f, PlaceOf(v.cfg, v.server, f, v.io.transcript), m)
      && (!v.neg.session ==>
        if v.server then ClientChecked(v.cfg, v.state, v.neg) else ServerChecked(v.cfg, v.state, v.neg))
  {
    hide PlaceOf, HasFinished, FinishedSealed;
    PlaceAdded(v.cfg, v.server, FlowOf(v.cfg, v.server, v.neg), v.io.transcript, m);
  }

  /** Choices made after the lines passed do not change their order. */
  lemma NewFlow(v: Snap, n: Negotiated)
    requires v.Valid()
    requires var f, p := FlowOf(v.cfg, v.server, v.neg),
      PlaceOf(v.cfg, v.server, FlowOf(v.cfg, v.server, v.neg), v.io.transcript);
      SameUpTo(f, FlowOf(v.cfg, v.server, n), p) && p <= 8 && (f.abbreviated ==> p <= 5)
    ensures PlaceOf(v.cfg, v.server, FlowOf(v.cfg, v.server, n), v.io.transcript) ==
            PlaceOf(v.cfg, v.server, FlowOf(v.cfg, v.server, v.neg), v.io.transcript)
  {
    hide PlaceOf;
    SameSoFar(v.cfg, v.server, FlowOf(v.cfg, v.server, v.neg), FlowOf(v.cfg, v.server, n), v.io.transcript);
  }

  // ---- client

  lemma StartConnect(v: Snap, m: Msg)
    requires v.Valid() && !v.server && v.state == START_CONNECT
    ensures m.ClientHello? ==> v.LeadsWith(m, ENTER_EARLY_DATA, v.neg)
  {
    hide PlaceOf, HasFinished, FinishedSealed;
    Added(v, m);
  }

  lemma EnterEarlyData(v: Snap)
    requires v.Valid() && !v.server && v.state == ENTER_EARLY_DATA
    ensures v.LeadsTo(READ_SERVER_HELLO, v.neg)
  {
    hide PlaceOf, HasFinished, FinishedSealed;
  }

  /** What the client takes over from a ServerHello. */
  function Adopt(n: Negotiated, c: Choices): Negotiated {
    n.(session := n.session && c.echoesSession, newCipher := c.cipher,
       certificateStatusExpected := c.status, ticketExpected := c.ticket,
       nextProtoNegSeen := c.npn, channelIdValid := c.channelId)
  }

  lemma ReadServerHello(v: Snap, m: Msg)
    requires v.Valid() && !v.server && v.state == READ_SERVER_HELLO
    ensures m.ServerHello? && (v.cfg.accepts)(false, m) ==>
      var n := Adopt(v.neg, m.choices);
      v.LeadsWith(m, if n.session then READ_SESSION_TICKET else READ_SERVER_CERTIFICATE, n)
  {
    hide PlaceOf, HasFinished, FinishedSealed;
    Added(v, m);
    if m.ServerHello? {
      var n := Adopt(v.neg, m.choices);
      NewFlow(v, n);
      PlaceAdded(v.cfg, false, FlowOf(v.cfg, false, n), v.io.transcript, m);
    }
  }

  lemma ReadServerCertificate(v: Snap, m: Msg)
    requires v.Valid() && !v.server && v.state == READ_SERVER_CERTIFICATE
    ensures !v.neg.newCipher.certAuth ==> v.LeadsTo(READ_CERTIFICATE_STATUS, v.neg)
    ensures m.Certificate? && (v.cfg.accepts)(false, m) && m.chain != 0 && v.neg.newCipher.certAuth ==>
      v.LeadsWith(m, READ_CERTIFICATE_STATUS, v.neg.(peerChain := m.chain))
  {
    hide PlaceOf, HasFinished, FinishedSealed;
    Added(v, m);
  }

  lemma ReadCertificateStatus(v: Snap, m: Msg)
    requires v.Valid() && !v.server && v.state == READ_CERTIFICATE_STATUS
    ensures v.LeadsTo(VERIFY_SERVER_CERTIFICATE, v.neg)
    ensures m.CertificateStatus? && (v.cfg.accepts)(false, m) ==> v.LeadsWith(m, VERIFY_SERVER_CERTIFICATE, v.neg)
  {
    hide PlaceOf, HasFinished, FinishedSealed;
    Added(v, m);
  }

  lemma VerifyServerCertificate(v: Snap)
    requires v.Valid() && !v.server && v.state == VERIFY_SERVER_CERTIFICATE
    ensures (v.neg.newCipher.certAuth ==> (v.cfg.verifies)(false, v.neg.peerChain)) ==>
      v.LeadsTo(READ_SERVER_KEY_EXCHANGE, v.neg)
  {
    hide PlaceOf, HasFinished, FinishedSealed;
  }

  lemma ReadServerKeyExchange(v: Snap, m: Msg)
    requires v.Valid() && !v.server && v.state == READ_SERVER_KEY_EXCHANGE
    ensures !v.neg.newCipher.RequiresServerKeyExchange() ==> v.LeadsTo(READ_CERTIFICATE_REQUEST, v.neg)
    ensures m.ServerKeyExchange? && (v.cfg.accepts)(false, m) ==> v.LeadsWith(m, READ_CERTIFICATE_REQUEST, v.neg)
  {
    hide PlaceOf, HasFinished, FinishedSealed;
    Added(v, m);
  }

  lemma ReadCertificateRequest(v: Snap, m: Msg)
    requires v.Valid() && !v.server && v.state == READ_CERTIFICATE_REQUEST
    ensures v.LeadsTo(READ_SERVER_HELLO_DONE, v.neg)
    ensures m.CertificateRequest? && (v.cfg.accepts)(false, m) ==>
      v.LeadsWith(m, READ_SERVER_HELLO_DONE, v.neg.(certRequest := true))
  {
    hide PlaceOf, HasFinished, FinishedSealed;
    Added(v, m);
    var n := v.neg.(certRequest := true);
    NewFlow(v, n);
    PlaceAdded(v.cfg, false, FlowOf(v.cfg, false, n), v.io.transcript, m);
  }

  lemma ReadServerHelloDone(v: Snap, m: Msg)
    requires v.Valid() && !v.server && v.state == READ_SERVER_HELLO_DONE
    ensures m.ServerHelloDone? ==> v.LeadsWith(m, SEND_CLIENT_CERTIFICATE, v.neg)
  {
    hide PlaceOf, HasFinished, FinishedSealed;
    Added(v, m);
  }

  lemma SendClientCertificate(v: Snap, m: Msg)
    requires v.Valid() && !v.server && v.state == SEND_CLIENT_CERTIFICATE
    ensures !v.neg.certRequest ==> v.LeadsTo(SEND_CLIENT_KEY_EXCHANGE, v.neg)
    ensures m.Certificate? && v.neg.certRequest ==> v.LeadsWith(m, SEND_CLIENT_KEY_EXCHANGE, v.neg)
  {
    hide PlaceOf, HasFinished, FinishedSealed;
    Added(v, m);
  }

  lemma SendClientKeyExchange(v: Snap, m: Msg)
    requires v.Valid() && !v.server && v.state == SEND_CLIENT_KEY_EXCHANGE
    ensures m.ClientKeyExchange? ==> v.LeadsWith(m, SEND_CLIENT_CERTIFICATE_VERIFY, v.neg)
  {
    hide PlaceOf, HasFinished, FinishedSealed;
    Added(v, m);
  }

  lemma SendClientCertificateVerify(v: Snap, m: Msg)
    requires v.Valid() && !v.server && v.state == SEND_CLIENT_CERTIFICATE_VERIFY
    ensures !(v.neg.certRequest && v.cfg.clientChain != 0) ==> v.LeadsTo(SEND_CLIENT_FINISHED, v.neg)
    ensures m.CertificateVerify? && v.neg.certRequest && v.cfg.clientChain != 0 ==>
      v.LeadsWith(m, SEND_CLIENT_FINISHED, v.neg)
  {
    hide PlaceOf, HasFinished, FinishedSealed;
    Added(v, m);
  }

  lemma FinishFlight(v: Snap)
    requires v.Valid() && !v.server && v.state == FINISH_FLIGHT
    ensures v.LeadsTo(if v.neg.session then FINISH_CLIENT_HANDSHAKE else READ_SESSION_TICKET, v.neg)
  {
    hide PlaceOf, HasFinished, FinishedSealed;
  }

  lemma ReadSessionTicket(v: Snap, m: Msg)
    requires v.Valid() && !v.server && v.state == READ_SESSION_TICKET
    ensures v.LeadsTo(CLIENT_PROCESS_CCS, v.neg)
    ensures m.NewSessionTicket? && (v.cfg.accepts)(false, m) ==>
      v.LeadsWith(m, CLIENT_PROCESS_CCS, v.neg.(ticketExpected := m.ticket != 0))
  {
    hide PlaceOf, HasFinished, FinishedSealed;
    Added(v, m);
  }

  lemma ClientProcessCcs(v: Snap)
    requires v.Valid() && !v.server && v.state == CLIENT_PROCESS_CCS
    ensures v.LeadsTo(READ_SERVER_FINISHED, v.neg)
  {
    hide PlaceOf, HasFinished, FinishedSealed;
  }

  lemma ReadServerFinished(v: Snap, m: Msg)
    requires v.Valid() && !v.server && v.state == READ_SERVER_FINISHED
    ensures m.Finished? ==>
      v.LeadsWith(m, if v.neg.session then SEND_CLIENT_FINISHED else FINISH_CLIENT_HANDSHAKE, v.neg)
  {
    hide PlaceOf, HasFinished, FinishedSealed;
    Added(v, m);
  }

  lemma FinishClientHandshake(v: Snap)
    requires v.Valid() && !v.server && v.state == FINISH_CLIENT_HANDSHAKE
    ensures v.LeadsTo(DONE, v.neg)
  {
    hide PlaceOf, HasFinished, FinishedSealed;
  }

  // ---- server

  lemma StartAccept(v: Snap)
    requires v.Valid() && v.server && v.state == START_ACCEPT
    ensures v.LeadsTo(READ_CLIENT_HELLO, v.neg)
  {
    hide PlaceOf, HasFinished, FinishedSealed;
  }

  lemma ReadClientHello(v: Snap)
    requires v.Valid() && v.server && v.state == READ_CLIENT_HELLO
    ensures v.LeadsTo(SELECT_CERTIFICATE, v.neg.(nextProtoNegSeen := v.cfg.npn, channelIdValid := v.cfg.channelId))
  {
    hide PlaceOf, HasFinished, FinishedSealed;
    NewFlow(v, v.neg.(nextProtoNegSeen := v.cfg.npn, channelIdValid := v.cfg.channelId));
  }

  lemma SelectCertificate(v: Snap)
    requires v.Valid() && v.server && v.state == SELECT_CERTIFICATE
    ensures v.LeadsTo(SELECT_PARAMETERS, v.neg.(newCipher := v.cfg.cipher))
  {
    hide PlaceOf, HasFinished, FinishedSealed;
    NewFlow(v, v.neg.(newCipher := v.cfg.cipher));
  }

  /** Session, ticket and certificate request, from the settings and the cipher. */
  function Decide(c: Config, n: Negotiated): Negotiated {
    n.(session := c.findsSession,
       ticketExpected := if c.findsSession then c.renewTicket else c.ticketsSupported,
       certRequest := !c.findsSession && c.verifyPeer && !(c.verifyIfNoObc && n.channelIdValid) && n.newCipher.certAuth)
  }

  lemma SelectParameters(v: Snap, m: Msg)
    requires v.Valid() && v.server && v.state == SELECT_PARAMETERS
    ensures m.ClientHello? && (v.cfg.accepts)(true, m) ==> v.LeadsWith(m, SEND_SERVER_HELLO, Decide(v.cfg, v.neg))
  {
    hide PlaceOf, HasFinished, FinishedSealed;
    var n := Decide(v.cfg, v.neg);
    Added(v, m);
    NewFlow(v, n);
    PlaceAdded(v.cfg, true, FlowOf(v.cfg, true, n), v.io.transcript, m);
  }

  /** Channel ID needs ECDHE, and on resumption the hashes of the original handshake; OCSP
      stapling needs a full handshake with certificates. */
  function Announce(c: Config, n: Negotiated): Negotiated {
    n.(channelIdValid := n.channelIdValid && n.newCipher.kx == EcdheKx && (n.session ==> c.originalHandshakeHash),
       certificateStatusExpected := c.staples && !n.session && n.newCipher.certAuth)
  }

  function AfterHello(n: Negotiated): State {
    if n.session then SEND_SERVER_FINISHED else SEND_SERVER_CERTIFICATE
  }

  lemma SendServerHello(v: Snap, m: Msg)
    requires v.Valid() && v.server && v.state == SEND_SERVER_HELLO
    ensures var n := Announce(v.cfg, v.neg); m.ServerHello? ==> v.LeadsWith(m, AfterHello(n), n)
  {
    hide PlaceOf, HasFinished, FinishedSealed;
    Added(v, m);
    var n := Announce(v.cfg, v.neg);
    NewFlow(v, n);
    PlaceAdded(v.cfg, true, FlowOf(v.cfg, true, n), v.io.transcript, m);
  }

  lemma CertificateInOrder(c: Config, n: Negotiated, t: seq<Msg>, certificate: Msg)
    requires InOrder(c, true, n, t, 2) && !n.session && certificate.Certificate?
    ensures InOrder(c, true, n, if n.newCipher.certAuth then t + [certificate] else t, 3)
  {
    hide PlaceOf;
    PlaceAdded(c, true, FlowOf(c, true, n), t, certificate);
  }

  lemma StatusInOrder(c: Config, n: Negotiated, t: seq<Msg>, status: Msg)
    requires InOrder(c, true, n, t, 3) && !n.session && status.CertificateStatus?
    ensures InOrder(c, true, n, t, 4) && InOrder(c, true, n, t + [status], 4)
  {
    hide PlaceOf;
    PlaceAdded(c, true, FlowOf(c, true, n), t, status);
  }

  lemma SendServerCertificate(v: Snap, certificate: Msg, status: Msg, stapled: bool)
    requires v.Valid() && v.server && v.state == SEND_SERVER_CERTIFICATE && certificate.Certificate?
      && status.CertificateStatus?
    ensures var t := if v.neg.newCipher.certAuth then v.io.transcript + [certificate] else v.io.transcript;
      Lawful(v.cfg, true, SEND_SERVER_KEY_EXCHANGE, v.neg.(serverParams := NeedsParams(v.cfg, v.neg)),
             if stapled then t + [status] else t)
  {
    hide PlaceOf, HasFinished, FinishedSealed, LastMandatory;
    CertificateInOrder(v.cfg, v.neg, v.io.transcript, certificate);
    var t := if v.neg.newCipher.certAuth then v.io.transcript + [certificate] else v.io.transcript;
    StatusInOrder(v.cfg, v.neg, t, status);
  }

  lemma SendServerKeyExchange(v: Snap, m: Msg)
    requires v.Valid() && v.server && v.state == SEND_SERVER_KEY_EXCHANGE
    ensures !v.neg.serverParams ==> v.LeadsTo(SEND_SERVER_HELLO_DONE, v.neg.(serverParams := false))
    ensures m.ServerKeyExchange? ==> v.LeadsWith(m, SEND_SERVER_HELLO_DONE, v.neg.(serverParams := false))
  {
    hide PlaceOf, HasFinished, FinishedSealed;
    Added(v, m);
  }

  lemma SendServerHelloDone(v: Snap, request: Msg)
    requires v.Valid() && v.server && v.state == SEND_SERVER_HELLO_DONE && request.CertificateRequest?
    ensures var t := if v.neg.certRequest then v.io.transcript + [request] else v.io.transcript;
      Lawful(v.cfg, true, READ_CLIENT_CERTIFICATE, v.neg, t + [ServerHelloDone])
  {
    hide PlaceOf, HasFinished, FinishedSealed;
    var t := if v.neg.certRequest then v.io.transcript + [request] else v.io.transcript;
    Added(v, request);
    PlaceAdded(v.cfg, true, FlowOf(v.cfg, true, v.neg), t, ServerHelloDone);
  }

  lemma ReadClientCertificate(v: Snap, m: Msg)
    requires v.Valid() && v.server && v.state == READ_CLIENT_CERTIFICATE
    ensures !v.neg.certRequest ==> v.LeadsTo(VERIFY_CLIENT_CERTIFICATE, v.neg)
    ensures
      m.Certificate? && (v.cfg.accepts)(true, m) && v.neg.certRequest && (m.chain == 0 ==> !v.cfg.failIfNoPeerCert) ==>
      v.LeadsWith(m, VERIFY_CLIENT_CERTIFICATE, v.neg.(peerChain := m.chain))
  {
    hide PlaceOf, HasFinished, FinishedSealed;
    Added(v, m);
    if m.Certificate? {
      var n := v.neg.(peerChain := m.chain);
      NewFlow(v, n);
      PlaceAdded(v.cfg, true, FlowOf(v.cfg, true, n), v.io.transcript, m);
    }
  }

  lemma VerifyClientCertificate(v: Snap)
    requires v.Valid() && v.server && v.state == VERIFY_CLIENT_CERTIFICATE
    ensures (v.neg.peerChain != 0 ==> (v.cfg.verifies)(true, v.neg.peerChain)) ==>
      v.LeadsTo(READ_CLIENT_KEY_EXCHANGE, v.neg)
  {
    hide PlaceOf, HasFinished, FinishedSealed;
  }

  lemma ReadClientKeyExchange(v: Snap, m: Msg)
    requires v.Valid() && v.server && v.state == READ_CLIENT_KEY_EXCHANGE
    ensures m.ClientKeyExchange? && (v.cfg.accepts)(true, m) ==> v.LeadsWith(m, READ_CLIENT_CERTIFICATE_VERIFY, v.neg)
  {
    hide PlaceOf, HasFinished, FinishedSealed;
    Added(v, m);
  }

  lemma ReadClientCertificateVerify(v: Snap, m: Msg)
    requires v.Valid() && v.server && v.state == READ_CLIENT_CERTIFICATE_VERIFY
    ensures v.neg.peerChain == 0 ==> v.LeadsTo(READ_CLIENT_CCS, v.neg)
    ensures m.CertificateVerify? && (v.cfg.accepts)(true, m) && v.neg.peerChain != 0 ==>
      v.LeadsWith(m, READ_CLIENT_CCS, v.neg)
  {
    hide PlaceOf, HasFinished, FinishedSealed;
    Added(v, m);
  }

  lemma ReadClientCcs(v: Snap)
    requires v.Valid() && v.server && v.state == READ_CLIENT_CCS
    ensures v.LeadsTo(SERVER_PROCESS_CCS, v.neg)
  {
    hide PlaceOf, HasFinished, FinishedSealed;
  }

  lemma ServerProcessCcs(v: Snap)
    requires v.Valid() && v.server && v.state == SERVER_PROCESS_CCS
    ensures v.LeadsTo(READ_NEXT_PROTO, v.neg)
  {
    hide PlaceOf, HasFinished, FinishedSealed;
  }

  lemma ReadNextProto(v: Snap, m: Msg)
    requires v.Valid() && v.server && v.state == READ_NEXT_PROTO
    ensures !v.neg.nextProtoNegSeen ==> v.LeadsTo(READ_CHANNEL_ID, v.neg)
    ensures m.NextProto? && (v.cfg.accepts)(true, m) && v.neg.nextProtoNegSeen ==>
      v.LeadsWith(m, READ_CHANNEL_ID, v.neg)
  {
    hide PlaceOf, HasFinished, FinishedSealed;
    Added(v, m);
  }

  lemma ReadChannelId(v: Snap, m: Msg)
    requires v.Valid() && v.server && v.state == READ_CHANNEL_ID
    ensures !v.neg.channelIdValid ==> v.LeadsTo(READ_CLIENT_FINISHED, v.neg)
    ensures m.ChannelId? && (v.cfg.accepts)(true, m) && v.neg.channelIdValid ==>
      v.LeadsWith(m, READ_CLIENT_FINISHED, v.neg)
  {
    hide PlaceOf, HasFinished, FinishedSealed;
    Added(v, m);
  }

  lemma ReadClientFinished(v: Snap, m: Msg)
    requires v.Valid() && v.server && v.state == READ_CLIENT_FINISHED
    ensures m.Finished? ==>
      v.LeadsWith(m, if v.neg.session then FINISH_SERVER_HANDSHAKE else SEND_SERVER_FINISHED, v.neg)
  {
    hide PlaceOf, HasFinished, FinishedSealed;
    Added(v, m);
  }

  lemma FinishServerHandshake(v: Snap)
    requires v.Valid() && v.server && v.state == FINISH_SERVER_HANDSHAKE
    ensures v.LeadsTo(DONE, v.neg)
  {
    hide PlaceOf, HasFinished, FinishedSealed;
  }

  // ---- the last flights

  /** The line of the own ChangeCipherSpec, or of the ticket in front of it. */
  function FlightLine(server: bool, n: Negotiated): nat {
    LineAt(if server then SEND_SERVER_FINISHED else SEND_CLIENT_FINISHED, n.session)
  }

  lemma ClientExtensions(c: Config, n: Negotiated, t: seq<Msg>, m: Msg)
    ensures var k := FlightLine(false, n);
      && (InOrder(c, false, n, t, k) && m.NextProto? ==>
        InOrder(c, false, n, if n.nextProtoNegSeen then t + [m] else t, k + 2))
      && (InOrder(c, false, n, t, k + 2) && m.ChannelId? ==>
        InOrder(c, false, n, if n.channelIdValid then t + [m] else t, k + 3))
  {
    hide PlaceOf;
    PlaceAdded(c, false, FlowOf(c, false, n), t, m);
  }

  lemma SendClientFinished(v: Snap, t: seq<Msg>, m: Msg)
    requires v.Valid() && !v.server && v.state == SEND_CLIENT_FINISHED && m.Finished?
    ensures InOrder(v.cfg, false, v.neg, v.io.transcript, FlightLine(false, v.neg))
    ensures InOrder(v.cfg, false, v.neg, t, FlightLine(false, v.neg) + 3) ==>
      Lawful(v.cfg, false, FINISH_FLIGHT, v.neg, t + [m])
  {
    hide PlaceOf, HasFinished, FinishedSealed;
    PlaceAdded(v.cfg, false, FlowOf(v.cfg, false, v.neg), t, m);
  }

  lemma ServerTicket(c: Config, n: Negotiated, t: seq<Msg>, m: Msg)
    requires m.NewSessionTicket?
    ensures var k := FlightLine(true, n);
      InOrder(c, true, n, t, k) ==> InOrder(c, true, n, t, k + 2) && InOrder(c, true, n, t + [m], k + 2)
  {
    hide PlaceOf;
    PlaceAdded(c, true, FlowOf(c, true, n), t, m);
  }

  lemma SendServerFinished(v: Snap, t: seq<Msg>, m: Msg)
    requires v.Valid() && v.server && v.state == SEND_SERVER_FINISHED && m.Finished?
    ensures InOrder(v.cfg, true, v.neg, v.io.transcript, FlightLine(true, v.neg))
    ensures InOrder(v.cfg, true, v.neg, t, FlightLine(true, v.neg) + 2) ==>
      Lawful(v.cfg, true, if v.neg.session then READ_CLIENT_CCS else FINISH_SERVER_HANDSHAKE, v.neg, t + [m])
  {
    hide PlaceOf, HasFinished, FinishedSealed;
    PlaceAdded(v.cfg, true, FlowOf(v.cfg, true, v.neg), t, m);
  }
}
