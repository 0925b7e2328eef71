/** SSL_HANDSHAKE with the parts of SSL the TLS 1.0 to 1.2 machines use, and the steps both
    machines share. */
module TlsState {
  import opened Wrappers
  import opened TlsChart
  import opened TlsOrder

  /** hs->state, an integer. The states are numbered by their distance from the end of a full
      handshake, the client's from 103 up. */
  type State = s: nat | s <= 19 || 103 <= s <= 120

  // ssl_client_hs_state_t
  const START_CONNECT: State := 120
  const ENTER_EARLY_DATA: State := 119
  const READ_SERVER_HELLO: State := 118
  const READ_SERVER_CERTIFICATE: State := 117
  const READ_CERTIFICATE_STATUS: State := 116
  const VERIFY_SERVER_CERTIFICATE: State := 115
  const READ_SERVER_KEY_EXCHANGE: State := 114
  const READ_CERTIFICATE_REQUEST: State := 113
  const READ_SERVER_HELLO_DONE: State := 112
  const SEND_CLIENT_CERTIFICATE: State := 111
  const SEND_CLIENT_KEY_EXCHANGE: State := 110
  const SEND_CLIENT_CERTIFICATE_VERIFY: State := 109
  const SEND_CLIENT_FINISHED: State := 108
  const FINISH_FLIGHT: State := 107
  const READ_SESSION_TICKET: State := 106
  const CLIENT_PROCESS_CCS: State := 105
  const READ_SERVER_FINISHED: State := 104
  const FINISH_CLIENT_HANDSHAKE: State := 103

  // ssl_server_hs_state_t
  const START_ACCEPT: State := 19
  const READ_CLIENT_HELLO: State := 18
  const SELECT_CERTIFICATE: State := 17
  const SELECT_PARAMETERS: State := 16
  const SEND_SERVER_HELLO: State := 15
  const SEND_SERVER_CERTIFICATE: State := 14
  const SEND_SERVER_KEY_EXCHANGE: State := 13
  const SEND_SERVER_HELLO_DONE: State := 12
  const READ_CLIENT_CERTIFICATE: State := 11
  const VERIFY_CLIENT_CERTIFICATE: State := 10
  const READ_CLIENT_KEY_EXCHANGE: State := 9
  const READ_CLIENT_CERTIFICATE_VERIFY: State := 8
  const READ_CLIENT_CCS: State := 7
  const SERVER_PROCESS_CCS: State := 6
  const READ_NEXT_PROTO: State := 5
  const READ_CHANNEL_ID: State := 4
  const READ_CLIENT_FINISHED: State := 3
  const SEND_SERVER_FINISHED: State := 2
  const FINISH_SERVER_HANDSHAKE: State := 1

  const DONE: State := 0

  /** ssl_hs_wait_t, without the callbacks that suspend a handshake. */
  datatype Wait = WaitOk | WaitError | WaitFlush | WaitReadMessage | WaitReadCcs | WaitEarlyReturn

  // ---- what is the case in each state, in a full and in an abbreviated handshake

  predicate ClientState(s: State) { s > 100 }

  /** How far a state is from the end. Resumption jumps back in the enumeration of states, to
      read the ticket or to send the server's Finished, but the rank always falls. */
  function RankOf(s: State, abbreviated: bool): nat {
    if abbreviated && READ_SERVER_FINISHED <= s <= READ_SESSION_TICKET then s + 11
    else if abbreviated && s == SEND_SERVER_FINISHED then s + 12
    else s
  }

  /** The chart line a state stands at. */
  function LineOf(c: Config, s: State): nat {
    LineAt(s, c.Resumes())
  }

  function LineAt(s: State, abbreviated: bool): nat {
    var clientCcs, ticket := if abbreviated then 5 else 10, if abbreviated then 2 else 14;
    // client
    if s == START_CONNECT then 0
    else if s == ENTER_EARLY_DATA || s == READ_SERVER_HELLO then 1
    else if s == READ_SERVER_CERTIFICATE then 2
    else if s == READ_CERTIFICATE_STATUS then 3
    else if s == VERIFY_SERVER_CERTIFICATE || s == READ_SERVER_KEY_EXCHANGE then 4
    else if s == READ_CERTIFICATE_REQUEST then 5
    else if s == READ_SERVER_HELLO_DONE then 6
    else if s == SEND_CLIENT_CERTIFICATE then 7
    else if s == SEND_CLIENT_KEY_EXCHANGE then 8
    else if s == SEND_CLIENT_CERTIFICATE_VERIFY then 9
    else if s == SEND_CLIENT_FINISHED then clientCcs
    else if s == FINISH_FLIGHT then clientCcs + 4
    else if s == READ_SESSION_TICKET then ticket
    else if s == CLIENT_PROCESS_CCS || s == READ_SERVER_FINISHED then ticket + 2
    // server
    else if SELECT_PARAMETERS <= s <= START_ACCEPT then 0
    else if s == SEND_SERVER_HELLO then 1
    else if s == SEND_SERVER_CERTIFICATE then 2
    else if s == SEND_SERVER_KEY_EXCHANGE then 4
    else if s == SEND_SERVER_HELLO_DONE then 5
    else if s == READ_CLIENT_CERTIFICATE then 7
    else if s == VERIFY_CLIENT_CERTIFICATE || s == READ_CLIENT_KEY_EXCHANGE then 8
    else if s == READ_CLIENT_CERTIFICATE_VERIFY then 9
    else if s == READ_CLIENT_CCS then clientCcs
    else if s == SERVER_PROCESS_CCS || s == READ_NEXT_PROTO then clientCcs + 1
    else if s == READ_CHANNEL_ID then clientCcs + 2
    else if s == READ_CLIENT_FINISHED then clientCcs + 3
    else if s == SEND_SERVER_FINISHED then ticket
    else if abbreviated then 9
    else 17
  }

  /** An abbreviated handshake skips everything between the hellos and the tickets. */
  predicate Seen(s: State, abbreviated: bool) {
    abbreviated ==>
      && !(SEND_CLIENT_CERTIFICATE_VERIFY <= s <= READ_SERVER_CERTIFICATE)
      && !(READ_CLIENT_CERTIFICATE_VERIFY <= s <= SEND_SERVER_CERTIFICATE)
  }

  /** Both sides are past both ChangeCipherSpecs and Finished messages. */
  predicate Closing(s: State) {
    s == DONE || s == FINISH_SERVER_HANDSHAKE || s == FINISH_CLIENT_HANDSHAKE
  }

  /** Records are read under the new keys: after the peer's ChangeCipherSpec, which on
      resumption is the first for the client and the last for the server. */
  predicate ReadsSealed(s: State, abbreviated: bool) {
    || Closing(s) || s == READ_SERVER_FINISHED || READ_CLIENT_FINISHED <= s <= READ_NEXT_PROTO
    || (if abbreviated then FINISH_FLIGHT <= s <= SEND_CLIENT_FINISHED else s == SEND_SERVER_FINISHED)
  }

  /** Records are written under the new keys, and the own Finished has been sent. */
  predicate WritesSealed(s: State, abbreviated: bool) {
    || Closing(s) || s == FINISH_FLIGHT
    || (if abbreviated then READ_CLIENT_FINISHED <= s <= READ_CLIENT_CCS
        else READ_SERVER_FINISHED <= s <= READ_SESSION_TICKET)
  }

  /** The peer's Finished has been verified. */
  predicate PeerVerified(s: State, abbreviated: bool) {
    || Closing(s)
    || (if abbreviated then FINISH_FLIGHT <= s <= SEND_CLIENT_FINISHED else s == SEND_SERVER_FINISHED)
  }

  /** A Finished message of this role over everything before it. */
  ghost predicate HasFinished(c: Config, server: bool, t: seq<Msg>) {
    exists n :: 0 <= n < |t| && t[n] == Finished((c.mac)(server, t[..n]))
  }

  lemma FinishedStays(c: Config, server: bool, t: seq<Msg>, m: Msg)
    requires HasFinished(c, server, t)
    ensures HasFinished(c, server, t + [m])
  {
    var n :| 0 <= n < |t| && t[n] == Finished((c.mac)(server, t[..n]));
    assert (t + [m])[n] == t[n] && (t + [m])[..n] == t[..n];
  }

  lemma FinishedsStay(c: Config, t: seq<Msg>, m: Msg)
    ensures forall r :: HasFinished(c, r, t) ==> HasFinished(c, r, t + [m])
  {
    forall r | HasFinished(c, r, t) ensures HasFinished(c, r, t + [m]) { FinishedStays(c, r, t, m); }
  }

  /** The chart's Finished message of a role, and what it does to the transcript. */
  lemma FinishedAdded(c: Config, server: bool, t: seq<Msg>)
    ensures MessageOf(c, if server then LServerFinished else LClientFinished, t) == Finished((c.mac)(server, t))
    ensures HasFinished(c, server, t + [Finished((c.mac)(server, t))])
  {
    var t' := t + [Finished((c.mac)(server, t))];
    assert t'[|t|] == Finished((c.mac)(server, t)) && t'[..|t|] == t;
  }

  predicate FinishedSealed(items: seq<Item>) {
    forall i :: 0 <= i < |items| && items[i].content.HandshakeRecord? && items[i].content.msg.Finished? ==>
      items[i].encrypted
  }

  lemma SealedMore(items: seq<Item>, item: Item)
    requires item.content.HandshakeRecord? && item.content.msg.Finished? ==> item.encrypted
    ensures FinishedSealed(items) ==> FinishedSealed(items + [item])
  {
  }

  /** What the two sides have to agree on beforehand: a session both know, certificates both
      accept, and content checks that succeed on what the other side writes. Every other
      choice is the server's and reaches the client in the ServerHello. */
  ghost predicate Agree(c: Config) {
    && c.cipher.Known()
    && (c.findsSession ==> c.offersSession)
    && (c.cipher.certAuth && !c.findsSession ==> c.serverChain != 0 && (c.verifies)(false, c.serverChain))
    && (c.RequestsCertificate() && c.clientChain == 0 ==> !c.failIfNoPeerCert)
    && (c.RequestsCertificate() && c.clientChain != 0 ==> (c.verifies)(true, c.clientChain))
    && forall k :: 0 <= k < Lines(c) ==> Accepted(c, k)
  }

  predicate Accepted(c: Config, k: nat)
    requires k < Lines(c)
  {
    (c.accepts)(!FromServer(LabelAt(c, k)), MessageOf(c, LabelAt(c, k), Transcript(c, k)))
  }

  /** Up to line k everything was sent and received as the chart has it, and what has arrived
      since is what the chart has next. */
  ghost predicate Follows(
    c: Config, server: bool, k: nat, transcript: seq<Msg>, sent: seq<Item>, received: seq<Item>, upcoming: seq<Item>)
  {
    && k <= Lines(c)
    && transcript == Transcript(c, k)
    && sent == Items(c, server, k)
    && received == Items(c, !server, k)
    && received + upcoming <= Items(c, !server, Lines(c))
  }

  lemma NothingYet(c: Config, server: bool)
    ensures Follows(c, server, 0, [], [], [], [])
  {
  }

  lemma FollowsSkip(
    c: Config, server: bool, k: nat, t: seq<Msg>, sent: seq<Item>, received: seq<Item>, upcoming: seq<Item>)
    requires Follows(c, server, k, t, sent, received, upcoming) && k < Lines(c) && !Sent(c, LabelAt(c, k))
    ensures Follows(c, server, k + 1, t, sent, received, upcoming)
  {
    hide LabelAt, Sent, MessageOf, Transcript, Items;
    NextLine(c, k);
  }

  lemma FollowsSent(
    c: Config, server: bool, k: nat, t: seq<Msg>, sent: seq<Item>, received: seq<Item>, upcoming: seq<Item>)
    requires Follows(c, server, k, t, sent, received, upcoming) && k < Lines(c)
    requires Sent(c, LabelAt(c, k)) && FromServer(LabelAt(c, k)) == server
    ensures var l := LabelAt(c, k);
      var m := MessageOf(c, l, t);
      && (IsCcs(l) ==> Follows(c, server, k + 1, t, sent + [Item(Sealed(l), ChangeCipherSpec)], received, upcoming))
      && (!IsCcs(l) ==>
            Follows(c, server, k + 1, t + [m], sent + [Item(Sealed(l), HandshakeRecord(m, []))], received, upcoming))
  {
    hide LabelAt, Sent, MessageOf, Transcript, Items;
    NextLine(c, k);
  }

  /** The first record of what has arrived is the chart's next, if that is the peer's. */
  lemma FollowsNext(
    c: Config, server: bool, k: nat, t: seq<Msg>, sent: seq<Item>, received: seq<Item>, upcoming: seq<Item>, q: nat)
    requires Follows(c, server, k, t, sent, received, upcoming) && upcoming != []
    requires k <= q < Lines(c) && q == NextSent(c, k) && FromServer(LabelAt(c, q)) != server
    ensures var l := LabelAt(c, q);
      var m := MessageOf(c, l, t);
      && upcoming[0] == Item(Sealed(l), if IsCcs(l) then ChangeCipherSpec else HandshakeRecord(m, []))
      && Follows(c, server, q + 1, if IsCcs(l) then t else t + [m], sent, received + [upcoming[0]], upcoming[1..])
      && (Agree(c) && !IsCcs(l) ==> (c.accepts)(server, m))
  {
    hide LabelAt, Sent, MessageOf, FromServer, Transcript, Items;
    NextItem(c, k, q);
    NextLine(c, q);
    SkipUnsent(c, server, k, q);
    SkipUnsent(c, !server, k, q);
    var all := Items(c, !server, Lines(c));
    assert (received + upcoming)[|received|] == upcoming[0] == all[|received|];
    if Agree(c) { assert Accepted(c, q); }
    assert received + [upcoming[0]] + upcoming[1..] == received + upcoming;
  }

  /** After the lines before k, line q is the next one sent, by the peer. */
  ghost predicate Due(c: Config, server: bool, k: nat, q: nat) {
    k <= q < Lines(c) && NextSent(c, k) == q && FromServer(LabelAt(c, q)) != server
  }

  /** The peer sends a message next, under the keys in use. */
  ghost predicate MessageDue(c: Config, server: bool, k: nat, reading: bool) {
    exists q | Due(c, server, k, q) :: !IsCcs(LabelAt(c, q)) && Sealed(LabelAt(c, q)) == reading
  }

  ghost predicate CcsDue(c: Config, server: bool, k: nat) {
    Due(c, server, k, k) && IsCcs(LabelAt(c, k))
  }

  /** What has been negotiated. */
  datatype Negotiated = Negotiated(
    /** ssl->session is set: a session is offered, or being resumed. */
    session: bool,
    newCipher: Cipher, certRequest: bool, certificateStatusExpected: bool, ticketExpected: bool,
    nextProtoNegSeen: bool, channelIdValid: bool,
    /** server_params is not empty. */
    serverParams: bool,
    /** The certificates received. */
    peerChain: nat)

  /** What a side goes by: the client proves its key when it sent a certificate, the server
      asks for the proof when it received one. */
  function FlowOf(c: Config, server: bool, n: Negotiated): Flow {
    Flow(n.session, n.newCipher.certAuth, n.newCipher.RequiresServerKeyExchange(), n.certRequest,
         if server then n.peerChain != 0 else n.certRequest && c.clientChain != 0,
         n.nextProtoNegSeen, n.channelIdValid)
  }

  /** The messages of t are in order and go up to line k. */
  ghost predicate InOrder(c: Config, server: bool, n: Negotiated, t: seq<Msg>, k: nat) {
    LastMandatory(FlowOf(c, server, n), k) <= PlaceOf(c, server, FlowOf(c, server, n), t) < k
  }

  /** The transcript is in order up to the line the state stands at, and in a full handshake
      the certificates have been checked. */
  ghost predicate Lawful(c: Config, server: bool, s: State, n: Negotiated, t: seq<Msg>) {
    && InOrder(c, server, n, t, LineAt(s, n.session))
    && (!server && s >= READ_CERTIFICATE_REQUEST ==> !n.certRequest)
    && (!n.session ==> if server then ClientChecked(c, s, n) else ServerChecked(c, s, n))
  }

  predicate ServerChecked(c: Config, s: State, n: Negotiated) {
    n.newCipher.certAuth ==>
      && (s <= READ_CERTIFICATE_STATUS ==> n.peerChain != 0)
      && (s <= READ_SERVER_KEY_EXCHANGE ==> (c.verifies)(false, n.peerChain))
  }

  /** ssl_cipher_requires_server_key_exchange, or a hint for the pre-shared key. */
  predicate NeedsParams(c: Config, n: Negotiated) {
    n.newCipher.RequiresServerKeyExchange() || (!n.newCipher.certAuth && c.pskHint)
  }

  predicate ClientChecked(c: Config, s: State, n: Negotiated) {
    && (s == SEND_SERVER_KEY_EXCHANGE ==> n.serverParams == NeedsParams(c, n))
    && (s <= VERIFY_CLIENT_CERTIFICATE && n.certRequest && n.peerChain == 0 ==> !c.failIfNoPeerCert)
    && (s <= READ_CLIENT_KEY_EXCHANGE && n.peerChain != 0 ==> (c.verifies)(true, n.peerChain))
  }

  /** The keys in use and the Finished values exchanged (previous_client_finished and
      previous_server_finished). */
  datatype Keys = Keys(reading: bool, writing: bool, clientFinished: Option<nat>, serverFinished: Option<nat>)

  /** The transcript, the first message in hs_buf and those behind it, the flight not yet flushed,
      the records that arrived and were not opened, and all records written to the transport. */
  datatype Traffic = Traffic(
    transcript: seq<Msg>, msg: Option<Msg>, more: seq<Msg>, pendingFlight: seq<Item>, inbox: seq<Item>,
    outbox: seq<Item>)

  /** The records whose content has been processed, and the chart line reached. */
  datatype Trace = Trace(received: seq<Item>, line: nat)

  function TakeFrom(io: Traffic): Traffic
    requires io.msg.Some?
  {
    var next := if io.more == [] then None else Some(io.more[0]);
    io.(transcript := io.transcript + [io.msg.value], msg := next, more := if io.more == [] then [] else io.more[1..])
  }

  /** False Start: the mode is set, with an AEAD and a protocol chosen by ALPN or NPN, and this is a
      full handshake with an ephemeral key. */
  predicate FalseStarts(c: Config, n: Negotiated) {
    c.falseStart && n.newCipher.kx == EcdheKx && !n.session
  }

  /** A handshake at one moment. */
  datatype Snap = Snap(
    server: bool, cfg: Config, state: State, neg: Negotiated, keys: Keys, io: Traffic, trace: Trace)
  {
    predicate OwnFinished() {
      if server then keys.serverFinished.Some? else keys.clientFinished.Some?
    }

    predicate PeerFinished() {
      if server then keys.clientFinished.Some? else keys.serverFinished.Some?
    }

    function Rank(): nat {
      RankOf(state, neg.session)
    }

    /** The place of an early return has not been passed, or there is none in this handshake. */
    predicate BeforeEarly() {
      server || state >= FINISH_FLIGHT || !FalseStarts(cfg, neg)
    }

    /** The place itself: the own Finished is out, the peer's has not come. */
    predicate AtEarly() {
      && !server && FalseStarts(cfg, neg) && state == READ_SESSION_TICKET
      && OwnFinished() && keys.writing && io.pendingFlight == [] && !PeerFinished() && !keys.reading
    }

    /** Safety, whatever the peer sends: the keys are switched and the Finished messages
        exchanged by the states they should be, every Finished travels under the new keys, and
        each one remembered was computed over all that came before it; and the transcript is a
        lawful one. */
    ghost predicate Valid() {
      && (state == DONE || ClientState(state) == !server)
      && Seen(state, neg.session)
      && keys.reading == ReadsSealed(state, neg.session)
      && keys.writing == WritesSealed(state, neg.session)
      && OwnFinished() == WritesSealed(state, neg.session)
      && PeerFinished() == PeerVerified(state, neg.session)
      && FinishedSealed(io.outbox) && FinishedSealed(io.pendingFlight) && (io.msg.None? ==> io.more == [])
      && (OwnFinished() ==> HasFinished(cfg, server, io.transcript))
      && (PeerFinished() ==> HasFinished(cfg, !server, io.transcript))
      && Lawful(cfg, server, state, neg, io.transcript)
      && (state == SELECT_CERTIFICATE || state == SELECT_PARAMETERS ==>
            io.msg.Some? && io.msg.value.ClientHello? && (cfg.accepts)(true, io.msg.value))
    }

    /** The message in hs_buf, or any. */
    function Shown(): Msg {
      if io.msg.Some? then io.msg.value else ServerHelloDone
    }

    /** Going to another state keeps the transcript in order, without and with one more
        message. */
    ghost predicate LeadsTo(s: State, n: Negotiated) {
      Lawful(cfg, server, s, n, io.transcript)
    }

    ghost predicate LeadsWith(m: Msg, s: State, n: Negotiated) {
      Lawful(cfg, server, s, n, io.transcript + [m])
    }

    // ---- following the chart

    function Loaded(): seq<Item> {
      if io.msg.Some? then [Item(keys.reading, HandshakeRecord(io.msg.value, io.more))] else []
    }

    /** What has arrived and not been processed. */
    function Upcoming(): seq<Item> {
      Loaded() + io.inbox
    }

    /** The number of records opened. */
    function Opened(): nat {
      |trace.received| + if io.msg.Some? then 1 else 0
    }

    ghost predicate OnChart() {
      Follows(cfg, server, trace.line, io.transcript, io.outbox + io.pendingFlight, trace.received, Upcoming())
    }

    /** This side is about to send line l. */
    ghost predicate Sends(l: Label) {
      trace.line < Lines(cfg) && LabelAt(cfg, trace.line) == l && Sent(cfg, l) && FromServer(l) == server
    }

    /** The server's choices have reached this side. */
    predicate KnowsChoices() {
      && neg.session == cfg.Resumes() && neg.newCipher == cfg.cipher
      && neg.certificateStatusExpected == cfg.SendsStatus()
      && neg.nextProtoNegSeen == cfg.npn && neg.channelIdValid == cfg.UsesChannelId()
    }

    /** What the client knows by the time it has reached a line. */
    ghost predicate ClientKnows() {
      var k := trace.line;
      && (k <= 1 ==> neg.session == cfg.offersSession)
      && (k >= 2 ==> KnowsChoices())
      && (2 <= k <= TicketLine(cfg) ==> neg.ticketExpected == cfg.SendsTicket())
      && (k <= 5 ==> !neg.certRequest)
      && (!cfg.Resumes() && k >= 6 ==> neg.certRequest == cfg.RequestsCertificate())
      && (!cfg.Resumes() && k >= 3 && cfg.cipher.certAuth ==> neg.peerChain == cfg.serverChain)
    }

    /** What the server knows. The ClientHello stays in hs_buf until it is answered. */
    ghost predicate ServerKnows() {
      var k := trace.line;
      && (state in {SELECT_CERTIFICATE, SELECT_PARAMETERS} ==>
            io.msg.Some? && neg.nextProtoNegSeen == cfg.npn && neg.channelIdValid == cfg.channelId)
      && (state == SELECT_PARAMETERS ==> neg.newCipher == cfg.cipher)
      && (k == 0 ==> !neg.certRequest)
      && (k == 1 ==>
            && neg.session == cfg.Resumes() && neg.newCipher == cfg.cipher
            && neg.nextProtoNegSeen == cfg.npn && neg.channelIdValid == cfg.channelId)
      && (k >= 1 ==> neg.ticketExpected == cfg.SendsTicket() && neg.certRequest == cfg.RequestsCertificate())
      && (k >= 2 ==> KnowsChoices())
      && (state == SEND_SERVER_KEY_EXCHANGE ==> neg.serverParams == cfg.SendsServerKeyExchange())
      && (k <= 7 ==> neg.peerChain == 0)
      && (!cfg.Resumes() && k >= 8 ==> neg.peerChain == if neg.certRequest then cfg.clientChain else 0)
    }

    /** Lines reached with part of a flight still to flush. */
    ghost predicate MidFlight() {
      var k := trace.line;
      if !server then !cfg.Resumes() && 8 <= k <= 10
      else if cfg.Resumes() then k == 2
      else 2 <= k <= 5
    }

    /** The chart line, the flight and the choices known are those of this state; a
        ChangeCipherSpec still to be read is not counted. */
    ghost predicate InPlace(w: Wait) {
      && trace.line + (if w.WaitReadCcs? then 1 else 0) == LineOf(cfg, state)
      && (w.WaitFlush? || MidFlight() || io.pendingFlight == [])
      && if server then ServerKnows() else ClientKnows()
    }

    /** What the machine waits for is what the chart has next. */
    ghost predicate WaitsForNext(w: Wait) {
      match w
      case WaitReadMessage => io.msg.None? && MessageDue(cfg, server, trace.line, keys.reading)
      case WaitReadCcs =>
        io.msg.None? && CcsDue(cfg, server, trace.line) && state in {CLIENT_PROCESS_CCS, SERVER_PROCESS_CCS}
      case WaitError => false
      case _ => true
    }

    /** The machine follows the chart and is about to do w. */
    ghost predicate Conforms(w: Wait) {
      Agree(cfg) && OnChart() && WaitsForNext(w) && InPlace(w)
    }

    // ---- steps

    /** The chart leaves this line out. */
    function Skip(): Snap {
      this.(trace := Trace(trace.received, trace.line + 1))
    }

    /** A message joins the flight and the transcript. */
    function Add(m: Msg): Snap {
      this.(io := io.(pendingFlight := io.pendingFlight + [Item(keys.writing, HandshakeRecord(m, []))],
                      transcript := io.transcript + [m]),
            trace := Trace(trace.received, trace.line + 1))
    }

    function AddIf(present: bool, m: Msg): Snap {
      if present then Add(m) else Skip()
    }

    /** ChangeCipherSpec, then the new keys. */
    function SwitchWrite(): Snap {
      this.(io := io.(pendingFlight := io.pendingFlight + [Item(keys.writing, ChangeCipherSpec)]),
            keys := keys.(writing := true), trace := Trace(trace.received, trace.line + 1))
    }

    /** The message in hs_buf is hashed and released, and the one behind it is next. */
    function Take(): Snap
      requires io.msg.Some?
    {
      var q := if trace.line <= Lines(cfg) then NextSent(cfg, trace.line) else trace.line;
      this.(io := TakeFrom(io), trace := Trace(trace.received + if io.more == [] then Loaded() else [], q + 1))
    }

    function Finish(): Snap {
      var mac := (cfg.mac)(server, io.transcript);
      Add(Finished(mac)).(keys := SaveFinished(keys, server, mac))
    }

    lemma SkipFollows()
      ensures OnChart() && trace.line < Lines(cfg) && !Sent(cfg, LabelAt(cfg, trace.line)) ==> Skip().OnChart()
    {
      hide LabelAt, Sent, Follows;
      if OnChart() && trace.line < Lines(cfg) && !Sent(cfg, LabelAt(cfg, trace.line)) {
        FollowsSkip(cfg, server, trace.line, io.transcript, io.outbox + io.pendingFlight, trace.received, Upcoming());
      }
    }

    /** m is what the chart has for line l under the keys in use. */
    ghost predicate MaySend(l: Label, m: Msg) {
      !IsCcs(l) && Sealed(l) == keys.writing && m == MessageOf(cfg, l, io.transcript)
    }

    /** Line l is this side's, and is sent exactly when present. */
    ghost predicate MaySendIf(present: bool, l: Label, m: Msg) {
      && trace.line < Lines(cfg) && LabelAt(cfg, trace.line) == l && FromServer(l) == server
      && Sent(cfg, l) == present && MaySend(l, m)
    }

    lemma AddFollows(m: Msg, l: Label)
      ensures
        OnChart() && Sends(l) && !IsCcs(l) && Sealed(l) == keys.writing && m == MessageOf(cfg, l, io.transcript) ==>
        Add(m).OnChart()
      ensures FinishedSealed(io.pendingFlight) && (m.Finished? ==> keys.writing) ==>
        FinishedSealed(Add(m).io.pendingFlight)
      ensures forall r :: HasFinished(cfg, r, io.transcript) ==> HasFinished(cfg, r, Add(m).io.transcript)
    {
      hide LabelAt, Sent, MessageOf, HasFinished, FinishedSealed, Follows, Sealed, IsCcs, FromServer;
      var item := Item(keys.writing, HandshakeRecord(m, []));
      if OnChart() && Sends(l) {
        FollowsSent(cfg, server, trace.line, io.transcript, io.outbox + io.pendingFlight, trace.received, Upcoming());
      }
      if m.Finished? ==> keys.writing { SealedMore(io.pendingFlight, item); }
      FinishedsStay(cfg, io.transcript, m);
      assert io.outbox + (io.pendingFlight + [item]) == io.outbox + io.pendingFlight + [item];
    }

    lemma AddIfFollows(present: bool, m: Msg, l: Label)
      requires OnChart() && MaySendIf(present, l, m)
      ensures AddIf(present, m).OnChart()
    {
      hide LabelAt, Sent, MessageOf, HasFinished, FinishedSealed, Follows, FromServer, Snap.Add, Snap.Skip;
      if present { AddFollows(m, l); } else { SkipFollows(); }
    }

    lemma SwitchFollows()
      ensures OnChart() && !keys.writing && Sends(if server then LServerCcs else LClientCcs) ==> SwitchWrite().OnChart()
      ensures FinishedSealed(io.pendingFlight) ==> FinishedSealed(SwitchWrite().io.pendingFlight)
    {
      hide LabelAt, Sent, MessageOf, FinishedSealed, Follows, FromServer;
      var item := Item(keys.writing, ChangeCipherSpec);
      if OnChart() && Sends(if server then LServerCcs else LClientCcs) {
        FollowsSent(cfg, server, trace.line, io.transcript, io.outbox + io.pendingFlight, trace.received, Upcoming());
      }
      SealedMore(io.pendingFlight, item);
      assert io.outbox + (io.pendingFlight + [item]) == io.outbox + io.pendingFlight + [item];
    }

    lemma FinishFollows()
      requires keys.writing
      ensures OnChart() && Sends(if server then LServerFinished else LClientFinished) ==> Finish().OnChart()
      ensures HasFinished(cfg, server, Finish().io.transcript)
      ensures FinishedSealed(io.pendingFlight) ==> FinishedSealed(Finish().io.pendingFlight)
      ensures HasFinished(cfg, !server, io.transcript) ==> HasFinished(cfg, !server, Finish().io.transcript)
    {
      hide Snap.Sends, LabelAt, Sent, MessageOf, HasFinished, FinishedSealed, Follows;
      FinishedAdded(cfg, server, io.transcript);
      AddFollows(Finished((cfg.mac)(server, io.transcript)), if server then LServerFinished else LClientFinished);
    }

    /** The message in hs_buf, as far as it is known, when line q is the next one sent. */
    lemma LoadedIs(q: nat)
      requires OnChart() && io.msg.Some? && Due(cfg, server, trace.line, q) && !IsCcs(LabelAt(cfg, q))
      ensures io.more == [] && io.msg.value == MessageOf(cfg, LabelAt(cfg, q), io.transcript)
      ensures Fits(cfg, LabelAt(cfg, q), io.msg.value)
      ensures Agree(cfg) ==> (cfg.accepts)(server, io.msg.value)
      ensures Take().OnChart() && Take().trace.line == q + 1
    {
      hide LabelAt, Sent, MessageOf, HasFinished, Follows, NextSent, Agree, Fits;
      var upcoming := Upcoming();
      FollowsNext(cfg, server, trace.line, io.transcript, io.outbox + io.pendingFlight, trace.received, upcoming, q);
      MessageFits(cfg, LabelAt(cfg, q), io.transcript);
      assert upcoming[1..] == [] + io.inbox;
      assert upcoming[0] == Item(keys.reading, HandshakeRecord(io.msg.value, io.more));
    }

    /** Line k, the peer's message l, is next: the machine may wait for it, and if there is a
        message in hs_buf it is that one. */
    ghost predicate Next(l: Label, k: nat) {
      && MessageDue(cfg, server, trace.line, keys.reading)
      && (io.msg.Some? ==>
            && io.more == [] && Fits(cfg, l, io.msg.value) && (Agree(cfg) ==> (cfg.accepts)(server, io.msg.value))
            && Take().OnChart() && Take().trace.line == k + 1)
    }

    lemma Peek(k: nat, l: Label)
      requires OnChart() && Due(cfg, server, trace.line, k) && LabelAt(cfg, k) == l
      requires !IsCcs(l) && Sealed(l) == keys.reading
      ensures Next(l, k)
    {
      hide LabelAt, Sent, MessageOf, Follows, NextSent, Agree, Fits, Snap.Take;
      if io.msg.Some? { LoadedIs(k); }
    }

    /** Taking the message keeps the Finished messages before it. */
    lemma TakeKeeps()
      requires io.msg.Some?
      ensures forall r :: HasFinished(cfg, r, io.transcript) ==> HasFinished(cfg, r, Take().io.transcript)
    {
      FinishedsStay(cfg, io.transcript, io.msg.value);
    }

    /** No message can be in hs_buf when the peer's next record is a ChangeCipherSpec or is
        sealed under keys not yet in use. */
    lemma NothingLoaded(q: nat)
      requires OnChart() && Due(cfg, server, trace.line, q)
      requires IsCcs(LabelAt(cfg, q)) || Sealed(LabelAt(cfg, q)) != keys.reading
      ensures io.msg.None?
    {
      hide LabelAt, Sent, MessageOf, Follows, NextSent, Agree;
      if io.msg.Some? {
        var upcoming := Upcoming();
        FollowsNext(cfg, server, trace.line, io.transcript, io.outbox + io.pendingFlight, trace.received, upcoming, q);
      }
    }
  }

  /** The Finished value of a role is remembered. */
  function SaveFinished(k: Keys, server: bool, mac: nat): Keys {
    if server then k.(serverFinished := Some(mac)) else k.(clientFinished := Some(mac))
  }

  /** What every do_ function guarantees: it keeps the safety invariant and loses no record,
      switches the read keys only with no message left over, either waits for a message without
      having changed anything or moves to a state of lower rank, is done only with nothing to
      wait for, returns early where and only where it should, and follows the chart if it did so far. */
  ghost predicate Step(v: Snap, ret: Wait, v': Snap) {
    && v'.Valid() && v'.io.inbox == v.io.inbox && v'.io.outbox == v.io.outbox
    && v'.Opened() == v.Opened()
    && (v'.keys.reading != v.keys.reading ==> v'.io.msg.None?)
    && (ret.WaitReadMessage? ==> v' == v && v.io.msg.None?)
    && (!ret.WaitReadMessage? && !ret.WaitError? ==> v'.Rank() < v.Rank())
    && (v'.state == DONE ==> ret.WaitOk?)
    && EarlyOnce(v, ret, v') && (v'.state == FINISH_FLIGHT ==> ret.WaitFlush?)
    && (v.Conforms(WaitOk) ==> v'.Conforms(ret))
  }

  /** The place of an early return is passed by making it, and in no other way, once the flight with
      the own Finished is flushed. */
  ghost predicate EarlyOnce(v: Snap, ret: Wait, v': Snap) {
    && v'.BeforeEarly() == (v.BeforeEarly() && !ret.WaitEarlyReturn?)
    && (ret.WaitEarlyReturn? ==>
          v.state == FINISH_FLIGHT && FalseStarts(v.cfg, v.neg) && v' == v.(state := READ_SESSION_TICKET))
  }

  /** A flight got longer by a ChangeCipherSpec at place k, nothing before that is sealed, and all
      that follows it is. */
  predicate SwitchesAt(flight: seq<Item>, k: nat, flight': seq<Item>) {
    && |flight| <= k < |flight'| && flight <= flight'
    && flight'[k] == Item(false, ChangeCipherSpec)
    && forall i :: |flight| <= i < |flight'| && i != k ==>
      flight'[i].content.HandshakeRecord? && flight'[i].encrypted == (k < i)
  }

  class Handshake {
    const server: bool
    const cfg: Config
    var state: State
    var wait: Wait
    var neg: Negotiated
    var keys: Keys
    var io: Traffic
    ghost var trace: Trace

    /** ssl_handshake_new, with the client's session from SSL_set_session. */
    constructor (server: bool, cfg: Config)
      ensures this.server == server && this.cfg == cfg && wait == WaitOk
      ensures state == if server then START_ACCEPT else START_CONNECT
      ensures View().Valid() && View().Opened() == 0 && io.inbox == [] && io.outbox == []
      ensures Agree(cfg) ==> View().Conforms(WaitOk)
    {
      hide LabelAt, HasFinished, Agree;
      this.server := server;
      this.cfg := cfg;
      state := if server then START_ACCEPT else START_CONNECT;
      wait := WaitOk;
      neg := Negotiated(!server && cfg.offersSession, Cipher(RsaKx, true), false, false, false, false, false, false, 0);
      keys := Keys(false, false, None, None);
      io := Traffic([], None, [], [], [], []);
      trace := Trace([], 0);
      new;
      NothingYet(cfg, server);
    }

    ghost function View(): Snap
      reads this
    {
      Snap(server, cfg, state, neg, keys, io, trace)
    }

    /** Safety, whatever the peer sends. */
    ghost predicate Valid()
      reads this
    {
      View().Valid()
    }

    /** The content a side puts into its next message. */
    function Contents(): nat
      reads this
    {
      (cfg.contents)(server, io.transcript)
    }

    ghost method SkipLine()
      modifies this`trace
      ensures View() == old(View()).Skip()
      ensures var v := old(View());
        v.OnChart() && v.trace.line < Lines(cfg) && !Sent(cfg, LabelAt(cfg, v.trace.line)) ==> View().OnChart()
    {
      hide Snap.OnChart;
      View().SkipFollows();
      trace := Trace(trace.received, trace.line + 1);
    }

    /** ssl_add_message_cbb on top of ssl3_add_message: into the flight and the transcript. */
    method AddMessage(m: Msg, ghost l: Label)
      modifies this`io, this`trace
      ensures View() == old(View()).Add(m)
      ensures old(View()).OnChart() && old(View()).Sends(l) && old(View()).MaySend(l, m) ==> View().OnChart()
      ensures old(FinishedSealed(io.pendingFlight)) && (m.Finished? ==> keys.writing) ==>
        FinishedSealed(io.pendingFlight)
      ensures old(HasFinished(cfg, server, io.transcript)) ==> HasFinished(cfg, server, io.transcript)
      ensures old(HasFinished(cfg, !server, io.transcript)) ==> HasFinished(cfg, !server, io.transcript)
    {
      hide Snap.OnChart, Snap.Sends, HasFinished, FinishedSealed, MessageOf;
      View().AddFollows(m, l);
      io := io.(pendingFlight := io.pendingFlight + [Item(keys.writing, HandshakeRecord(m, []))]);
      io := io.(transcript := io.transcript + [m]);
      trace := Trace(trace.received, trace.line + 1);
    }

    /** AddMessage for a message that is not always sent. */
    method AddMessageIf(present: bool, m: Msg, ghost l: Label)
      requires !m.Finished?
      modifies this`io, this`trace
      ensures View() == old(View()).AddIf(present, m)
      ensures old(View()).OnChart() && old(View()).MaySendIf(present, l, m) ==> View().OnChart()
      ensures old(FinishedSealed(io.pendingFlight)) ==> FinishedSealed(io.pendingFlight)
      ensures old(HasFinished(cfg, server, io.transcript)) ==> HasFinished(cfg, server, io.transcript)
      ensures old(HasFinished(cfg, !server, io.transcript)) ==> HasFinished(cfg, !server, io.transcript)
    {
      hide Snap.OnChart, HasFinished, FinishedSealed, MessageOf, LabelAt, Sent, FromServer;
      if present {
        AddMessage(m, l);
      } else {
        SkipLine();
      }
    }

    /** ssl3_add_change_cipher_spec followed by tls1_change_cipher_state for sealing. */
    method SwitchWriteKeys()
      modifies this`io, this`keys, this`trace
      ensures View() == old(View()).SwitchWrite()
      ensures var v := old(View());
        && (v.OnChart() && !v.keys.writing && v.Sends(if server then LServerCcs else LClientCcs) ==> View().OnChart())
        && (FinishedSealed(v.io.pendingFlight) ==> FinishedSealed(io.pendingFlight))
    {
      hide Snap.OnChart, Snap.Sends, FinishedSealed;
      View().SwitchFollows();
      io := io.(pendingFlight := io.pendingFlight + [Item(keys.writing, ChangeCipherSpec)]);
      keys := keys.(writing := true);
      trace := Trace(trace.received, trace.line + 1);
    }

    /** tls1_change_cipher_state for opening, refused while handshake data is left over. */
    method SwitchReadKeys() returns (ok: bool)
      modifies this`keys
      ensures ok == io.msg.None? && keys == if ok then old(keys).(reading := true) else old(keys)
    {
      ok := io.msg.None?;
      if ok {
        keys := keys.(reading := true);
      }
    }

    /** ssl_hash_message and next_message. */
    method TakeMessage()
      requires io.msg.Some?
      modifies this`io, this`trace
      ensures View() == old(View()).Take()
    {
      hide NextSent;
      ghost var q := if trace.line <= Lines(cfg) then NextSent(cfg, trace.line) else trace.line;
      trace := Trace(trace.received + if io.more == [] then View().Loaded() else [], q + 1);
      io := io.(transcript := io.transcript + [io.msg.value]);
      if io.more == [] {
        io := io.(msg := None);
      } else {
        io := io.(msg := Some(io.more[0]), more := io.more[1..]);
      }
    }

    /** ssl_send_finished */
    method SendFinished()
      requires keys.writing
      modifies this`io, this`keys, this`trace
      ensures View() == old(View()).Finish()
      ensures var v := old(View());
        && (v.OnChart() && v.Sends(if server then LServerFinished else LClientFinished) ==> View().OnChart())
        && HasFinished(cfg, server, io.transcript)
        && (FinishedSealed(v.io.pendingFlight) ==> FinishedSealed(io.pendingFlight))
        && (HasFinished(cfg, !server, v.io.transcript) ==> HasFinished(cfg, !server, io.transcript))
    {
      hide Snap.OnChart, Snap.Sends, HasFinished, FinishedSealed, MessageOf;
      View().FinishFollows();
      var finished := (cfg.mac)(server, io.transcript);
      keys := SaveFinished(keys, server, finished);
      AddMessage(Finished(finished), if server then LServerFinished else LClientFinished);
    }

    /** ssl_get_finished. The message joins the transcript after its check here; a failed check
        ends the handshake either way. */
    method GetFinished() returns (ret: Wait)
      modifies this`io, this`keys, this`trace
      ensures var v := old(View());
        var mac := (cfg.mac)(!server, v.io.transcript);
        if v.io.msg.None? then ret.WaitReadMessage? && View() == v
        else if v.io.msg.value == Finished(mac) then
          ret.WaitOk? && View() == v.Take().(keys := SaveFinished(v.keys, !server, mac))
        else ret.WaitError? && View() == v
      ensures ret.WaitOk? ==> HasFinished(cfg, !server, io.transcript)
    {
      hide NextSent, HasFinished, MessageOf;
      FinishedAdded(cfg, !server, io.transcript);
      if io.msg.None? {
        return WaitReadMessage;
      }
      if !io.msg.value.Finished? {
        return WaitError;
      }
      var finished := (cfg.mac)(!server, io.transcript);
      if io.msg.value.mac != finished {
        return WaitError;
      }
      TakeMessage();
      keys := SaveFinished(keys, !server, finished);
      ret := WaitOk;
    }
  }

  /** The first line sent from k on is k itself or is found further on. */
  lemma NextFrom(c: Config, k: nat)
    requires k < Lines(c)
    ensures NextSent(c, k) == if Sent(c, LabelAt(c, k)) then k else NextSent(c, k + 1)
  {
    hide LabelAt, Sent;
  }
}
