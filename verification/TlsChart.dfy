/** The messages of a TLS 1.0 to 1.2 initial handshake in the order of section 7.3 of
    RFC 5246: who sends what, in a full and in an abbreviated handshake, and which of the
    optional messages a configuration calls for. Neither state machine is defined from
    this chart; both are proved to follow it. */
module TlsChart {
  import opened Wrappers

  datatype KeyExchange = RsaKx | EcdheKx | PskKx

  datatype Cipher = Cipher(kx: KeyExchange, certAuth: bool) {
    /** ssl_cipher_requires_server_key_exchange */
    predicate RequiresServerKeyExchange() { kx == EcdheKx }

    /** The combinations that exist: certificates, or a pre-shared key. */
    predicate Known() { (kx == RsaKx ==> certAuth) && (kx == PskKx ==> !certAuth) }
  }

  /** What a ServerHello tells the client. */
  datatype Choices = Choices(
    cipher: Cipher, echoesSession: bool, ticket: bool, status: bool, npn: bool, channelId: bool)

  /** Handshake messages. The numbers stand for contents the machines do not look into; a
      certificate chain or a ticket is 0 when it is empty. */
  datatype Msg =
    | ClientHello(n: nat)
    | ServerHello(choices: Choices, n: nat)
    | Certificate(chain: nat)
    | CertificateStatus(n: nat)
    | ServerKeyExchange(n: nat)
    | CertificateRequest(n: nat)
    | ServerHelloDone
    | ClientKeyExchange(n: nat)
    | CertificateVerify(n: nat)
    | NextProto(n: nat)
    | ChannelId(n: nat)
    | NewSessionTicket(ticket: nat)
    | Finished(mac: nat)

  /** One record: a handshake message, perhaps with more behind it, or a ChangeCipherSpec, sealed or
      in the clear. */
  datatype Item = Item(encrypted: bool, content: Content)

  datatype Content = HandshakeRecord(msg: Msg, more: seq<Msg>) | ChangeCipherSpec

  /** The settings of both sides. Only the client reads the first three, only the server the
      next group. The functions stand for the cryptography and the message contents. */
  datatype Config = Config(
    offersSession: bool, clientChain: nat, falseStart: bool,
    cipher: Cipher, findsSession: bool, ticketsSupported: bool, renewTicket: bool, ticket: nat,
    staples: bool, pskHint: bool, serverChain: nat,
    verifyPeer: bool, verifyIfNoObc: bool, failIfNoPeerCert: bool,
    npn: bool, channelId: bool, originalHandshakeHash: bool,
    /** What a side puts into a message, given what it has seen so far. */
    contents: (bool, seq<Msg>) -> nat,
    /** The Finished value for a role over a transcript. */
    mac: (bool, seq<Msg>) -> nat,
    /** The checks of a side on the content of a message it received. */
    accepts: (bool, Msg) -> bool,
    /** Certificate verification. */
    verifies: (bool, nat) -> bool)
  {
    // ---- what the server decides

    predicate Resumes() { findsSession }

    predicate SendsTicket() { if findsSession then renewTicket else ticketsSupported }

    /** The condition in ext_ocsp_add_serverhello. */
    predicate SendsStatus() { staples && !findsSession && cipher.certAuth }

    predicate SendsServerKeyExchange() { cipher.RequiresServerKeyExchange() || (!cipher.certAuth && pskHint) }

    predicate RequestsCertificate() {
      !findsSession && verifyPeer && !(verifyIfNoObc && channelId) && cipher.certAuth
    }

    predicate UsesChannelId() {
      channelId && cipher.kx == EcdheKx && (findsSession ==> originalHandshakeHash)
    }

    function Announced(): Choices {
      Choices(cipher, findsSession, SendsTicket(), SendsStatus(), npn, UsesChannelId())
    }
  }

  // ---------------------------------------------------------------- the chart

  datatype Label =
    | LClientHello | LServerHello | LServerCertificate | LCertificateStatus | LServerKeyExchange
    | LCertificateRequest | LServerHelloDone | LClientCertificate | LClientKeyExchange | LCertificateVerify
    | LClientCcs | LNextProto | LChannelId | LClientFinished | LNewSessionTicket | LServerCcs | LServerFinished

  /** The number of lines: a full or an abbreviated handshake. */
  function Lines(c: Config): nat {
    if c.Resumes() then 9 else 17
  }

  function LabelAt(c: Config, k: nat): Label
    requires k < Lines(c)
  {
    if k == 0 then LClientHello
    else if k == 1 then LServerHello
    else if c.Resumes() then
      (match k
       case 2 => LNewSessionTicket
       case 3 => LServerCcs
       case 4 => LServerFinished
       case 5 => LClientCcs
       case 6 => LNextProto
       case 7 => LChannelId
       case _ => LClientFinished)
    else
      (match k
       case 2 => LServerCertificate
       case 3 => LCertificateStatus
       case 4 => LServerKeyExchange
       case 5 => LCertificateRequest
       case 6 => LServerHelloDone
       case 7 => LClientCertificate
       case 8 => LClientKeyExchange
       case 9 => LCertificateVerify
       case 10 => LClientCcs
       case 11 => LNextProto
       case 12 => LChannelId
       case 13 => LClientFinished
       case 14 => LNewSessionTicket
       case 15 => LServerCcs
       case _ => LServerFinished)
  }

  predicate FromServer(l: Label) {
    match l
    case LServerHello | LServerCertificate | LCertificateStatus | LServerKeyExchange | LCertificateRequest
      | LServerHelloDone | LNewSessionTicket | LServerCcs | LServerFinished => true
    case _ => false
  }

  /** Whether the optional messages are sent. */
  predicate Sent(c: Config, l: Label) {
    match l
    case LServerCertificate => c.cipher.certAuth
    case LCertificateStatus => c.SendsStatus()
    case LServerKeyExchange => c.SendsServerKeyExchange()
    case LCertificateRequest | LClientCertificate => c.RequestsCertificate()
    case LCertificateVerify => c.RequestsCertificate() && c.clientChain != 0
    case LNextProto => c.npn
    case LChannelId => c.UsesChannelId()
    case LNewSessionTicket => c.SendsTicket()
    case _ => true
  }

  predicate IsCcs(l: Label) { l == LClientCcs || l == LServerCcs }

  /** What follows the sender's ChangeCipherSpec is sealed under the new keys. */
  predicate Sealed(l: Label) {
    l == LNextProto || l == LChannelId || l == LClientFinished || l == LServerFinished
  }

  /** The message of a line after transcript t. */
  function MessageOf(c: Config, l: Label, t: seq<Msg>): Msg {
    var n := (c.contents)(FromServer(l), t);
    match l
    case LClientHello => ClientHello(n)
    case LServerHello => ServerHello(c.Announced(), n)
    case LServerCertificate => Certificate(c.serverChain)
    case LCertificateStatus => CertificateStatus(n)
    case LServerKeyExchange => ServerKeyExchange(n)
    case LCertificateRequest => CertificateRequest(n)
    case LServerHelloDone => ServerHelloDone
    case LClientCertificate => Certificate(c.clientChain)
    case LClientKeyExchange => ClientKeyExchange(n)
    case LCertificateVerify => CertificateVerify(n)
    case LNextProto => NextProto(n)
    case LChannelId => ChannelId(n)
    case LNewSessionTicket => NewSessionTicket(c.ticket)
    case LClientFinished => Finished((c.mac)(false, t))
    case LServerFinished => Finished((c.mac)(true, t))
    case LClientCcs | LServerCcs => ServerHelloDone
  }

  /** What the receiver can tell of the message of a line. */
  predicate Fits(c: Config, l: Label, m: Msg) {
    match l
    case LClientHello => m.ClientHello?
    case LServerHello => m.ServerHello? && m.choices == c.Announced()
    case LServerCertificate => m.Certificate? && m.chain == c.serverChain
    case LCertificateStatus => m.CertificateStatus?
    case LServerKeyExchange => m.ServerKeyExchange?
    case LCertificateRequest => m.CertificateRequest?
    case LServerHelloDone => m.ServerHelloDone?
    case LClientCertificate => m.Certificate? && m.chain == c.clientChain
    case LClientKeyExchange => m.ClientKeyExchange?
    case LCertificateVerify => m.CertificateVerify?
    case LNextProto => m.NextProto?
    case LChannelId => m.ChannelId?
    case LNewSessionTicket => m.NewSessionTicket?
    case LClientFinished | LServerFinished => m.Finished?
    case LClientCcs | LServerCcs => true
  }

  lemma MessageFits(c: Config, l: Label, t: seq<Msg>)
    ensures Fits(c, l, MessageOf(c, l, t))
  {
  }

  /** The handshake messages of the first k lines. */
  function Transcript(c: Config, k: nat): (t: seq<Msg>)
    requires k <= Lines(c)
  {
    if k == 0 then []
    else
      var l, t := LabelAt(c, k - 1), Transcript(c, k - 1);
      if Sent(c, l) && !IsCcs(l) then t + [MessageOf(c, l, t)] else t
  }

  function ItemAt(c: Config, k: nat): Item
    requires k < Lines(c)
  {
    var l := LabelAt(c, k);
    Item(Sealed(l), if IsCcs(l) then ChangeCipherSpec else HandshakeRecord(MessageOf(c, l, Transcript(c, k)), []))
  }

  /** What a side sends within the first k lines. */
  function Items(c: Config, server: bool, k: nat): seq<Item>
    requires k <= Lines(c)
  {
    if k == 0 then []
    else
      var l := LabelAt(c, k - 1);
      Items(c, server, k - 1) + if Sent(c, l) && FromServer(l) == server then [ItemAt(c, k - 1)] else []
  }

  /** The first line from k on that is sent. */
  function NextSent(c: Config, k: nat): (q: nat)
    requires k <= Lines(c)
    ensures k <= q <= Lines(c)
    ensures q < Lines(c) ==> Sent(c, LabelAt(c, q))
    ensures forall i :: k <= i < q ==> !Sent(c, LabelAt(c, i))
    decreases Lines(c) - k
  {
    if k == Lines(c) || Sent(c, LabelAt(c, k)) then k else NextSent(c, k + 1)
  }

  // ---------------------------------------------------------------- laws of the chart

  lemma {:induction false} ItemsGrow(c: Config, server: bool, i: nat, k: nat)
    requires i <= k <= Lines(c)
    ensures Items(c, server, i) <= Items(c, server, k)
    decreases k
  {
    hide ItemAt, LabelAt;
    if i < k { ItemsGrow(c, server, i, k - 1); }
  }

  /** Between two lines where a side has sent as much, it sends nothing. */
  lemma {:induction false} NothingBetween(c: Config, server: bool, i: nat, k: nat, q: nat)
    requires i <= q < k <= Lines(c) && |Items(c, server, i)| == |Items(c, server, k)|
    ensures !(Sent(c, LabelAt(c, q)) && FromServer(LabelAt(c, q)) == server)
    decreases k
  {
    hide ItemAt, LabelAt;
    ItemsGrow(c, server, i, k - 1);
    if q < k - 1 { NothingBetween(c, server, i, k - 1, q); }
  }

  /** When line q is the next of all to be sent and a side sends it, it is that side's next
      item after the first k lines. */
  lemma {:induction false} NextItem(c: Config, k: nat, q: nat)
    requires k <= q < Lines(c) && q == NextSent(c, k)
    ensures var server := FromServer(LabelAt(c, q));
      && |Items(c, server, k)| < |Items(c, server, Lines(c))|
      && Items(c, server, Lines(c))[|Items(c, server, k)|] == ItemAt(c, q)
      && Items(c, server, q + 1) == Items(c, server, k) + [ItemAt(c, q)]
  {
    hide ItemAt, LabelAt;
    SkipUnsent(c, FromServer(LabelAt(c, q)), k, q);
    ItemsGrow(c, FromServer(LabelAt(c, q)), q + 1, Lines(c));
  }

  /** Lines that are not sent change nothing. */
  lemma {:induction false} SkipUnsent(c: Config, server: bool, k: nat, q: nat)
    requires k <= q <= Lines(c) && forall i :: k <= i < q ==> !Sent(c, LabelAt(c, i))
    ensures Items(c, server, q) == Items(c, server, k)
    ensures Transcript(c, q) == Transcript(c, k)
    decreases q
  {
    hide ItemAt, LabelAt, Sent, MessageOf;
    if k < q { SkipUnsent(c, server, k, q - 1); }
  }

  /** What line k adds. */
  lemma NextLine(c: Config, k: nat)
    requires k < Lines(c)
    ensures var l, t := LabelAt(c, k), Transcript(c, k);
      var item := Item(Sealed(l), if IsCcs(l) then ChangeCipherSpec else HandshakeRecord(MessageOf(c, l, t), []));
      && Transcript(c, k + 1) == (if Sent(c, l) && !IsCcs(l) then t + [MessageOf(c, l, t)] else t)
      && Items(c, FromServer(l), k + 1) == Items(c, FromServer(l), k) + (if Sent(c, l) then [item] else [])
      && Items(c, !FromServer(l), k + 1) == Items(c, !FromServer(l), k)
  {
    hide LabelAt, MessageOf;
  }

  /** The lines only a full handshake has. */
  lemma FullLabels(c: Config)
    ensures !c.Resumes() ==>
      && LabelAt(c, 2) == LServerCertificate && LabelAt(c, 3) == LCertificateStatus
      && LabelAt(c, 4) == LServerKeyExchange && LabelAt(c, 5) == LCertificateRequest
      && LabelAt(c, 6) == LServerHelloDone && LabelAt(c, 7) == LClientCertificate
      && LabelAt(c, 8) == LClientKeyExchange && LabelAt(c, 9) == LCertificateVerify
  {
  }

  /** The first line of the client's last flight, and of the server's. */
  function ClientCcsLine(c: Config): nat { if c.Resumes() then 5 else 10 }

  function TicketLine(c: Config): nat { if c.Resumes() then 2 else 14 }

  lemma ClosingLabels(c: Config)
    ensures TicketLine(c) == if c.Resumes() then 2 else ClientCcsLine(c) + 4
    ensures Lines(c) == if c.Resumes() then ClientCcsLine(c) + 4 else TicketLine(c) + 3
    ensures c.Resumes() ==> ClientCcsLine(c) == TicketLine(c) + 3
    ensures var k := ClientCcsLine(c);
      && 5 <= k && k + 3 < Lines(c) && LabelAt(c, k) == LClientCcs && LabelAt(c, k + 1) == LNextProto
      && LabelAt(c, k + 2) == LChannelId && LabelAt(c, k + 3) == LClientFinished
    ensures var k := TicketLine(c);
      && 2 <= k && k + 2 < Lines(c) && LabelAt(c, k) == LNewSessionTicket && LabelAt(c, k + 1) == LServerCcs
      && LabelAt(c, k + 2) == LServerFinished
  {
  }
}
