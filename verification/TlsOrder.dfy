/** The order of handshake messages in section 7.3 of RFC 5246, read off a transcript alone:
    which line of the chart each message takes, whoever sent it. A side that only ever extends
    its transcript lawfully accepts nothing out of order, whatever the peer sends. */
module TlsOrder {
  import opened TlsChart

  /** What has been negotiated: an abbreviated handshake; a certificate of the server, its key
      exchange parameters, a request for the client's certificate, and a proof that the client
      has its key; NextProto and Channel ID. */
  datatype Flow = Flow(
    abbreviated: bool, certificate: bool, params: bool, request: bool, provesKey: bool, npn: bool, channelId: bool)

  /** No line. */
  const NOWHERE: int := 100

  /** The line a message takes after line p, if it was negotiated. */
  function KindLine(f: Flow, p: int, m: Msg): int {
    if m.ClientHello? then 0
    else if m.ServerHello? then 1
    else if f.abbreviated then
      if m.NewSessionTicket? then 2
      else if m.NextProto? && f.npn then 6
      else if m.ChannelId? && f.channelId then 7
      else if m.Finished? then (if p < 4 then 4 else 8)
      else NOWHERE
    else if m.Certificate? then (if p < 2 && f.certificate then 2 else if 6 <= p && f.request then 7 else NOWHERE)
    else if m.CertificateStatus? then 3
    else if m.ServerKeyExchange? then 4
    else if m.CertificateRequest? then (if f.request then 5 else NOWHERE)
    else if m.ServerHelloDone? then 6
    else if m.ClientKeyExchange? then 8
    else if m.CertificateVerify? then (if f.provesKey then 9 else NOWHERE)
    else if m.NextProto? then (if f.npn then 11 else NOWHERE)
    else if m.ChannelId? then (if f.channelId then 12 else NOWHERE)
    else if m.NewSessionTicket? then 14
    else if p < 13 then 13
    else 16
  }

  /** The lines that may not be left out. */
  predicate Mandatory(f: Flow, q: int) {
    if f.abbreviated then q == 0 || q == 1 || q == 4 || (q == 6 && f.npn) || (q == 7 && f.channelId) || q == 8
    else
      || q == 0 || q == 1 || (q == 2 && f.certificate) || (q == 4 && f.params)
      || (q == 5 && f.request) || q == 6 || (q == 7 && f.request)
      || q == 8 || (q == 9 && f.provesKey) || (q == 11 && f.npn) || (q == 12 && f.channelId) || q == 13 || q == 16
  }

  predicate ServerSends(f: Flow, q: int) {
    if f.abbreviated then 1 <= q <= 4 else 1 <= q <= 6 || 14 <= q
  }

  /** The last of them before line q. */
  function LastMandatory(f: Flow, q: int): int {
    if q <= 0 then -1
    else if q == 1 then 0
    else if f.abbreviated then
      if q > 8 then 8
      else if q > 7 && f.channelId then 7
      else if q > 6 && f.npn then 6
      else if q > 4 then 4
      else 1
    else if q > 16 then 16
    else if q > 13 then 13
    else if q > 12 && f.channelId then 12
    else if q > 11 && f.npn then 11
    else if q > 9 && f.provesKey then 9
    else if q > 8 then 8
    else if q > 7 && f.request then 7
    else if q > 6 then 6
    else if q > 5 && f.request then 5
    else if q > 4 && f.params then 4
    else if q > 2 && f.certificate then 2
    else 1
  }

  /** A message of the peer whose content was not found acceptable takes no line; the Finished
      messages are checked by their MAC, and a ServerHelloDone has no content. */
  predicate Acceptable(c: Config, server: bool, f: Flow, q: int, m: Msg) {
    ServerSends(f, q) == server || m.Finished? || m.ServerHelloDone? || (c.accepts)(server, m)
  }

  /** The line of a message after one at line p, if it may follow that. */
  function NextPlace(c: Config, server: bool, f: Flow, p: int, m: Msg): int {
    var q := KindLine(f, p, m);
    if p < q && LastMandatory(f, q) <= p && Acceptable(c, server, f, q, m) then q else NOWHERE
  }

  /** The line of the last message of a transcript, -1 for none, NOWHERE if it is not in order. */
  function PlaceOf(c: Config, server: bool, f: Flow, t: seq<Msg>): int {
    if t == [] then -1 else NextPlace(c, server, f, PlaceOf(c, server, f, t[..|t| - 1]), t[|t| - 1])
  }

  lemma PlaceAdded(c: Config, server: bool, f: Flow, t: seq<Msg>, m: Msg)
    ensures PlaceOf(c, server, f, t + [m]) == NextPlace(c, server, f, PlaceOf(c, server, f, t), m)
  {
    assert (t + [m])[..|t|] == t;
  }

  /** What was negotiated for the lines up to a limit is the same. */
  predicate SameUpTo(f: Flow, f': Flow, limit: int) {
    limit <= 1 ||
    (&& f.abbreviated == f'.abbreviated && f.certificate == f'.certificate && f.params == f'.params
     && (limit <= 4 || f.abbreviated || (f.request == f'.request && limit <= 8)))
  }

  lemma LastMandatorySame(f: Flow, f': Flow, q: int)
    requires SameUpTo(f, f', q) && q <= 8 && (f.abbreviated ==> q <= 5)
    ensures LastMandatory(f, q) == LastMandatory(f', q)
  {
  }

  lemma NextPlaceSame(c: Config, server: bool, f: Flow, f': Flow, p: int, m: Msg)
    requires var q := NextPlace(c, server, f, p, m); SameUpTo(f, f', q) && q <= 8 && (f.abbreviated ==> q <= 5)
    ensures NextPlace(c, server, f', p, m) == NextPlace(c, server, f, p, m)
  {
    hide LastMandatory, Mandatory;
    LastMandatorySame(f, f', NextPlace(c, server, f, p, m));
  }

  /** Choices made for later lines do not change the place of what came before. */
  lemma {:induction false} SameSoFar(c: Config, server: bool, f: Flow, f': Flow, t: seq<Msg>)
    requires var p := PlaceOf(c, server, f, t); SameUpTo(f, f', p) && p <= 8 && (f.abbreviated ==> p <= 5)
    ensures PlaceOf(c, server, f', t) == PlaceOf(c, server, f, t)
  {
    hide KindLine, LastMandatory, Acceptable;
    if t != [] {
      var front := t[..|t| - 1];
      assert PlaceOf(c, server, f, front) < PlaceOf(c, server, f, t);
      SameSoFar(c, server, f, f', front);
      NextPlaceSame(c, server, f, f', PlaceOf(c, server, f, front), t[|t| - 1]);
    }
  }

  // ---------------------------------------------------------------- what the order means

  /** The line of message i. */
  function PlaceAt(c: Config, server: bool, f: Flow, t: seq<Msg>, i: nat): int
    requires i < |t|
  {
    PlaceOf(c, server, f, t[..i + 1])
  }

  /** In a transcript in order the lines ascend, and every content of the peer was accepted. */
  lemma {:induction false} LinesAscend(c: Config, server: bool, f: Flow, t: seq<Msg>, i: nat)
    requires i < |t| && PlaceOf(c, server, f, t) < NOWHERE
    ensures PlaceAt(c, server, f, t, i) <= PlaceOf(c, server, f, t)
    ensures i + 1 < |t| ==> PlaceAt(c, server, f, t, i) < PlaceAt(c, server, f, t, i + 1)
    ensures Acceptable(c, server, f, PlaceAt(c, server, f, t, i), t[i])
  {
    var front := t[..|t| - 1];
    assert t == front + [t[|t| - 1]] && t[..|t|] == t;
    if i < |front| {
      LinesAscend(c, server, f, front, i);
      assert front[..i + 1] == t[..i + 1];
      if i + 1 < |front| { assert front[..i + 2] == t[..i + 2]; }
    }
  }

  lemma LastIsMandatory(f: Flow, q: int, line: int)
    requires 0 < q
    ensures LastMandatory(f, q) < q && Mandatory(f, LastMandatory(f, q))
    ensures line < q && Mandatory(f, line) ==> line <= LastMandatory(f, q)
  {
  }

  /** No line is left out that may not be. */
  lemma {:induction false} NothingMissing(c: Config, server: bool, f: Flow, t: seq<Msg>, line: nat)
    requires line <= PlaceOf(c, server, f, t) < NOWHERE && Mandatory(f, line)
    ensures exists i | 0 <= i < |t| :: PlaceAt(c, server, f, t, i) == line
  {
    var front := t[..|t| - 1];
    assert t[..|t|] == t;
    if PlaceOf(c, server, f, t) == line {
      assert PlaceAt(c, server, f, t, |t| - 1) == line;
    } else {
      LastIsMandatory(f, PlaceOf(c, server, f, t), line);
      NothingMissing(c, server, f, front, line);
      var i :| 0 <= i < |front| && PlaceAt(c, server, f, front, i) == line;
      assert front[..i + 1] == t[..i + 1];
      assert PlaceAt(c, server, f, t, i) == line;
    }
  }

  /** The kind of message a line of the chart is for. */
  predicate OfKind(l: Label, m: Msg) {
    match l
    case LClientHello => m.ClientHello?
    case LServerHello => m.ServerHello?
    case LServerCertificate | LClientCertificate => m.Certificate?
    case LCertificateStatus => m.CertificateStatus?
    case LServerKeyExchange => m.ServerKeyExchange?
    case LCertificateRequest => m.CertificateRequest?
    case LServerHelloDone => m.ServerHelloDone?
    case LClientKeyExchange => m.ClientKeyExchange?
    case LCertificateVerify => m.CertificateVerify?
    case LNextProto => m.NextProto?
    case LChannelId => m.ChannelId?
    case LNewSessionTicket => m.NewSessionTicket?
    case LClientFinished | LServerFinished => m.Finished?
    case LClientCcs | LServerCcs => false
  }

  /** The chart of the handshake a side takes part in. */
  function ChartOf(c: Config, f: Flow): Config {
    c.(findsSession := f.abbreviated)
  }

  lemma PlaceIsLine(c: Config, server: bool, f: Flow, p: int, m: Msg)
    requires -1 <= p && NextPlace(c, server, f, p, m) < NOWHERE
    ensures var q := NextPlace(c, server, f, p, m);
      0 <= q < Lines(ChartOf(c, f)) && OfKind(LabelAt(ChartOf(c, f), q), m)
  {
    hide LastMandatory, Acceptable;
  }

  lemma {:induction false} PlaceIsLineOf(c: Config, server: bool, f: Flow, t: seq<Msg>)
    requires PlaceOf(c, server, f, t) < NOWHERE
    ensures -1 <= PlaceOf(c, server, f, t)
    ensures t != [] ==>
      var q := PlaceOf(c, server, f, t);
      0 <= q < Lines(ChartOf(c, f)) && OfKind(LabelAt(ChartOf(c, f), q), t[|t| - 1])
  {
    hide KindLine, LastMandatory, Acceptable, OfKind, LabelAt;
    if t != [] {
      var front := t[..|t| - 1];
      PlaceIsLineOf(c, server, f, front);
      PlaceIsLine(c, server, f, PlaceOf(c, server, f, front), t[|t| - 1]);
    }
  }

  lemma {:induction false} PlacesAscend(c: Config, server: bool, f: Flow, t: seq<Msg>, i: nat, j: nat)
    requires i < j < |t| && PlaceOf(c, server, f, t) < NOWHERE
    ensures PlaceAt(c, server, f, t, i) < PlaceAt(c, server, f, t, j)
    decreases j
  {
    LinesAscend(c, server, f, t, j - 1);
    if i < j - 1 { PlacesAscend(c, server, f, t, i, j - 1); }
  }

  /** The messages of t are those of the chart, each at its line: in ascending order, the peer's
      with acceptable contents, and none left out that may not be. */
  ghost predicate WholeHandshake(c: Config, server: bool, f: Flow, t: seq<Msg>) {
    && (forall i :: 0 <= i < |t| ==>
      var q := PlaceAt(c, server, f, t, i);
      && 0 <= q < Lines(ChartOf(c, f)) && OfKind(LabelAt(ChartOf(c, f), q), t[i]) && Acceptable(c, server, f, q, t[i]))
    && (forall i, j :: 0 <= i < j < |t| ==> PlaceAt(c, server, f, t, i) < PlaceAt(c, server, f, t, j))
    && forall q :: Mandatory(f, q) ==> exists i | 0 <= i < |t| :: PlaceAt(c, server, f, t, i) == q
  }

  lemma LastLineMakesWhole(c: Config, server: bool, f: Flow, t: seq<Msg>)
    requires PlaceOf(c, server, f, t) == if f.abbreviated then 8 else 16
    ensures WholeHandshake(c, server, f, t)
  {
    hide PlaceOf, LabelAt, OfKind, Acceptable;
    forall i | 0 <= i < |t|
      ensures var q := PlaceAt(c, server, f, t, i);
        && 0 <= q < Lines(ChartOf(c, f)) && OfKind(LabelAt(ChartOf(c, f), q), t[i])
        && Acceptable(c, server, f, q, t[i])
    {
      LinesAscend(c, server, f, t, i);
      PlaceIsLineOf(c, server, f, t[..i + 1]);
    }
    forall i, j | 0 <= i < j < |t| ensures PlaceAt(c, server, f, t, i) < PlaceAt(c, server, f, t, j) {
      PlacesAscend(c, server, f, t, i, j);
    }
    forall q | Mandatory(f, q) ensures exists i | 0 <= i < |t| :: PlaceAt(c, server, f, t, i) == q {
      NothingMissing(c, server, f, t, q);
    }
  }
}
