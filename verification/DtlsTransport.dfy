/** A flight of handshake messages over an unreliable channel: what the receiver has and
    has delivered depends only on which fragments arrived, not on their order, number or
    sizes, and is never wrong. */
module DtlsTransport {
  import opened Bits
  import opened Wrappers
  import opened DtlsFragment
  import opened DtlsReceive

  /** A handshake message of the flight. */
  datatype Message = Message(type_: byte, body: seq<byte>) {
    /** Its unfragmented serialisation under message number n. */
    function Raw(n: nat): seq<byte> {
      Slice(n, 0, |body|).Bytes()
    }

    /** The fragment of len bytes at off. */
    function Slice(n: nat, off: nat, len: nat): Fragment
      requires off + len <= |body|
    {
      Fragment(FragHdr(type_, |body|, n, off, len), body[off..off + len])
    }
  }

  /** A flight numbered from base on that the receiver has room for. */
  predicate Sendable(ms: seq<Message>, base: nat, maxLen: nat) {
    && |ms| <= SSL_MAX_HANDSHAKE_FLIGHT && base + |ms| <= TWO16
    && forall k :: 0 <= k < |ms| ==> |ms[k].body| <= maxLen && |ms[k].body| < TWO24
  }

  /** Some fragment of some message of the flight, cut anywhere. */
  predicate Genuine(ms: seq<Message>, base: nat, f: Fragment) {
    && base <= f.hdr.seq_ < base + |ms|
    && f.hdr.fragOff + f.hdr.fragLen <= |ms[f.hdr.seq_ - base].body|
    && f == ms[f.hdr.seq_ - base].Slice(f.hdr.seq_, f.hdr.fragOff, f.hdr.fragLen)
  }

  // ---------------------------------------------------------------- what has arrived

  ghost predicate Mentioned(arrived: set<Fragment>, n: nat) {
    exists f :: f in arrived && f.hdr.seq_ == n
  }

  ghost predicate ByteArrived(arrived: set<Fragment>, n: nat, i: nat) {
    exists f :: f in arrived && f.hdr.seq_ == n && Within(f, i)
  }

  predicate Within(f: Fragment, i: nat) {
    f.hdr.fragOff <= i < f.hdr.fragOff + f.hdr.fragLen
  }

  /** Every byte of message n arrived, and if it has none, a fragment of it. */
  ghost predicate Covered(arrived: set<Fragment>, n: nat, m: Message) {
    Mentioned(arrived, n) && forall i :: 0 <= i < |m.body| ==> ByteArrived(arrived, n, i)
  }

  /** The part of message n the receiver should have. */
  ghost function PartOf(m: Message, n: nat, arrived: set<Fragment>): Partial {
    var bytes := set i | 0 <= i < |m.body| && ByteArrived(arrived, n, i);
    Partial(m.type_, |m.body|, map i | i in bytes :: m.body[i])
  }

  ghost function PartAt(ms: seq<Message>, base: nat, n: nat, arrived: set<Fragment>): Partial
    requires base <= n < base + |ms|
  {
    PartOf(ms[n - base], n, arrived)
  }

  /** The ring after these fragments arrived, when next is the next message to deliver. */
  ghost function QueueOf(ms: seq<Message>, base: nat, arrived: set<Fragment>, next: nat): (q: Queue)
    requires base <= next
    ensures q.next == next
  {
    var numbers := set n | next <= n < base + |ms| && Mentioned(arrived, n);
    Queue(next, map n | n in numbers :: PartAt(ms, base, n, arrived))
  }

  lemma ArrivedMore(arrived: set<Fragment>, f: Fragment, n: nat, i: nat)
    ensures Mentioned(arrived + {f}, n) <==> Mentioned(arrived, n) || f.hdr.seq_ == n
    ensures ByteArrived(arrived + {f}, n, i) <==> ByteArrived(arrived, n, i) || (f.hdr.seq_ == n && Within(f, i))
  {
    assert f in arrived + {f};
    if Mentioned(arrived, n) {
      var g :| g in arrived && g.hdr.seq_ == n;
      assert g in arrived + {f};
    }
    if ByteArrived(arrived, n, i) {
      var g :| g in arrived && g.hdr.seq_ == n && Within(g, i);
      assert g in arrived + {f};
    }
  }

  lemma PartStays(m: Message, n: nat, arrived: set<Fragment>, f: Fragment)
    requires f.hdr.seq_ != n
    ensures PartOf(m, n, arrived + {f}) == PartOf(m, n, arrived)
  {
    hide ByteArrived, Mentioned;
    forall i ensures ByteArrived(arrived + {f}, n, i) <==> ByteArrived(arrived, n, i) {
      ArrivedMore(arrived, f, n, i);
    }
  }

  /** A genuine fragment merges into the part exactly as the set grows. */
  lemma PartGrows(m: Message, n: nat, arrived: set<Fragment>, off: nat, len: nat)
    requires off + len <= |m.body|
    ensures var f := m.Slice(n, off, len);
      PartOf(m, n, arrived).Merge(off, f.body) == PartOf(m, n, arrived + {f})
  {
    hide ByteArrived, Mentioned;
    var f := m.Slice(n, off, len);
    forall i | 0 <= i
      ensures ByteArrived(arrived + {f}, n, i) <==> ByteArrived(arrived, n, i) || i in Range(off, off + len)
    {
      ArrivedMore(arrived, f, n, i);
    }
  }

  lemma FirstPart(m: Message, n: nat, arrived: set<Fragment>)
    requires !Mentioned(arrived, n)
    ensures PartOf(m, n, arrived) == Partial(m.type_, |m.body|, map[])
  {
  }

  /** Accepting a genuine fragment: no error, and the ring is again what arrived. */
  lemma AcceptGenuine(ms: seq<Message>, base: nat, maxLen: nat, arrived: set<Fragment>, next: nat, epoch: nat,
    f: Fragment)
    requires Sendable(ms, base, maxLen) && base <= next <= base + |ms| && Genuine(ms, base, f)
    requires epoch != 1 || f.hdr.seq_ == next
    ensures AcceptFragment(QueueOf(ms, base, arrived, next), epoch, maxLen, f)
         == (QueueOf(ms, base, arrived + {f}, next), OpenSuccess)
  {
    hide PartOf, Mentioned, Partial.Merge;
    var q, q' := QueueOf(ms, base, arrived, next), QueueOf(ms, base, arrived + {f}, next);
    var n := f.hdr.seq_;
    var m := ms[n - base];
    forall k ensures Mentioned(arrived + {f}, k) <==> Mentioned(arrived, k) || k == n {
      ArrivedMore(arrived, f, k, 0);
    }
    forall k: nat | base <= k < base + |ms| && k != n
      ensures PartAt(ms, base, k, arrived + {f}) == PartAt(ms, base, k, arrived)
    {
      PartStays(ms[k - base], k, arrived, f);
    }
    PartGrows(m, n, arrived, f.hdr.fragOff, f.hdr.fragLen);
    if !Mentioned(arrived, n) { FirstPart(m, n, arrived); }
    assert PartOf(m, n, arrived).type_ == m.type_ && PartOf(m, n, arrived).msgLen == |m.body|
      by { PartHeader(m, n, arrived); }
    if n < next {
      assert q'.held == q.held;
    } else {
      assert n in q.held <==> Mentioned(arrived, n);
      assert q'.held == q.held[n := PartAt(ms, base, n, arrived + {f})];
    }
  }

  lemma PartHeader(m: Message, n: nat, arrived: set<Fragment>)
    ensures PartOf(m, n, arrived).type_ == m.type_ && PartOf(m, n, arrived).msgLen == |m.body|
  {
  }

  /** A genuine fragment is refused exactly when it is encrypted and not of the one message
      that epoch has left. */
  lemma EncryptedEpoch(ms: seq<Message>, base: nat, maxLen: nat, arrived: set<Fragment>, next: nat, epoch: nat,
    f: Fragment)
    requires Sendable(ms, base, maxLen) && base <= next <= base + |ms| && Genuine(ms, base, f)
    ensures var o := AcceptFragment(QueueOf(ms, base, arrived, next), epoch, maxLen, f).1;
      if epoch == 1 && f.hdr.seq_ != next then o.OpenError? else o == OpenSuccess
  {
    if epoch != 1 || f.hdr.seq_ == next {
      AcceptGenuine(ms, base, maxLen, arrived, next, epoch, f);
    }
  }

  /** The messages held are of the window and none is longer than it may be. */
  ghost predicate WithinLimits(q: Queue, maxLen: nat) {
    forall n :: n in q.held ==> n in Window(q.next) && q.held[n].msgLen <= maxLen
  }

  /** What any fragment at all, genuine or not, leaves as it is: an error changes nothing; otherwise only
      the message it names can change, if that is not complete, keeps the type and length of its first
      fragment, and loses no byte. */
  lemma AnyFragment(q: Queue, epoch: nat, maxLen: nat, f: Fragment)
    requires WithinLimits(q, maxLen)
    ensures var (q', r) := AcceptFragment(q, epoch, maxLen, f);
      var n := f.hdr.seq_;
      && q'.next == q.next && WithinLimits(q', maxLen)
      && (r != OpenSuccess ==> q' == q)
      && (forall k :: k in q'.held && k != n ==> k in q.held) && (forall k :: k in q.held ==> k in q'.held)
      && (forall k :: k in q.held && k != n ==> q'.held[k] == q.held[k])
      && (n in q'.held && n !in q.held ==> q'.held[n].type_ == f.hdr.type_ && q'.held[n].msgLen == f.hdr.msgLen)
      && (n in q.held ==>
            && q'.held[n].type_ == q.held[n].type_ && q'.held[n].msgLen == q.held[n].msgLen
            && q.held[n].bytes.Keys <= q'.held[n].bytes.Keys
            && (q.held[n].Complete() ==> q'.held[n] == q.held[n]))
  {
    hide Partial.Complete;
  }

  /** One that does not fit the message it names, or contradicts what is known of that, is refused. */
  lemma WrongFragment(q: Queue, epoch: nat, maxLen: nat, f: Fragment)
    requires var n := f.hdr.seq_;
      || f.hdr.fragOff + f.hdr.fragLen > f.hdr.msgLen || f.hdr.msgLen > maxLen
      || (n in q.held && n in Window(q.next) && (epoch == 1 ==> n == q.next)
          && (f.hdr.type_ != q.held[n].type_ || f.hdr.msgLen != q.held[n].msgLen))
    ensures AcceptFragment(q, epoch, maxLen, f) == (q, OpenError(IllegalParameter))
  {
  }

  /** Fragments outside the window leave the ring alone; the first number past it is the
      only one that is an error. */
  lemma OutsideWindow(q: Queue, epoch: nat, maxLen: nat, f: Fragment)
    requires f.hdr.seq_ !in Window(q.next) && epoch != 1
    requires f.hdr.fragOff + f.hdr.fragLen <= f.hdr.msgLen <= maxLen
    ensures AcceptFragment(q, epoch, maxLen, f).0 == q
    ensures AcceptFragment(q, epoch, maxLen, f).1
         == if f.hdr.seq_ == q.next + SSL_MAX_HANDSHAKE_FLIGHT then OpenError(InternalError) else OpenSuccess
  {
  }

  /** For example, message 7 while message 0 is awaited, though every message up to 6 and every
      one from 8 on is welcome or ignored. */
  lemma JustOutside(f: Fragment)
    requires f.hdr == FragHdr(1, 0, 7, 0, 0)
    ensures AcceptFragment(Queue(0, map[]), 0, 100, f).1 == OpenError(InternalError)
    ensures AcceptFragment(Queue(0, map[]), 0, 100, f.(hdr := FragHdr(1, 0, 6, 0, 0))).1 == OpenSuccess
    ensures AcceptFragment(Queue(0, map[]), 0, 100, f.(hdr := FragHdr(1, 0, 8, 0, 0))).1 == OpenSuccess
  {
    assert 7 !in Window(0) && 8 !in Window(0);
    OutsideWindow(Queue(0, map[]), 0, 100, f);
    OutsideWindow(Queue(0, map[]), 0, 100, f.(hdr := FragHdr(1, 0, 8, 0, 0)));
  }

  // ---------------------------------------------------------------- runs

  /** The plaintext of a handshake record holding these fragments. */
  function RecordBytes(fs: seq<Fragment>): seq<byte> {
    if fs == [] then [] else fs[0].Bytes() + RecordBytes(fs[1..])
  }

  lemma GenuineFits(ms: seq<Message>, base: nat, maxLen: nat, f: Fragment)
    requires Sendable(ms, base, maxLen) && Genuine(ms, base, f)
    ensures f.Fits()
  {
  }

  lemma {:induction false} AcceptGenuineRecord(
    ms: seq<Message>, base: nat, maxLen: nat, arrived: set<Fragment>, next: nat, epoch: nat, fs: seq<Fragment>)
    requires Sendable(ms, base, maxLen) && base <= next <= base + |ms|
    requires forall f :: f in fs ==> Genuine(ms, base, f) && (epoch != 1 || f.hdr.seq_ == next)
    ensures AcceptRecord(QueueOf(ms, base, arrived, next), epoch, maxLen, RecordBytes(fs))
         == (QueueOf(ms, base, arrived + (set f | f in fs), next), OpenSuccess)
    decreases |fs|
  {
    hide QueueOf, AcceptFragment, ParseFragment, Genuine, Sendable, Fragment.Bytes, Fragment.Fits;
    if fs == [] {
      assert arrived + (set f | f in fs) == arrived;
    } else {
      GenuineFits(ms, base, maxLen, fs[0]);
      FragmentRoundTrip(fs[0], RecordBytes(fs[1..]));
      AcceptGenuine(ms, base, maxLen, arrived, next, epoch, fs[0]);
      AcceptGenuineRecord(ms, base, maxLen, arrived + {fs[0]}, next, epoch, fs[1..]);
      assert arrived + {fs[0]} + (set f | f in fs[1..]) == arrived + (set f | f in fs) by {
        assert fs == [fs[0]] + fs[1..];
      }
    }
  }

  /** What the receiver meets: a handshake record or one of another type, sealed in some epoch,
      arrives, the handshake asks for the next message and takes it, or it takes a
      ChangeCipherSpec and switches the read keys. */
  datatype Event =
    | Record(epoch: nat, fragments: seq<Fragment>)
    | Other(epoch: nat, type_: byte, body: seq<byte>)
    | Poll
    | SwitchKeys

  datatype Receiver = Receiver(epoch: nat, queue: Queue, hasCcs: bool, delivered: seq<seq<byte>>, failed: bool)

  /** dtls1_open_handshake on a record of the current epoch, of which only the first has no cipher. */
  function Open(r: Receiver, maxLen: nat, type_: byte, body: seq<byte>): Receiver {
    var (q, o) := AcceptAny(r.queue, r.epoch, maxLen, type_, body, r.epoch == 0);
    var ccs := type_ == SSL3_RT_CHANGE_CIPHER_SPEC && o == OpenSuccess;
    r.(queue := q, hasCcs := r.hasCcs || ccs, failed := o.OpenError?)
  }

  /** Records of another epoch than the current one are dropped by the record layer. */
  function Step(r: Receiver, maxLen: nat, e: Event): Receiver {
    if r.failed then r
    else
      match e
      case Record(epoch, fs) =>
        if epoch != r.epoch then r else Open(r, maxLen, SSL3_RT_HANDSHAKE, RecordBytes(fs))
      case Other(epoch, type_, body) =>
        if epoch != r.epoch then r else Open(r, maxLen, type_, body)
      case Poll =>
        if !r.queue.Ready() then r
        else
          var n := r.queue.next;
          r.(queue := Queue((n + 1) % TWO16, r.queue.held - {n}), delivered := r.delivered + [r.queue.held[n].Raw(n)])
      case SwitchKeys =>
        if !r.hasCcs then r
        else if r.queue.held != map[] then r.(failed := true)
        else r.(epoch := (r.epoch + 1) % TWO16, hasCcs := false)
  }

  function Run(r: Receiver, maxLen: nat, events: seq<Event>): Receiver
    decreases |events|
  {
    if events == [] then r else Step(Run(r, maxLen, events[..|events| - 1]), maxLen, events[|events| - 1])
  }

  /** Handshake records hold fragments of the flight. */
  predicate GenuineEvent(ms: seq<Message>, base: nat, e: Event) {
    && (e.Record? ==> forall f :: f in e.fragments ==> Genuine(ms, base, f))
    && (e.Other? ==> e.type_ != SSL3_RT_HANDSHAKE)
  }

  predicate GenuineEvents(ms: seq<Message>, base: nat, events: seq<Event>) {
    forall e :: e in events ==> GenuineEvent(ms, base, e)
  }

  /** The fragments of a record the record layer lets through. */
  function HeardIn(epoch: nat, e: Event): set<Fragment> {
    if e.Record? && e.epoch == epoch then set f | f in e.fragments else {}
  }

  /** All fragments that arrived in the epoch being read, in whatever order and however often. */
  function Heard(r: Receiver, maxLen: nat, events: seq<Event>): set<Fragment>
    decreases |events|
  {
    if events == [] then {}
    else
      var before := events[..|events| - 1];
      Heard(r, maxLen, before) + HeardIn(Run(r, maxLen, before).epoch, events[|events| - 1])
  }

  function Fresh(epoch: nat, base: nat): Receiver {
    Receiver(epoch, Queue(base, map[]), false, [], false)
  }

  /** The receiver after these fragments were heard and some messages delivered. */
  ghost predicate Faithful(ms: seq<Message>, base: nat, arrived: set<Fragment>, r: Receiver) {
    && !r.failed && |r.delivered| <= |ms|
    && r.queue == QueueOf(ms, base, arrived, base + |r.delivered|)
    && forall k :: 0 <= k < |r.delivered| ==> r.delivered[k] == ms[k].Raw(base + k)
  }

  lemma BodyIsWhole(m: Message, n: nat, arrived: set<Fragment>)
    ensures PartOf(m, n, arrived).Complete() <==> forall i :: 0 <= i < |m.body| ==> ByteArrived(arrived, n, i)
    ensures PartOf(m, n, arrived).Complete() ==> PartOf(m, n, arrived).Raw(n) == m.Raw(n)
  {
    hide ByteArrived;
    var p := PartOf(m, n, arrived);
    if p.Complete() {
      forall i | 0 <= i < |m.body| ensures ByteArrived(arrived, n, i) {
        assert i in p.bytes.Keys;
      }
      assert p.Body() == m.body;
      assert m.body[0..|m.body|] == m.body;
    }
  }

  /** The next message is ready exactly when all of it arrived, and it is the one sent. */
  lemma ReadyWhenCovered(ms: seq<Message>, base: nat, arrived: set<Fragment>, next: nat)
    requires base <= next <= base + |ms|
    ensures var q := QueueOf(ms, base, arrived, next);
      && (q.Ready() <==> next < base + |ms| && Covered(arrived, next, ms[next - base]))
      && (q.Ready() ==> q.held[next].Raw(next) == ms[next - base].Raw(next))
  {
    hide PartOf, Mentioned, ByteArrived, Partial.Complete;
    if next < base + |ms| {
      BodyIsWhole(ms[next - base], next, arrived);
    }
  }

  lemma QueueTail(ms: seq<Message>, base: nat, arrived: set<Fragment>, next: nat)
    requires base <= next
    ensures QueueOf(ms, base, arrived, next + 1).held == QueueOf(ms, base, arrived, next).held - {next}
  {
    hide PartAt, Mentioned;
  }

  lemma PollStep(ms: seq<Message>, base: nat, maxLen: nat, arrived: set<Fragment>, r: Receiver)
    requires base + |ms| < TWO16 && Faithful(ms, base, arrived, r)
    ensures Faithful(ms, base, arrived, Step(r, maxLen, Poll))
    ensures |Step(r, maxLen, Poll).delivered| == |r.delivered| +
      if |r.delivered| < |ms| && Covered(arrived, base + |r.delivered|, ms[|r.delivered|]) then 1 else 0
  {
    hide QueueOf, Covered, Partial.Complete, Partial.Raw, Message.Raw;
    var next := base + |r.delivered|;
    ReadyWhenCovered(ms, base, arrived, next);
    QueueTail(ms, base, arrived, next);
  }

  /** Nothing comes that the code takes for an error: in epoch 1 a fragment of another message
      than the next, a record that is no message and in the clear not a well-formed
      ChangeCipherSpec, or sealed not application data, or, when the keys are switched,
      messages that were not asked for. */
  predicate TimelyEvent(r: Receiver, e: Event) {
    match e
    case Record(epoch, fs) => epoch == r.epoch == 1 ==> forall f :: f in fs ==> f.hdr.seq_ == r.queue.next
    case Other(epoch, type_, body) =>
      epoch == r.epoch ==> if epoch == 0 then type_ == 20 && body == [1] else type_ == 23
    case Poll => true
    case SwitchKeys => r.hasCcs ==> r.queue.held == map[]
  }

  predicate Timely(r: Receiver, maxLen: nat, events: seq<Event>)
    decreases |events|
  {
    events == [] ||
    (var before, e := events[..|events| - 1], events[|events| - 1];
     Timely(r, maxLen, before) && TimelyEvent(Run(r, maxLen, before), e))
  }

  lemma StepFaithful(ms: seq<Message>, base: nat, maxLen: nat, arrived: set<Fragment>, r: Receiver, e: Event)
    requires Sendable(ms, base, maxLen) && base + |ms| < TWO16 && Faithful(ms, base, arrived, r)
    requires TimelyEvent(r, e)
    requires GenuineEvent(ms, base, e)
    ensures Faithful(ms, base, arrived + HeardIn(r.epoch, e), Step(r, maxLen, e))
  {
    hide QueueOf, AcceptRecord, Genuine, Sendable, Message.Raw;
    if e.Record? && e.epoch == r.epoch {
      AcceptGenuineRecord(ms, base, maxLen, arrived, base + |r.delivered|, r.epoch, e.fragments);
    } else {
      assert arrived + HeardIn(r.epoch, e) == arrived;
      if e.Poll? { PollStep(ms, base, maxLen, arrived, r); }
    }
  }

  lemma {:induction false} UntimelyRecord(
    ms: seq<Message>, base: nat, maxLen: nat, arrived: set<Fragment>, next: nat, fs: seq<Fragment>)
    requires Sendable(ms, base, maxLen) && base <= next <= base + |ms| && forall f :: f in fs ==> Genuine(ms, base, f)
    requires !forall f :: f in fs ==> f.hdr.seq_ == next
    ensures AcceptRecord(QueueOf(ms, base, arrived, next), 1, maxLen, RecordBytes(fs)).1.OpenError?
    decreases |fs|
  {
    hide QueueOf, AcceptFragment, ParseFragment, Genuine, Sendable, Fragment.Bytes, Fragment.Fits;
    GenuineFits(ms, base, maxLen, fs[0]);
    FragmentRoundTrip(fs[0], RecordBytes(fs[1..]));
    EncryptedEpoch(ms, base, maxLen, arrived, next, 1, fs[0]);
    if fs[0].hdr.seq_ == next {
      AcceptGenuine(ms, base, maxLen, arrived, next, 1, fs[0]);
      UntimelyRecord(ms, base, maxLen, arrived + {fs[0]}, next, fs[1..]);
    }
  }

  /** A run of genuine records fails exactly when something untimely comes. */
  lemma {:induction false} FailsWhenUntimely(ms: seq<Message>, base: nat, maxLen: nat, epoch: nat, events: seq<Event>)
    requires Sendable(ms, base, maxLen) && base + |ms| < TWO16 && GenuineEvents(ms, base, events)
    ensures Run(Fresh(epoch, base), maxLen, events).failed <==> !Timely(Fresh(epoch, base), maxLen, events)
    decreases |events|
  {
    hide QueueOf, AcceptRecord, Genuine, Heard;
    if events != [] {
      var before, e := events[..|events| - 1], events[|events| - 1];
      assert GenuineEvent(ms, base, e);
      FailsWhenUntimely(ms, base, maxLen, epoch, before);
      if Timely(Fresh(epoch, base), maxLen, before) {
        FaithfulDelivery(ms, base, maxLen, epoch, before);
        var r := Run(Fresh(epoch, base), maxLen, before);
        if TimelyEvent(r, e) {
          FaithfulDelivery(ms, base, maxLen, epoch, events);
        } else if e.Record? {
          UntimelyRecord(ms, base, maxLen, Heard(Fresh(epoch, base), maxLen, before), r.queue.next, e.fragments);
        }
      }
    }
  }

  /** Safety: after any run of genuine records, polls and key switches, in any order, with any
      loss and duplication, there was no error, the messages delivered are exactly the first
      ones sent, each once, in order and unchanged, and the ring is a function of the set of
      fragments heard. */
  lemma {:induction false} FaithfulDelivery(ms: seq<Message>, base: nat, maxLen: nat, epoch: nat, events: seq<Event>)
    requires Sendable(ms, base, maxLen) && base + |ms| < TWO16 && GenuineEvents(ms, base, events)
    requires Timely(Fresh(epoch, base), maxLen, events)
    ensures var r := Fresh(epoch, base); Faithful(ms, base, Heard(r, maxLen, events), Run(r, maxLen, events))
    decreases |events|
  {
    hide QueueOf, Genuine, Step, Faithful, TimelyEvent;
    var r := Fresh(epoch, base);
    if events == [] {
      NothingArrived(ms, base, epoch);
    } else {
      var before, e := events[..|events| - 1], events[|events| - 1];
      FaithfulDelivery(ms, base, maxLen, epoch, before);
      StepFaithful(ms, base, maxLen, Heard(r, maxLen, before), Run(r, maxLen, before), e);
    }
  }

  lemma NothingArrived(ms: seq<Message>, base: nat, epoch: nat)
    ensures Faithful(ms, base, {}, Fresh(epoch, base))
  {
  }

  /** For example, the second of two messages in epoch 1 before the first. */
  lemma SecondFirst(a: Message, b: Message)
    requires |a.body| == |b.body| == 1
    ensures var early := b.Slice(1, 0, 1);
      Genuine([a, b], 0, early) && Run(Fresh(1, 0), 1, [Record(1, [early])]).failed
  {
    hide AcceptRecord;
    var ms, early := [a, b], b.Slice(1, 0, 1);
    var events := [Record(1, [early])];
    assert events[..0] == [] && Run(Fresh(1, 0), 1, []) == Fresh(1, 0);
    assert !TimelyEvent(Fresh(1, 0), events[0]) by { assert early in [early]; }
    FailsWhenUntimely(ms, 0, 1, 1, events);
  }

  /** Asking for n messages. */
  function Polls(n: nat): seq<Event> {
    seq(n, _ => Poll)
  }

  lemma {:induction false} PollsDrain(
    ms: seq<Message>, base: nat, maxLen: nat, arrived: set<Fragment>, r: Receiver, n: nat)
    requires base + |ms| < TWO16 && Faithful(ms, base, arrived, r) && |r.delivered| + n <= |ms|
    requires forall k :: 0 <= k < |ms| ==> Covered(arrived, base + k, ms[k])
    ensures Faithful(ms, base, arrived, Run(r, maxLen, Polls(n)))
    ensures |Run(r, maxLen, Polls(n)).delivered| == |r.delivered| + n
  {
    hide QueueOf, Covered, Step;
    if n > 0 {
      assert Polls(n)[..n - 1] == Polls(n - 1);
      PollsDrain(ms, base, maxLen, arrived, r, n - 1);
      PollStep(ms, base, maxLen, arrived, Run(r, maxLen, Polls(n - 1)));
    }
  }

  /** The flight as sent. */
  function Raws(ms: seq<Message>, base: nat): seq<seq<byte>> {
    seq(|ms|, k requires 0 <= k < |ms| => ms[k].Raw(base + k))
  }

  /** Liveness: once every byte of the flight has been heard in some fragment, asking for the
      outstanding messages delivers all of the flight. */
  lemma FlightDelivered(ms: seq<Message>, base: nat, maxLen: nat, epoch: nat, events: seq<Event>)
    requires Sendable(ms, base, maxLen) && base + |ms| < TWO16 && GenuineEvents(ms, base, events)
    requires Timely(Fresh(epoch, base), maxLen, events)
    requires forall k :: 0 <= k < |ms| ==> Covered(Heard(Fresh(epoch, base), maxLen, events), base + k, ms[k])
    ensures var r := Run(Fresh(epoch, base), maxLen, events);
      && |r.delivered| <= |ms|
      && Run(r, maxLen, Polls(|ms| - |r.delivered|)).delivered == Raws(ms, base)
  {
    hide Heard, Run, Timely, Covered, QueueOf, Sendable, GenuineEvents, Message.Raw;
    FaithfulDelivery(ms, base, maxLen, epoch, events);
    var start := Fresh(epoch, base);
    var r := Run(start, maxLen, events);
    PollsDrain(ms, base, maxLen, Heard(start, maxLen, events), r, |ms| - |r.delivered|);
  }
}
