/** What one per-connection frame-processing step does, and what one
    iteration of the readiness pump does to the connection registry, the
    disconnect notices and the deliveries to the message handler, as pure
    values. The server class in module Server is proved against these. */
module Protocol {

  import opened Wrappers
  import opened Wire

  /** The exceptions the step catches after a full header was read. */
  datatype Failure =
    | MalformedHeader          // unpacking a header that is not 4 bytes long raises
    | NegativeLength(n: int)   // recv with a negative buffer size raises
    | EmptyPayload             // data[0] on empty received data raises
    | HandlerRaised(msg: Message)  // the message handler raised

  /** The three ways one step ends. */
  datatype Outcome =
    | ShortHeader              // fewer than 4 header bytes: removed and announced
    | Error(failure: Failure)  // an exception was caught: removed silently
    | Dispatch(msg: Message)   // the handler took the message and returned

  /** One frame-processing step on the two byte strings that the two
      receives returned, and on whether the handler returns or raises.
      The received data is not compared with the length it was asked for;
      how long the receive lets it be is `WithinReceiveBound`. */
  function Step(header: seq<Byte>, data: seq<Byte>, handlerOk: bool): (o: Outcome)
    ensures o.ShortHeader? <==> |header| < HeaderSize
    ensures o.Dispatch? <==>
      |header| == HeaderSize && DecodeLength(header) >= 0 && data != [] && handlerOk
    ensures o.Dispatch? ==> [o.msg.msgType] + o.msg.body == data
    ensures HeaderSize <= |header| && data == [] ==> o.Error?
    ensures o.Error? && o.failure.HandlerRaised? <==>
      |header| == HeaderSize && DecodeLength(header) >= 0 && data != [] && !handlerOk
    ensures o.Error? && o.failure.HandlerRaised? ==>
      [o.failure.msg.msgType] + o.failure.msg.body == data
  {
    if |header| < HeaderSize then ShortHeader
    else if |header| != HeaderSize then Error(MalformedHeader)
    else
      var n := DecodeLength(header);
      if n < 0 then Error(NegativeLength(n))
      else
        match SplitPayload(data)
        case None => Error(EmptyPayload)
        case Some(m) => if handlerOk then Dispatch(m) else Error(HandlerRaised(m))
  }

  /** Whether the step drops the connection from the registry. */
  function RemovesConnection(o: Outcome): (b: bool)
    ensures b <==> o.ShortHeader? || o.Error?
  {
    !o.Dispatch?
  }

  /** Whether the step announces the disconnect to the other clients. */
  function SendsNotice(o: Outcome): (b: bool)
    ensures b ==> RemovesConnection(o)
  {
    o.ShortHeader?
  }

  /** The message the step handed to the handler, whether or not the
      handler then raised. */
  function Delivered(o: Outcome): (m: Option<Message>)
    ensures o.Dispatch? ==> m == Some(o.msg)
    ensures o.ShortHeader? ==> m.None?
    ensures o.Error? && o.failure.HandlerRaised? ==> m == Some(o.failure.msg)
    ensures m.Some? ==> o.Dispatch? || o.failure.HandlerRaised?
  {
    match o
    case Dispatch(m) => Some(m)
    case Error(HandlerRaised(m)) => Some(m)
    case _ => None
  }

  /** Whether the step stores the second receive in the connection's data
      field: only once a 4-byte header gave a length the receive accepts. */
  function OverwritesData(header: seq<Byte>): (b: bool)
    ensures b <==> |header| == HeaderSize && header[3] < 128
  {
    |header| == HeaderSize && DecodeLength(header) >= 0
  }

  /** The data field after the step on `r`, when it held `before`. */
  function DataAfter<C>(r: Ready<C>, before: seq<Byte>): seq<Byte> {
    if OverwritesData(r.header) then r.data else before
  }

  /** What the second receive can return: asked for n bytes, it returns at
      most n, and nothing at all for n = 0. */
  predicate WithinReceiveBound(header: seq<Byte>, data: seq<Byte>) {
    OverwritesData(header) ==> |data| <= DecodeLength(header)
  }

  /** Every entry of a read list received within that bound. */
  predicate ReceivedWithinBound<C>(ready: seq<Ready<C>>) {
    forall j :: 0 <= j < |ready| ==> WithinReceiveBound(ready[j].header, ready[j].data)
  }

  /** On what the receive can actually return, a zero length always fails
      at `data[0]`, and a dispatched body is shorter than the length the
      header claimed, which counts the type byte. */
  lemma BoundedReceiveOutcomes(header: seq<Byte>, data: seq<Byte>, handlerOk: bool)
    requires WithinReceiveBound(header, data)
    ensures |header| == HeaderSize && DecodeLength(header) == 0 ==>
      Step(header, data, handlerOk) == Error(EmptyPayload)
    ensures var o := Step(header, data, handlerOk);
      o.Dispatch? ==> |o.msg.body| < DecodeLength(header)
  {
    var o := Step(header, data, handlerOk);
    if o.Dispatch? {
      assert |data| == 1 + |o.msg.body| by {
        assert [o.msg.msgType] + o.msg.body == data;
      }
    }
  }

  /** Every failure after a full header drops the connection without a
      notice; only the short header is announced. */
  lemma OnlyShortHeaderIsAnnounced(header: seq<Byte>, data: seq<Byte>, handlerOk: bool)
    ensures var o := Step(header, data, handlerOk);
      (SendsNotice(o) <==> |header| < HeaderSize) &&
      (HeaderSize <= |header| ==> (RemovesConnection(o) <==> o.Error?)) &&
      (o.ShortHeader? ==> Delivered(o) == None)
  {
  }

  /** A frame built by a sender reaches the handler unchanged: the header
      LE32(1 + |body|) followed by the tag and the body dispatches exactly
      that tag and that body. */
  lemma DispatchRoundTrip(tag: Byte, body: seq<Byte>, handlerOk: bool)
    requires 1 + |body| <= Int32Max
    ensures var o := Step(EncodeLength(1 + |body|), [tag] + body, handlerOk);
      Delivered(o) == Some(Message(tag, body)) &&
      (o.Dispatch? <==> handlerOk)
  {
    DecodeEncode(1 + |body|);
    assert ([tag] + body)[1..] == body;
  }

  /** The same round trip stated on the frame encoder. */
  lemma FrameRoundTrip(m: Message)
    requires 1 + |m.body| <= Int32Max
    ensures var f := EncodeFrame(m);
      Step(f[..HeaderSize], f[HeaderSize..], true) == Dispatch(m)
  {
    var f := EncodeFrame(m);
    assert [m.msgType] + m.body == f[HeaderSize..];
  }

  /** The five-byte frame 05 00 00 00 01 AA BB CC DD carries type 1 and
      the body AA BB CC DD. */
  lemma FiveByteFrameScenario()
    ensures Step([0x05, 0x00, 0x00, 0x00], [0x01, 0xAA, 0xBB, 0xCC, 0xDD], true)
         == Dispatch(Message(0x01, [0xAA, 0xBB, 0xCC, 0xDD]))
  {
    var data: seq<Byte> := [0x01, 0xAA, 0xBB, 0xCC, 0xDD];
    assert data[1..] == [0xAA, 0xBB, 0xCC, 0xDD];
  }

  /** The length prefix FF FF FF FF is -1, which the receive refuses; the
      prefix 00 00 00 00 asks for nothing, and data[0] then fails. */
  lemma BadLengthScenarios(data: seq<Byte>, handlerOk: bool)
    ensures Step([0xFF, 0xFF, 0xFF, 0xFF], data, handlerOk) == Error(NegativeLength(-1))
    ensures Step([0x00, 0x00, 0x00, 0x00], [], handlerOk) == Error(EmptyPayload)
  {
  }

  // ---------------------------------------------------------------------
  // The readiness pump, over an abstract connection type C

  /** A message handed to the handler together with its connection. */
  datatype Delivery<C> = Delivery(conn: C, msg: Message)

  /** A read-ready connection with what its two receives returned and
      whether the handler returns normally for it. */
  datatype Ready<C> = Ready(conn: C, header: seq<Byte>, data: seq<Byte>, handlerOk: bool)

  /** One poll result: the connections reported in error and those
      reported readable, in the order the poll listed them. */
  datatype Poll<C> = Poll(errored: seq<C>, ready: seq<Ready<C>>)

  /** The observable server state: the registry, the disconnect notices
      sent so far and the messages handed to the handler so far. */
  datatype View<C> = View(connections: set<C>, notices: seq<C>, handled: seq<Delivery<C>>)

  function StepOf<C>(r: Ready<C>): Outcome {
    Step(r.header, r.data, r.handlerOk)
  }

  /** The deliveries one step appends. */
  function DeliveryOf<C>(r: Ready<C>): seq<Delivery<C>> {
    match Delivered(StepOf(r))
    case Some(m) => [Delivery(r.conn, m)]
    case None => []
  }

  /** The notices one step appends. */
  function NoticeOf<C>(r: Ready<C>): seq<C> {
    if SendsNotice(StepOf(r)) then [r.conn] else []
  }

  /** The effect of one frame-processing step on the view. */
  function ApplyStep<C(==)>(v: View<C>, r: Ready<C>): (w: View<C>)
    ensures r.conn in w.connections <==> r.conn in v.connections && StepOf(r).Dispatch?
    ensures w.connections - {r.conn} == v.connections - {r.conn}
    ensures w.notices == v.notices + (if |r.header| < HeaderSize then [r.conn] else [])
    ensures w.handled == v.handled +
      (if |r.header| == HeaderSize && DecodeLength(r.header) >= 0 && r.data != []
       then [Delivery(r.conn, Message(r.data[0], r.data[1..]))] else [])
    ensures StepOf(r).Dispatch? ==> w.handled == v.handled + [Delivery(r.conn, StepOf(r).msg)]
  {
    View(if RemovesConnection(StepOf(r)) then v.connections - {r.conn} else v.connections,
         v.notices + NoticeOf(r),
         v.handled + DeliveryOf(r))
  }

  /** Removing the errored connections one after another, in list order. */
  function RemoveErrored<C(==)>(s: set<C>, errored: seq<C>): (r: set<C>)
    ensures r <= s
    ensures forall j :: 0 <= j < |errored| ==> errored[j] !in r
    decreases |errored|
  {
    if errored == [] then s
    else RemoveErrored(s, errored[..|errored| - 1]) - {errored[|errored| - 1]}
  }

  /** Processing the read-ready entries one after another, in list order. */
  function ProcessReads<C(==)>(v: View<C>, ready: seq<Ready<C>>): (w: View<C>)
    ensures w.connections <= v.connections
    ensures v.notices <= w.notices && |w.notices| <= |v.notices| + |ready|
    ensures v.handled <= w.handled && |w.handled| <= |v.handled| + |ready|
    decreases |ready|
  {
    if ready == [] then v
    else ApplyStep(ProcessReads(v, ready[..|ready| - 1]), ready[|ready| - 1])
  }

  /** One iteration of the read loop: the errored connections are removed,
      then every readable entry is processed. */
  function Pump<C(==)>(v: View<C>, p: Poll<C>): (w: View<C>)
    ensures w.connections <= v.connections
    ensures forall j :: 0 <= j < |p.errored| ==> p.errored[j] !in w.connections
    ensures v.notices <= w.notices && v.handled <= w.handled
  {
    ProcessReads(View(RemoveErrored(v.connections, p.errored), v.notices, v.handled), p.ready)
  }

  /** Several iterations of the read loop, in order. */
  function Run<C(==)>(v: View<C>, polls: seq<Poll<C>>): (w: View<C>)
    ensures forall k, j :: 0 <= k < |polls| && 0 <= j < |polls[k].errored| ==>
      polls[k].errored[j] !in w.connections
    decreases |polls|
  {
    if polls == [] then v else Pump(Run(v, polls[..|polls| - 1]), polls[|polls| - 1])
  }

  // Reference descriptions of the same effects, stated without the fold

  /** The connections that some step of the list drops. */
  function RemovedBy<C>(ready: seq<Ready<C>>): set<C> {
    set j | 0 <= j < |ready| && RemovesConnection(StepOf(ready[j])) :: ready[j].conn
  }

  /** The notices of the list, read from the front. */
  function Announced<C>(ready: seq<Ready<C>>): seq<C> {
    if ready == [] then [] else NoticeOf(ready[0]) + Announced(ready[1..])
  }

  /** The deliveries of the list, read from the front. */
  function Deliveries<C>(ready: seq<Ready<C>>): seq<Delivery<C>> {
    if ready == [] then [] else DeliveryOf(ready[0]) + Deliveries(ready[1..])
  }

  /** Removing the errored connections in turn removes exactly them. */
  lemma {:induction false} RemoveErroredExact<C>(s: set<C>, errored: seq<C>)
    ensures RemoveErrored(s, errored) == s - (set c | c in errored)
    decreases |errored|
  {
    if errored != [] {
      var init := errored[..|errored| - 1];
      RemoveErroredExact(s, init);
      assert (set c | c in errored) == (set c | c in init) + {errored[|errored| - 1]};
    }
  }

  /** The read steps drop exactly the connections whose step failed; no
      other connection in the registry is touched. */
  lemma {:induction false} ProcessReadsRegistry<C>(v: View<C>, ready: seq<Ready<C>>)
    ensures ProcessReads(v, ready).connections == v.connections - RemovedBy(ready)
    decreases |ready|
  {
    if ready != [] {
      var init := ready[..|ready| - 1];
      ProcessReadsRegistry(v, init);
      var last := ready[|ready| - 1];
      if RemovesConnection(StepOf(last)) {
        assert RemovedBy(ready) == RemovedBy(init) + {last.conn} by {
          forall j | 0 <= j < |init| ensures init[j] == ready[j] { }
        }
      } else {
        assert RemovedBy(ready) == RemovedBy(init) by {
          forall j | 0 <= j < |init| ensures init[j] == ready[j] { }
        }
      }
    }
  }

  lemma {:induction false} AnnouncedSnoc<C>(ready: seq<Ready<C>>, r: Ready<C>)
    ensures Announced(ready + [r]) == Announced(ready) + NoticeOf(r)
    decreases |ready|
  {
    if ready == [] {
      assert [r][1..] == [];
    } else {
      assert (ready + [r])[1..] == ready[1..] + [r];
      AnnouncedSnoc(ready[1..], r);
    }
  }

  lemma {:induction false} DeliveriesSnoc<C>(ready: seq<Ready<C>>, r: Ready<C>)
    ensures Deliveries(ready + [r]) == Deliveries(ready) + DeliveryOf(r)
    decreases |ready|
  {
    if ready == [] {
      assert [r][1..] == [];
    } else {
      assert (ready + [r])[1..] == ready[1..] + [r];
      DeliveriesSnoc(ready[1..], r);
    }
  }

  /** The read steps append the notices of the list, in list order, and
      the deliveries of the list, in list order. */
  lemma {:induction false} ProcessReadsLogs<C>(v: View<C>, ready: seq<Ready<C>>)
    ensures ProcessReads(v, ready).notices == v.notices + Announced(ready)
    ensures ProcessReads(v, ready).handled == v.handled + Deliveries(ready)
    decreases |ready|
  {
    if ready != [] {
      var init := ready[..|ready| - 1];
      var last := ready[|ready| - 1];
      assert ready == init + [last];
      ProcessReadsLogs(v, init);
      AnnouncedSnoc(init, last);
      DeliveriesSnoc(init, last);
    }
  }

  /** A disconnect notice goes out for a connection exactly when one of
      its readable entries had a short header. */
  lemma {:induction false} AnnouncedIffShortHeader<C>(ready: seq<Ready<C>>, c: C)
    ensures c in Announced(ready) <==>
      exists j :: 0 <= j < |ready| && ready[j].conn == c && |ready[j].header| < HeaderSize
    decreases |ready|
  {
    if ready != [] {
      AnnouncedIffShortHeader(ready[1..], c);
      if c in Announced(ready[1..]) {
        var j :| 0 <= j < |ready[1..]| && ready[1..][j].conn == c && |ready[1..][j].header| < HeaderSize;
        assert ready[j + 1] == ready[1..][j];
      }
      if exists j :: 0 <= j < |ready| && ready[j].conn == c && |ready[j].header| < HeaderSize {
        var j :| 0 <= j < |ready| && ready[j].conn == c && |ready[j].header| < HeaderSize;
        if j > 0 {
          assert ready[1..][j - 1] == ready[j];
        }
      }
    }
  }

  /** When every readable entry dispatches, each one is handed to the
      handler exactly once, with its own connection, in list order. */
  lemma {:induction false} DeliveriesInOrder<C>(ready: seq<Ready<C>>)
    requires forall j :: 0 <= j < |ready| ==> StepOf(ready[j]).Dispatch?
    ensures |Deliveries(ready)| == |ready|
    ensures forall j :: 0 <= j < |ready| ==>
      Deliveries(ready)[j] == Delivery(ready[j].conn, StepOf(ready[j]).msg)
    decreases |ready|
  {
    if ready != [] {
      DeliveriesInOrder(ready[1..]);
      assert DeliveryOf(ready[0]) == [Delivery(ready[0].conn, StepOf(ready[0]).msg)];
      forall j | 0 <= j < |ready|
        ensures Deliveries(ready)[j] == Delivery(ready[j].conn, StepOf(ready[j]).msg)
      {
        if j > 0 {
          assert ready[1..][j - 1] == ready[j];
        }
      }
    }
  }

  /** Processing a list in two parts is processing it whole: the entries
      are handled one at a time, in order. */
  lemma {:induction false} ProcessReadsAppend<C>(v: View<C>, a: seq<Ready<C>>, b: seq<Ready<C>>)
    ensures ProcessReads(v, a + b) == ProcessReads(ProcessReads(v, a), b)
    decreases |b|
  {
    if b == [] {
      assert a + b == a;
    } else {
      var init := b[..|b| - 1];
      assert (a + b)[..|a + b| - 1] == a + init;
      assert (a + b)[|a + b| - 1] == b[|b| - 1];
      ProcessReadsAppend(v, a, init);
    }
  }

  /** One pump iteration drops every errored connection and every
      connection whose step failed, and keeps every other connection; it
      appends the notices and deliveries of the readable list in order. */
  lemma PumpEffect<C>(v: View<C>, p: Poll<C>)
    ensures Pump(v, p).connections
         == v.connections - (set c | c in p.errored) - RemovedBy(p.ready)
    ensures Pump(v, p).notices == v.notices + Announced(p.ready)
    ensures Pump(v, p).handled == v.handled + Deliveries(p.ready)
  {
    var w := View(RemoveErrored(v.connections, p.errored), v.notices, v.handled);
    RemoveErroredExact(v.connections, p.errored);
    ProcessReadsRegistry(w, p.ready);
    ProcessReadsLogs(w, p.ready);
  }

  /** A connection that the poll reported neither in error nor readable
      is still registered after the iteration. */
  lemma PumpKeepsUnpolled<C>(v: View<C>, p: Poll<C>, c: C)
    requires c in v.connections && c !in p.errored
    requires forall j :: 0 <= j < |p.ready| ==> p.ready[j].conn != c
    ensures c in Pump(v, p).connections
  {
    PumpEffect(v, p);
  }

  /** Every errored connection is already gone from the registry when any
      readable entry of the same iteration is processed. */
  lemma ErroredGoneBeforeEachRead<C>(v: View<C>, p: Poll<C>, k: nat, c: C)
    requires k <= |p.ready| && c in p.errored
    ensures c !in ProcessReads(View(RemoveErrored(v.connections, p.errored), v.notices, v.handled),
                               p.ready[..k]).connections
  {
    RemoveErroredExact(v.connections, p.errored);
    ProcessReadsRegistry(View(RemoveErrored(v.connections, p.errored), v.notices, v.handled),
                         p.ready[..k]);
  }

  /** The read loop never adds a connection, and the notice and delivery
      logs only grow. */
  lemma {:induction false} RunShrinks<C>(v: View<C>, polls: seq<Poll<C>>)
    ensures Run(v, polls).connections <= v.connections
    ensures v.notices <= Run(v, polls).notices
    ensures v.handled <= Run(v, polls).handled
    decreases |polls|
  {
    if polls != [] {
      var w := Run(v, polls[..|polls| - 1]);
      RunShrinks(v, polls[..|polls| - 1]);
      PumpEffect(w, polls[|polls| - 1]);
    }
  }

  /** A poll in which client `a` sends the frame 05 00 00 00 01 AA BB CC DD
      and client `b` sends only two bytes before closing. */
  function TwoClientPoll<C>(a: C, b: C): Poll<C> {
    Poll([], [Ready(a, [0x05, 0x00, 0x00, 0x00], [0x01, 0xAA, 0xBB, 0xCC, 0xDD], true),
              Ready(b, [0x05, 0x00], [], true)])
  }

  /** With both clients registered, that poll dispatches the message of `a`
      with its connection, drops `b` and announces it, and touches nothing
      else; both entries are within the receive bound, and the data of `a`
      is overwritten. */
  lemma TwoClientPump<C>(a: C, b: C)
    requires a != b
    ensures ReceivedWithinBound(TwoClientPoll(a, b).ready)
    ensures OverwritesData(TwoClientPoll(a, b).ready[0].header)
    ensures Pump(View({a, b}, [], []), TwoClientPoll(a, b))
         == View({a}, [b], [Delivery(a, Message(0x01, [0xAA, 0xBB, 0xCC, 0xDD]))])
  {
    var ready := TwoClientPoll(a, b).ready;
    FiveByteFrameScenario();
    assert DecodeLength(ready[0].header) == 5;
    assert ready[..1] == [ready[0]] && ready[..1][..0] == [];
    assert ready[..2 - 1] == ready[..1];
    var v := View({a, b}, [], []);
    assert RemoveErrored(v.connections, []) == {a, b};
    assert ProcessReads(v, ready[..1]) == ApplyStep(v, ready[0]);
    assert ProcessReads(v, ready) == ApplyStep(ApplyStep(v, ready[0]), ready[1]);
  }
}
