/** The server object: its lifecycle flag, its connection registry, and the
    per-connection frame-processing step and read loop that update them in
    place. Sockets, the poll, the receives and the handler are inputs. */
module Server {

  import opened Wire
  import opened Lifecycle
  import opened Protocol

  /** A registered client connection. Its socket is the object itself; the
      last data received on it is kept in `data`. */
  class Connection {
    const clientNumber: int
    var data: seq<Byte>

    constructor (clientNumber: int)
      ensures this.clientNumber == clientNumber
    {
      this.clientNumber := clientNumber;
      data := [];
    }
  }

  /** No connection occurs twice in a read list (a poll reports each socket
      once). */
  predicate DistinctConns(ready: seq<Ready<Connection>>) {
    forall i, j :: 0 <= i < j < |ready| ==> ready[i].conn != ready[j].conn
  }

  /** The connections a list of polls may receive on. */
  function ReadConns(polls: seq<Poll<Connection>>): set<Connection> {
    set k, j | 0 <= k < |polls| && 0 <= j < |polls[k].ready| :: polls[k].ready[j].conn
  }

  class TerrariaServer {
    var networkState: NetworkState
    /** The registry: the connections that are live. */
    var connections: set<Connection>
    /** The connections whose disconnect was announced to the other
        clients, in the order the notices went out. */
    var notices: seq<Connection>
    /** The messages handed to the message handler, with their connection,
        in the order they were handed over. */
    var handled: seq<Delivery<Connection>>

    ghost function View(): View<Connection>
      reads this
    {
      Protocol.View(connections, notices, handled)
    }

    /** A new server is Closed and has no connections. */
    constructor ()
      ensures networkState == InitialState()
      ensures View() == Protocol.View({}, [], [])
    {
      networkState := InitialState();
      connections := {};
      notices := [];
      handled := [];
    }

    /** Setting up the listening socket: `bindOk` says whether creating,
        binding and listening all succeeded. */
    method SetupSocket(bindOk: bool)
      modifies this`networkState
      ensures networkState == AfterSetup(bindOk)
      ensures networkState == Running <==> bindOk
    {
      if bindOk {
        networkState := Running;
      } else {
        networkState := NetworkState.Error;
      }
    }

    /** One frame-processing step on connection `c`: `header` and `data` are
        what the two receives returned, `handlerOk` whether the handler
        returned normally. */
    method DoProtocol(c: Connection, header: seq<Byte>, data: seq<Byte>, handlerOk: bool)
      returns (o: Outcome)
      requires WithinReceiveBound(header, data)
      modifies this`connections, this`notices, this`handled, c`data
      ensures o == Step(header, data, handlerOk)
      ensures View() == ApplyStep(old(View()), Ready(c, header, data, handlerOk))
      ensures connections == if RemovesConnection(o) then old(connections) - {c} else old(connections)
      ensures c.data == if OverwritesData(header) then data else old(c.data)
    {
      if |header| < HeaderSize {
        connections := connections - {c};
        notices := notices + [c];
        return ShortHeader;
      }
      if |header| != HeaderSize {
        connections := connections - {c};
        return Outcome.Error(MalformedHeader);
      }
      var msgLen := DecodeLength(header);
      if msgLen < 0 {
        connections := connections - {c};
        return Outcome.Error(NegativeLength(msgLen));
      }
      c.data := data;
      if c.data == [] {
        connections := connections - {c};
        return Outcome.Error(EmptyPayload);
      }
      var message := Message(c.data[0], c.data[1..]);
      assert [message.msgType] + message.body == data;
      handled := handled + [Delivery(c, message)];
      if !handlerOk {
        connections := connections - {c};
        return Outcome.Error(HandlerRaised(message));
      }
      o := Dispatch(message);
    }

    /** Removes the connections the poll reported in error, one after
        another, in list order. */
    method RemoveErroredConnections(errored: seq<Connection>)
      modifies this`connections
      ensures connections == RemoveErrored(old(connections), errored)
    {
      for i := 0 to |errored|
        invariant connections == RemoveErrored(old(connections), errored[..i])
      {
        assert errored[..i + 1][..i] == errored[..i];
        connections := connections - {errored[i]};
      }
      assert errored[..|errored|] == errored;
    }

    /** Processes each readable entry once, in list order, with the
        frame-processing step. */
    method ProcessReadList(ready: seq<Ready<Connection>>)
      requires DistinctConns(ready) && ReceivedWithinBound(ready)
      modifies this`connections, this`notices, this`handled, set j | 0 <= j < |ready| :: ready[j].conn
      ensures View() == ProcessReads(old(View()), ready)
      ensures forall j :: 0 <= j < |ready| ==>
        ready[j].conn.data ==
          DataAfter(ready[j], old(ready[j].conn.data))
    {
      for k := 0 to |ready|
        invariant View() == ProcessReads(old(View()), ready[..k])
        invariant forall j :: 0 <= j < k ==>
          ready[j].conn.data ==
            DataAfter(ready[j], old(ready[j].conn.data))
        invariant forall j :: k <= j < |ready| ==> ready[j].conn.data == old(ready[j].conn.data)
      {
        var r := ready[k];
        assert WithinReceiveBound(r.header, r.data);
        assert ready[..k + 1][..k] == ready[..k];
        assert forall j :: 0 <= j < |ready| && j != k ==> ready[j].conn != r.conn;
        var _ := DoProtocol(r.conn, r.header, r.data, r.handlerOk);
      }
      assert ready[..|ready|] == ready;
    }

    /** One iteration of the read loop on the poll result `p`: every errored
        connection is removed first, then every readable entry is processed
        once, in list order. */
    method ReadOnce(p: Poll<Connection>)
      requires DistinctConns(p.ready) && ReceivedWithinBound(p.ready)
      modifies this`connections, this`notices, this`handled, set j | 0 <= j < |p.ready| :: p.ready[j].conn
      ensures View() == Pump(old(View()), p)
      ensures forall j :: 0 <= j < |p.ready| ==>
        p.ready[j].conn.data ==
          DataAfter(p.ready[j], old(p.ready[j].conn.data))
    {
      RemoveErroredConnections(p.errored);
      ProcessReadList(p.ready);
    }

    /** The read loop over a finite run of poll results: it keeps polling
        while the state is Running, so it processes every poll when the
        server is Running and none otherwise. */
    method ReadThread(polls: seq<Poll<Connection>>) returns (rounds: nat)
      requires forall k :: 0 <= k < |polls| ==>
        DistinctConns(polls[k].ready) && ReceivedWithinBound(polls[k].ready)
      modifies this`connections, this`notices, this`handled, ReadConns(polls)
      ensures networkState == old(networkState)
      ensures rounds == if KeepsLooping(networkState) then |polls| else 0
      ensures View() == if KeepsLooping(networkState) then Run(old(View()), polls) else old(View())
    {
      rounds := 0;
      while KeepsLooping(networkState) && rounds < |polls|
        invariant rounds <= |polls|
        invariant !KeepsLooping(networkState) ==> rounds == 0
        invariant View() == Run(old(View()), polls[..rounds])
      {
        assert polls[..rounds + 1][..rounds] == polls[..rounds];
        assert DistinctConns(polls[rounds].ready) && ReceivedWithinBound(polls[rounds].ready);
        ReadOnce(polls[rounds]);
        rounds := rounds + 1;
      }
      assert polls[..|polls|] == polls;
    }
  }

  /** Two registered clients become readable in one poll: the first sends
      the frame 05 00 00 00 01 AA BB CC DD, the second sends only two bytes
      and closes. The first message is dispatched with its connection, the
      second client is dropped and announced, and nothing else happens.
      The accept loop is not modelled, so the registry is filled directly
      here in its place. */
  method TwoClientScenario()
  {
    var server := new TerrariaServer();
    server.SetupSocket(true);
    var a := new Connection(0);
    var b := new Connection(1);
    // stands in for the accept loop registering both clients
    server.connections := {a, b};
    var frame: seq<Byte> := [0x01, 0xAA, 0xBB, 0xCC, 0xDD];
    var p := TwoClientPoll(a, b);
    TwoClientPump(a, b);
    server.ReadOnce(p);
    assert p.ready[0].conn == a;
    assert server.connections == {a};
    assert server.notices == [b];
    assert server.handled == [Delivery(a, Message(0x01, [0xAA, 0xBB, 0xCC, 0xDD]))];
    assert a.data == frame;
  }
}
