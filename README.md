# Terraria server: frame processing and the readiness pump

This project models the protocol engine of a small multiplayer game server
(`net/server.py`). Each client connection sends frames. A frame is a 4-byte
little-endian signed length, one unsigned message-type byte, and then the
message body. The model covers four things:

- the length-prefix and type/body decoding (module `Wire`);
- the lifecycle flag `NetworkState` and the transition made when the
  listening socket is set up (module `Lifecycle`);
- the outcome of one per-connection frame-processing step (`__doProtocol`)
  and the effect of one readiness-pump iteration, both as pure values over
  any connection type (module `Protocol`);
- the server object itself (module `Server`). It holds the state flag, the
  registry of live connections, a log of the disconnect notices sent, and a
  log of the messages handed to the message handler. Its methods update
  these fields in place and are proved against the
  `Protocol` functions.

The step ends in exactly one of three outcomes:

- `ShortHeader`: fewer than 4 header bytes arrived. The connection is
  removed and its disconnect is announced to the other clients.
- `Error`: an exception was caught after a full header. The connection is
  removed and nothing is announced.
- `Dispatch`: the handler took the message and returned normally.

The I/O is given to the model as inputs:

- the two `recv` results are byte sequences (`header`, `data`);
- whether the handler `processMessage` returns or raises is a boolean;
- the result of `select` is a `Poll`: the errored connections and the
  readable entries, in the order the poll listed them;
- whether creating, binding and listening on the socket succeeded is a
  boolean.

A socket is identified with its connection object, so `findConnection` is
the identity and `removeConnection` is removal from a set.

Behaviour of the code worth noting:

- The body is whatever the second receive returned. The only bound on it is
  the receive itself: asked for `msgLen` bytes, `recv` returns at most that
  many, and none for a zero length. The body is never otherwise checked
  against the claimed length. A short body is dispatched as it is. Empty
  data fails at `data[0]`, and the connection is removed without a notice.
- Only the short header sends a disconnect notice. Every other failure
  removes the connection silently.
- The readable entries are processed in list order.
- The state never passes through `Starting`. Setup goes straight from
  `Closed` to `Running` or to `Error`.

## Model

| member | source | states |
|---|---|---|
| `Wire.Unsigned32` | net/server.py:17 | the four header bytes read little-endian as an unsigned value, always below 2^32 |
| `Wire.DecodeLength` | net/server.py:98 | the `<i` reading of a 4-byte header lies in [-2^31, 2^31-1], agrees with the unsigned reading modulo 2^32, and is negative exactly when the last byte is at least 128 |
| `Wire.EncodeLength` | net/server.py:17 | the `<i` writing of a 32-bit length is 4 bytes whose unsigned reading is the length modulo 2^32, with the top bit set exactly for negative lengths |
| `Wire.DecodeEncode` | net/server.py:98 | decoding the encoded header of any 32-bit signed length gives that length back |
| `Wire.EncodeDecode` | net/server.py:98 | re-encoding the decoded length of any 4-byte header gives the same four bytes |
| `Wire.SplitPayload` | net/server.py:102-104 | the received data splits into a type byte and a body exactly when it is non-empty, and then `[type] + body` is the data |
| `Wire.Payload` | net/server.py:101-104 | the bytes after a header are one type byte plus the body, and splitting them gives the message back |
| `Wire.EncodeFrame` | net/server.py:17-20 | a frame is header, type byte and body; its header decodes to the number of bytes that follow, and those bytes split back into the message |
| `Lifecycle.Code` | net/server.py:25-30 | each state has the code 0..4 of the enumeration, and the code names that state |
| `Lifecycle.FromCode` | net/server.py:25-30 | exactly the codes 0..4 name a state |
| `Lifecycle.CodeInjective` | net/server.py:25-30 | two states with the same code are the same state |
| `Lifecycle.InitialState` | net/server.py:40 | a new server starts in Closed, the state with code 3, in which no background loop runs |
| `Lifecycle.AfterSetup` | net/server.py:79-88 | after setup the state is Running exactly when bind and listen succeeded, and Error otherwise |
| `Lifecycle.KeepsLooping` | net/server.py:111-120 | the guard of the read loop and of the accept loop holds exactly for the state with code 1, Running |
| `Lifecycle.LoopsRunOnlyAfterSuccessfulBind` | net/server.py:110-111 | the loop guard holds after setup exactly when the bind succeeded, and does not hold in the initial Closed state |
| `Protocol.Step` | net/server.py:90-108 | the short-header outcome happens exactly when fewer than 4 header bytes arrived; dispatch happens exactly when the header is 4 bytes with a non-negative length, some data arrived and the handler returned; the handler raises exactly when the header is 4 bytes with a non-negative length, some data arrived and the handler did not return; on dispatch and on a raising handler `[type] + body` equals the received data; empty data after a full header is an error; the bound the receive puts on the data is stated separately, in `BoundedReceiveOutcomes` |
| `Protocol.RemovesConnection` | net/server.py:93-108 | the connection is dropped on a short header and on every caught exception, and on nothing else |
| `Protocol.SendsNotice` | net/server.py:93-97 | a disconnect notice is only sent for a connection that is being dropped |
| `Protocol.Delivered` | net/server.py:102-105 | a dispatched message, and the message of a raising handler, was handed to the handler; a short header hands nothing over; anything handed over was either dispatched or made the handler raise |
| `Protocol.OverwritesData` | net/server.py:98-99 | the data field is overwritten exactly when the header is 4 bytes whose last byte is below 128, so the length read is non-negative |
| `Protocol.BoundedReceiveOutcomes` | net/server.py:98-104 | when the data is no longer than the length asked for, a zero length always fails at `data[0]`, and a dispatched body is shorter than the length the header claimed |
| `Protocol.OnlyShortHeaderIsAnnounced` | net/server.py:93-108 | a notice is sent exactly on a short header; after a full header the connection is removed exactly on an error; a short header hands nothing to the handler |
| `Protocol.DispatchRoundTrip` | net/server.py:98-105 | header LE32(1+\|body\|) with data `[tag] + body` hands exactly that tag and body to the handler, and dispatches exactly when the handler returns |
| `Protocol.FrameRoundTrip` | net/server.py:92-105 | a frame built by the encoder, split into its two receives, is dispatched as the message it was built from |
| `Protocol.FiveByteFrameScenario` | net/server.py:98-105 | header 05 00 00 00 with data 01 AA BB CC DD dispatches type 1 with body AA BB CC DD |
| `Protocol.BadLengthScenarios` | net/server.py:98-108 | header FF FF FF FF is length -1 and fails in the receive; header 00 00 00 00 with nothing received fails at `data[0]` |
| `Protocol.ApplyStep` | net/server.py:90-108 | one step keeps the connection exactly when it dispatches, touches no other connection, appends a notice for that connection exactly when fewer than 4 header bytes came, and hands that connection's split data to the handler exactly when the header is 4 bytes, the length is non-negative and some data arrived, whatever the handler then does |
| `Protocol.RemoveErrored` | net/server.py:114-115 | removing the errored connections in turn only shrinks the registry and leaves none of them in it |
| `Protocol.ProcessReads` | net/server.py:116-117 | processing the readable entries only shrinks the registry, and extends each log by at most one entry per readable entry |
| `Protocol.Pump` | net/server.py:112-117 | one iteration only shrinks the registry, leaves no errored connection in it, and only extends the logs |
| `Protocol.Run` | net/server.py:110-117 | after the read loop, no connection that any poll reported in error is registered |
| `Protocol.RemoveErroredExact` | net/server.py:114-115 | removing the errored connections in turn removes exactly those connections from the registry |
| `Protocol.ProcessReadsRegistry` | net/server.py:116-117 | processing the readable entries removes exactly the connections whose step failed and keeps every other connection |
| `Protocol.ProcessReadsLogs` | net/server.py:116-117 | processing the readable entries appends their notices and their handed-over messages in list order |
| `Protocol.AnnouncedIffShortHeader` | net/server.py:93-97 | a disconnect notice goes out for a connection exactly when one of its readable entries had a short header |
| `Protocol.DeliveriesInOrder` | net/server.py:116-117 | when every readable entry dispatches, each is handed to the handler exactly once, with its own connection, in list order |
| `Protocol.ProcessReadsAppend` | net/server.py:116-117 | processing a list in two parts equals processing it whole, so the entries are processed one at a time, in order |
| `Protocol.PumpEffect` | net/server.py:112-117 | one iteration removes every errored connection and every connection whose step failed, keeps the rest, and appends the notices and handed-over messages of the read list |
| `Protocol.PumpKeepsUnpolled` | net/server.py:114-117 | a connection that the poll reported neither in error nor readable stays registered |
| `Protocol.ErroredGoneBeforeEachRead` | net/server.py:114-117 | every errored connection is already out of the registry when any readable entry of the same iteration is processed |
| `Protocol.RunShrinks` | net/server.py:110-117 | the read loop never adds a connection, and the notice and handler logs only grow |
| `Protocol.TwoClientPump` | net/server.py:90-117 | in a poll where one client sends 05 00 00 00 01 AA BB CC DD and another sends two bytes, the first client remains and its message is handed over, and the second is dropped and announced |
| `Server.Connection.constructor` | net/server.py:124 | a new connection carries the client id it was given |
| `Server.TerrariaServer.constructor` | net/server.py:40-41 | a new server is Closed, has an empty registry and has sent and dispatched nothing |
| `Server.TerrariaServer.SetupSocket` | net/server.py:79-88 | the state becomes Running exactly when bind and listen succeeded, and Error otherwise; nothing else changes |
| `Server.TerrariaServer.DoProtocol` | net/server.py:90-108 | given data no longer than the length asked for, returns the outcome of `Step`; removes only `c` and only on failure, appends `c` to the notices only on a short header, logs a message handed to the handler, and overwrites `c.data` exactly when a 4-byte header gave a non-negative length |
| `Server.TerrariaServer.RemoveErroredConnections` | net/server.py:114-115 | the registry becomes `RemoveErrored` of the old one, through a loop over the errored list in order |
| `Server.TerrariaServer.ProcessReadList` | net/server.py:116-117 | the registry and logs become `ProcessReads` of the old ones, through a loop over the read list in order; each read connection's data is overwritten exactly when its header gave a non-negative length |
| `Server.TerrariaServer.ReadOnce` | net/server.py:112-117 | removes the errored connections first (`RemoveErroredConnections`), then steps each read-list entry once in order; the new registry and logs are `Pump` of the old ones, and each read connection's data is updated as its step says |
| `Server.TerrariaServer.ReadThread` | net/server.py:110-117 | iterates over every poll when the state is Running and over none otherwise; the state is unchanged and the registry and logs are `Run` of the old ones |

## Left out

- Socket creation, `bind`, `listen`, `accept`, `recv` and `select` are I/O. Their results are inputs.
- The bound on the second receive is a precondition, not a computation. `DoProtocol`, `ReadOnce` and `ReadThread` require that the data of each step of a 4-byte header with length n is at most n bytes long, which is what `recv(n)` returns.
- A `recv` that raises a socket error is not modelled as a separate input. Such a call would take the same path as every other caught exception: removal without a notice.
- A header longer than 4 bytes cannot come from `recv(4)`. The model still gives it the outcome that unpacking it would give (an error).
- The threads and their interleaving are concurrency. This covers the acceptor, the read loop and the main loop running at once, and the registry's thread safety.
- The accept loop (`__acceptLoop`) is socket I/O, and client-id assignment is not shown. Its guard is the same `KeepsLooping` predicate as the read loop's.
- `__mainLoop` and `__updateServer` depend on wall-clock timers, floating-point milliseconds and `sleep`.
- The world event handlers only wrap message builders and senders that are not shown.
- The message handler is a call that returns or raises, given as a boolean. How it works inside, and anything it does to the registry, is not shown.
- `ConnectionManager`, `ConnectionInfo` and `MessageSender` are not part of this model. The registry is a set. A notice is an entry appended to a log.
- `findConnection` on a socket whose connection was already removed is not shown. The model processes a read-list entry with its connection object, whether or not it is still registered.
- `util/tasks.py` is a sleeping daemon thread. Its only use is commented out.
- Server.TerrariaServer.ReadOnce: requires that the read list names each connection once, as a poll reports each socket once. Without that, the final data field of a repeated connection would be stated per entry.
- Server.TerrariaServer.ReadThread: does not state the final `data` field of each connection over several polls. It only says that connections outside every read list are not touched. The per-poll statement is in `ReadOnce`.
- Server.TerrariaServer.ReadThread: runs over a finite list of poll results. `__readThread` loops until the state leaves Running, and nothing in this model changes the state during the loop.
