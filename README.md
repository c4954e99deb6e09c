# ziorc node state and peer discovery, in Dafny

This project models the core of a ziorc node, a prototype orchestrator:

- **The application state** (`State.AppState`, `state.dfy`). It holds the
  node's configuration, its own peer description (`myself`), the mDNS
  responder that advertises it, and an in-memory job log. Building the
  state starts with an empty log. A configured port overrides the randomly
  chosen one before the node is advertised. `StartJob` appends one job and
  returns it. `Jobs` returns the log in insertion order.
- **Peer identity and discovery** (`Discovery`, `discovery.dfy`). The
  self-peer's host name is the machine name followed by `.local.`. Its port
  is drawn from [1025, 10000). Its addresses are those of the interfaces that
  are neither link-local nor loopback. The node advertises itself as an mDNS
  record carrying the `zoirc version` and `node uuid` TXT properties. The
  peer list is the records resolved while browsing, in arrival order, up to
  `SearchStopped` or a failed receive, converted to peers. A record that
  lacks either property, or whose UUID text does not parse, is dropped.

Inputs from the outside world enter as parameters:

- the machine's host name lookup;
- the interface lookup, which can fail;
- the random port draw;
- the clock and UUID generation (job ids and times, the node UUID);
- the UUID text parser (`parse`) and hyphenated formatter (`hyphenated`);
- the iteration order of a record's address set (`order`);
- the mDNS receive stream, a sequence of `Recv` values;
- the failures of starting the daemon and of starting a browse.

`wrappers.dfy` holds `Option` and `Result`.

## Model

| member | source | states |
|---|---|---|
| `Discovery.LocalHostname` | crates/ziorc/src/discovery.rs:25-37 | the host name ends in `.local.` and starts with the machine name; with no UTF-8 machine name it is `unabletoretrievehostname.local.` |
| `Discovery.LocalHostnameRoundTrip` | crates/ziorc/src/discovery.rs:25-37 | stripping `.local.` from the self-peer's host name gives back the machine name (or the fallback name) |
| `Discovery.RandomPort` | crates/ziorc/src/discovery.rs:28 | the drawn port satisfies 1025 <= port < 10000 |
| `Discovery.RandomPortCoversRange` | crates/ziorc/src/discovery.rs:28 | every port of [1025, 10000) is produced by some draw |
| `Discovery.UsableAddresses` | crates/ziorc/src/discovery.rs:29-33 | the kept addresses are no more than the interfaces |
| `Discovery.UsableAddressesAppend` | crates/ziorc/src/discovery.rs:29-33 | filtering distributes over concatenation, so kept addresses stay in interface order |
| `Discovery.UsableAddressesMembership` | crates/ziorc/src/discovery.rs:29-33 | an address is kept if and only if some interface that is neither link-local nor loopback carries it |
| `Discovery.UsableAddressesAllKept` | crates/ziorc/src/discovery.rs:29-33 | when every interface is usable, every address is kept, at its interface's position |
| `Discovery.UsableAddressesNoneKept` | crates/ziorc/src/discovery.rs:29-33 | when every interface is link-local or loopback, no address is kept |
| `Discovery.NewLocalhost` | crates/ziorc/src/discovery.rs:23-44 | a failed interface lookup is the error; otherwise the peer has the given UUID and version, a `.local.` host name, a port in [1025, 10000) and the usable addresses |
| `Discovery.PropertyValue` | crates/ziorc/src/discovery.rs:94-101 | a found value belongs to a property with that key; no value means no property has the key |
| `Discovery.PropertyValueFirst` | crates/ziorc/src/discovery.rs:94-101 | the lookup returns the value of the first property with the key |
| `Discovery.Advertisement` | crates/ziorc/src/discovery.rs:53-63 | the advertised record has the service type, host name, port and address set of the node; looking up `node uuid` gives the hyphenated UUID and `zoirc version` the version |
| `Discovery.Launch` | crates/ziorc/src/discovery.rs:49-71 | a daemon or registration failure is the error; otherwise the registered record carries the node's port, host name, UUID text and version |
| `Discovery.Collected` | crates/ziorc/src/discovery.rs:76-86 | no more records are collected than receives |
| `Discovery.Resolved` | crates/ziorc/src/discovery.rs:82 | reference definition: every resolved record of a sequence, in order; never more than the events |
| `Discovery.StopIndex` | crates/ziorc/src/discovery.rs:77-83 | the first failed receive or `SearchStopped`, with no earlier one |
| `Discovery.ResolvedAppend` | crates/ziorc/src/discovery.rs:82 | resolved records are kept in arrival order |
| `Discovery.ResolvedMembership` | crates/ziorc/src/discovery.rs:82 | a record is among the resolved ones if and only if a `ServiceResolved` event carried it |
| `Discovery.CollectedBeforeStop` | crates/ziorc/src/discovery.rs:76-86 | collection yields exactly the resolved records before the first stop or failed receive; found and other events add nothing |
| `Discovery.CollectedIgnoresAfterStop` | crates/ziorc/src/discovery.rs:77-83 | events after a stop or failed receive never change what is collected |
| `Discovery.CollectedMembership` | crates/ziorc/src/discovery.rs:76-86 | a record is collected if and only if it was resolved before the first stop |
| `Discovery.CollectedStep` | crates/ziorc/src/discovery.rs:77-85 | one loop step: a stop ends collection, a resolved record is appended, any other event is skipped |
| `Discovery.ToPeer` | crates/ziorc/src/discovery.rs:89-103 | a record converts if and only if it has `node uuid` text that parses and a `zoirc version`; the version never causes a drop; host name, port and addresses are copied |
| `Discovery.ToPeers` | crates/ziorc/src/discovery.rs:87-104 | no more peers than records; every peer is the conversion of some record |
| `Discovery.ToPeersAppend` | crates/ziorc/src/discovery.rs:87-104 | conversion distributes over concatenation, so peers keep the records' relative order |
| `Discovery.ToPeersComplete` | crates/ziorc/src/discovery.rs:87-104 | every record that converts yields its peer in the output |
| `Discovery.ToPeersNoneDropped` | crates/ziorc/src/discovery.rs:87-104 | when every record converts, the output is as long as the input and holds each record's conversion at the record's position |
| `Discovery.SelfAdvertisementRoundTrip` | crates/ziorc/src/discovery.rs:53-101 | the node's own record converts back to the node: same UUID, host name, port and version, same address set |
| `Discovery.SelfIsDiscovered` | crates/ziorc/src/discovery.rs:74-104 | a node that resolves its own record before the browse stops finds itself in the peer list |
| `Discovery.Peers` | crates/ziorc/src/discovery.rs:74-105 | a browse failure is the error; otherwise the result is the conversion of the records collected before the first stop |
| `State.AppState.constructor` | crates/ziorc/src/state.rs:30-35 | the new state holds the given config, peer and responder, and an empty job log |
| `State.AppState.FromConfig` | crates/ziorc/src/state.rs:24-36 | errors from describing the node (a failed interface lookup) or from launching are returned; on success the log is empty, the peer is the one `NewLocalhost` describes with a configured port replacing its port (nothing else changes), without a configured port the port lies in [1025, 10000), the host name ends in `.local.`, and the advertised record is that of the final peer |
| `State.AppState.Jobs` | crates/ziorc/src/state.rs:46-48 | returns the stored log, in insertion order, and changes nothing |
| `State.AppState.StartJob` | crates/ziorc/src/state.rs:50-54 | the log grows by exactly the returned job, at the end; earlier jobs keep their positions; config, peer and responder are unchanged |
| `State.AppState.Peers` | crates/ziorc/src/state.rs:56-58 | the state's peer list is the discovery peer list |
| `State.ListAfterThreeStarts` | crates/ziorc/src/web.rs:25-31 | three jobs started on an empty log are listed in start order |

## Left out

- Host name lookup, interface lookup, the random number generator, the clock and UUID v7 generation are system or library calls. Their results are parameters.
- Job ids are inputs, so their time ordering (a property of UUID v7) is not modelled.
- Whether an interface is link-local or loopback is reported by the interface library. It is an input flag of `Interface`, not computed from the address.
- UUID text parsing and hyphenated formatting belong to the UUID library. They are the parameters `parse` and `hyphenated`. The round-trip lemmas require that parsing the hyphenated text gives back the UUID.
- The mDNS library stores a record's addresses in a hash set. The model keeps a `set`, and the set's iteration order is the parameter `order`.
- PropertyValue: the mDNS library compares TXT keys without regard to case and stores values as bytes. The model compares keys exactly and treats values as text.
- RandomPort: only the range is modelled. The reduction `1025 + draw % 8975` stands for the random library's own sampling and says nothing about its distribution.
- Launch: daemon start and registration are network I/O; record construction is a library call that can reject the record; the three failures are one input. The daemon handle is replaced by the registered record.
- Peers: browsing is network I/O. The receive stream is an input sequence. The three-second receive timeout and a closed channel are both a `RecvFailed` element. The end of the sequence means no further event arrives.
- Logging of found services and of the self-description is left out.
- The `Arc<RwLock<…>>` around the state and `async` are left out. Operations run one at a time.
- Serialisation of `Job` and `Peer`, the HTTP routes (`crates/ziorc/src/web.rs`), process start-up (`crates/ziorc/src/main.rs`) and argument parsing (`crates/ziorc/src/config.rs`) are glue. Only the configured port enters the model, through `AppStateConfig`.
- The `config()` and `myself()` accessors of `AppState` return fields; the model's fields are read directly.
- The `Task` record (`crates/ziorc/src/state.rs:77-82`) is declared but never used.
- `crates/ziorc/src/plugin_runner.rs` is a unit test that runs a WebAssembly module through a foreign library. It has no logic of its own.
