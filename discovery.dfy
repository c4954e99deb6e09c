/**
 * Peer identity and peer-list extraction of a ziorc node.
 *
 * A node describes itself as a `Peer` (a UUID, a `.local.` host name, the
 * addresses of its usable network interfaces, a port and the package
 * version), advertises that description as an mDNS service record, and
 * builds its list of peers from the service records it resolves while
 * browsing. The mDNS daemon, the clock, the random number generator, the
 * host-name and interface lookups and the UUID text codec are not modelled:
 * their results enter as parameters.
 */
module Discovery {
  import opened Wrappers

  newtype u16 = x: int | 0 <= x < 0x1_0000

  newtype u128 = x: int | 0 <= x < 0x1_0000_0000_0000_0000_0000_0000_0000_0000

  /** A UUID, as its 128-bit value. */
  type Uuid = u128

  datatype IpAddr = V4(v4: bv32) | V6(v6: bv128)

  /**
   * One network interface as the interface lookup reports it. Whether its
   * address is link-local or loopback is part of that report.
   */
  datatype Interface = Interface(name: string, ip: IpAddr, isLinkLocal: bool, isLoopback: bool)

  datatype Peer = Peer(uuid: Uuid, hostname: string, addresses: seq<IpAddr>, port: u16, version: string)

  datatype Error = InterfaceLookupFailed | LaunchFailed | BrowseFailed

  // ---------------------------------------------------------------------------
  // The self-peer
  // ---------------------------------------------------------------------------

  const LocalSuffix: string := ".local."
  const FallbackHostname: string := "unabletoretrievehostname"

  /** Bounds of the random port range: `PortLow` inclusive, `PortHigh` exclusive. */
  const PortLow: u16 := 1025
  const PortHigh: u16 := 10000

  predicate EndsWith(s: string, suffix: string) {
    |suffix| <= |s| && s[|s| - |suffix|..] == suffix
  }

  /**
   * The self-peer's host name: the machine's host name, or the fallback name
   * when the machine's name is not valid UTF-8 (`None`), followed by `.local.`.
   */
  function LocalHostname(machineName: Option<string>): (h: string)
    ensures EndsWith(h, LocalSuffix)
    ensures machineName.Some? ==> |h| == |machineName.value| + |LocalSuffix| && h[..|machineName.value|] == machineName.value
    ensures machineName.None? ==> h == "unabletoretrievehostname.local."
  {
    match machineName
    case Some(name) => name + LocalSuffix
    case None => FallbackHostname + LocalSuffix
  }

  /** Removes the `.local.` suffix, if there is one. */
  function MachineName(hostname: string): (name: Option<string>)
    ensures name.Some? <==> EndsWith(hostname, LocalSuffix)
    ensures name.Some? ==> name.value + LocalSuffix == hostname
  {
    if EndsWith(hostname, LocalSuffix) then Some(hostname[..|hostname| - |LocalSuffix|]) else None
  }

  /** The machine name can be read back from the self-peer's host name. */
  lemma LocalHostnameRoundTrip(machineName: Option<string>)
    ensures machineName.Some? ==> MachineName(LocalHostname(machineName)) == Some(machineName.value)
    ensures machineName.None? ==> MachineName(LocalHostname(machineName)) == Some(FallbackHostname)
  {
    var h := LocalHostname(machineName);
    match machineName
    case Some(name) =>
      assert h[..|h| - |LocalSuffix|] == name;
    case None =>
      assert h[..|h| - |LocalSuffix|] == FallbackHostname;
  }

  /**
   * A port in [PortLow, PortHigh) derived from the random draw; the draw
   * itself is an input.
   */
  function RandomPort(draw: nat): (port: u16)
    ensures PortLow <= port < PortHigh
  {
    (PortLow as int + draw % (PortHigh - PortLow) as int) as u16
  }

  /** Every port of the range is drawn by some draw. */
  lemma RandomPortCoversRange(port: u16)
    requires PortLow <= port < PortHigh
    ensures RandomPort((port - PortLow) as nat) == port
  {
  }

  /** An interface whose address is advertised: neither link-local nor loopback. */
  predicate Usable(i: Interface) {
    !(i.isLinkLocal || i.isLoopback)
  }

  /** The addresses of the usable interfaces, in interface order. */
  function UsableAddresses(interfaces: seq<Interface>): (addrs: seq<IpAddr>)
    ensures |addrs| <= |interfaces|
  {
    if interfaces == [] then []
    else (if Usable(interfaces[0]) then [interfaces[0].ip] else []) + UsableAddresses(interfaces[1..])
  }

  /** The filter works interface by interface, so it keeps the interface order. */
  lemma {:induction false} UsableAddressesAppend(a: seq<Interface>, b: seq<Interface>)
    ensures UsableAddresses(a + b) == UsableAddresses(a) + UsableAddresses(b)
  {
    if a == [] {
      assert a + b == b;
    } else {
      var head := if Usable(a[0]) then [a[0].ip] else [];
      assert (a + b)[0] == a[0];
      assert (a + b)[1..] == a[1..] + b;
      UsableAddressesAppend(a[1..], b);
      assert UsableAddresses(a + b) == head + (UsableAddresses(a[1..]) + UsableAddresses(b));
      assert UsableAddresses(a) == head + UsableAddresses(a[1..]);
    }
  }

  /** An address is kept exactly when some usable interface carries it. */
  lemma {:induction false} UsableAddressesMembership(interfaces: seq<Interface>, addr: IpAddr)
    ensures addr in UsableAddresses(interfaces) <==>
            exists k :: 0 <= k < |interfaces| && Usable(interfaces[k]) && interfaces[k].ip == addr
  {
    if interfaces != [] {
      UsableAddressesMembership(interfaces[1..], addr);
      if exists k :: 0 <= k < |interfaces| && Usable(interfaces[k]) && interfaces[k].ip == addr {
        var k :| 0 <= k < |interfaces| && Usable(interfaces[k]) && interfaces[k].ip == addr;
        if k > 0 {
          assert interfaces[1..][k - 1] == interfaces[k];
        }
      }
      if addr in UsableAddresses(interfaces[1..]) {
        var k :| 0 <= k < |interfaces[1..]| && Usable(interfaces[1..][k]) && interfaces[1..][k].ip == addr;
        assert interfaces[k + 1] == interfaces[1..][k];
      }
    }
  }

  /** Nothing is dropped when every interface is usable. */
  lemma {:induction false} UsableAddressesAllKept(interfaces: seq<Interface>)
    requires forall k :: 0 <= k < |interfaces| ==> Usable(interfaces[k])
    ensures |UsableAddresses(interfaces)| == |interfaces|
    ensures forall k :: 0 <= k < |interfaces| ==> UsableAddresses(interfaces)[k] == interfaces[k].ip
  {
    if interfaces != [] {
      var tail := interfaces[1..];
      assert forall k :: 0 <= k < |tail| ==> tail[k] == interfaces[k + 1];
      UsableAddressesAllKept(tail);
      assert UsableAddresses(interfaces) == [interfaces[0].ip] + UsableAddresses(tail);
    }
  }

  /** Nothing is kept when no interface is usable. */
  lemma {:induction false} UsableAddressesNoneKept(interfaces: seq<Interface>)
    requires forall k :: 0 <= k < |interfaces| ==> !Usable(interfaces[k])
    ensures UsableAddresses(interfaces) == []
  {
    if interfaces != [] {
      var tail := interfaces[1..];
      assert forall k :: 0 <= k < |tail| ==> tail[k] == interfaces[k + 1];
      UsableAddressesNoneKept(tail);
    }
  }

  /**
   * The self-peer. `machineName` is the host name lookup (`None` when the
   * name is not valid UTF-8), `portDraw` the random draw, `interfaces` the
   * interface lookup, which can fail, and `version` the package version.
   */
  function NewLocalhost(uuid: Uuid, machineName: Option<string>, portDraw: nat,
                        interfaces: Result<seq<Interface>, Error>, version: string): (r: Result<Peer, Error>)
    ensures interfaces.Err? ==> r == Err(interfaces.error)
    ensures interfaces.Ok? ==> r.Ok?
    ensures r.Ok? ==> r.value.uuid == uuid && r.value.version == version
    ensures r.Ok? ==> r.value.hostname == LocalHostname(machineName) && EndsWith(r.value.hostname, LocalSuffix)
    ensures r.Ok? ==> PortLow <= r.value.port < PortHigh
    ensures r.Ok? ==> r.value.addresses == UsableAddresses(interfaces.value)
  {
    match interfaces
    case Err(e) => Err(e)
    case Ok(ifs) =>
      Ok(Peer(uuid, LocalHostname(machineName), UsableAddresses(ifs), RandomPort(portDraw), version))
  }

  // ---------------------------------------------------------------------------
  // Service records and advertising
  // ---------------------------------------------------------------------------

  const ServiceType: string := "_ziorc._udp.local."
  const VersionKey: string := "zoirc version"
  const NodeUuidKey: string := "node uuid"

  datatype TxtProperty = TxtProperty(key: string, val: string)

  /** An mDNS service record; its addresses form a set, as the mDNS library keeps them. */
  datatype ServiceInfo = ServiceInfo(serviceType: string, instanceName: string, hostname: string,
                                     addresses: set<IpAddr>, port: u16, properties: seq<TxtProperty>)

  /** The value of the first TXT property with the given key. */
  function PropertyValue(props: seq<TxtProperty>, key: string): (v: Option<string>)
    ensures v.Some? ==> TxtProperty(key, v.value) in props
    ensures v.None? ==> forall p :: p in props ==> p.key != key
  {
    if props == [] then None
    else if props[0].key == key then Some(props[0].val)
    else PropertyValue(props[1..], key)
  }

  /** The lookup finds the first property with the key, not a later one. */
  lemma {:induction false} PropertyValueFirst(props: seq<TxtProperty>, key: string, k: nat)
    requires k < |props| && props[k].key == key
    requires forall j :: 0 <= j < k ==> props[j].key != key
    ensures PropertyValue(props, key) == Some(props[k].val)
  {
    if k > 0 {
      PropertyValueFirst(props[1..], key, k - 1);
    }
  }

  function Elements(s: seq<IpAddr>): set<IpAddr> {
    set a | a in s
  }

  /**
   * The record a node registers for itself: instance name and `node uuid`
   * are the hyphenated UUID text, `zoirc version` the version.
   */
  function Advertisement(myself: Peer, hyphenated: Uuid -> string): (info: ServiceInfo)
    ensures info.serviceType == ServiceType
    ensures info.instanceName == hyphenated(myself.uuid)
    ensures info.hostname == myself.hostname && info.port == myself.port
    ensures forall a :: a in info.addresses <==> a in myself.addresses
    ensures PropertyValue(info.properties, NodeUuidKey) == Some(hyphenated(myself.uuid))
    ensures PropertyValue(info.properties, VersionKey) == Some(myself.version)
  {
    var props := [TxtProperty(VersionKey, myself.version), TxtProperty(NodeUuidKey, hyphenated(myself.uuid))];
    assert props[0].key != NodeUuidKey by { assert VersionKey[0] != NodeUuidKey[0]; }
    ServiceInfo(ServiceType, hyphenated(myself.uuid), myself.hostname, Elements(myself.addresses),
                myself.port, props)
  }

  /**
   * A running mDNS responder. The daemon handle is I/O; the model keeps the
   * record it registered.
   */
  datatype Mdns = Mdns(registered: ServiceInfo)

  /**
   * Starts the responder and registers the self-advertisement. `fault` is
   * the failure of the daemon start, of the record's construction or of the
   * registration, if any.
   */
  function Launch(myself: Peer, hyphenated: Uuid -> string, fault: Option<Error>): (r: Result<Mdns, Error>)
    ensures fault.Some? ==> r == Err(fault.value)
    ensures fault.None? ==> r.Ok?
    ensures r.Ok? ==> r.value.registered.port == myself.port && r.value.registered.hostname == myself.hostname
    ensures r.Ok? ==> PropertyValue(r.value.registered.properties, NodeUuidKey) == Some(hyphenated(myself.uuid))
    ensures r.Ok? ==> PropertyValue(r.value.registered.properties, VersionKey) == Some(myself.version)
  {
    match fault
    case Some(e) => Err(e)
    case None => Ok(Mdns(Advertisement(myself, hyphenated)))
  }

  // ---------------------------------------------------------------------------
  // Browsing
  // ---------------------------------------------------------------------------

  datatype ServiceEvent =
    | SearchStarted(serviceType: string)
    | ServiceFound(serviceType: string, fullname: string)
    | ServiceResolved(info: ServiceInfo)
    | ServiceRemoved(serviceType: string, fullname: string)
    | SearchStopped(serviceType: string)

  /** One receive on the browse channel: an event, or a timeout or disconnect. */
  datatype Recv = Received(event: ServiceEvent) | RecvFailed

  /** A receive that ends collection: a failed receive or `SearchStopped`. */
  predicate EndsCollection(r: Recv) {
    r.RecvFailed? || r.event.SearchStopped?
  }

  /**
   * The records collected from a receive stream: the resolved ones, in
   * arrival order, up to the first receive that ends collection.
   */
  function Collected(stream: seq<Recv>): (records: seq<ServiceInfo>)
    ensures |records| <= |stream|
  {
    if stream == [] || EndsCollection(stream[0]) then []
    else if stream[0].event.ServiceResolved? then [stream[0].event.info] + Collected(stream[1..])
    else Collected(stream[1..])
  }

  /** Every resolved record of an event sequence, in order (reference definition). */
  function Resolved(events: seq<Recv>): (infos: seq<ServiceInfo>)
    ensures |infos| <= |events|
  {
    if events == [] then []
    else (if events[0].Received? && events[0].event.ServiceResolved? then [events[0].event.info] else [])
         + Resolved(events[1..])
  }

  /** The position of the first receive that ends collection, or |stream|. */
  function StopIndex(stream: seq<Recv>): (k: nat)
    ensures k <= |stream|
    ensures forall j :: 0 <= j < k ==> !EndsCollection(stream[j])
    ensures k < |stream| ==> EndsCollection(stream[k])
  {
    if stream == [] || EndsCollection(stream[0]) then 0 else 1 + StopIndex(stream[1..])
  }

  lemma {:induction false} ResolvedAppend(a: seq<Recv>, b: seq<Recv>)
    ensures Resolved(a + b) == Resolved(a) + Resolved(b)
  {
    if a == [] {
      assert a + b == b;
    } else {
      assert (a + b)[1..] == a[1..] + b;
      ResolvedAppend(a[1..], b);
    }
  }

  lemma {:induction false} ResolvedMembership(events: seq<Recv>, info: ServiceInfo)
    ensures info in Resolved(events) <==> Received(ServiceResolved(info)) in events
  {
    if events != [] {
      ResolvedMembership(events[1..], info);
      assert events == [events[0]] + events[1..];
    }
  }

  /** Collection is exactly the resolved records before the first stop. */
  lemma {:induction false} CollectedBeforeStop(stream: seq<Recv>)
    ensures Collected(stream) == Resolved(stream[..StopIndex(stream)])
  {
    if stream != [] && !EndsCollection(stream[0]) {
      CollectedBeforeStop(stream[1..]);
      var k := StopIndex(stream);
      assert stream[..k] == [stream[0]] + stream[1..][..k - 1];
      ResolvedAppend([stream[0]], stream[1..][..k - 1]);
    }
  }

  /** Events after a stop or a failed receive are never looked at. */
  lemma {:induction false} CollectedIgnoresAfterStop(s: seq<Recv>, t: seq<Recv>)
    requires StopIndex(s) < |s|
    ensures Collected(s + t) == Collected(s)
  {
    assert s != [];
    if !EndsCollection(s[0]) {
      assert (s + t)[1..] == s[1..] + t;
      CollectedIgnoresAfterStop(s[1..], t);
    }
  }

  /**
   * A record is collected exactly when it was resolved before the first
   * receive that ends collection.
   */
  lemma CollectedMembership(stream: seq<Recv>, info: ServiceInfo)
    ensures info in Collected(stream) <==>
            exists j :: 0 <= j < StopIndex(stream) && stream[j] == Received(ServiceResolved(info))
  {
    var k := StopIndex(stream);
    CollectedBeforeStop(stream);
    ResolvedMembership(stream[..k], info);
    if Received(ServiceResolved(info)) in stream[..k] {
      var j :| 0 <= j < k && stream[..k][j] == Received(ServiceResolved(info));
      assert stream[j] == stream[..k][j];
    }
    if exists j :: 0 <= j < k && stream[j] == Received(ServiceResolved(info)) {
      var j :| 0 <= j < k && stream[j] == Received(ServiceResolved(info));
      assert stream[..k][j] == stream[j];
    }
  }

  // ---------------------------------------------------------------------------
  // Records to peers
  // ---------------------------------------------------------------------------

  /**
   * The conversion of one resolved record. `parse` is the UUID text parser;
   * `order` is the iteration order of the record's address set.
   */
  function ToPeer(info: ServiceInfo, parse: string -> Option<Uuid>, order: set<IpAddr> -> seq<IpAddr>): (r: Option<Peer>)
    ensures r.Some? <==>
            && PropertyValue(info.properties, NodeUuidKey).Some?
            && parse(PropertyValue(info.properties, NodeUuidKey).value).Some?
            && PropertyValue(info.properties, VersionKey).Some?
    ensures r.Some? ==> r.value.hostname == info.hostname && r.value.port == info.port
                        && r.value.addresses == order(info.addresses)
    ensures r.Some? ==> parse(PropertyValue(info.properties, NodeUuidKey).value) == Some(r.value.uuid)
                        && PropertyValue(info.properties, VersionKey) == Some(r.value.version)
  {
    match PropertyValue(info.properties, NodeUuidKey)
    case None => None
    case Some(text) =>
      match parse(text)
      case None => None
      case Some(uuid) =>
        match PropertyValue(info.properties, VersionKey)
        case None => None
        case Some(version) => Some(Peer(uuid, info.hostname, order(info.addresses), info.port, version))
  }

  /** The converted records, dropping those `ToPeer` rejects. */
  function ToPeers(records: seq<ServiceInfo>, parse: string -> Option<Uuid>, order: set<IpAddr> -> seq<IpAddr>): (peers: seq<Peer>)
    ensures |peers| <= |records|
    ensures forall p :: p in peers ==> exists info :: info in records && ToPeer(info, parse, order) == Some(p)
  {
    if records == [] then []
    else
      var rest := ToPeers(records[1..], parse, order);
      match ToPeer(records[0], parse, order)
      case None => rest
      case Some(p) => [p] + rest
  }

  /** Conversion works record by record, so it keeps the records' relative order. */
  lemma {:induction false} ToPeersAppend(a: seq<ServiceInfo>, b: seq<ServiceInfo>,
                                         parse: string -> Option<Uuid>, order: set<IpAddr> -> seq<IpAddr>)
    ensures ToPeers(a + b, parse, order) == ToPeers(a, parse, order) + ToPeers(b, parse, order)
  {
    if a == [] {
      assert a + b == b;
    } else {
      assert (a + b)[1..] == a[1..] + b;
      ToPeersAppend(a[1..], b, parse, order);
    }
  }

  /** Every record that converts shows up among the peers. */
  lemma {:induction false} ToPeersComplete(records: seq<ServiceInfo>, info: ServiceInfo, p: Peer,
                                           parse: string -> Option<Uuid>, order: set<IpAddr> -> seq<IpAddr>)
    requires info in records && ToPeer(info, parse, order) == Some(p)
    ensures p in ToPeers(records, parse, order)
  {
    if records[0] != info {
      ToPeersComplete(records[1..], info, p, parse, order);
    }
  }

  /** When every record converts, none is dropped. */
  lemma {:induction false} ToPeersNoneDropped(records: seq<ServiceInfo>,
                                              parse: string -> Option<Uuid>, order: set<IpAddr> -> seq<IpAddr>)
    requires forall k :: 0 <= k < |records| ==> ToPeer(records[k], parse, order).Some?
    ensures |ToPeers(records, parse, order)| == |records|
    ensures forall k :: 0 <= k < |records| ==>
              ToPeers(records, parse, order)[k] == ToPeer(records[k], parse, order).value
  {
    if records != [] {
      var tail := records[1..];
      assert forall k :: 0 <= k < |tail| ==> tail[k] == records[k + 1];
      ToPeersNoneDropped(tail, parse, order);
      assert ToPeers(records, parse, order) == [ToPeer(records[0], parse, order).value] + ToPeers(tail, parse, order);
    }
  }

  /** `order` lists exactly the elements of the set it is given. */
  ghost predicate ListsSet(order: set<IpAddr> -> seq<IpAddr>) {
    forall s: set<IpAddr>, a: IpAddr :: a in order(s) <==> a in s
  }

  /**
   * A node's own advertisement, once resolved, converts back to the node's
   * description: same UUID, host name, port and version, and the same
   * addresses as a set.
   */
  lemma SelfAdvertisementRoundTrip(myself: Peer, hyphenated: Uuid -> string,
                                   parse: string -> Option<Uuid>, order: set<IpAddr> -> seq<IpAddr>)
    requires parse(hyphenated(myself.uuid)) == Some(myself.uuid)
    ensures ToPeer(Advertisement(myself, hyphenated), parse, order)
            == Some(myself.(addresses := order(Elements(myself.addresses))))
    ensures ListsSet(order) ==>
            forall a :: a in ToPeer(Advertisement(myself, hyphenated), parse, order).value.addresses
                        <==> a in myself.addresses
  {
  }

  /**
   * A node that resolves its own advertisement before the browse stops finds
   * itself in the peer list.
   */
  lemma SelfIsDiscovered(myself: Peer, hyphenated: Uuid -> string, stream: seq<Recv>, j: nat,
                         parse: string -> Option<Uuid>, order: set<IpAddr> -> seq<IpAddr>)
    requires parse(hyphenated(myself.uuid)) == Some(myself.uuid)
    requires j < StopIndex(stream) && stream[j] == Received(ServiceResolved(Advertisement(myself, hyphenated)))
    ensures myself.(addresses := order(Elements(myself.addresses))) in ToPeers(Collected(stream), parse, order)
  {
    var info := Advertisement(myself, hyphenated);
    CollectedMembership(stream, info);
    SelfAdvertisementRoundTrip(myself, hyphenated, parse, order);
    ToPeersComplete(Collected(stream), info, myself.(addresses := order(Elements(myself.addresses))), parse, order);
  }

  /** One step of collection, at position `i` of the stream. */
  lemma CollectedStep(stream: seq<Recv>, i: nat)
    requires i < |stream|
    ensures EndsCollection(stream[i]) ==> Collected(stream[i..]) == []
    ensures !EndsCollection(stream[i]) && stream[i].event.ServiceResolved? ==>
            Collected(stream[i..]) == [stream[i].event.info] + Collected(stream[i + 1..])
    ensures !EndsCollection(stream[i]) && !stream[i].event.ServiceResolved? ==>
            Collected(stream[i..]) == Collected(stream[i + 1..])
  {
    assert stream[i..][0] == stream[i];
    assert stream[i..][1..] == stream[i + 1..];
  }

  /**
   * The peer list: browse for the service type, collect resolved records
   * until `SearchStopped` or a failed receive, then convert them. `browse`
   * is the outcome of starting the browse: its receive stream, or the error.
   */
  method Peers(browse: Result<seq<Recv>, Error>, parse: string -> Option<Uuid>, order: set<IpAddr> -> seq<IpAddr>)
    returns (r: Result<seq<Peer>, Error>)
    ensures browse.Err? ==> r == Err(browse.error)
    ensures browse.Ok? ==> r == Ok(ToPeers(Collected(browse.value), parse, order))
  {
    if browse.Err? {
      return Err(browse.error);
    }
    var stream := browse.value;
    var records: seq<ServiceInfo> := [];
    var i := 0;
    while i < |stream|
      invariant 0 <= i <= |stream|
      invariant records + Collected(stream[i..]) == Collected(stream)
    {
      var next := stream[i];
      CollectedStep(stream, i);
      if EndsCollection(next) {
        assert records + [] == records;
        break;
      }
      if next.event.ServiceResolved? {
        assert (records + [next.event.info]) + Collected(stream[i + 1..]) == records + Collected(stream[i..]);
        records := records + [next.event.info];
      }
      i := i + 1;
    }
    assert i == |stream| ==> stream[i..] == [] && records + [] == records;
    r := Ok(ToPeers(records, parse, order));
  }
}
