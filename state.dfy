/**
 * The application state of a ziorc node: its configuration, its own peer
 * description, the mDNS responder advertising it, and the in-memory job log.
 * The log is append-only and keeps jobs in the order they were started.
 * The lock around the state in the running program is not modelled: every
 * operation here runs alone.
 */
module State {
  import opened Wrappers
  import opened Discovery

  /** Milliseconds since the Unix epoch, as a job's start time is serialised. */
  type Timestamp = int

  datatype Job = Job(jobId: Uuid, startedOn: Timestamp)

  /**
   * The command-line configuration: the application name and the optional
   * port that overrides the randomly chosen one.
   */
  datatype AppStateConfig = AppStateConfig(appName: string, port: Option<u16>)

  class AppState {
    var config: AppStateConfig
    var myself: Peer
    var jobs: seq<Job>
    var mdns: Mdns

    constructor (config: AppStateConfig, myself: Peer, mdns: Mdns)
      ensures this.config == config && this.myself == myself && this.mdns == mdns
      ensures jobs == []
    {
      this.config := config;
      this.myself := myself;
      this.mdns := mdns;
      this.jobs := [];
    }

    /**
     * Builds the state from the configuration. The node describes itself
     * with `NewLocalhost` from its inputs (`uuid`, `machineName`,
     * `portDraw`, `interfaces`, `version`); `hyphenated` renders a UUID as
     * hyphenated text; `launchFault` is the mDNS responder's failure, if
     * any. A configured port replaces the self-peer's port before it is
     * advertised.
     */
    static method FromConfig(config: AppStateConfig, uuid: Uuid, machineName: Option<string>, portDraw: nat,
                             interfaces: Result<seq<Interface>, Error>, version: string,
                             hyphenated: Uuid -> string, launchFault: Option<Error>)
      returns (r: Result<AppState, Error>)
      ensures interfaces.Err? ==> r == Err(interfaces.error)
      ensures interfaces.Ok? && launchFault.Some? ==> r == Err(launchFault.value)
      ensures interfaces.Ok? && launchFault.None? ==> r.Ok? && fresh(r.value)
      ensures r.Ok? ==> r.value.jobs == [] && r.value.config == config
      ensures r.Ok? && config.port.Some? ==>
                r.value.myself == NewLocalhost(uuid, machineName, portDraw, interfaces, version).value.(port := config.port.value)
      ensures r.Ok? && config.port.None? ==>
                r.value.myself == NewLocalhost(uuid, machineName, portDraw, interfaces, version).value
      ensures r.Ok? && config.port.Some? ==> r.value.myself.port == config.port.value
      ensures r.Ok? && config.port.None? ==> PortLow <= r.value.myself.port < PortHigh
      ensures r.Ok? ==> r.value.myself.uuid == uuid && r.value.myself.version == version
      ensures r.Ok? ==> r.value.myself.hostname == LocalHostname(machineName)
                        && EndsWith(r.value.myself.hostname, LocalSuffix)
      ensures r.Ok? ==> r.value.myself.addresses == UsableAddresses(interfaces.value)
      ensures r.Ok? ==> r.value.mdns.registered == Advertisement(r.value.myself, hyphenated)
    {
      var localhost := NewLocalhost(uuid, machineName, portDraw, interfaces, version);
      if localhost.Err? {
        return Err(localhost.error);
      }
      var myself := localhost.value;
      if config.port.Some? {
        myself := myself.(port := config.port.value);
      }
      var mdns := Launch(myself, hyphenated, launchFault);
      if mdns.Err? {
        return Err(mdns.error);
      }
      var state := new AppState(config, myself, mdns.value);
      r := Ok(state);
    }

    /** A copy of the job log, oldest job first. */
    method Jobs() returns (r: seq<Job>)
      ensures r == jobs
    {
      r := jobs;
    }

    /**
     * Starts a job with the given id and start time and appends it to the
     * log. Nothing else in the state changes.
     */
    method StartJob(jobId: Uuid, now: Timestamp) returns (job: Job)
      modifies this`jobs
      ensures job == Job(jobId, now)
      ensures jobs == old(jobs) + [job]
      ensures |jobs| == |old(jobs)| + 1 && jobs[|jobs| - 1] == job
      ensures forall k :: 0 <= k < |old(jobs)| ==> jobs[k] == old(jobs)[k]
      ensures config == old(config) && myself == old(myself) && mdns == old(mdns)
    {
      job := Job(jobId, now);
      jobs := jobs + [job];
    }

    /** The peer list, read through this node's mDNS responder (see `Discovery.Peers`). */
    method Peers(browse: Result<seq<Recv>, Error>, parse: string -> Option<Uuid>,
                 order: set<IpAddr> -> seq<IpAddr>)
      returns (r: Result<seq<Peer>, Error>)
      ensures browse.Err? ==> r == Err(browse.error)
      ensures browse.Ok? ==> r == Ok(ToPeers(Collected(browse.value), parse, order))
    {
      r := Discovery.Peers(browse, parse, order);
    }
  }

  /**
   * Three jobs started one after another on a fresh state are listed in the
   * order they were started.
   */
  method ListAfterThreeStarts(state: AppState, ids: seq<Uuid>, times: seq<Timestamp>)
    returns (listed: seq<Job>)
    requires state.jobs == [] && |ids| == 3 && |times| == 3
    modifies state
    ensures listed == [Job(ids[0], times[0]), Job(ids[1], times[1]), Job(ids[2], times[2])]
  {
    var first := state.StartJob(ids[0], times[0]);
    var second := state.StartJob(ids[1], times[1]);
    var third := state.StartJob(ids[2], times[2]);
    listed := state.Jobs();
  }
}
