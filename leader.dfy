/**
 * The dependency wiring of leader election (leader/dependency.go): choosing
 * the election driver, building the Election and its Status, the run-group
 * actor and interrupt, and the exported default configuration. The Election
 * and Status themselves and the etcd driver are opaque here: an Election is
 * its dispatcher, its driver and its status object.
 */
module Leader {
  import opened Wrappers
  import opened ConfigExport

  /** The etcd client name used when the configuration names none. */
  const DefaultEtcdName: string := "default"

  /** The configuration section the driver options are read from. */
  const LeaderSection: string := "leader"

  /** The identity of an etcd client, a dispatcher or an injected driver made outside this module. */
  type Handle = nat

  /** key.New(appName, env): the namespace of the election key. */
  datatype Key = Key(appName: string, env: string)

  /** An election driver: one injected by the container, or the etcd driver built here. */
  datatype Driver = Injected(id: Handle) | EtcdDriver(client: Handle, key: Key)

  /** The `leader` section of the configuration; a missing entry decodes to "". */
  datatype LeaderOption = LeaderOption(etcdName: string)

  /** The collaborators determineDriver consults, in the order it consults them. */
  datatype Call = UnmarshalConfig(section: string) | MakeClient(etcdName: string)

  /** The three ways driver selection fails. */
  datatype DriverError =
    | ConfigurationError(cause: string)
    | NoDriverSource
    | EtcdFailed(etcdName: string, cause: string)

  /** The etcd name to use: the configured one, or the default when it is empty. */
  function EtcdName(option: LeaderOption): (r: string)
    ensures r != ""
    ensures option.etcdName != "" ==> r == option.etcdName
    ensures option.etcdName == "" ==> r == DefaultEtcdName
  {
    if option.etcdName == "" then DefaultEtcdName else option.etcdName
  }

  /** The driver determineDriver leaves in `in`, or its error, and the calls it made. */
  datatype Decision = Decision(driver: Result<Driver, DriverError>, calls: seq<Call>)

  /**
   * determineDriver as a function of its inputs: an injected driver wins;
   * otherwise read the configuration, default the etcd name, and make the
   * etcd client with the maker.
   */
  function Decide(injected: Option<Driver>, config: string -> Result<LeaderOption, string>,
                  maker: Option<string -> Result<Handle, string>>, appName: string, env: string): (r: Decision)
    ensures injected.Some? ==> r == Decision(Ok(injected.value), [])
    ensures injected.None? ==> |r.calls| >= 1 && r.calls[0] == UnmarshalConfig(LeaderSection)
    ensures r.driver.Ok? && injected.None? ==>
      && maker.Some?
      && r.driver.value.EtcdDriver?
      && r.driver.value.key == Key(appName, env)
      && r.calls[|r.calls| - 1].MakeClient?
      && maker.value(r.calls[|r.calls| - 1].etcdName) == Ok(r.driver.value.client)
    ensures r.driver.Err? ==> injected.None?
    ensures injected.None? && config(LeaderSection).Err? ==>
      r == Decision(Err(ConfigurationError(config(LeaderSection).error)), [UnmarshalConfig(LeaderSection)])
    ensures r.driver.Err? && r.driver.error.ConfigurationError? <==> injected.None? && config(LeaderSection).Err?
    ensures injected.None? && config(LeaderSection).Ok? && maker.Some? ==>
      var name := EtcdName(config(LeaderSection).value);
      && r.calls == [UnmarshalConfig(LeaderSection), MakeClient(name)]
      && (maker.value(name).Err? ==> r.driver == Err(EtcdFailed(name, maker.value(name).error)))
      && (maker.value(name).Ok? ==> r.driver == Ok(EtcdDriver(maker.value(name).value, Key(appName, env))))
    ensures r.driver == Err(NoDriverSource) <==> injected.None? && config(LeaderSection).Ok? && maker.None?
    ensures forall i :: 0 <= i < |r.calls| && r.calls[i].MakeClient? ==>
      maker.Some? && r.calls[i].etcdName != ""
  {
    if injected.Some? then Decision(Ok(injected.value), [])
    else
      var read := [UnmarshalConfig(LeaderSection)];
      match config(LeaderSection)
      case Err(e) => Decision(Err(ConfigurationError(e)), read)
      case Ok(option) =>
        var name := EtcdName(option);
        if maker.None? then Decision(Err(NoDriverSource), read)
        else
          match maker.value(name)
          case Err(e) => Decision(Err(EtcdFailed(name, e)), read + [MakeClient(name)])
          case Ok(client) => Decision(Ok(EtcdDriver(client, Key(appName, env))), read + [MakeClient(name)])
  }

  /** The dependencies `provide` receives. */
  class In {
    const appName: string
    const env: string
    const config: string -> Result<LeaderOption, string>
    const dispatcher: Handle
    var driver: Option<Driver>
    const maker: Option<string -> Result<Handle, string>>

    constructor (appName: string, env: string, config: string -> Result<LeaderOption, string>,
                 dispatcher: Handle, driver: Option<Driver>, maker: Option<string -> Result<Handle, string>>)
      ensures this.appName == appName && this.env == env && this.config == config
      ensures this.dispatcher == dispatcher && this.driver == driver && this.maker == maker
    {
      this.appName, this.env, this.config := appName, env, config;
      this.dispatcher, this.driver, this.maker := dispatcher, driver, maker;
    }

    /** What determineDriver decides for these dependencies. */
    function Decision(): Decision
      reads this
    {
      Decide(driver, config, maker, appName, env)
    }
  }

  /**
   * determineDriver: fill in `in.Driver` when none was injected; on failure
   * return the error and leave it nil.
   */
  method DetermineDriver(in_: In) returns (err: Option<DriverError>, calls: seq<Call>)
    modifies in_
    ensures var d := old(in_.Decision());
      && calls == d.calls
      && err == (if d.driver.Err? then Some(d.driver.error) else None)
      && in_.driver == (if d.driver.Ok? then Some(d.driver.value) else old(in_.driver))
    ensures old(in_.driver).Some? ==> in_.driver == old(in_.driver)
    ensures err.Some? ==> in_.driver.None?
  {
    calls := [];
    if in_.driver.None? {
      calls := calls + [UnmarshalConfig(LeaderSection)];
      var option := in_.config(LeaderSection);
      if option.Err? {
        return Some(ConfigurationError(option.error)), calls;
      }
      var name := option.value.etcdName;
      if name == "" {
        name := DefaultEtcdName;
      }
      if in_.maker.None? {
        return Some(NoDriverSource), calls;
      }
      calls := calls + [MakeClient(name)];
      var client := in_.maker.value(name);
      if client.Err? {
        return Some(EtcdFailed(name, client.error)), calls;
      }
      in_.driver := Some(EtcdDriver(client.value, Key(in_.appName, in_.env)));
    }
    err := None;
  }

  /** The leadership status an Election owns; its state machine is not part of this model. */
  class Status {
    constructor ()
    {
    }
  }

  /** An Election: the dispatcher it notifies, its driver and the status it owns. */
  class Election {
    const dispatcher: Handle
    const driver: Driver
    const status: Status

    /** NewElection. */
    constructor (dispatcher: Handle, driver: Driver)
      ensures this.dispatcher == dispatcher && this.driver == driver
      ensures fresh(status)
    {
      this.dispatcher, this.driver := dispatcher, driver;
      status := new Status();
    }
  }

  /** What `provide` returns; both fields are nil in the empty `out`. */
  datatype Out = Out(election: Option<Election>, status: Option<Status>)

  /**
   * provide: determine the driver on a copy of the dependencies (Go passes
   * `in` by value); on failure return the empty `out` and the error, else a
   * new Election with the determined driver and that Election's own Status.
   */
  method Provide(in_: In) returns (o: Out, err: Option<DriverError>)
    ensures var d := in_.Decision();
      && (d.driver.Err? ==> o == Out(None, None) && err == Some(d.driver.error))
      && (d.driver.Ok? ==>
            && err == None && o.election.Some?
            && fresh(o.election.value) && o.status == Some(o.election.value.status)
            && o.election.value.driver == d.driver.value
            && o.election.value.dispatcher == in_.dispatcher)
  {
    var local := new In(in_.appName, in_.env, in_.config, in_.dispatcher, in_.driver, in_.maker);
    var calls;
    err, calls := DetermineDriver(local);
    if err.Some? {
      return Out(None, None), err;
    }
    var e := new Election(local.dispatcher, local.driver.value);
    o := Out(Some(e), Some(e.status));
  }

  // ---------------------------------------------------------------------------
  // ProvideRunGroup

  /** The steps of the run-group actor and interrupt, in the order they happen. */
  datatype Step = Campaign | AwaitDone | Resign | Cancel

  /**
   * The actor: campaign; a campaign error is returned at once, otherwise
   * wait for the context to be cancelled and return nil.
   */
  method Actor(campaignErr: Option<string>) returns (steps: seq<Step>, err: Option<string>)
    ensures err == campaignErr
    ensures steps == (if campaignErr.Some? then [Campaign] else [Campaign, AwaitDone])
  {
    steps := [Campaign];
    if campaignErr.Some? {
      return steps, campaignErr;
    }
    steps := steps + [AwaitDone];
    err := None;
  }

  /** The interrupt: resign with the run group's context, then cancel it. */
  method Interrupt() returns (steps: seq<Step>)
    ensures steps == [Resign, Cancel]
  {
    steps := [Resign];
    steps := steps + [Cancel];
  }

  // ---------------------------------------------------------------------------
  // provideConfig

  /** config.ExportedConfig of the core: owned by a module rather than named. */
  datatype OwnedConfig = OwnedConfig(owner: string, data: map<string, Value>, comment: string)

  /** provideConfig: the default `leader` section, naming the default etcd client. */
  function ProvideConfig(): (r: seq<OwnedConfig>)
    ensures |r| == 1 && r[0].owner == LeaderSection && r[0].data.Keys == {LeaderSection}
  {
    [OwnedConfig(LeaderSection, map[LeaderSection := Obj(map["etcdName" := Str(DefaultEtcdName)])],
                 "The leader election config")]
  }

  /** The `leader` section decoded: its `etcdName` string, or "" when there is none. */
  function DecodeOption(section: Value): LeaderOption
  {
    match section
    case Obj(fields) =>
      if "etcdName" in fields && fields["etcdName"].Str? then LeaderOption(fields["etcdName"].s)
      else LeaderOption("")
    case Str(_) => LeaderOption("")
  }

  /**
   * Running with the exported default configuration makes the same decision
   * as running with no `etcdName` at all: the exported default is the name
   * determineDriver falls back to.
   */
  lemma ExportedDefaultAgrees(maker: Option<string -> Result<Handle, string>>, appName: string, env: string)
    ensures var exported := DecodeOption(ProvideConfig()[0].data[LeaderSection]);
      && exported.etcdName == DefaultEtcdName
      && Decide(None, _ => Ok(exported), maker, appName, env)
         == Decide(None, _ => Ok(LeaderOption("")), maker, appName, env)
  {
  }
}
