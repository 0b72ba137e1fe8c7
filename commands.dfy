/**
 * The command dispatcher of the publish/subscribe channel
 * (handleMqttCommand) and the validation of the request/response
 * channel's /setState route, both entering the same state machine.
 */
module Commands {
  import opened Wrappers
  import opened Values
  import opened Params
  import opened InitKeys
  import opened Puzzle
  import opened Lifecycle

  /** The fields of a command payload the dispatcher reads. Text fields
      are "" when absent or not a string; a declaration list is None when
      the field is not an array. */
  datatype Payload = Payload(
    action: string,
    key: string,
    typ: string,
    data: Value,
    state: string,
    inputs: Option<seq<Decl>>,
    outputs: Option<seq<Decl>>)

  /** `payload.key || payload.type` */
  function KeyOf(p: Payload): string {
    if p.key != "" then p.key else p.typ
  }

  /** The states a setState command may ask for. */
  const MqttStates: seq<string> := ["locked", "starting", "running", "solved", "active", "uploading", "downloading"]

  /** The states the /setState route accepts: no "active". */
  const HttpStates: seq<string> := ["locked", "starting", "running", "solved", "uploading", "downloading"]

  /** The actions the dispatcher recognises, and everything else. */
  datatype Action =
    | InitKeysCmd | ClearDataCmd | RestartCmd | SetStateCmd
    | RequestDataCmd | SendParamCmd | SendOutputCmd
    | UnknownCmd

  /** The names of the recognised actions. */
  const ActionNames: seq<string> := ["initKeys", "clearData", "restart", "setState", "requestData", "sendParam", "sendOutput"]

  /** The action a name selects, compared exactly (no case folding). */
  function ActionOf(name: string): (a: Action)
    ensures a == UnknownCmd <==> name !in ActionNames
  {
    if name == "initKeys" then InitKeysCmd
    else if name == "clearData" then ClearDataCmd
    else if name == "restart" then RestartCmd
    else if name == "setState" then SetStateCmd
    else if name == "requestData" then RequestDataCmd
    else if name == "sendParam" then SendParamCmd
    else if name == "sendOutput" then SendOutputCmd
    else UnknownCmd
  }

  /** handleMqttCommand */
  function Dispatch(s: Store, cfg: Config, p: Payload): Store {
    match ActionOf(p.action)
    case InitKeysCmd =>
      PublishHeartbeat(ApplyInitKeys(s, p.inputs, p.outputs, cfg.parse))
    case ClearDataCmd =>
      PublishHeartbeat(LoadParamsFromConfig(s.(inputs := Empty, outputs := Empty), cfg))
    case RestartCmd =>
      Restart(s, cfg)
    case SetStateCmd =>
      if p.state in MqttStates then Transition(s, p.state) else s
    case RequestDataCmd =>
      var key := KeyOf(p);
      PublishHeartbeat(if key != "" then PublishData(s, key) else PublishAllOutputs(s))
    case SendParamCmd =>
      var key := KeyOf(p);
      PublishHeartbeat(if key != "" then SetInput(s, key, p.typ, p.data, cfg.parse) else s)
    case SendOutputCmd =>
      var key := KeyOf(p);
      PublishHeartbeat(if key != "" then PublishData(SetOutput(s, key, p.typ, p.data, cfg.parse), key) else s)
    case UnknownCmd => s
  }

  /** An unrecognised action, and a setState asking for a state outside
      the allowed seven, change nothing and publish nothing. */
  lemma DispatchIgnores(s: Store, cfg: Config, p: Payload)
    requires p.action !in ActionNames || (p.action == "setState" && p.state !in MqttStates)
    ensures Dispatch(s, cfg, p) == s
  {
  }

  /** The commands other than restart and setState each end with exactly
      one heartbeat, even when the key is missing and nothing was stored;
      it is the last thing published. */
  lemma DispatchEndsWithHeartbeat(s: Store, cfg: Config, p: Payload)
    requires ActionOf(p.action) in {InitKeysCmd, ClearDataCmd, RequestDataCmd, SendParamCmd, SendOutputCmd}
    ensures var r := Dispatch(s, cfg, p);
            && |r.events| > |s.events|
            && r.events[|r.events| - 1] == Heartbeat(s.state)
            && forall i :: |s.events| <= i < |r.events| - 1 ==> !r.events[i].Heartbeat?
  {
    if ActionOf(p.action) == RequestDataCmd && KeyOf(p) == "" {
      PublishAllOutputsAppends(s);
      OutputMessagesAreData(s.outputs, s.outputs.keys);
      HeartbeatCloses(s, PublishAllOutputs(s));
    }
  }

  /** A heartbeat after messages that hold none is the only heartbeat of
      the run. */
  lemma HeartbeatCloses(s: Store, t: Store)
    requires t.state == s.state && |t.events| >= |s.events|
    requires forall i :: |s.events| <= i < |t.events| ==> !t.events[i].Heartbeat?
    ensures var r := PublishHeartbeat(t);
            && |r.events| > |s.events|
            && r.events[|r.events| - 1] == Heartbeat(s.state)
            && forall i :: |s.events| <= i < |r.events| - 1 ==> !r.events[i].Heartbeat?
  {
  }

  /** Output messages carry no heartbeat. */
  lemma {:induction false} OutputMessagesAreData(d: Dict, keys: seq<string>)
    ensures forall i :: 0 <= i < |OutputMessages(d, keys)| ==> OutputMessages(d, keys)[i].Data?
    decreases |keys|
  {
    if keys != [] {
      OutputMessagesAreData(d, keys[..|keys| - 1]);
    }
  }

  /** clearData: both dictionaries are emptied before the configuration
      is applied again, so the inputs end empty and the outputs end as the
      configured defaults (empty when none are configured); a configured
      external check is applied again, and the restart flag is kept. */
  lemma ClearDataResets(s: Store, cfg: Config, p: Payload)
    requires p.action == "clearData"
    ensures var r := Dispatch(s, cfg, p);
            && r.inputs == Empty
            && r.outputs == (if cfg.outputs.Some? then ConfigOutputs(cfg.outputs.value, cfg.parse) else Empty)
            && r.check == (if cfg.externalCheck.Some?
                           then Check(cfg.externalCheck.value.active == Bool(true), OrNull(cfg.externalCheck.value.value))
                           else s.check)
            && r.needRestart == s.needRestart
            && r.state == s.state
            && r.events == s.events + [Heartbeat(s.state)]
  {
    LoadParamsFromConfigEffect(s.(inputs := Empty, outputs := Empty), cfg);
  }

  /** requestData: without a key every output is published, with a key
      only that output (nothing when it has none); then one heartbeat. */
  lemma RequestDataPublishes(s: Store, cfg: Config, p: Payload)
    requires p.action == "requestData"
    ensures var key := KeyOf(p);
            Dispatch(s, cfg, p) == s.(events := s.events
              + (if key == "" then OutputMessages(s.outputs, s.outputs.keys)
                 else if key in s.outputs.entries then [OutputMessage(key, s.outputs.entries[key])]
                 else [])
              + [Heartbeat(s.state)])
  {
    PublishAllOutputsAppends(s);
  }

  /** sendOutput publishes the stored output at once; a media output is
      published with its key as the data. */
  lemma SendOutputPublishes(s: Store, cfg: Config, p: Payload)
    requires p.action == "sendOutput" && KeyOf(p) != ""
    ensures var key := KeyOf(p);
            var stored := SetOutput(s, key, p.typ, p.data, cfg.parse);
            && Dispatch(s, cfg, p) == stored.(events := s.events + [OutputMessage(key, stored.outputs.entries[key]), Heartbeat(s.state)])
            && (NormalizeType(p.typ) == MediaType ==> Dispatch(s, cfg, p).events[|s.events|] == Data(key, MediaType, Str(key)))
  {
  }

  /** The same sendOutput twice stores the same entry and publishes the
      same data message both times. */
  lemma SendOutputTwice(s: Store, cfg: Config, p: Payload)
    requires p.action == "sendOutput"
    ensures var once := Dispatch(s, cfg, p);
            var twice := Dispatch(once, cfg, p);
            && twice.outputs == once.outputs
            && twice.events[|once.events|..] == once.events[|s.events|..]
  {
    var key := KeyOf(p);
    SetOutputIdempotent(s, key, p.typ, p.data, cfg.parse);
  }

  /** Every command keeps the record's invariant. */
  lemma DispatchKeepsInv(s: Store, cfg: Config, p: Payload)
    requires Inv(s)
    ensures Inv(Dispatch(s, cfg, p))
  {
    match ActionOf(p.action)
    case InitKeysCmd => ApplyInitKeysEffect(s, p.inputs, p.outputs, cfg.parse);
    case ClearDataCmd => LoadParamsFromConfigEffect(s.(inputs := Empty, outputs := Empty), cfg);
    case RestartCmd => RestartKeepsInv(s, cfg);
    case SetStateCmd => if p.state in MqttStates { TransitionKeepsInv(s, p.state); }
    case RequestDataCmd => PublishAllOutputsAppends(s);
    case _ =>
  }

  /** The /setState route: a state outside the six it lists is refused
      with "Invalid state" and changes nothing; an accepted one is
      reached. */
  function SetStateRoute(s: Store, newState: string): (r: Result<Store, string>)
    ensures newState !in HttpStates <==> r == Failure("Invalid state")
    ensures r.Success? ==> r.value.state == newState && r.value == Transition(s, newState)
  {
    if newState !in HttpStates then Failure("Invalid state")
    else
      TransitionReachesTarget(s, newState);
      Success(Transition(s, newState))
  }

  /** "active" is accepted as a command but refused by the route; every
      state the route accepts is also accepted as a command. */
  lemma ChannelsDifferOnActive()
    ensures "active" in MqttStates && "active" !in HttpStates
    ensures forall st :: st in HttpStates ==> st in MqttStates
  {
  }
}
