/**
 * The device agent as the program runs it: one object holding the
 * in-memory record, whose methods update it step by step. Each method is
 * proved to leave the record as the corresponding specification function
 * of the record says.
 */
module Device {
  import opened Wrappers
  import opened Values
  import opened Params
  import opened InitKeys
  import opened Media
  import opened Puzzle
  import opened Lifecycle
  import opened Commands

  class PuzzleAgent {
    /** The configuration read at start-up. */
    const cfg: Config

    var state: string
    var inputs: Dict
    var outputs: Dict
    var check: Check
    var needRestart: bool
    /** Everything published so far, oldest first. */
    var events: seq<Event>

    /** The record as a value. */
    function Snapshot(): Store
      reads this
    {
      Store(state, inputs, outputs, check, needRestart, events)
    }

    ghost predicate Valid()
      reads this
    {
      Inv(Snapshot())
    }

    /** Start-up: the initial record, then loadParamsFromConfig. */
    constructor (config: Config, restartRequired: bool)
      ensures cfg == config
      ensures Snapshot() == Boot(config, restartRequired)
      ensures Valid()
    {
      cfg := config;
      state := "locked";
      inputs := Empty;
      outputs := Empty;
      check := Check(false, Null);
      needRestart := restartRequired;
      events := [];
      new;
      LoadParamsFromConfig();
    }

    method SetInput(key: string, tag: string, data: Value)
      requires Valid()
      modifies this
      ensures Snapshot() == Puzzle.SetInput(old(Snapshot()), key, tag, data, cfg.parse)
      ensures Valid()
    {
      if key == "" {
        return;
      }
      var finalType := NormalizeType(tag);
      inputs := Put(inputs, key, Entry(finalType, CoerceType(finalType, data, cfg.parse)));
    }

    method SetOutput(key: string, tag: string, data: Value)
      requires Valid()
      modifies this
      ensures Snapshot() == Puzzle.SetOutput(old(Snapshot()), key, tag, data, cfg.parse)
      ensures Valid()
    {
      if key == "" {
        return;
      }
      var finalType := NormalizeType(tag);
      if finalType == MediaType {
        outputs := Put(outputs, key, Entry(finalType, Str(key)));
        return;
      }
      outputs := Put(outputs, key, Entry(finalType, CoerceType(finalType, data, cfg.parse)));
    }

    method ApplyInitKeys(inputDecls: Option<seq<Decl>>, outputDecls: Option<seq<Decl>>)
      requires Valid()
      modifies this
      ensures Snapshot() == Puzzle.ApplyInitKeys(old(Snapshot()), inputDecls, outputDecls, cfg.parse)
      ensures Valid()
    {
      var existingOutputs := outputs;
      if inputDecls.Some? {
        DeclareInputsInPlace(inputDecls.value);
      }
      if outputDecls.Some? {
        DeclareOutputsInPlace(outputDecls.value, existingOutputs);
      }
    }

    /** The inputs emptied, then one setInput(key, type, null) per
        declaration. */
    method DeclareInputsInPlace(decls: seq<Decl>)
      requires Valid()
      modifies this
      ensures Snapshot() == old(Snapshot()).(inputs := DeclareInputs(decls, cfg.parse))
      ensures Valid()
    {
      inputs := Empty;
      assert DeclareInputs(decls[..0], cfg.parse) == Empty;
      for i := 0 to |decls|
        invariant Snapshot() == old(Snapshot()).(inputs := DeclareInputs(decls[..i], cfg.parse))
        invariant Valid()
      {
        assert decls[..i + 1][..i] == decls[..i];
        SetInput(DeclKey(decls[i]), decls[i].typ, Null);
      }
      assert decls[..|decls|] == decls;
    }

    /** The outputs emptied, then one setOutput per declaration with the
        data the key held in `existing`, or null. */
    method DeclareOutputsInPlace(decls: seq<Decl>, existing: Dict)
      requires Valid()
      modifies this
      ensures Snapshot() == old(Snapshot()).(outputs := DeclareOutputs(decls, existing, cfg.parse))
      ensures Valid()
    {
      outputs := Empty;
      for i := 0 to |decls|
        invariant Snapshot() == old(Snapshot()).(outputs := DeclareOutputs(decls[..i], existing, cfg.parse))
        invariant Valid()
      {
        assert decls[..i + 1][..i] == decls[..i];
        var key := DeclKey(decls[i]);
        var prevData := if key in existing.entries then existing.entries[key].data else Null;
        SetOutput(key, decls[i].typ, prevData);
      }
      assert decls[..|decls|] == decls;
    }

    method SetExternalCheckValue(value: Value, active: Value)
      modifies this
      ensures Snapshot() == Puzzle.SetExternalCheckValue(old(Snapshot()), value, active)
    {
      var next := if value == Undefined then Null else value;
      check := check.(value := next);
      if active != Undefined {
        check := check.(active := Truthy(active));
      }
    }

    /** getExternalCheckValue: a copy of the stored pair. */
    function GetExternalCheckValue(): (c: Check)
      reads this
      ensures c == Snapshot().check
    {
      check
    }

    method TriggerExternalCheck(value: Value, active: Value)
      modifies this
      ensures Snapshot() == Puzzle.TriggerExternalCheck(old(Snapshot()), value, active)
    {
      var act := if active == Undefined then Bool(true) else active;
      SetExternalCheckValue(value, act);
      events := events + [ExternalCheck(check.active, check.value)];
    }

    method SetRestartRequired(value: Value)
      modifies this
      ensures Snapshot() == Puzzle.SetRestartRequired(old(Snapshot()), value)
    {
      needRestart := Truthy(value);
    }

    method TriggerRestartCommand()
      requires Valid()
      modifies this
      ensures Snapshot() == Puzzle.TriggerRestartCommand(old(Snapshot()), cfg)
      ensures Valid()
    {
      if cfg.restartKey == "" {
        return;
      }
      SetInput(cfg.restartKey, "string", Str(cfg.restartValue));
    }

    method PublishHeartbeat()
      modifies this
      ensures Snapshot() == Puzzle.PublishHeartbeat(old(Snapshot()))
    {
      events := events + [Heartbeat(state)];
    }

    method PublishData(key: string)
      modifies this
      ensures Snapshot() == Puzzle.PublishData(old(Snapshot()), key)
    {
      if key !in outputs.entries {
        return;
      }
      var entry := outputs.entries[key];
      var payloadData := if entry.typ == MediaType then Str(key) else entry.data;
      events := events + [Data(key, entry.typ, payloadData)];
    }

    method PublishAllOutputs()
      modifies this
      ensures Snapshot() == Puzzle.PublishAllOutputs(old(Snapshot()))
    {
      var keys := outputs.keys;
      for i := 0 to |keys|
        invariant Snapshot() == PublishKeys(old(Snapshot()), keys[..i])
      {
        assert keys[..i + 1][..i] == keys[..i];
        PublishKeysAppends(old(Snapshot()), keys[..i]);
        PublishData(keys[i]);
      }
      assert keys[..|keys|] == keys;
    }

    method LoadParamsFromConfig()
      requires Valid()
      modifies this
      ensures Snapshot() == Puzzle.LoadParamsFromConfig(old(Snapshot()), cfg)
      ensures Valid()
    {
      if cfg.outputs.Some? {
        ConfigureOutputs(cfg.outputs.value);
      }
      if cfg.externalCheck.Some? {
        var c := cfg.externalCheck.value;
        var value := if c.value == Undefined || c.value == Null then Null else c.value;
        var active := c.active == Bool(true);
        SetExternalCheckValue(value, Bool(active));
      }
    }

    /** The outputs emptied, then setOutput(key, type || "string", data)
        for each configured key that has a value. */
    method ConfigureOutputs(outs: seq<ConfigOutput>)
      requires Valid()
      modifies this
      ensures Snapshot() == old(Snapshot()).(outputs := ConfigOutputs(outs, cfg.parse))
      ensures Valid()
    {
      outputs := Empty;
      for i := 0 to |outs|
        invariant Snapshot() == old(Snapshot()).(outputs := ConfigOutputs(outs[..i], cfg.parse))
        invariant Valid()
      {
        assert outs[..i + 1][..i] == outs[..i];
        var o := outs[i];
        if o.param.Some? {
          var p := o.param.value;
          SetOutput(o.key, if p.typ == "" then "string" else p.typ, p.data);
        }
      }
      assert outs[..|outs|] == outs;
    }

    method SetLocalState(next: string, publishOutputs: bool)
      modifies this
      ensures Snapshot() == Commit(old(Snapshot()), next, publishOutputs)
    {
      state := next;
      PublishHeartbeat();
      if publishOutputs {
        PublishAllOutputs();
      }
    }

    /** transitionState; the messages of failed transfers are returned. */
    method TransitionState(newState: string, svc: MediaService) returns (errors: seq<string>)
      requires Valid()
      modifies this
      ensures Snapshot() == Transition(old(Snapshot()), newState)
      ensures errors == TransitionErrors(old(Snapshot()), newState, svc)
      ensures Valid()
    {
      TransitionKeepsInv(Snapshot(), newState);
      var desired := if newState == "active" then "running" else newState;
      errors := [];
      if desired == "starting" {
        SetLocalState("starting", false);
        return;
      }
      if desired == "running" {
        var mediaInputs := PendingDownloads(inputs);
        if |mediaInputs| > 0 {
          SetLocalState("downloading", false);
          errors := DownloadMediaInputs(mediaInputs, svc);
        }
        SetLocalState("running", false);
        return;
      }
      if desired == "solved" {
        var mediaOutputs := MediaOutputKeys(outputs);
        if |mediaOutputs| > 0 {
          SetLocalState("uploading", false);
          errors := UploadMediaOutputs(mediaOutputs, svc);
        }
        SetLocalState("solved", true);
        return;
      }
      SetLocalState(desired, false);
    }

    /** handleRestartCommand; the messages of failed downloads are
        returned. */
    method HandleRestartCommand(svc: MediaService) returns (errors: seq<string>)
      requires Valid()
      modifies this
      ensures Snapshot() == Restart(old(Snapshot()), cfg)
      ensures errors == RestartErrors(old(Snapshot()), cfg, svc)
      ensures Valid()
    {
      RestartKeepsInv(Snapshot(), cfg);
      TriggerRestartCommand();
      if needRestart {
        SetLocalState("starting", false);
      }
      var mediaInputs := PendingDownloads(inputs);
      errors := [];
      if |mediaInputs| > 0 {
        SetLocalState("downloading", false);
        errors := DownloadMediaInputs(mediaInputs, svc);
      }
      if !needRestart {
        SetLocalState("running", false);
      }
    }

    /** The /restartComplete route; the state is returned. */
    method RestartComplete() returns (current: string)
      modifies this
      ensures Snapshot() == Lifecycle.RestartComplete(old(Snapshot()))
      ensures current == state
    {
      if state == "starting" {
        SetLocalState("running", false);
      }
      current := state;
    }

    /** The /setState route: the refusal message, or the state reached. */
    method SetStateRoute(newState: string, svc: MediaService) returns (r: Result<string, string>)
      requires Valid()
      modifies this
      ensures var spec := Commands.SetStateRoute(old(Snapshot()), newState);
              && (spec.Failure? ==> r == Failure(spec.error) && Snapshot() == old(Snapshot()))
              && (spec.Success? ==> Snapshot() == spec.value && r == Success(state))
      ensures Valid()
    {
      if newState !in HttpStates {
        return Failure("Invalid state");
      }
      var _ := TransitionState(newState, svc);
      return Success(state);
    }

    /** handleMqttCommand; the record keeps its invariant. */
    method HandleMqttCommand(p: Payload, svc: MediaService)
      requires Valid()
      modifies this
      ensures Snapshot() == Dispatch(old(Snapshot()), cfg, p)
      ensures Valid()
    {
      DispatchKeepsInv(Snapshot(), cfg, p);
      match ActionOf(p.action)
      case InitKeysCmd =>
        ApplyInitKeys(p.inputs, p.outputs);
        PublishHeartbeat();
      case ClearDataCmd =>
        inputs := Empty;
        outputs := Empty;
        LoadParamsFromConfig();
        PublishHeartbeat();
      case RestartCmd =>
        var _ := HandleRestartCommand(svc);
      case SetStateCmd =>
        if p.state in MqttStates {
          var _ := TransitionState(p.state, svc);
        }
      case RequestDataCmd =>
        var key := KeyOf(p);
        if key != "" {
          PublishData(key);
        } else {
          PublishAllOutputs();
        }
        PublishHeartbeat();
      case SendParamCmd =>
        var key := KeyOf(p);
        if key != "" {
          SetInput(key, p.typ, p.data);
        }
        PublishHeartbeat();
      case SendOutputCmd =>
        var key := KeyOf(p);
        if key != "" {
          SetOutput(key, p.typ, p.data);
          PublishData(key);
        }
        PublishHeartbeat();
      case UnknownCmd =>
    }
  }
}
