/**
 * The device's in-memory record and the operations on it that change
 * parameters, the external check and the restart flag, or publish to the
 * hub. Publishing appends to an event log: a heartbeat, a data message or
 * an external-check message, in the order the device sends them.
 */
module Puzzle {
  import opened Wrappers
  import opened Values
  import opened Params
  import opened InitKeys

  /** One message the device publishes. */
  datatype Event =
    | Heartbeat(state: string)
    | Data(key: string, typ: TypeTag, data: Value)
    | ExternalCheck(active: bool, variable: Value)

  /** `{active, value}` of the external check. */
  datatype Check = Check(active: bool, value: Value)

  /** The device's record (`STATE`), the restart flag and the published
      messages so far. */
  datatype Store = Store(
    state: string,
    inputs: Dict,
    outputs: Dict,
    check: Check,
    needRestart: bool,
    events: seq<Event>)

  /** A configured default output `{type, data}`. */
  datatype Param = Param(typ: string, data: Value)

  /** One key of the configured `outputs` object; None when its value is
      falsy (such a key is skipped). */
  datatype ConfigOutput = ConfigOutput(key: string, param: Option<Param>)

  /** The configured `externalCheck` object. */
  datatype ConfigCheck = ConfigCheck(value: Value, active: Value)

  /** What the device reads from its configuration, and the runtime's
      `Number()` (Some when the conversion gives a finite number). */
  datatype Config = Config(
    restartKey: string,
    restartValue: string,
    outputs: Option<seq<ConfigOutput>>,
    externalCheck: Option<ConfigCheck>,
    parse: Value -> Option<real>)

  /** Both dictionaries are well formed and every media output names
      itself. */
  ghost predicate Inv(s: Store) {
    s.inputs.Valid() && s.outputs.Valid() && MediaOutputsNameThemselves(s.outputs)
  }

  /** The record before any configuration is applied. */
  function Initial(needRestart: bool): Store {
    Store("locked", Empty, Empty, Check(false, Null), needRestart, [])
  }

  // ---------------------------------------------------------------------
  // Parameters

  /** setInput */
  function SetInput(s: Store, key: string, tag: string, data: Value, parse: Value -> Option<real>): (r: Store)
    ensures key == "" ==> r == s
    ensures key != "" ==> Get(r.inputs, key) == Some(Entry(NormalizeType(tag), CoerceType(NormalizeType(tag), data, parse)))
    ensures forall k :: k != key ==> Get(r.inputs, k) == Get(s.inputs, k)
    ensures r == s.(inputs := r.inputs)
    ensures Inv(s) ==> Inv(r)
  {
    s.(inputs := StoreInput(s.inputs, key, tag, data, parse))
  }

  /** setOutput */
  function SetOutput(s: Store, key: string, tag: string, data: Value, parse: Value -> Option<real>): (r: Store)
    ensures key == "" ==> r == s
    ensures key != "" && NormalizeType(tag) == MediaType ==> Get(r.outputs, key) == Some(Entry(MediaType, Str(key)))
    ensures key != "" && NormalizeType(tag) != MediaType ==>
              Get(r.outputs, key) == Some(Entry(NormalizeType(tag), CoerceType(NormalizeType(tag), data, parse)))
    ensures forall k :: k != key ==> Get(r.outputs, k) == Get(s.outputs, k)
    ensures r == s.(outputs := r.outputs)
    ensures Inv(s) ==> Inv(r)
  {
    StoreOutputKeepsMediaNames(s.outputs, key, tag, data, parse);
    s.(outputs := StoreOutput(s.outputs, key, tag, data, parse))
  }

  /** The same setInput twice leaves the record as once. */
  lemma SetInputIdempotent(s: Store, key: string, tag: string, data: Value, parse: Value -> Option<real>)
    ensures var once := SetInput(s, key, tag, data, parse);
            SetInput(once, key, tag, data, parse) == once
  {
    StoreInputIdempotent(s.inputs, key, tag, data, parse);
  }

  /** The same setOutput twice leaves the record as once. */
  lemma SetOutputIdempotent(s: Store, key: string, tag: string, data: Value, parse: Value -> Option<real>)
    ensures var once := SetOutput(s, key, tag, data, parse);
            SetOutput(once, key, tag, data, parse) == once
  {
    StoreOutputIdempotent(s.outputs, key, tag, data, parse);
  }

  /** applyInitKeys: a declared array rebuilds its dictionary, an absent one
      leaves it alone; the outputs keep their data from before the rebuild. */
  function ApplyInitKeys(s: Store, inputs: Option<seq<Decl>>, outputs: Option<seq<Decl>>, parse: Value -> Option<real>): Store {
    var existing := s.outputs;
    var s1 := if inputs.Some? then s.(inputs := DeclareInputs(inputs.value, parse)) else s;
    if outputs.Some? then s1.(outputs := DeclareOutputs(outputs.value, existing, parse)) else s1
  }

  /** hasInitKeys */
  predicate HasInitKeys(inputs: Option<seq<Decl>>, outputs: Option<seq<Decl>>) {
    inputs.Some? || outputs.Some?
  }

  /** What applyInitKeys makes of the record: exactly the declared keys,
      inputs with null data coerced to their declared type, outputs with
      the data they had before (null for a new key); an absent array leaves
      its dictionary as it was; nothing else changes. */
  lemma ApplyInitKeysEffect(s: Store, inputs: Option<seq<Decl>>, outputs: Option<seq<Decl>>, parse: Value -> Option<real>)
    ensures var r := ApplyInitKeys(s, inputs, outputs, parse);
            && r == s.(inputs := r.inputs, outputs := r.outputs)
            && (inputs.None? ==> r.inputs == s.inputs)
            && (outputs.None? ==> r.outputs == s.outputs)
            && (!HasInitKeys(inputs, outputs) ==> r == s)
    ensures var r := ApplyInitKeys(s, inputs, outputs, parse);
            inputs.Some? ==>
              && r.inputs.Valid()
              && (forall k :: k in r.inputs.entries <==> k != "" && LastIndex(inputs.value, k) >= 0)
              && (forall k :: k in r.inputs.entries ==>
                    r.inputs.entries[k] == InputEntry(inputs.value[LastIndex(inputs.value, k)].typ, Null, parse))
    ensures var r := ApplyInitKeys(s, inputs, outputs, parse);
            outputs.Some? ==>
              && r.outputs.Valid() && MediaOutputsNameThemselves(r.outputs)
              && (forall k :: k in r.outputs.entries <==> k != "" && LastIndex(outputs.value, k) >= 0)
              && (forall k :: k in r.outputs.entries ==>
                    r.outputs.entries[k]
                    == OutputEntry(k, outputs.value[LastIndex(outputs.value, k)].typ, PrevData(s.outputs, k), parse))
    ensures Inv(s) ==> Inv(ApplyInitKeys(s, inputs, outputs, parse))
  {
    if inputs.Some? {
      DeclareInputsValid(inputs.value, parse);
      DeclareInputsEntries(inputs.value, parse);
    }
    if outputs.Some? {
      DeclareOutputsValid(outputs.value, s.outputs, parse);
      DeclareOutputsEntries(outputs.value, s.outputs, parse);
    }
  }

  // ---------------------------------------------------------------------
  // External check and restart flag

  /** setExternalCheckValue: the value is stored (undefined as null);
      `active` changes only when it is supplied. */
  function SetExternalCheckValue(s: Store, value: Value, active: Value): (r: Store)
    ensures r.check.value == OrNull(value) && r.check.value != Undefined
    ensures active == Undefined ==> r.check.active == s.check.active
    ensures active != Undefined ==> r.check.active == Truthy(active)
    ensures r == s.(check := r.check)
  {
    var next := if value == Undefined then Null else value;
    var act := if active != Undefined then Truthy(active) else s.check.active;
    s.(check := Check(act, next))
  }

  /** triggerExternalCheck: stores the value with `active` defaulting to
      true, then publishes exactly one external-check message carrying the
      stored pair. */
  function TriggerExternalCheck(s: Store, value: Value, active: Value): (r: Store)
    ensures r.check == Check(active == Undefined || Truthy(active), OrNull(value))
    ensures r.events == s.events + [ExternalCheck(r.check.active, r.check.value)]
    ensures r == s.(check := r.check, events := r.events)
  {
    var act := if active == Undefined then Bool(true) else active;
    var s1 := SetExternalCheckValue(s, value, act);
    s1.(events := s1.events + [ExternalCheck(s1.check.active, s1.check.value)])
  }

  /** Triggering twice with the same arguments publishes the same message
      twice: a repeat is never suppressed. */
  lemma TriggerExternalCheckRepeats(s: Store, value: Value, active: Value)
    ensures var once := TriggerExternalCheck(s, value, active);
            var twice := TriggerExternalCheck(once, value, active);
            && twice.check == once.check
            && twice.events == s.events + [once.events[|s.events|], once.events[|s.events|]]
  {
    var once := TriggerExternalCheck(s, value, active);
    assert once.events[|s.events|] == ExternalCheck(once.check.active, once.check.value);
  }

  /** setRestartRequired */
  function SetRestartRequired(s: Store, value: Value): (r: Store)
    ensures r.needRestart <==> Truthy(value)
    ensures r == s.(needRestart := r.needRestart)
  {
    s.(needRestart := Truthy(value))
  }

  /** triggerRestartCommand: the configured restart input receives the
      configured restart value as a string. */
  function TriggerRestartCommand(s: Store, cfg: Config): (r: Store)
    ensures cfg.restartKey == "" ==> r == s
    ensures cfg.restartKey != "" ==> Get(r.inputs, cfg.restartKey) == Some(Entry(StringType, Str(cfg.restartValue)))
    ensures forall k :: k != cfg.restartKey ==> Get(r.inputs, k) == Get(s.inputs, k)
    ensures r == s.(inputs := r.inputs)
    ensures s.inputs.Valid() ==> r.inputs.Valid()
    ensures Inv(s) ==> Inv(r)
  {
    NormalizeTagName(StringType);
    if cfg.restartKey == "" then s
    else SetInput(s, cfg.restartKey, "string", Str(cfg.restartValue), cfg.parse)
  }

  // ---------------------------------------------------------------------
  // Publishing

  /** publishHeartbeat */
  function PublishHeartbeat(s: Store): (r: Store)
    ensures r.events == s.events + [Heartbeat(s.state)]
    ensures r == s.(events := r.events)
  {
    s.(events := s.events + [Heartbeat(s.state)])
  }

  /** The data message for an output: a media output is announced by its
      key. */
  function OutputMessage(key: string, e: Entry): Event {
    Data(key, e.typ, if e.typ == MediaType then Str(key) else e.data)
  }

  /** publishData: nothing for a key that has no output. */
  function PublishData(s: Store, key: string): (r: Store)
    ensures key !in s.outputs.entries ==> r == s
    ensures key in s.outputs.entries ==> r.events == s.events + [OutputMessage(key, s.outputs.entries[key])]
    ensures r == s.(events := r.events)
  {
    match Get(s.outputs, key)
    case None => s
    case Some(e) => s.(events := s.events + [OutputMessage(key, e)])
  }

  /** Under the invariant the published data of an output is exactly the
      data stored for it. */
  lemma PublishedDataIsStored(s: Store, key: string)
    requires Inv(s) && key in s.outputs.entries
    ensures PublishData(s, key).events[|s.events|]
            == Data(key, s.outputs.entries[key].typ, s.outputs.entries[key].data)
  {
  }

  /** publishData for each of the given keys, in order. */
  function PublishKeys(s: Store, keys: seq<string>): Store
    decreases |keys|
  {
    if keys == [] then s
    else PublishData(PublishKeys(s, keys[..|keys| - 1]), keys[|keys| - 1])
  }

  /** publishAllOutputs */
  function PublishAllOutputs(s: Store): Store {
    PublishKeys(s, s.outputs.keys)
  }

  /** The data messages for the given keys, in order, skipping keys that
      have no output. */
  function OutputMessages(d: Dict, keys: seq<string>): seq<Event>
    decreases |keys|
  {
    if keys == [] then []
    else
      var k := keys[|keys| - 1];
      OutputMessages(d, keys[..|keys| - 1]) + (if k in d.entries then [OutputMessage(k, d.entries[k])] else [])
  }

  /** Publishing the given keys appends their data messages and changes
      nothing else. */
  lemma {:induction false} PublishKeysAppends(s: Store, keys: seq<string>)
    ensures PublishKeys(s, keys) == s.(events := s.events + OutputMessages(s.outputs, keys))
    decreases |keys|
  {
    if keys != [] {
      PublishKeysAppends(s, keys[..|keys| - 1]);
    }
  }

  /** publishAllOutputs: one data message per output appended after what
      was already published, nothing else changes. */
  lemma PublishAllOutputsAppends(s: Store)
    ensures PublishAllOutputs(s) == s.(events := s.events + OutputMessages(s.outputs, s.outputs.keys))
  {
    PublishKeysAppends(s, s.outputs.keys);
  }

  /** For present keys, the messages are one per key, in key order. */
  lemma {:induction false} OutputMessagesOfPresentKeys(d: Dict, keys: seq<string>)
    requires forall i :: 0 <= i < |keys| ==> keys[i] in d.entries
    ensures |OutputMessages(d, keys)| == |keys|
    ensures forall i :: 0 <= i < |keys| ==> OutputMessages(d, keys)[i] == OutputMessage(keys[i], d.entries[keys[i]])
    decreases |keys|
  {
    if keys != [] {
      var n := |keys| - 1;
      OutputMessagesOfPresentKeys(d, keys[..n]);
      forall i | 0 <= i < n
        ensures OutputMessages(d, keys)[i] == OutputMessage(keys[i], d.entries[keys[i]])
      {
        assert keys[..n][i] == keys[i];
      }
    }
  }

  /** publishAllOutputs publishes every output exactly once, in key order,
      and nothing else. */
  lemma AllOutputsOnceInOrder(d: Dict)
    requires d.Valid()
    ensures |OutputMessages(d, d.keys)| == |d.keys|
    ensures var m := OutputMessages(d, d.keys);
            && (forall i :: 0 <= i < |m| ==> m[i] == OutputMessage(d.keys[i], d.entries[d.keys[i]]))
            && (forall i :: 0 <= i < |m| ==> m[i].Data?)
            && (forall i, j :: 0 <= i < j < |m| ==> m[i].key != m[j].key)
            && (forall k :: k in d.entries ==> exists i :: 0 <= i < |m| && m[i].Data? && m[i].key == k)
  {
    OutputMessagesOfPresentKeys(d, d.keys);
    var m := OutputMessages(d, d.keys);
    forall k | k in d.entries
      ensures exists i :: 0 <= i < |m| && m[i].Data? && m[i].key == k
    {
      var i :| 0 <= i < |d.keys| && d.keys[i] == k;
      assert m[i].key == k;
    }
  }

  // ---------------------------------------------------------------------
  // Configuration defaults

  /** The outputs the configuration declares: `{}` then setOutput(key,
      type || "string", data) for each configured key with a value. */
  function ConfigOutputs(outs: seq<ConfigOutput>, parse: Value -> Option<real>): Dict
    decreases |outs|
  {
    if outs == [] then Empty
    else
      var prev := ConfigOutputs(outs[..|outs| - 1], parse);
      var o := outs[|outs| - 1];
      match o.param
      case None => prev
      case Some(p) => StoreOutput(prev, o.key, if p.typ == "" then "string" else p.typ, p.data, parse)
  }

  /** The configured outputs form a well-formed dictionary in which every
      media output names itself. */
  lemma {:induction false} ConfigOutputsValid(outs: seq<ConfigOutput>, parse: Value -> Option<real>)
    ensures ConfigOutputs(outs, parse).Valid()
    ensures MediaOutputsNameThemselves(ConfigOutputs(outs, parse))
    decreases |outs|
  {
    if outs != [] {
      var n := |outs| - 1;
      ConfigOutputsValid(outs[..n], parse);
      var prev := ConfigOutputs(outs[..n], parse);
      var o := outs[n];
      if o.param.Some? {
        var p := o.param.value;
        StoreOutputKeepsMediaNames(prev, o.key, if p.typ == "" then "string" else p.typ, p.data, parse);
      }
    }
  }

  /** The keys of the configured outputs are exactly the non-empty
      configured keys that have a value. */
  lemma {:induction false} ConfigOutputsKeys(outs: seq<ConfigOutput>, parse: Value -> Option<real>)
    ensures forall k :: k in ConfigOutputs(outs, parse).entries <==>
              k != "" && exists i :: 0 <= i < |outs| && outs[i].key == k && outs[i].param.Some?
    decreases |outs|
  {
    if outs != [] {
      var n := |outs| - 1;
      var front := outs[..n];
      ConfigOutputsKeys(front, parse);
      var prev := ConfigOutputs(front, parse);
      var o := outs[n];
      var r := ConfigOutputs(outs, parse);
      assert o.param.None? ==> r == prev;
      assert o.param.Some? ==> r.entries.Keys == if o.key == "" then prev.entries.Keys else prev.entries.Keys + {o.key};
      forall k
        ensures k in r.entries <==> k != "" && exists i :: 0 <= i < |outs| && outs[i].key == k && outs[i].param.Some?
      {
        if k != "" && exists i :: 0 <= i < |outs| && outs[i].key == k && outs[i].param.Some? {
          var i :| 0 <= i < |outs| && outs[i].key == k && outs[i].param.Some?;
          if i < n {
            assert front[i].key == k && front[i].param.Some?;
          }
        }
        if k in prev.entries {
          var i :| 0 <= i < n && front[i].key == k && front[i].param.Some?;
          assert outs[i] == front[i];
        }
      }
    }
  }

  /** The position of the last configured entry with key k that has a
      value, or -1 when there is none. */
  function LastConfigured(outs: seq<ConfigOutput>, k: string): (i: int)
    ensures -1 <= i < |outs|
    ensures i >= 0 ==> outs[i].key == k && outs[i].param.Some?
    ensures forall j :: i < j < |outs| ==> !(outs[j].key == k && outs[j].param.Some?)
    decreases |outs|
  {
    if outs == [] then -1
    else if outs[|outs| - 1].key == k && outs[|outs| - 1].param.Some? then |outs| - 1
    else LastConfigured(outs[..|outs| - 1], k)
  }

  /** What setOutput(key, type || "string", data) stores for a configured
      value. */
  function ConfiguredEntry(k: string, p: Param, parse: Value -> Option<real>): Entry {
    OutputEntry(k, if p.typ == "" then "string" else p.typ, p.data, parse)
  }

  /** Every configured default holds what setOutput(key, type || "string",
      data) stores for the key's last configured value: the normalised
      type, and the coerced data (the key itself for a media output). */
  lemma {:induction false} ConfigOutputsEntries(outs: seq<ConfigOutput>, parse: Value -> Option<real>)
    ensures forall k :: k in ConfigOutputs(outs, parse).entries ==>
              LastConfigured(outs, k) >= 0
              && ConfigOutputs(outs, parse).entries[k] == ConfiguredEntry(k, outs[LastConfigured(outs, k)].param.value, parse)
    decreases |outs|
  {
    if outs != [] {
      var n := |outs| - 1;
      var front := outs[..n];
      ConfigOutputsEntries(front, parse);
      ConfigOutputsKeys(outs, parse);
      ConfigOutputsStep(outs, parse);
    }
  }

  /** One step of ConfigOutputsEntries: the last configured entry either
      adds nothing or sets its own key, and every other key keeps its last
      configured position and its entry. */
  lemma ConfigOutputsStep(outs: seq<ConfigOutput>, parse: Value -> Option<real>)
    requires outs != []
    requires "" !in ConfigOutputs(outs, parse).entries
    requires var front := outs[..|outs| - 1];
             forall k :: k in ConfigOutputs(front, parse).entries ==>
               LastConfigured(front, k) >= 0
               && ConfigOutputs(front, parse).entries[k] == ConfiguredEntry(k, front[LastConfigured(front, k)].param.value, parse)
    ensures forall k :: k in ConfigOutputs(outs, parse).entries ==>
              LastConfigured(outs, k) >= 0
              && ConfigOutputs(outs, parse).entries[k] == ConfiguredEntry(k, outs[LastConfigured(outs, k)].param.value, parse)
  {
    var n := |outs| - 1;
    var front := outs[..n];
    var prev := ConfigOutputs(front, parse);
    var o := outs[n];
    var r := ConfigOutputs(outs, parse);
    forall k | k in r.entries
      ensures LastConfigured(outs, k) >= 0 && r.entries[k] == ConfiguredEntry(k, outs[LastConfigured(outs, k)].param.value, parse)
    {
      if o.param.Some? && o.key == k {
        assert LastConfigured(outs, k) == n;
        assert r == Put(prev, k, OutputEntry(k, if o.param.value.typ == "" then "string" else o.param.value.typ, o.param.value.data, parse));
      } else {
        assert LastConfigured(outs, k) == LastConfigured(front, k);
        assert k in prev.entries && r.entries[k] == prev.entries[k];
        assert outs[LastConfigured(front, k)] == front[LastConfigured(front, k)];
      }
    }
  }

  /** loadParamsFromConfig: configured outputs replace the outputs
      (`?? null` for the check value, `=== true` for its flag). */
  function LoadParamsFromConfig(s: Store, cfg: Config): Store {
    var s1 := if cfg.outputs.Some? then s.(outputs := ConfigOutputs(cfg.outputs.value, cfg.parse)) else s;
    match cfg.externalCheck
    case None => s1
    case Some(c) => SetExternalCheckValue(s1, OrNull(c.value), Bool(c.active == Bool(true)))
  }

  /** What loadParamsFromConfig changes: the outputs only when outputs are
      configured, the check only when a check is configured, and nothing
      else; the inputs and the log stay as they were. */
  lemma LoadParamsFromConfigEffect(s: Store, cfg: Config)
    ensures var r := LoadParamsFromConfig(s, cfg);
            && r == s.(outputs := r.outputs, check := r.check)
            && (cfg.outputs.None? ==> r.outputs == s.outputs)
            && (cfg.outputs.Some? ==> r.outputs == ConfigOutputs(cfg.outputs.value, cfg.parse))
            && (cfg.externalCheck.None? ==> r.check == s.check)
            && (cfg.externalCheck.Some? ==>
                  r.check == Check(cfg.externalCheck.value.active == Bool(true), OrNull(cfg.externalCheck.value.value)))
    ensures Inv(s) ==> Inv(LoadParamsFromConfig(s, cfg))
  {
    if cfg.outputs.Some? {
      ConfigOutputsValid(cfg.outputs.value, cfg.parse);
    }
  }

  /** The record after start-up: the initial record with the configuration
      applied. */
  function Boot(cfg: Config, needRestart: bool): (s: Store)
    ensures Inv(s)
    ensures s.state == "locked" && s.events == [] && s.inputs == Empty && s.needRestart == needRestart
  {
    LoadParamsFromConfigEffect(Initial(needRestart), cfg);
    LoadParamsFromConfig(Initial(needRestart), cfg)
  }
}
