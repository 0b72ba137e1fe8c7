/**
 * The lifecycle state machine: committing a state (setLocalState), the
 * per-target transition rules with their downloading/uploading detours,
 * the restart protocol and the restart-complete rule.
 *
 * The media transfers inside a transition only produce error messages,
 * which the device logs; the record a transition produces is therefore the
 * same whatever the media service answers, and the messages are given by a
 * separate function of the record and the service.
 */
module Lifecycle {
  import opened Wrappers
  import opened Values
  import opened Params
  import opened Media
  import opened Puzzle

  /** The state a request asks for: "active" is another name for
      "running", anything else is taken verbatim. */
  function Desired(newState: string): (d: string)
    ensures newState == "active" ==> d == "running"
    ensures newState != "active" ==> d == newState
  {
    if newState == "active" then "running" else newState
  }

  /** setLocalState: commit the state, announce it, and when asked,
      publish every output after the heartbeat. */
  function Commit(s: Store, next: string, publishOutputs: bool): (r: Store)
    ensures r.state == next
    ensures r.events == s.events + [Heartbeat(next)]
                        + (if publishOutputs then OutputMessages(s.outputs, s.outputs.keys) else [])
    ensures r == s.(state := next, events := r.events)
  {
    var s1 := PublishHeartbeat(s.(state := next));
    if publishOutputs then
      PublishAllOutputsAppends(s1);
      PublishAllOutputs(s1)
    else s1
  }

  /** transitionState */
  function Transition(s: Store, newState: string): Store {
    var desired := Desired(newState);
    if desired == "starting" then Commit(s, "starting", false)
    else if desired == "running" then
      var s1 := if |PendingDownloads(s.inputs)| > 0 then Commit(s, "downloading", false) else s;
      Commit(s1, "running", false)
    else if desired == "solved" then
      var s1 := if |MediaOutputKeys(s.outputs)| > 0 then Commit(s, "uploading", false) else s;
      Commit(s1, "solved", true)
    else Commit(s, desired, false)
  }

  /** The error messages the transfers of a transition produce. */
  function TransitionErrors(s: Store, newState: string, svc: MediaService): seq<string> {
    var desired := Desired(newState);
    if desired == "running" && |PendingDownloads(s.inputs)| > 0 then
      DownloadErrors(PendingDownloads(s.inputs), svc)
    else if desired == "solved" && |MediaOutputKeys(s.outputs)| > 0 then
      UploadErrors(MediaOutputKeys(s.outputs), svc)
    else []
  }

  /** Every transition ends in the state asked for (with "active" read as
      "running"), whatever the transfers report, and touches neither the
      parameters, nor the external check, nor the restart flag; it only
      appends to what was published. */
  lemma TransitionReachesTarget(s: Store, newState: string)
    ensures var r := Transition(s, newState);
            && r.state == Desired(newState)
            && r == s.(state := r.state, events := r.events)
            && |r.events| > |s.events| && r.events[..|s.events|] == s.events
  {
    var r := Transition(s, newState);
    assert r.events[..|s.events|] == s.events;
  }

  /** Moving to running announces a downloading detour exactly when some
      media input has a non-blank reference. */
  lemma TransitionRunningTrace(s: Store, newState: string)
    requires s.inputs.Valid() && Desired(newState) == "running"
    ensures Transition(s, newState).events
            == s.events + (if HasPendingMedia(s.inputs) then [Heartbeat("downloading")] else []) + [Heartbeat("running")]
  {
    PendingDownloadsIff(s.inputs);
  }

  /** Moving to solved announces an uploading detour exactly when some
      output is media-typed, then solved, then every output once in key
      order. */
  lemma TransitionSolvedTrace(s: Store, newState: string)
    requires s.outputs.Valid() && Desired(newState) == "solved"
    ensures Transition(s, newState).events
            == s.events + (if HasMediaOutput(s.outputs) then [Heartbeat("uploading")] else [])
               + [Heartbeat("solved")] + OutputMessages(s.outputs, s.outputs.keys)
  {
    MediaOutputKeysIff(s.outputs);
  }

  /** Any other target is committed directly with a single heartbeat. */
  lemma TransitionOtherTrace(s: Store, newState: string)
    requires Desired(newState) != "running" && Desired(newState) != "solved"
    ensures Transition(s, newState).events == s.events + [Heartbeat(Desired(newState))]
  {
  }

  /** A transition's error list holds at most one message per transferred
      entry, and none when there is nothing to transfer. */
  lemma TransitionErrorsBound(s: Store, newState: string, svc: MediaService)
    ensures |TransitionErrors(s, newState, svc)| <=
              if Desired(newState) == "running" then |PendingDownloads(s.inputs)|
              else if Desired(newState) == "solved" then |MediaOutputKeys(s.outputs)|
              else 0
  {
    DownloadErrorsBound(PendingDownloads(s.inputs), svc);
    UploadErrorsBound(MediaOutputKeys(s.outputs), svc);
  }

  /** A transition keeps the record's invariant. */
  lemma TransitionKeepsInv(s: Store, newState: string)
    requires Inv(s)
    ensures Inv(Transition(s, newState))
  {
    TransitionReachesTarget(s, newState);
  }

  /** A dictionary holding a single media input with a non-blank
      reference has exactly that input pending. */
  lemma SingleMediaInputPending(key: string, ref: string)
    requires !IsBlank(ref)
    ensures PendingDownloads(Dict([key], map[key := Entry(MediaType, Str(ref))])) == [MediaRef(key, Str(ref))]
  {
    var d := Dict([key], map[key := Entry(MediaType, Str(ref))]);
    var e := MediaRef(key, Str(ref));
    assert d.keys[..0] == [];
    assert MediaRefsAmong(d.keys, d.entries) == MediaRefsAmong([], d.entries) + [e];
    assert HasText(e.ref);
    assert [e][..0] == [];
    assert WithText([e]) == WithText([]) + [e];
  }

  /** Locked to running with one media input whose reference cannot be
      resolved: the device still ends in running, after a downloading
      detour, and reports exactly one error naming the key. */
  lemma RunningWithOneUnresolvableInput(key: string, ref: string, msg: string, svc: MediaService)
    requires !IsBlank(ref) && svc.resolve(Str(ref)) == Failure(msg)
    ensures var s := Puzzle.Initial(false).(inputs := Dict([key], map[key := Entry(MediaType, Str(ref))]));
            && Transition(s, "running").state == "running"
            && Transition(s, "running").events == [Heartbeat("downloading"), Heartbeat("running")]
            && TransitionErrors(s, "running", svc) == [DownloadFailed(key, msg)]
  {
    var s := Puzzle.Initial(false).(inputs := Dict([key], map[key := Entry(MediaType, Str(ref))]));
    SingleMediaInputPending(key, ref);
    RunningWithPendingDownloads(s, svc);
    SingleFailedResolve(MediaRef(key, Str(ref)), svc, msg);
  }

  /** Moving to running with something to download: a downloading detour,
      the downloads' errors, and running at the end. */
  lemma RunningWithPendingDownloads(s: Store, svc: MediaService)
    requires |PendingDownloads(s.inputs)| > 0
    ensures Transition(s, "running") == s.(state := "running", events := s.events + [Heartbeat("downloading"), Heartbeat("running")])
    ensures TransitionErrors(s, "running", svc) == DownloadErrors(PendingDownloads(s.inputs), svc)
  {
    assert Desired("running") == "running";
  }

  // ---------------------------------------------------------------------
  // Restart

  /** handleRestartCommand: signal the restart input; with the restart flag
      set commit starting; download pending media inputs under a
      downloading detour; without the flag commit running. */
  function Restart(s: Store, cfg: Config): Store {
    var s1 := TriggerRestartCommand(s, cfg);
    var s2 := if s.needRestart then Commit(s1, "starting", false) else s1;
    var s3 := if |PendingDownloads(s2.inputs)| > 0 then Commit(s2, "downloading", false) else s2;
    if !s.needRestart then Commit(s3, "running", false) else s3
  }

  /** The error messages of the downloads a restart runs. */
  function RestartErrors(s: Store, cfg: Config, svc: MediaService): seq<string> {
    var inputs := TriggerRestartCommand(s, cfg).inputs;
    if |PendingDownloads(inputs)| > 0 then DownloadErrors(PendingDownloads(inputs), svc) else []
  }

  /** The steps of a restart, with "something to download" read off the
      signalled inputs. */
  lemma RestartSteps(s: Store, cfg: Config)
    ensures var signalled := TriggerRestartCommand(s, cfg);
            var pending := |PendingDownloads(signalled.inputs)| > 0;
            var r := Restart(s, cfg);
            && r == signalled.(state := r.state, events := r.events)
            && r.events == s.events
                           + (if s.needRestart then [Heartbeat("starting")] else [])
                           + (if pending then [Heartbeat("downloading")] else [])
                           + (if !s.needRestart then [Heartbeat("running")] else [])
            && r.state == (if !s.needRestart then "running" else if pending then "downloading" else "starting")
  {
    var signalled := TriggerRestartCommand(s, cfg);
    var s2 := if s.needRestart then Commit(signalled, "starting", false) else signalled;
    assert s2 == signalled.(state := s2.state, events := s2.events);
    assert s2.events == s.events + (if s.needRestart then [Heartbeat("starting")] else []);
    var pending := |PendingDownloads(s2.inputs)| > 0;
    var s3 := if pending then Commit(s2, "downloading", false) else s2;
    assert s3 == signalled.(state := s3.state, events := s3.events);
    assert s3.events == s2.events + (if pending then [Heartbeat("downloading")] else []);
    assert Restart(s, cfg) == if !s.needRestart then Commit(s3, "running", false) else s3;
  }

  /** Where a restart ends and what it announces on the way. Without the
      restart flag it always ends in running; with the flag it stays in
      starting, unless there were media inputs to download, in which case
      it stays in downloading: nothing moves it out of that state. */
  lemma RestartOutcome(s: Store, cfg: Config)
    requires s.inputs.Valid()
    ensures var signalled := TriggerRestartCommand(s, cfg);
            var pending := HasPendingMedia(signalled.inputs);
            var r := Restart(s, cfg);
            && r == signalled.(state := r.state, events := r.events)
            && r.events == s.events
                           + (if s.needRestart then [Heartbeat("starting")] else [])
                           + (if pending then [Heartbeat("downloading")] else [])
                           + (if !s.needRestart then [Heartbeat("running")] else [])
            && (!s.needRestart ==> r.state == "running")
            && (s.needRestart && !pending ==> r.state == "starting")
            && (s.needRestart && pending ==> r.state == "downloading")
  {
    var signalled := TriggerRestartCommand(s, cfg);
    PendingDownloadsIff(signalled.inputs);
    RestartSteps(s, cfg);
  }

  /** The restart input holds the configured restart value afterwards. */
  lemma RestartSignalsInput(s: Store, cfg: Config)
    requires cfg.restartKey != ""
    ensures Get(Restart(s, cfg).inputs, cfg.restartKey) == Some(Entry(StringType, Str(cfg.restartValue)))
  {
  }

  /** A restart keeps the record's invariant. */
  lemma RestartKeepsInv(s: Store, cfg: Config)
    requires Inv(s)
    ensures Inv(Restart(s, cfg))
  {
    RestartSteps(s, cfg);
  }

  /** The /restartComplete rule: only starting moves, and it moves to
      running with one heartbeat. */
  function RestartComplete(s: Store): (r: Store)
    ensures s.state == "starting" ==> r.state == "running" && r.events == s.events + [Heartbeat("running")]
    ensures s.state == "starting" ==> r == s.(state := "running", events := r.events)
    ensures s.state != "starting" ==> r == s
  {
    if s.state == "starting" then Commit(s, "running", false) else s
  }

  /** With the restart flag, restart followed by restart-complete reaches
      running when there was nothing to download, but a restart that
      downloaded media is left in downloading, where restart-complete has
      no effect. */
  lemma RestartThenComplete(s: Store, cfg: Config)
    requires s.inputs.Valid() && s.needRestart
    ensures var after := RestartComplete(Restart(s, cfg));
            var pending := HasPendingMedia(TriggerRestartCommand(s, cfg).inputs);
            && (!pending ==> after.state == "running")
            && (pending ==> after == Restart(s, cfg) && after.state == "downloading")
  {
    RestartOutcome(s, cfg);
  }
}
