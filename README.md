# Puzzle device agent: a Dafny model

This project models the device agent of a room-automation "puzzle" node
(`api/PuzzleTemplate.js`). The agent keeps one in-memory record: the
lifecycle state, an `inputs` dictionary and an `outputs` dictionary of
typed parameters, and the external-check pair `{active, value}`. The model
adds the restart flag to that record, although the code keeps it in a
separate module variable (`NEED_RESTART`). The code's record (`STATE`) also
has a `heartbeat` field, written only by the `/sendHeartbeat` route; it is
left out with that route. The hub drives the agent over two channels: a
publish/subscribe command channel and an HTTP request/response channel.

The model covers the following:

- **Parameter store.**
  - Type tags are normalised to `string | number | boolean | media`, and values are coerced to the tag.
  - `setInput`, `setOutput` and `applyInitKeys` change the dictionaries.
  - The external-check setters and getter, and the restart input.
- **Publications.** Every heartbeat, data message and external-check
  notification is appended to an event log (`Puzzle.Event`).
- **Lifecycle state machine.**
  - `setLocalState` commits a state.
  - `transitionState` applies the per-target rules, including the `downloading` and `uploading` detours and `active` as an alias for `running`.
  - The restart protocol, and the `/restartComplete` rule.
- **Media loops.**
  - The media-typed entries are selected.
  - The download and upload loops record one message per failed entry and go on with the next entry.
  - Each single resolve, download, directory listing and upload is an answer of a `Media.MediaService` value.
- **Dispatch.**
  - The command dispatcher of the publish/subscribe channel.
  - The state check of the `/setState` route.
- **IP selection.** The choice of the announced IP address in `detectLocalIp`.

The project is organised as follows:

- **Where the proved properties live.** The behaviour is written twice:
  - **Pure functions** on the `Puzzle.Store` record (modules `Params`, `InitKeys`, `Puzzle`, `Lifecycle`, `Commands`). The properties are proved about these.
  - **The class `Device.PuzzleAgent`.** It mirrors the global `STATE` object. Each method changes the fields step by step, with the source's loops, and is proved to leave the record exactly as the corresponding function says.
- **JavaScript values.** Payload values are `Values.Value`, a JSON value.
  - Truthiness, `??` and `trim` are written out.
  - `toLowerCase` is written out for the ASCII letters only, and every other character is kept. That is enough for its one use, comparing a type tag with the four lower-case ASCII tags. Outside ASCII, only U+212A and U+0130 lower-case to something holding an ASCII letter. U+212A becomes `k`, which no tag contains. U+0130 becomes `i` followed by the non-ASCII U+0307. So neither can spell an allowed tag (`Values.LowerAscii`).
  - JavaScript's `Number()` is a parameter `parse` (see Left out).
- **Dictionaries.** A dictionary is `Params.Dict`: a map plus its keys in enumeration order, so "every output once, in key order" can be stated.

Some behaviour of the code is easy to miss, and the model keeps it as the
code has it:

- **Media data on inputs.** Only `setOutput` stores a media parameter's own key as its data. For a media tag, `setInput` keeps the data it is given, because `coerceType` returns a media value unchanged; only `setOutput` replaces it with the key (`Puzzle.SetInput`, `Puzzle.SetOutput`).
- **Restart with media inputs.** A restart with the restart flag set commits `starting`, but when there are media inputs to fetch it then commits `downloading` and stays there, and `/restartComplete` only moves a device that is in `starting` (`Lifecycle.RestartOutcome`, `Lifecycle.RestartThenComplete`).
- **No serialisation.** Commands and transitions take no lock, so they can interleave at their `await` points. The model runs one command at a time.
- **`active` on the two channels.** The command channel accepts `active` as a state and treats it as `running`; the `/setState` route refuses it (`Commands.ChannelsDifferOnActive`).

## Model

| member | source | states |
|---|---|---|
| Values.OrNull | api/PuzzleTemplate.js:420-422 | `value ?? null`: an undefined value becomes null, and any other value is kept. |
| Values.TrimStart | api/PuzzleTemplate.js:595-598 | The start half of `trim()`, as used by the pending-download filter here and at 633-636, and on keys and names at 220, 235 and 304: the result is a suffix of the text, everything cut off is white space, and the result does not start with white space. |
| Values.TrimEnd | api/PuzzleTemplate.js:633-636 | The end half of `trim()`, as used by the restart filter here and at 595-598, 220, 235 and 304: the result is a prefix of the text, everything cut off is white space, and the result does not end with white space. |
| Values.BlankIffAllSpaces | api/PuzzleTemplate.js:595-598 | The test `String(ref).trim().length > 0` here and at 633-636 fails exactly when each character of the text is white space. |
| Values.LowerAsciiChars | api/PuzzleTemplate.js:363-366 | Lower-casing keeps the length and maps each character on its own: an upper-case ASCII letter becomes its lower-case letter and every other character is kept. |
| Values.LowerAscii | api/PuzzleTemplate.js:363-366 | Lower-casing keeps the length and leaves no upper-case ASCII letter; the per-character mapping is `Values.LowerAsciiChars`. |
| Values.LowerAsciiOfLower | api/PuzzleTemplate.js:363-366 | Text with no upper-case letter is its own lower case. |
| Values.LowerAsciiIdempotent | api/PuzzleTemplate.js:363-366 | Lower-casing twice is the same as lower-casing once. |
| Params.NormalizeType | api/PuzzleTemplate.js:361-366 | Specification function for `normalizeType`; its contract is stated by `Params.NormalizeTypeSpec`. |
| Params.NormalizeTypeSpec | api/PuzzleTemplate.js:361-366 | `Params.NormalizeType` keeps the lower-cased tag when it is one of the four allowed tags. Any other tag, including a missing one, becomes `string`. |
| Params.NormalizeTagName | api/PuzzleTemplate.js:361-366 | Normalising the spelling of an allowed tag gives that tag back. |
| Params.NormalizeIgnoresCase | api/PuzzleTemplate.js:363-366 | Tags that differ only in ASCII case normalise to the same tag. |
| Params.CoerceType | api/PuzzleTemplate.js:368-380 | `string` and `media` keep the value. `number` gives the parsed number when it is finite, else the raw value. `boolean` gives true exactly for true, `"true"` and `"1"`, and false exactly for false, `"false"` and `"0"`; any other value is kept. |
| Params.CoerceIdempotent | api/PuzzleTemplate.js:368-380 | Coercing an already coerced value changes nothing, provided `Number()` maps a number to itself. |
| Params.Put | api/PuzzleTemplate.js:404-418 | Assigning `dict[key]` changes exactly that key. A new key is enumerated last and an existing key keeps its place. A well-formed dictionary stays well-formed. |
| Params.OutputEntry | api/PuzzleTemplate.js:410-418 | The stored type is the normalised tag. A media output holds its own key as data; any other output holds the coerced data. |
| Params.StoreInputEffect | api/PuzzleTemplate.js:404-408 | `setInput` does nothing for an empty key. Otherwise it stores the normalised tag and the coerced data under the key, and every other key keeps its entry. |
| Params.StoreOutputEffect | api/PuzzleTemplate.js:410-418 | `setOutput` does nothing for an empty key. Otherwise a media tag stores the key as data and any other tag stores the coerced data; every other key keeps its entry. |
| Params.StoreInputIdempotent | api/PuzzleTemplate.js:404-408 | The same `setInput` twice leaves the inputs as once. |
| Params.StoreOutputIdempotent | api/PuzzleTemplate.js:410-418 | The same `setOutput` twice leaves the outputs as once. |
| Params.StoreOutputKeepsMediaNames | api/PuzzleTemplate.js:410-418 | After `setOutput`, every media output still holds its own key as data. |
| Params.MediaRefsAmong | api/PuzzleTemplate.js:528-532 | Selection function; its contract is stated by `Params.MediaRefsAmongSelects` and `Params.MediaRefsAmongAppend`. |
| Params.MediaRefsAmongSelects | api/PuzzleTemplate.js:528-532 | The selection holds exactly the media-typed entries among the keys, each paired with its data (null when undefined), and no more elements than there are keys. |
| Params.MediaRefsAmongAppend | api/PuzzleTemplate.js:528-532 | Selecting from two runs of keys gives the selection of the first run followed by that of the second. The selection therefore keeps the key order and lists a key as often as it is listed. |
| Params.MediaInputEntries | api/PuzzleTemplate.js:528-532 | `getMediaInputEntries` lists only media-typed inputs, each paired with its data (null when undefined), and lists every media-typed input. Its order is the key order, by `Params.MediaRefsAmongAppend`. |
| Params.WithText | api/PuzzleTemplate.js:595-598 | The filter keeps exactly the entries whose reference is non-blank text. |
| Params.WithTextAppend | api/PuzzleTemplate.js:595-598 | Filtering two runs of entries gives the filtered first run followed by the filtered second run, so the filter keeps order and multiplicity. |
| Params.PendingDownloadsIff | api/PuzzleTemplate.js:595-599 | There is something to download exactly when some media input has a non-blank reference. |
| Params.PendingMediaIsDownloaded | api/PuzzleTemplate.js:595-599 | A media input with a non-blank reference makes the download list non-empty. |
| Params.DownloadsArePendingMedia | api/PuzzleTemplate.js:595-599 | A non-empty download list comes from a media input with a non-blank reference. |
| Params.MediaKeysAmong | api/PuzzleTemplate.js:534-538 | The selected keys are exactly the media-typed outputs. |
| Params.MediaKeysAmongAppend | api/PuzzleTemplate.js:534-538 | Selecting from two runs of keys gives the keys selected from the first run followed by those of the second, so the key order is kept. |
| Params.MediaOutputKeys | api/PuzzleTemplate.js:534-538 | `getMediaOutputKeys` holds a key exactly when it is a media-typed output. |
| Params.MediaOutputKeysIff | api/PuzzleTemplate.js:534-538 | There is something to upload exactly when some output is media-typed. |
| InitKeys.LastIndex | api/PuzzleTemplate.js:386-387 | This is the position of the last declaration of a key, the one whose type wins. |
| InitKeys.DeclareInputs | api/PuzzleTemplate.js:385-388 | Specification function for rebuilding the inputs; its contract is stated by `InitKeys.DeclareInputsValid` and `InitKeys.DeclareInputsEntries`. |
| InitKeys.DeclareInputsValid | api/PuzzleTemplate.js:385-388 | The rebuilt inputs form a well-formed dictionary. |
| InitKeys.DeclareInputsEntries | api/PuzzleTemplate.js:385-388 | The rebuilt inputs hold exactly the declared non-empty keys. Each has the last declared type and null coerced to it. |
| InitKeys.DeclareOutputs | api/PuzzleTemplate.js:389-397 | Specification function for rebuilding the outputs; its contract is stated by `InitKeys.DeclareOutputsValid` and `InitKeys.DeclareOutputsEntries`. |
| InitKeys.DeclareOutputsValid | api/PuzzleTemplate.js:389-397 | The rebuilt outputs form a well-formed dictionary, and every media output holds its key. |
| InitKeys.DeclareOutputsEntries | api/PuzzleTemplate.js:389-397 | The rebuilt outputs hold exactly the declared non-empty keys. Each has the last declared type and its previous data (null if it had none), coerced to that type. |
| Media.ResolveRemoteMediaName | api/PuzzleTemplate.js:233-236 | An empty or blank reference is refused with "remoteName required" before any request. Any other reference gets the service's answer. |
| Media.DownloadMediaFile | api/PuzzleTemplate.js:302-305 | A blank name is refused with "remoteName required". Any other name is requested trimmed. |
| Media.FailuresAppend | api/PuzzleTemplate.js:548-567 | The messages of two runs of entries are the messages of the first run followed by those of the second. |
| Media.FailuresCount | api/PuzzleTemplate.js:548-567 | The number of messages is the number of failed entries, and at most the number of entries. |
| Media.NoFailuresIff | api/PuzzleTemplate.js:548-567 | There are no messages exactly when every entry succeeded. |
| Media.DownloadMediaInputs | api/PuzzleTemplate.js:548-567 | The loop visits every entry in order and returns exactly the download messages: a missing reference, then a failed resolve or download. A failure never stops the later entries. |
| Media.DownloadErrorsAppend | api/PuzzleTemplate.js:551-565 | The messages for a concatenation of entries are the messages of each part, in order. |
| Media.DownloadErrorsBound | api/PuzzleTemplate.js:551-565 | There is at most one message per media input. |
| Media.NoDownloadErrorsIff | api/PuzzleTemplate.js:551-565 | There are no messages exactly when every entry downloaded. |
| Media.SingleFailedResolve | api/PuzzleTemplate.js:558-564 | An entry whose reference the hub cannot resolve yields exactly "Media download failed for key: message". |
| Media.Stem | api/PuzzleTemplate.js:226 | `path.parse(name).name` is a prefix of the name. It is the whole name when the name is `..` or has no dot after its first character. Otherwise it is the name cut just before its last dot. |
| Media.LastDot | api/PuzzleTemplate.js:226 | This is the position of the last dot, or -1. |
| Media.FirstWithStem | api/PuzzleTemplate.js:226 | The result is the first listed file whose stem matches, or nothing when no stem matches. |
| Media.FindLocalMediaByKey | api/PuzzleTemplate.js:219-231 | A blank key or an unreadable directory gives nothing. Otherwise the result is the first listed file whose stem equals the trimmed key: no file before it has that stem. There is a result exactly when some file has that stem. |
| Media.UploadMediaOutputs | api/PuzzleTemplate.js:569-586 | The loop visits every key in order and returns exactly the upload messages: a missing local file, then a failed upload. A failure never stops the later keys. |
| Media.UploadErrorsAppend | api/PuzzleTemplate.js:572-584 | The messages for a concatenation of keys are the messages of each part, in order. |
| Media.UploadErrorsBound | api/PuzzleTemplate.js:572-584 | There is at most one message per media output. |
| Media.NoUploadErrorsIff | api/PuzzleTemplate.js:572-584 | There are no messages exactly when every key uploaded. |
| Network.Candidates | api/PuzzleTemplate.js:176-188 | The candidates are exactly the addresses of external IPv4 interfaces outside 169.254., 127. and 192.168.56. Their order is stated by `Network.CandidatesAppend`. |
| Network.CandidatesAppend | api/PuzzleTemplate.js:176-188 | The candidates of two runs of interfaces are those of the first run followed by those of the second, so the table order is kept. |
| Network.FirstPreferred | api/PuzzleTemplate.js:190 | This is the first address in 192.168., 10. or 172., or -1 when there is none. |
| Network.DetectLocalIp | api/PuzzleTemplate.js:172-195 | An override wins. Otherwise the result is a candidate, and nothing is returned exactly when there is no override and no candidate. |
| Network.DetectPrefersPrivateRanges | api/PuzzleTemplate.js:189-192 | The first preferred candidate wins over every other. Only when none is preferred is the first candidate taken. |
| Network.DetectNeverPicksExcluded | api/PuzzleTemplate.js:176-188 | No loopback, link-local or host-only address is ever chosen, nor an internal or non-IPv4 interface. |
| Puzzle.SetInput | api/PuzzleTemplate.js:404-408 | An empty key leaves the record unchanged. Otherwise exactly the input under the key is replaced by the normalised, coerced entry; nothing else changes, and the invariant is kept. |
| Puzzle.SetOutput | api/PuzzleTemplate.js:410-418 | As for `setInput` but on the outputs. A media tag stores the key as data, and the invariant is kept. |
| Puzzle.SetInputIdempotent | api/PuzzleTemplate.js:404-408 | The same `setInput` twice leaves the record as once. |
| Puzzle.SetOutputIdempotent | api/PuzzleTemplate.js:410-418 | The same `setOutput` twice leaves the record as once. |
| Puzzle.ApplyInitKeys | api/PuzzleTemplate.js:382-398 | Specification function for `applyInitKeys` on the record; its contract is stated by `Puzzle.ApplyInitKeysEffect`. |
| Puzzle.ApplyInitKeysEffect | api/PuzzleTemplate.js:382-402 | An array rebuilds its dictionary to exactly the declared keys: inputs with null data, outputs keeping their previous data. A missing array leaves its dictionary alone, and a payload with neither array changes nothing. The invariant is kept. |
| Puzzle.SetExternalCheckValue | api/PuzzleTemplate.js:420-426 | The value is stored, null for undefined. The active flag changes, to `!!active`, only when it is supplied. Nothing else changes. |
| Puzzle.TriggerExternalCheck | api/PuzzleTemplate.js:441-448 | The flag becomes true unless a falsy flag is supplied. Exactly one notification is appended, carrying the stored flag and value. |
| Puzzle.TriggerExternalCheckRepeats | api/PuzzleTemplate.js:441-448 | Triggering the same value again stores the same pair and appends the same notification again, though nothing changed. |
| Puzzle.SetRestartRequired | api/PuzzleTemplate.js:428-430 | The restart flag becomes `!!value`, and nothing else changes. |
| Puzzle.TriggerRestartCommand | api/PuzzleTemplate.js:432-435 | With a restart key, the input under it becomes the string restart value; nothing else changes. Without a key, nothing happens. |
| Puzzle.PublishHeartbeat | api/PuzzleTemplate.js:450-454 | One heartbeat carrying the current state is appended, and nothing else changes. |
| Puzzle.PublishData | api/PuzzleTemplate.js:456-462 | A key with no output publishes nothing. Otherwise one data message is appended, with the key as data for a media output. |
| Puzzle.PublishedDataIsStored | api/PuzzleTemplate.js:456-462 | The published data of an output is exactly its stored data. |
| Puzzle.PublishKeysAppends | api/PuzzleTemplate.js:464-466 | Publishing a list of keys appends their messages in list order, and changes nothing else. |
| Puzzle.PublishAllOutputs | api/PuzzleTemplate.js:464-466 | Specification function for `publishAllOutputs`; its contract is stated by `Puzzle.PublishAllOutputsAppends` and `Puzzle.AllOutputsOnceInOrder`. |
| Puzzle.PublishAllOutputsAppends | api/PuzzleTemplate.js:464-466 | Publishing all outputs appends the messages of the outputs in key order. |
| Puzzle.OutputMessagesOfPresentKeys | api/PuzzleTemplate.js:456-466 | Publishing a list of keys that all have outputs yields one message per key, in list order, each the data message of that output. |
| Puzzle.AllOutputsOnceInOrder | api/PuzzleTemplate.js:464-466 | Every output is published exactly once, in enumeration order, as a data message. |
| Puzzle.ConfigOutputsValid | api/PuzzleTemplate.js:89-94 | The configured defaults form a well-formed dictionary, with every media output holding its key. |
| Puzzle.ConfigOutputsKeys | api/PuzzleTemplate.js:89-94 | The configured defaults hold exactly the keys with a truthy configuration entry. |
| Puzzle.LastConfigured | api/PuzzleTemplate.js:90-93 | This is the position of the last configured entry of a key that has a value, the one whose `setOutput` is left standing. |
| Puzzle.ConfigOutputsEntries | api/PuzzleTemplate.js:89-94 | Each configured default holds what `setOutput` stores, given the key, the configured type (`string` when there is none) and the configured data, for the key's last configured value: the normalised type, with the coerced data, or the key itself for a media output. |
| Puzzle.LoadParamsFromConfig | api/PuzzleTemplate.js:88-100 | Specification function for `loadParamsFromConfig`; its contract is stated by `Puzzle.LoadParamsFromConfigEffect`. |
| Puzzle.LoadParamsFromConfigEffect | api/PuzzleTemplate.js:88-100 | Configured outputs replace the outputs. A configured external check sets the value (null when absent) and `active === true`. Without those settings nothing changes. |
| Puzzle.Boot | api/PuzzleTemplate.js:353-359 | The starting record is locked, with empty inputs, nothing published and the invariant holding. |
| Lifecycle.Desired | api/PuzzleTemplate.js:589 | `active` means `running`, and every other name is taken verbatim. |
| Lifecycle.Commit | api/PuzzleTemplate.js:540-546 | The state is set and one heartbeat with it is appended, followed by every output in key order when asked. Nothing else changes. |
| Lifecycle.Transition | api/PuzzleTemplate.js:588-626 | Specification function for `transitionState`; its contract is stated by `Lifecycle.TransitionReachesTarget`, the three trace lemmas and `Lifecycle.TransitionKeepsInv`. |
| Lifecycle.TransitionReachesTarget | api/PuzzleTemplate.js:588-626 | Every transition ends in the desired state, including unknown names. It leaves the parameters, the check and the flag alone, and only appends to the log. |
| Lifecycle.TransitionRunningTrace | api/PuzzleTemplate.js:594-608 | Going to running announces `[downloading, running]` if some media input has a non-blank reference, and `[running]` otherwise. |
| Lifecycle.TransitionSolvedTrace | api/PuzzleTemplate.js:609-620 | Going to solved announces `[uploading, solved]` if some output is media-typed, and `[solved]` otherwise, then every output once in key order. |
| Lifecycle.TransitionOtherTrace | api/PuzzleTemplate.js:590-593 | Any other target is announced with a single heartbeat. |
| Lifecycle.TransitionErrorsBound | api/PuzzleTemplate.js:599-618 | A transition reports at most one message per transferred entry, and none when nothing is transferred. |
| Lifecycle.TransitionKeepsInv | api/PuzzleTemplate.js:588-626 | A transition keeps the record well-formed. |
| Lifecycle.SingleMediaInputPending | api/PuzzleTemplate.js:595-598 | A single media input with a non-blank reference is exactly the download list. |
| Lifecycle.RunningWithPendingDownloads | api/PuzzleTemplate.js:594-608 | With something to download, going to running commits downloading and then running, and reports the download messages. |
| Lifecycle.RunningWithOneUnresolvableInput | api/PuzzleTemplate.js:594-608 | Going from locked to running with one input that cannot be resolved still ends in running, after a downloading detour, with exactly one message naming the key. |
| Lifecycle.Restart | api/PuzzleTemplate.js:628-647 | Specification function for `handleRestartCommand`; its contract is stated by `Lifecycle.RestartSteps`, `Lifecycle.RestartOutcome` and `Lifecycle.RestartKeepsInv`. |
| Lifecycle.RestartSteps | api/PuzzleTemplate.js:628-647 | A restart signals the restart input. It commits starting when the flag is set, downloading when there is something to fetch, and running when the flag is clear. |
| Lifecycle.RestartOutcome | api/PuzzleTemplate.js:628-647 | Without the flag a restart ends in running. With the flag it ends in starting, or in downloading when media inputs had to be fetched. It announces exactly those heartbeats. |
| Lifecycle.RestartSignalsInput | api/PuzzleTemplate.js:432-435 | After a restart the restart input holds the configured restart value as a string. |
| Lifecycle.RestartKeepsInv | api/PuzzleTemplate.js:628-647 | A restart keeps the record well-formed. |
| Lifecycle.RestartComplete | api/PuzzleTemplate.js:739-744 | Only starting moves: it moves to running with one heartbeat. Every other state is left as it is. |
| Lifecycle.RestartThenComplete | api/PuzzleTemplate.js:628-647 | With the flag, restart then restart-complete reaches running when nothing was downloaded. A restart that downloaded media stays in downloading. |
| Commands.ActionOf | api/PuzzleTemplate.js:471-525 | A name that is not one of the seven command names selects nothing. |
| Commands.Dispatch | api/PuzzleTemplate.js:468-526 | Specification function for `handleMqttCommand`; its contract is stated by `Commands.DispatchIgnores`, `Commands.DispatchEndsWithHeartbeat`, the per-command lemmas below and `Commands.DispatchKeepsInv`. |
| Commands.DispatchIgnores | api/PuzzleTemplate.js:468-526 | An unknown action, and setState with a state outside the seven allowed, change nothing and publish nothing. |
| Commands.DispatchEndsWithHeartbeat | api/PuzzleTemplate.js:473-525 | initKeys, clearData, requestData, sendParam and sendOutput each end with exactly one heartbeat, even when nothing was stored. |
| Commands.HeartbeatCloses | api/PuzzleTemplate.js:473-525 | A heartbeat appended after data messages is the only heartbeat of the command. |
| Commands.OutputMessagesAreData | api/PuzzleTemplate.js:464-466 | Publishing outputs emits data messages only. |
| Commands.ClearDataResets | api/PuzzleTemplate.js:478-485 | clearData empties the inputs and leaves the outputs as the configured defaults (empty when none are configured). A configured external check is set again to `active === true` and `value ?? null`, and otherwise the check is kept. The restart flag and the state are kept, and one heartbeat is published. |
| Commands.RequestDataPublishes | api/PuzzleTemplate.js:501-510 | Without a key, requestData publishes every output. With a key it publishes that output only, or nothing when the key is missing. It then publishes one heartbeat. |
| Commands.SendOutputPublishes | api/PuzzleTemplate.js:517-525 | sendOutput stores the output and publishes it at once, a media output with its key as data, then one heartbeat. |
| Commands.SendOutputTwice | api/PuzzleTemplate.js:517-525 | The same sendOutput twice stores the same outputs and publishes the same messages. |
| Commands.DispatchKeepsInv | api/PuzzleTemplate.js:468-526 | Every command keeps the record well-formed. |
| Commands.SetStateRoute | api/PuzzleTemplate.js:704-715 | A state outside the six listed is refused with "Invalid state". An accepted state is reached by the transition. |
| Commands.ChannelsDifferOnActive | api/PuzzleTemplate.js:492-500 | `active` is accepted as a command but refused by the route, and every state the route accepts is also a valid command. |
| Device.PuzzleAgent.constructor | api/PuzzleTemplate.js:353-359 | The object starts as the initial record with the configuration applied, and is well-formed. |
| Device.PuzzleAgent.SetInput | api/PuzzleTemplate.js:404-408 | The fields become those of `Puzzle.SetInput`, and the object stays well-formed. |
| Device.PuzzleAgent.SetOutput | api/PuzzleTemplate.js:410-418 | The fields become those of `Puzzle.SetOutput`, and the object stays well-formed. |
| Device.PuzzleAgent.ApplyInitKeys | api/PuzzleTemplate.js:382-398 | The record becomes that of `Puzzle.ApplyInitKeys`, and the object stays well-formed. |
| Device.PuzzleAgent.DeclareInputsInPlace | api/PuzzleTemplate.js:385-388 | The loop empties the inputs and leaves them as `InitKeys.DeclareInputs` says; nothing else changes, and the object stays well-formed. |
| Device.PuzzleAgent.DeclareOutputsInPlace | api/PuzzleTemplate.js:389-397 | The loop empties the outputs and leaves them as `InitKeys.DeclareOutputs` says, with the data the outputs held before; nothing else changes, and the object stays well-formed. |
| Device.PuzzleAgent.SetExternalCheckValue | api/PuzzleTemplate.js:420-426 | The fields become those of `Puzzle.SetExternalCheckValue`. |
| Device.PuzzleAgent.GetExternalCheckValue | api/PuzzleTemplate.js:437-439 | This is a copy of the stored pair. |
| Device.PuzzleAgent.TriggerExternalCheck | api/PuzzleTemplate.js:441-448 | The fields become those of `Puzzle.TriggerExternalCheck`. |
| Device.PuzzleAgent.SetRestartRequired | api/PuzzleTemplate.js:428-430 | The fields become those of `Puzzle.SetRestartRequired`. |
| Device.PuzzleAgent.TriggerRestartCommand | api/PuzzleTemplate.js:432-435 | The fields become those of `Puzzle.TriggerRestartCommand`, and the object stays well-formed. |
| Device.PuzzleAgent.PublishHeartbeat | api/PuzzleTemplate.js:450-454 | One heartbeat is appended. |
| Device.PuzzleAgent.PublishData | api/PuzzleTemplate.js:456-462 | The log becomes that of `Puzzle.PublishData`. |
| Device.PuzzleAgent.PublishAllOutputs | api/PuzzleTemplate.js:464-466 | The loop appends every output's message in key order. |
| Device.PuzzleAgent.LoadParamsFromConfig | api/PuzzleTemplate.js:88-100 | The record becomes that of `Puzzle.LoadParamsFromConfig`, and the object stays well-formed. |
| Device.PuzzleAgent.ConfigureOutputs | api/PuzzleTemplate.js:89-94 | The loop empties the outputs and leaves them as `Puzzle.ConfigOutputs` says; nothing else changes, and the object stays well-formed. |
| Device.PuzzleAgent.SetLocalState | api/PuzzleTemplate.js:540-546 | The record becomes that of `Lifecycle.Commit`. |
| Device.PuzzleAgent.TransitionState | api/PuzzleTemplate.js:588-626 | The record becomes that of `Lifecycle.Transition`, and the object stays well-formed. The returned messages are those of the transfers. |
| Device.PuzzleAgent.HandleRestartCommand | api/PuzzleTemplate.js:628-647 | The record becomes that of `Lifecycle.Restart`, and the object stays well-formed. The returned messages are those of the downloads. |
| Device.PuzzleAgent.RestartComplete | api/PuzzleTemplate.js:739-744 | The record becomes that of `Lifecycle.RestartComplete`, and the state is returned. |
| Device.PuzzleAgent.SetStateRoute | api/PuzzleTemplate.js:704-715 | A refused state changes nothing and returns the refusal. An accepted one runs the transition and returns the state reached. The object stays well-formed. |
| Device.PuzzleAgent.HandleMqttCommand | api/PuzzleTemplate.js:468-526 | The record becomes that of `Commands.Dispatch`, and the object stays well-formed. |

## Left out

- **HTTP server.** The server, its routing, `sendJson`, `parseBody` and the other routes (`/sendParam`, `/getParam`, `/sendHeartbeat`, `/restartConfig` and so on) are request/response plumbing. With `/sendHeartbeat` goes the `heartbeat: {name, state}` field of the record, which only that route writes. Only the `/setState` state check and the `/restartComplete` rule are modelled.
- **MQTT client.** The client, its connection and its topics are left out. A publication is an appended event whether or not a broker is connected, so the log records what the agent tries to publish.
- **Identity fields of messages.** A heartbeat carries the puzzle name, the state, the device id and the IP address. A data message and an external-check notification also carry the device id. The model's events keep only the state and the payload fields; the name, device id and IP address are not modelled.
- **Network and filesystem.**
  - Every HTTP request, stream, temporary file and `fs.stat` call is an oracle answer of `MediaService`. The answers are deterministic per argument.
  - Error messages from the network (`err.message`) are oracle text.
  - The local target path that `path.join` builds, and `ensureMediaLocalDir` creating the directory or throwing, are left out.
  - Windows path syntax in `path.parse` is left out. `Media.Stem` follows the POSIX rules.
- **Number parsing.** JavaScript's `Number()` and `Number.isFinite` on doubles are replaced by the `parse` parameter: a finite result, or none. Floating point is not modelled.
- **Configuration loading.** Reading the config file and the environment, and the fallbacks between them, are left out. The configuration is a given `Puzzle.Config`.
- **Payload values.** Keys, type tags, actions and states are modelled as strings, with "" for a missing or falsy value.
  - A non-string key or tag that JavaScript would convert is not modelled.
  - An unparsable command payload is a payload with no action.
  - The configured restart key and restart value are taken as strings. A number or boolean `restartCommandValue` in the configuration file would reach the restart input unchanged, since coercion to `string` keeps any value; the model's restart input always holds a string (`Puzzle.TriggerRestartCommand`, `Lifecycle.RestartSignalsInput`).
  - The code would throw on a JSON `null` command payload; that case is not modelled.
  - The `!payload` guard of `applyInitKeys` is not modelled, because the dispatcher always passes an object.
  - A `null` element in the `inputs` or `outputs` array of `initKeys` makes the code throw at `inp.key` or `out.key`. The dictionary is then left empty or half rebuilt, and no heartbeat is published. The model's declarations are records, so this case is not modelled.
- **Key order.** Dictionary keys are enumerated in insertion order. JavaScript's rule that integer-like keys come first, and the special `__proto__` key, are not modelled.
- **Inherited object members.** A lookup `STATE.outputs[key]` with a key such as `constructor`, `toString` or `valueOf` finds the member inherited from `Object.prototype` when no output has that key. That member is truthy. So `requestData` with such a key, when no output of that name was stored, publishes a data message whose type and data are undefined, and the model publishes nothing. The same lookup in `applyInitKeys` finds no `data` of its own, so its null default is what the model uses.
- **Empty download list.** `downloadMediaInputs` returns undefined when it is given no entries. Its callers never do that, so the model returns an empty list.
- **Timer, entry point and logging.** The heartbeat timer, `main`, command-line handling and console logging are left out.
- **Concurrency.** Two commands interleaving at their `await` points, or the restart flag changing in the middle of a restart, are not modelled, because commands run one at a time.
- **Commands.ActionOf.** Its contract states only which names are unknown. The mapping from each of the seven names to its command is stated by the function body.
