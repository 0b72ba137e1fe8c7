/**
 * Media orchestration: resolving a media reference to a hub-side file
 * name, downloading and uploading single files, and the two loops that
 * process all media entries one at a time, collecting an error message per
 * failed entry instead of stopping.
 *
 * The network and the filesystem are not modelled: a MediaService gives
 * the outcome of each single request, and the listing of the local media
 * directory.
 */
module Media {
  import opened Wrappers
  import opened Values
  import opened Params

  /** What the hub's media service and the local disk answer.
      - resolve(ref): the resolved file name (`payload.name || key`) or the
        failure message, for the trimmed text of ref;
      - download(name): None when the file named by the trimmed name
        arrived under its final name, otherwise the failure message;
      - listing: the names `readdirSync` returns for the media directory,
        None when reading it fails;
      - upload(file): None when the hub accepted the local file, otherwise
        the failure message (a file that is not a regular file fails here). */
  datatype MediaService = MediaService(
    resolve: Value -> Result<string, string>,
    download: string -> Option<string>,
    listing: Option<seq<string>>,
    upload: string -> Option<string>)

  /** resolveRemoteMediaName: an empty or blank reference is refused before
      any request is made. */
  function ResolveRemoteMediaName(ref: Value, svc: MediaService): (r: Result<string, string>)
    ensures !Truthy(ref) || TextBlank(ref) ==> r == Failure("remoteName required")
    ensures Truthy(ref) && !TextBlank(ref) ==> r == svc.resolve(ref)
  {
    if !Truthy(ref) || TextBlank(ref) then Failure("remoteName required") else svc.resolve(ref)
  }

  /** downloadMediaFile: a blank name is refused before any request is made. */
  function DownloadMediaFile(name: string, svc: MediaService): (r: Option<string>)
    ensures IsBlank(name) ==> r == Some("remoteName required")
    ensures !IsBlank(name) ==> r == svc.download(Trim(name))
  {
    if IsBlank(name) then Some("remoteName required") else svc.download(Trim(name))
  }

  function DownloadFailed(key: string, msg: string): string {
    "Media download failed for " + key + ": " + msg
  }

  /** The error one media input contributes to downloadMediaInputs, if any. */
  function DownloadError(e: MediaRef, svc: MediaService): Option<string> {
    if !Truthy(e.ref) then Some("Media reference missing: " + e.key)
    else
      match ResolveRemoteMediaName(e.ref, svc)
      case Failure(msg) => Some(DownloadFailed(e.key, msg))
      case Success(name) =>
        match DownloadMediaFile(name, svc)
        case Some(msg) => Some(DownloadFailed(e.key, msg))
        case None => None
  }

  /** The error of one step as a list of zero or one messages. */
  function ErrorList(o: Option<string>): (r: seq<string>)
    ensures |r| <= 1
    ensures r == [] <==> o.None?
    ensures o.Some? ==> r == [o.value]
  {
    match o
    case Some(m) => [m]
    case None => []
  }

  /** The messages of the failed steps of a run, in step order. */
  function Failures(outcomes: seq<Option<string>>): seq<string>
    decreases |outcomes|
  {
    if outcomes == [] then []
    else Failures(outcomes[..|outcomes| - 1]) + ErrorList(outcomes[|outcomes| - 1])
  }

  /** The number of failed steps. */
  function CountFailed(outcomes: seq<Option<string>>): nat
    decreases |outcomes|
  {
    if outcomes == [] then 0
    else CountFailed(outcomes[..|outcomes| - 1]) + (if outcomes[|outcomes| - 1].Some? then 1 else 0)
  }

  /** The failures of two consecutive runs are those of each, one after the
      other: a failure never stops or changes the later steps. */
  lemma {:induction false} FailuresAppend(a: seq<Option<string>>, b: seq<Option<string>>)
    ensures Failures(a + b) == Failures(a) + Failures(b)
    decreases |b|
  {
    if b == [] {
      assert a + b == a;
    } else {
      var n := |b| - 1;
      assert (a + b)[..|a + b| - 1] == a + b[..n];
      FailuresAppend(a, b[..n]);
    }
  }

  /** One message per failed step, so never more messages than steps. */
  lemma {:induction false} FailuresCount(outcomes: seq<Option<string>>)
    ensures |Failures(outcomes)| == CountFailed(outcomes) <= |outcomes|
    decreases |outcomes|
  {
    if outcomes != [] {
      FailuresCount(outcomes[..|outcomes| - 1]);
    }
  }

  /** No message exactly when every step succeeded. */
  lemma {:induction false} NoFailuresIff(outcomes: seq<Option<string>>)
    ensures Failures(outcomes) == [] <==> forall i :: 0 <= i < |outcomes| ==> outcomes[i].None?
    decreases |outcomes|
  {
    if outcomes != [] {
      var n := |outcomes| - 1;
      var front := outcomes[..n];
      NoFailuresIff(front);
      assert forall i :: 0 <= i < n ==> front[i] == outcomes[i];
    }
  }

  /** The outcome of each media input, in entry order. */
  function DownloadOutcomes(entries: seq<MediaRef>, svc: MediaService): (r: seq<Option<string>>)
    ensures |r| == |entries|
    ensures forall i :: 0 <= i < |entries| ==> r[i] == DownloadError(entries[i], svc)
  {
    seq(|entries|, i requires 0 <= i < |entries| => DownloadError(entries[i], svc))
  }

  /** Each entry's error, if any, in entry order. */
  function DownloadErrors(entries: seq<MediaRef>, svc: MediaService): seq<string> {
    Failures(DownloadOutcomes(entries, svc))
  }

  /** downloadMediaInputs: every entry is visited, in order; a failure is
      recorded and the loop goes on with the next entry. */
  method DownloadMediaInputs(entries: seq<MediaRef>, svc: MediaService) returns (errors: seq<string>)
    ensures errors == DownloadErrors(entries, svc)
  {
    errors := [];
    if |entries| == 0 {
      return;
    }
    var i := 0;
    while i < |entries|
      invariant 0 <= i <= |entries|
      invariant errors == Failures(DownloadOutcomes(entries[..i], svc))
    {
      var entry := entries[i];
      ghost var outs := DownloadOutcomes(entries[..i + 1], svc);
      assert outs[..i] == DownloadOutcomes(entries[..i], svc);
      assert Failures(outs) == errors + ErrorList(DownloadError(entry, svc));
      var ref := entry.ref;
      if !Truthy(ref) {
        errors := errors + ["Media reference missing: " + entry.key];
        i := i + 1;
        continue;
      }
      var resolved := ResolveRemoteMediaName(ref, svc);
      if resolved.Failure? {
        errors := errors + [DownloadFailed(entry.key, resolved.error)];
      } else {
        var failure := DownloadMediaFile(resolved.value, svc);
        if failure.Some? {
          errors := errors + [DownloadFailed(entry.key, failure.value)];
        }
      }
      i := i + 1;
    }
    assert entries[..i] == entries;
  }

  /** Download errors of consecutive runs of entries concatenate. */
  lemma DownloadErrorsAppend(a: seq<MediaRef>, b: seq<MediaRef>, svc: MediaService)
    ensures DownloadErrors(a + b, svc) == DownloadErrors(a, svc) + DownloadErrors(b, svc)
  {
    var oa, ob, oab := DownloadOutcomes(a, svc), DownloadOutcomes(b, svc), DownloadOutcomes(a + b, svc);
    forall i | 0 <= i < |oab|
      ensures oab[i] == (oa + ob)[i]
    {
      var e := if i < |a| then a[i] else b[i - |a|];
      assert (a + b)[i] == e;
      assert (oa + ob)[i] == DownloadError(e, svc);
    }
    assert oab == oa + ob;
    FailuresAppend(oa, ob);
  }

  /** At most one error per media input. */
  lemma DownloadErrorsBound(entries: seq<MediaRef>, svc: MediaService)
    ensures |DownloadErrors(entries, svc)| <= |entries|
  {
    FailuresCount(DownloadOutcomes(entries, svc));
  }

  /** The list is empty exactly when every media input downloads. */
  lemma NoDownloadErrorsIff(entries: seq<MediaRef>, svc: MediaService)
    ensures DownloadErrors(entries, svc) == [] <==> forall i :: 0 <= i < |entries| ==> DownloadError(entries[i], svc).None?
  {
    NoFailuresIff(DownloadOutcomes(entries, svc));
  }

  /** A media input whose resolution fails yields exactly one error, naming
      its key and carrying the service's message. */
  lemma SingleFailedResolve(e: MediaRef, svc: MediaService, msg: string)
    requires Truthy(e.ref) && !TextBlank(e.ref) && svc.resolve(e.ref) == Failure(msg)
    ensures DownloadErrors([e], svc) == [DownloadFailed(e.key, msg)]
  {
    var outs := DownloadOutcomes([e], svc);
    assert outs == [Some(DownloadFailed(e.key, msg))];
    assert outs[..0] == [];
    assert Failures(outs) == Failures([]) + ErrorList(outs[0]);
  }

  // ---------------------------------------------------------------------
  // Uploads

  /** path.parse(name).name for a plain file name: the name without its
      last extension, where a leading dot does not start an extension (and
      ".." has none). */
  function Stem(name: string): (r: string)
    ensures |r| <= |name| && r == name[..|r|]
    ensures name == ".." || (forall j :: 0 < j < |name| ==> name[j] != '.') ==> r == name
    ensures name != ".." && (exists j :: 0 < j < |name| && name[j] == '.') ==>
              0 < |r| < |name| && name[|r|] == '.' && forall j :: |r| < j < |name| ==> name[j] != '.'
  {
    var d := LastDot(name);
    if d <= 0 || name == ".." then name else name[..d]
  }

  /** Index of the last '.', or -1. */
  function LastDot(s: string): (i: int)
    ensures -1 <= i < |s|
    ensures i >= 0 ==> s[i] == '.'
    ensures forall j :: i < j < |s| ==> s[j] != '.'
    decreases |s|
  {
    if s == [] then -1
    else if s[|s| - 1] == '.' then |s| - 1
    else LastDot(s[..|s| - 1])
  }

  /** The first listed file whose name without extension is `base`. */
  function FirstWithStem(files: seq<string>, base: string): (r: Option<string>)
    ensures r.Some? ==> r.value in files && Stem(r.value) == base
    ensures r.None? ==> forall f :: f in files ==> Stem(f) != base
    ensures r.Some? ==> exists i :: 0 <= i < |files| && files[i] == r.value
                                     && forall j :: 0 <= j < i ==> Stem(files[j]) != base
    decreases |files|
  {
    if files == [] then None
    else if Stem(files[0]) == base then Some(files[0])
    else
      var rest := FirstWithStem(files[1..], base);
      assert forall f :: f in files ==> f == files[0] || f in files[1..];
      if rest.Some? then
        var i :| 0 <= i < |files[1..]| && files[1..][i] == rest.value
                 && forall j :: 0 <= j < i ==> Stem(files[1..][j]) != base;
        assert files[i + 1] == rest.value;
        Some(rest.value)
      else None
  }

  /** findLocalMediaByKey: the first file of the media directory whose name
      without extension equals the trimmed key; nothing for a blank key or
      an unreadable directory. */
  function FindLocalMediaByKey(key: string, listing: Option<seq<string>>): (r: Option<string>)
    ensures IsBlank(key) || listing.None? ==> r.None?
    ensures r.Some? ==> listing.Some? && r.value in listing.value && Stem(r.value) == Trim(key)
    ensures !IsBlank(key) && listing.Some? && (exists f :: f in listing.value && Stem(f) == Trim(key)) ==> r.Some?
    ensures r.Some? ==> exists i :: 0 <= i < |listing.value| && listing.value[i] == r.value
                                     && forall j :: 0 <= j < i ==> Stem(listing.value[j]) != Trim(key)
  {
    var base := Trim(key);
    if base == "" then None
    else
      match listing
      case None => None
      case Some(files) => FirstWithStem(files, base)
  }

  /** The error one media output contributes to uploadMediaOutputs, if any. */
  function UploadError(key: string, svc: MediaService): Option<string> {
    match FindLocalMediaByKey(key, svc.listing)
    case None => Some("Media file not found: " + key)
    case Some(file) =>
      match svc.upload(file)
      case Some(msg) => Some("Media upload failed for " + key + ": " + msg)
      case None => None
  }

  /** The outcome of each media output, in key order. */
  function UploadOutcomes(keys: seq<string>, svc: MediaService): (r: seq<Option<string>>)
    ensures |r| == |keys|
    ensures forall i :: 0 <= i < |keys| ==> r[i] == UploadError(keys[i], svc)
  {
    seq(|keys|, i requires 0 <= i < |keys| => UploadError(keys[i], svc))
  }

  /** Each key's error, if any, in key order. */
  function UploadErrors(keys: seq<string>, svc: MediaService): seq<string> {
    Failures(UploadOutcomes(keys, svc))
  }

  /** uploadMediaOutputs: every key is visited, in order; a missing local
      file or a failed upload is recorded and the loop goes on. */
  method UploadMediaOutputs(keys: seq<string>, svc: MediaService) returns (errors: seq<string>)
    ensures errors == UploadErrors(keys, svc)
  {
    if |keys| == 0 {
      return [];
    }
    errors := [];
    for i := 0 to |keys|
      invariant errors == Failures(UploadOutcomes(keys[..i], svc))
    {
      var key := keys[i];
      ghost var outs := UploadOutcomes(keys[..i + 1], svc);
      assert outs[..i] == UploadOutcomes(keys[..i], svc);
      assert Failures(outs) == errors + ErrorList(UploadError(key, svc));
      var sourcePath := FindLocalMediaByKey(key, svc.listing);
      if sourcePath.None? {
        errors := errors + ["Media file not found: " + key];
        continue;
      }
      var failure := svc.upload(sourcePath.value);
      if failure.Some? {
        errors := errors + ["Media upload failed for " + key + ": " + failure.value];
      }
    }
    assert keys[..|keys|] == keys;
  }

  /** Upload errors of consecutive runs of keys concatenate. */
  lemma UploadErrorsAppend(a: seq<string>, b: seq<string>, svc: MediaService)
    ensures UploadErrors(a + b, svc) == UploadErrors(a, svc) + UploadErrors(b, svc)
  {
    var oa, ob, oab := UploadOutcomes(a, svc), UploadOutcomes(b, svc), UploadOutcomes(a + b, svc);
    forall i | 0 <= i < |oab|
      ensures oab[i] == (oa + ob)[i]
    {
      if i < |a| {
        assert (a + b)[i] == a[i];
      } else {
        assert (a + b)[i] == b[i - |a|];
      }
    }
    assert oab == oa + ob;
    FailuresAppend(oa, ob);
  }

  /** At most one error per key. */
  lemma UploadErrorsBound(keys: seq<string>, svc: MediaService)
    ensures |UploadErrors(keys, svc)| <= |keys|
  {
    FailuresCount(UploadOutcomes(keys, svc));
  }

  /** The upload list is empty exactly when every key uploads. */
  lemma NoUploadErrorsIff(keys: seq<string>, svc: MediaService)
    ensures UploadErrors(keys, svc) == [] <==> forall i :: 0 <= i < |keys| ==> UploadError(keys[i], svc).None?
  {
    NoFailuresIff(UploadOutcomes(keys, svc));
  }
}
