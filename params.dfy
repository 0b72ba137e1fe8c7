/**
 * The parameter store: the four type tags, value coercion, and the two
 * insertion-ordered dictionaries (inputs and outputs) that map a logical
 * key to a typed entry.
 */
module Params {
  import opened Wrappers
  import opened Values

  datatype TypeTag = StringType | NumberType | BooleanType | MediaType

  /** The tag's spelling in payloads (ALLOWED_TYPES). */
  function TagName(t: TypeTag): string {
    match t
    case StringType => "string"
    case NumberType => "number"
    case BooleanType => "boolean"
    case MediaType => "media"
  }

  const AllowedTypes: seq<string> := ["string", "number", "boolean", "media"]

  /** normalizeType: the lower-cased tag if it is one of the four allowed
      spellings, "string" otherwise (an absent tag is ""). */
  function NormalizeType(tag: string): TypeTag {
    var lower := LowerAscii(tag);
    if lower == "number" then NumberType
    else if lower == "boolean" then BooleanType
    else if lower == "media" then MediaType
    else StringType
  }

  /** normalizeType keeps an allowed spelling in any ASCII case and maps
      everything else, the empty tag included, to "string". */
  lemma NormalizeTypeSpec(tag: string)
    ensures LowerAscii(tag) in AllowedTypes ==> TagName(NormalizeType(tag)) == LowerAscii(tag)
    ensures LowerAscii(tag) !in AllowedTypes ==> NormalizeType(tag) == StringType
  {
  }

  /** Normalizing a tag's own spelling gives the tag back, so normalizing
      twice (setInput normalizes, then coerceType normalizes again) is
      normalizing once. */
  lemma NormalizeTagName(t: TypeTag)
    ensures NormalizeType(TagName(t)) == t
  {
    LowerAsciiOfLower(TagName(t));
  }

  /** Two tags that differ only in ASCII case normalize alike. */
  lemma NormalizeIgnoresCase(tag: string)
    ensures NormalizeType(LowerAscii(tag)) == NormalizeType(tag)
  {
    LowerAsciiIdempotent(tag);
  }

  /** The spellings coerceType turns into a boolean. */
  predicate SpellsTrue(v: Value) { v == Str("true") || v == Str("1") }
  predicate SpellsFalse(v: Value) { v == Str("false") || v == Str("0") }

  /** coerceType. `parse` is JavaScript's `Number(v)` restricted to finite
      results (None when the result is NaN or infinite). */
  function CoerceType(t: TypeTag, v: Value, parse: Value -> Option<real>): (r: Value)
    // string and media values are never changed
    ensures t == StringType || t == MediaType ==> r == v
    // a number tag stores the finite parse, or the raw value when there is none
    ensures t == NumberType ==> (parse(v).Some? ==> r == Num(parse(v).value)) && (parse(v).None? ==> r == v)
    // a boolean tag keeps booleans, maps the four spellings, and passes the rest through
    ensures t == BooleanType ==> (r == Bool(true) <==> v == Bool(true) || SpellsTrue(v))
    ensures t == BooleanType ==> (r == Bool(false) <==> v == Bool(false) || SpellsFalse(v))
    ensures t == BooleanType && !r.Bool? ==> r == v
  {
    match t
    case NumberType =>
      (match parse(v)
       case Some(n) => Num(n)
       case None => v)
    case BooleanType =>
      if v.Bool? then v
      else if SpellsTrue(v) then Bool(true)
      else if SpellsFalse(v) then Bool(false)
      else v
    case _ => v
  }

  /** `Number(n)` is `n` for a finite number. */
  ghost predicate ParsesNumbersToThemselves(parse: Value -> Option<real>) {
    forall n: real {:trigger Num(n)} :: parse(Num(n)) == Some(n)
  }

  /** Coercing a coerced value again changes nothing (given that Number()
      maps a finite number to itself). */
  lemma CoerceIdempotent(t: TypeTag, v: Value, parse: Value -> Option<real>)
    requires ParsesNumbersToThemselves(parse)
    ensures CoerceType(t, CoerceType(t, v, parse), parse) == CoerceType(t, v, parse)
  {
    if t == NumberType && parse(v).Some? {
      assert parse(Num(parse(v).value)) == Some(parse(v).value);
    }
  }

  /** A stored parameter: `{type, data}`. */
  datatype Entry = Entry(typ: TypeTag, data: Value)

  /** A JavaScript object used as a dictionary: its keys in insertion order
      and the entry under each key. */
  datatype Dict = Dict(keys: seq<string>, entries: map<string, Entry>) {
    /** The keys listed are exactly the keys present, each once. */
    ghost predicate Valid() {
      && (forall k :: k in entries <==> k in keys)
      && (forall i, j :: 0 <= i < j < |keys| ==> keys[i] != keys[j])
    }
  }

  /** `{}` */
  const Empty: Dict := Dict([], map[])

  /** `dict[key]`, absent as None. */
  function Get(d: Dict, key: string): Option<Entry> {
    if key in d.entries then Some(d.entries[key]) else None
  }

  /** `dict[key] = e`: exactly that key changes; a new key is enumerated last
      and an existing key keeps its place. */
  function Put(d: Dict, key: string, e: Entry): (r: Dict)
    ensures Get(r, key) == Some(e)
    ensures forall k :: k != key ==> Get(r, k) == Get(d, k)
    ensures key in d.entries ==> r.keys == d.keys
    ensures key !in d.entries ==> r.keys == d.keys + [key]
    ensures d.Valid() ==> r.Valid()
  {
    if key in d.entries then Dict(d.keys, d.entries[key := e])
    else Dict(d.keys + [key], d.entries[key := e])
  }

  /** The entry setInput stores. */
  function InputEntry(tag: string, data: Value, parse: Value -> Option<real>): Entry {
    var t := NormalizeType(tag);
    Entry(t, CoerceType(t, data, parse))
  }

  /** The entry setOutput stores: for a media tag the data is the key
      itself, whatever was passed. */
  function OutputEntry(key: string, tag: string, data: Value, parse: Value -> Option<real>): (e: Entry)
    ensures e.typ == NormalizeType(tag)
    ensures e.typ == MediaType ==> e.data == Str(key)
    ensures e.typ != MediaType ==> e.data == CoerceType(e.typ, data, parse)
  {
    var t := NormalizeType(tag);
    if t == MediaType then Entry(t, Str(key)) else Entry(t, CoerceType(t, data, parse))
  }

  /** setInput on the inputs dictionary. */
  function StoreInput(d: Dict, key: string, tag: string, data: Value, parse: Value -> Option<real>): Dict {
    if key == "" then d else Put(d, key, InputEntry(tag, data, parse))
  }

  /** setOutput on the outputs dictionary. */
  function StoreOutput(d: Dict, key: string, tag: string, data: Value, parse: Value -> Option<real>): Dict {
    if key == "" then d else Put(d, key, OutputEntry(key, tag, data, parse))
  }

  /** setInput: a no-op on an empty key; otherwise it overwrites exactly
      that key with the normalized tag and the coerced value. */
  lemma StoreInputEffect(d: Dict, key: string, tag: string, data: Value, parse: Value -> Option<real>)
    ensures key == "" ==> StoreInput(d, key, tag, data, parse) == d
    ensures key != "" ==> Get(StoreInput(d, key, tag, data, parse), key)
                          == Some(Entry(NormalizeType(tag), CoerceType(NormalizeType(tag), data, parse)))
    ensures forall k :: k != key ==> Get(StoreInput(d, key, tag, data, parse), k) == Get(d, k)
    ensures d.Valid() ==> StoreInput(d, key, tag, data, parse).Valid()
  {
  }

  /** setOutput: a no-op on an empty key; otherwise it overwrites exactly
      that key, and a media tag stores the key as the data. */
  lemma StoreOutputEffect(d: Dict, key: string, tag: string, data: Value, parse: Value -> Option<real>)
    ensures key == "" ==> StoreOutput(d, key, tag, data, parse) == d
    ensures key != "" && NormalizeType(tag) == MediaType ==>
              Get(StoreOutput(d, key, tag, data, parse), key) == Some(Entry(MediaType, Str(key)))
    ensures key != "" && NormalizeType(tag) != MediaType ==>
              Get(StoreOutput(d, key, tag, data, parse), key)
              == Some(Entry(NormalizeType(tag), CoerceType(NormalizeType(tag), data, parse)))
    ensures forall k :: k != key ==> Get(StoreOutput(d, key, tag, data, parse), k) == Get(d, k)
    ensures d.Valid() ==> StoreOutput(d, key, tag, data, parse).Valid()
  {
  }

  /** The same setInput twice leaves the store as once. */
  lemma StoreInputIdempotent(d: Dict, key: string, tag: string, data: Value, parse: Value -> Option<real>)
    ensures var once := StoreInput(d, key, tag, data, parse);
            StoreInput(once, key, tag, data, parse) == once
  {
  }

  /** The same setOutput twice leaves the store as once. */
  lemma StoreOutputIdempotent(d: Dict, key: string, tag: string, data: Value, parse: Value -> Option<real>)
    ensures var once := StoreOutput(d, key, tag, data, parse);
            StoreOutput(once, key, tag, data, parse) == once
  {
  }

  /** Every media output holds its own key as data. */
  ghost predicate MediaOutputsNameThemselves(d: Dict) {
    forall k :: k in d.entries && d.entries[k].typ == MediaType ==> d.entries[k].data == Str(k)
  }

  /** setOutput keeps every media output naming itself. */
  lemma StoreOutputKeepsMediaNames(d: Dict, key: string, tag: string, data: Value, parse: Value -> Option<real>)
    ensures MediaOutputsNameThemselves(d) ==> MediaOutputsNameThemselves(StoreOutput(d, key, tag, data, parse))
  {
  }

  // ---------------------------------------------------------------------
  // Media-typed entries

  /** An element of getMediaInputEntries: `{key, ref: data ?? null}`. */
  datatype MediaRef = MediaRef(key: string, ref: Value)

  /** The media-typed entries among `keys`, in that order. */
  function MediaRefsAmong(keys: seq<string>, entries: map<string, Entry>): seq<MediaRef>
    decreases |keys|
  {
    if keys == [] then []
    else MediaRefsAmong(keys[..|keys| - 1], entries) + MediaRefOf(keys[|keys| - 1], entries)
  }

  /** What one key contributes: its entry if it is media-typed, else
      nothing. */
  function MediaRefOf(k: string, entries: map<string, Entry>): seq<MediaRef> {
    if k in entries && entries[k].typ == MediaType then [MediaRef(k, OrNull(entries[k].data))] else []
  }

  /** The selection holds exactly the media-typed entries among the keys,
      each paired with its data (null when undefined), and no more
      elements than there are keys. */
  lemma {:induction false} MediaRefsAmongSelects(keys: seq<string>, entries: map<string, Entry>)
    ensures |MediaRefsAmong(keys, entries)| <= |keys|
    ensures forall e :: e in MediaRefsAmong(keys, entries) ==>
              e.key in keys && e.key in entries && entries[e.key].typ == MediaType && e.ref == OrNull(entries[e.key].data)
    ensures forall k :: k in keys && k in entries && entries[k].typ == MediaType ==>
              MediaRef(k, OrNull(entries[k].data)) in MediaRefsAmong(keys, entries)
    decreases |keys|
  {
    if keys != [] {
      var front := keys[..|keys| - 1];
      var k := keys[|keys| - 1];
      MediaRefsAmongSelects(front, entries);
      assert forall j :: j in keys <==> j in front || j == k;
      var init := MediaRefsAmong(front, entries);
      var r := MediaRefsAmong(keys, entries);
      assert r == init + MediaRefOf(k, entries);
      assert forall e :: e in r <==> e in init || e in MediaRefOf(k, entries);
    }
  }

  /** Selecting from two runs of keys selects from each run in turn, so
      the selection keeps the order of the keys and lists a key as often as
      it is listed. */
  lemma {:induction false} MediaRefsAmongAppend(a: seq<string>, b: seq<string>, entries: map<string, Entry>)
    ensures MediaRefsAmong(a + b, entries) == MediaRefsAmong(a, entries) + MediaRefsAmong(b, entries)
    decreases |b|
  {
    if b == [] {
      assert a + b == a;
    } else {
      var front := b[..|b| - 1];
      var k := b[|b| - 1];
      MediaRefsAmongAppend(a, front, entries);
      assert (a + b)[..|a + b| - 1] == a + front;
      assert (a + b)[|a + b| - 1] == k;
    }
  }

  /** getMediaInputEntries: every media-typed input, paired with its data
      (null when undefined). */
  function MediaInputEntries(d: Dict): (r: seq<MediaRef>)
    ensures forall i :: 0 <= i < |r| ==>
              r[i].key in d.entries && d.entries[r[i].key].typ == MediaType
              && r[i].ref == OrNull(d.entries[r[i].key].data)
    ensures forall k :: k in d.keys && k in d.entries && d.entries[k].typ == MediaType ==>
              MediaRef(k, OrNull(d.entries[k].data)) in r
  {
    MediaRefsAmongSelects(d.keys, d.entries);
    MediaRefsAmong(d.keys, d.entries)
  }

  /** The entries whose reference is not blank (the filter in
      transitionState and handleRestartCommand). */
  function WithText(refs: seq<MediaRef>): (r: seq<MediaRef>)
    ensures |r| <= |refs|
    ensures forall i :: 0 <= i < |r| ==> r[i] in refs && HasText(r[i].ref)
    ensures forall e :: e in refs && HasText(e.ref) ==> e in r
    decreases |refs|
  {
    if refs == [] then []
    else
      var init := WithText(refs[..|refs| - 1]);
      var e := refs[|refs| - 1];
      assert forall x :: x in refs ==> x in refs[..|refs| - 1] || x == e;
      if HasText(e.ref) then init + [e] else init
  }

  /** Filtering two runs filters each run in turn: the filter keeps the
      order and the multiplicity of the entries it lets through. */
  lemma {:induction false} WithTextAppend(a: seq<MediaRef>, b: seq<MediaRef>)
    ensures WithText(a + b) == WithText(a) + WithText(b)
    decreases |b|
  {
    if b == [] {
      assert a + b == a;
    } else {
      var front := b[..|b| - 1];
      var e := b[|b| - 1];
      var tail := if HasText(e.ref) then [e] else [];
      WithTextAppend(a, front);
      assert (a + b)[..|a + b| - 1] == a + front;
      assert (a + b)[|a + b| - 1] == e;
      assert WithText(a + b) == WithText(a + front) + tail;
      assert WithText(b) == WithText(front) + tail;
    }
  }

  /** The media inputs a transition to running downloads. */
  function PendingDownloads(d: Dict): seq<MediaRef> {
    WithText(MediaInputEntries(d))
  }

  /** Some media input carries a non-blank reference. */
  ghost predicate HasPendingMedia(d: Dict) {
    exists k :: k in d.entries && d.entries[k].typ == MediaType && HasText(OrNull(d.entries[k].data))
  }

  /** There is something to download exactly when some media input has a
      non-blank reference. */
  lemma PendingDownloadsIff(d: Dict)
    requires d.Valid()
    ensures |PendingDownloads(d)| > 0 <==> HasPendingMedia(d)
  {
    if HasPendingMedia(d) {
      PendingMediaIsDownloaded(d);
    }
    if |PendingDownloads(d)| > 0 {
      DownloadsArePendingMedia(d);
    }
  }

  lemma PendingMediaIsDownloaded(d: Dict)
    requires d.Valid() && HasPendingMedia(d)
    ensures |PendingDownloads(d)| > 0
  {
    var refs := MediaInputEntries(d);
    var k :| k in d.entries && d.entries[k].typ == MediaType && HasText(OrNull(d.entries[k].data));
    assert k in d.keys;
    var i :| 0 <= i < |refs| && refs[i].key == k;
    assert refs[i] in refs && HasText(refs[i].ref);
  }

  lemma DownloadsArePendingMedia(d: Dict)
    requires |PendingDownloads(d)| > 0
    ensures HasPendingMedia(d)
  {
    var refs := MediaInputEntries(d);
    var e := PendingDownloads(d)[0];
    assert e in refs && HasText(e.ref);
    var i :| 0 <= i < |refs| && refs[i] == e;
    assert e.key in d.entries && d.entries[e.key].typ == MediaType && e.ref == OrNull(d.entries[e.key].data);
  }

  /** The media-typed keys among `keys`, in that order. */
  function MediaKeysAmong(keys: seq<string>, entries: map<string, Entry>): (r: seq<string>)
    ensures |r| <= |keys|
    ensures forall k :: k in r <==> k in keys && k in entries && entries[k].typ == MediaType
    decreases |keys|
  {
    if keys == [] then []
    else
      var init := MediaKeysAmong(keys[..|keys| - 1], entries);
      var k := keys[|keys| - 1];
      assert forall j :: j in keys <==> j in keys[..|keys| - 1] || j == k;
      if k in entries && entries[k].typ == MediaType then init + [k] else init
  }

  /** Selecting from two runs of keys selects from each run in turn: the
      selection keeps the order of the keys and their multiplicity. */
  lemma {:induction false} MediaKeysAmongAppend(a: seq<string>, b: seq<string>, entries: map<string, Entry>)
    ensures MediaKeysAmong(a + b, entries) == MediaKeysAmong(a, entries) + MediaKeysAmong(b, entries)
    decreases |b|
  {
    if b == [] {
      assert a + b == a;
    } else {
      var front := b[..|b| - 1];
      var k := b[|b| - 1];
      var tail := if k in entries && entries[k].typ == MediaType then [k] else [];
      MediaKeysAmongAppend(a, front, entries);
      assert (a + b)[..|a + b| - 1] == a + front;
      assert (a + b)[|a + b| - 1] == k;
      assert MediaKeysAmong(a + b, entries) == MediaKeysAmong(a + front, entries) + tail;
      assert MediaKeysAmong(b, entries) == MediaKeysAmong(front, entries) + tail;
    }
  }

  /** getMediaOutputKeys: the keys of the media-typed outputs. */
  function MediaOutputKeys(d: Dict): (r: seq<string>)
    ensures forall k :: k in r <==> k in d.keys && k in d.entries && d.entries[k].typ == MediaType
  {
    MediaKeysAmong(d.keys, d.entries)
  }

  /** Some output is media-typed. */
  ghost predicate HasMediaOutput(d: Dict) {
    exists k :: k in d.entries && d.entries[k].typ == MediaType
  }

  /** There is something to upload exactly when some output is media-typed. */
  lemma MediaOutputKeysIff(d: Dict)
    requires d.Valid()
    ensures |MediaOutputKeys(d)| > 0 <==> HasMediaOutput(d)
  {
    if HasMediaOutput(d) {
      var k :| k in d.entries && d.entries[k].typ == MediaType;
      assert k in MediaOutputKeys(d);
    }
    if |MediaOutputKeys(d)| > 0 {
      assert MediaOutputKeys(d)[0] in MediaOutputKeys(d);
    }
  }
}
