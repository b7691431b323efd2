/** Media payload omission: `omit_payloads` and `input_modalities` of `media.py`, on JSON values. */
module Media {
  import opened Wrappers
  import opened Text

  datatype Json = JNull | JBool(b: bool) | JNum(n: int) | JStr(s: string)
                | JArr(items: seq<Json>) | JObj(fields: map<string, Json>)

  type Fields = map<string, Json>

  /** What a payload decodes to, as far as the metadata tells. */
  datatype Decoded = Decoded(size: nat, sha256: string)

  /** What the source takes from elsewhere: the path a text names, `json.dumps`, `str`, the strict
      base64 decoder, and the text that stands for an echo. */
  datatype Codec = Codec(
    sourcePath: string -> string,
    dumps: Json -> string,
    show: Json -> string,
    decode: string -> Option<Decoded>,
    marker: string)

  // ---- Recognising media -------------------------------------------------------------

  function Get(o: Fields, key: string): Json {
    if key in o then o[key] else JNull
  }

  function GetOrEmpty(o: Fields, key: string): Json {
    if key in o then o[key] else JStr("")
  }

  predicate Picture(t: Json) {
    t == JStr("image") || t == JStr("document")
  }

  predicate Linked(t: Json) {
    t == JStr("image_url") || t == JStr("input_image")
  }

  predicate MediaType(t: Json) {
    Picture(t) || Linked(t) || t == JStr("resource") || t == JStr("input_file") || t == JStr("file")
  }

  const BASE64 := ";base64,"

  const DATA := "data:"

  /** A word whose first character is not in the prefix is not found in it. */
  lemma BehindPrefix(p: string, w: string, s: string)
    requires p <= s && w != "" && Without(p, w[0]) && IndexOf(w, s) < |s|
    ensures |p| <= IndexOf(w, s) && IndexOf(w, s) + |w| <= |s|
  {
    var i := IndexOf(w, s);
    IndexIsFirst(w, s);
    assert s[i..i + |w|][0] == s[i];
  }

  /** A data URL's media type and payload. */
  function DataUrl(url: Json): Option<(string, string)> {
    if url.JStr? && DATA <= url.s && IndexOf(BASE64, url.s) < |url.s| then
      var i := IndexOf(BASE64, url.s);
      BehindPrefix(DATA, BASE64, url.s);
      Some((url.s[|DATA|..i], url.s[i + |BASE64|..]))
    else None
  }

  function UrlOf(o: Fields): Json {
    if Linked(Get(o, "type")) then
      var url := Get(o, "image_url");
      if url.JObj? then Get(url.fields, "url") else url
    else
      var file := Get(o, "file");
      if file.JObj? then Get(file.fields, "file_data") else Get(o, "file_data")
  }

  predicate HasBase64(source: Json) {
    source.JObj? && Get(source.fields, "type") == JStr("base64")
  }

  predicate HasBlob(resource: Json) {
    resource.JObj? && "blob" in resource.fields
  }

  /** `_source`: the media type and payload of a block that carries one. */
  function Source(cd: Codec, o: Fields): Option<(string, string)> {
    var t := Get(o, "type");
    var source, resource := Get(o, "source"), Get(o, "resource");
    if !MediaType(t) then None
    else if Picture(t) && HasBase64(source) then
      Some((cd.show(GetOrEmpty(source.fields, "media_type")), cd.show(GetOrEmpty(source.fields, "data"))))
    else if Picture(t) && "data" in o && "mimeType" in o then
      Some((cd.show(o["mimeType"]), cd.show(o["data"])))
    else if t == JStr("resource") && HasBlob(resource) then
      Some((cd.show(GetOrEmpty(resource.fields, "mimeType")), cd.show(resource.fields["blob"])))
    else DataUrl(UrlOf(o))
  }

  predicate IsMedia(cd: Codec, v: Json) {
    v.JObj? && Source(cd, v.fields).Some?
  }

  // ---- The rewrite -------------------------------------------------------------------

  function PathAfter(cd: Codec, item: Json, path: string): string {
    if item.JObj? && Get(item.fields, "text").JStr? && cd.sourcePath(item.fields["text"].s) != ""
    then cd.sourcePath(item.fields["text"].s) else path
  }

  /** The path in force when the i-th item is reached. */
  function PathAt(cd: Codec, items: seq<Json>, i: nat, path: string): string
    requires i < |items|
  {
    PathAfter(cd, items[i], if i == 0 then path else PathAt(cd, items, i - 1, path))
  }

  /** What stands for a media block. */
  function Metadata(cd: Codec, path: string, media: (string, string)): Fields {
    var known: Fields :=
      map["source_path" := JStr(path), "media_type" := JStr(media.0), "payload_omitted" := JBool(true)];
    match cd.decode(media.1)
    case None => known["error" := JStr("invalid media payload")]
    case Some(d) => known["byte_size" := JNum(d.size)]["sha256" := JStr(d.sha256)]
  }

  function Omitted(cd: Codec, o: Fields, path: string, media: (string, string)): Json {
    JObj(map["type" := Get(o, "type"), "source" := JObj(Metadata(cd, path, media))])
  }

  /** A tool result with a media block among its content. */
  predicate Joins(cd: Codec, o: Fields) {
    && Get(o, "type") == JStr("tool_result") && Get(o, "content").JArr?
    && exists i :: 0 <= i < |o["content"].items| && IsMedia(cd, o["content"].items[i])
  }

  predicate IsText(b: Json) {
    b.JObj? && Get(b.fields, "type") == JStr("text")
  }

  const DUMP_SUFFIX := " Media payload omitted; use read_file for a fresh image."

  function Line(cd: Codec, b: Json): string {
    if IsText(b) then cd.show(Get(b.fields, "text")) else cd.dumps(b) + DUMP_SUFFIX
  }

  function Lines(cd: Codec, items: seq<Json>): string {
    if items == [] then "" else if |items| == 1 then Line(cd, items[0])
    else Line(cd, items[0]) + "\n" + Lines(cd, items[1..])
  }

  function WithJoined(cd: Codec, out: Fields): Fields
    requires "content" in out && out["content"].JArr?
  {
    out["content" := JStr(Lines(cd, out["content"].items))]
  }

  /** Objects, the texts among them with their text. */
  predicate Readable(content: seq<Json>) {
    forall i :: 0 <= i < |content| ==> content[i].JObj? && (IsText(content[i]) ==> "text" in content[i].fields)
  }

  function Walked(cd: Codec, v: Json, path: string): (r: Json)
    ensures v.JArr? <==> r.JArr?
    ensures v.JObj? <==> r.JObj?
    ensures !v.JArr? && !v.JObj? ==> r == v
    decreases v, 1
  {
    match v
    case JArr(items) =>
      JArr(seq(|items|, i requires 0 <= i < |items| => Walked(cd, items[i], PathAt(cd, items, i, path))))
    case JObj(o) =>
      if IsMedia(cd, v) then Omitted(cd, o, path, Source(cd, o).value)
      else
        var out := WalkedFields(cd, v, path);
        JObj(if Joins(cd, o) then WithJoined(cd, out) else out)
    case _ => v
  }

  function WalkedFields(cd: Codec, v: Json, path: string): (out: Fields)
    requires v.JObj?
    ensures Get(v.fields, "content").JArr? ==> "content" in out && out["content"].JArr?
    decreases v, 0
  {
    map k | k in v.fields :: Walked(cd, v.fields[k], path)
  }

  /** The payloads that decode, of every media block. */
  function Collected(cd: Codec, v: Json): set<string>
    decreases v
  {
    match v
    case JArr(items) => set i, p | 0 <= i < |items| && p in Collected(cd, items[i]) :: p
    case JObj(o) =>
      if IsMedia(cd, v) then
        var encoded := Source(cd, o).value.1;
        if cd.decode(encoded).Some? then {encoded} else {}
      else set k, p | k in o && p in Collected(cd, o[k]) :: p
    case _ => {}
  }

  /** Where the source does not raise: the content it joins can be read. */
  predicate Walkable(cd: Codec, v: Json)
    decreases v
  {
    match v
    case JArr(items) => forall i :: 0 <= i < |items| ==> Walkable(cd, items[i])
    case JObj(o) =>
      IsMedia(cd, v) ||
      ((forall k :: k in o ==> Walkable(cd, o[k])) &&
       (Joins(cd, o) ==> Readable(o["content"].items)))
    case _ => true
  }

  function ScrubText(order: seq<string>, m: string, s: string): string
    decreases |order|
  {
    if order == [] then s else ScrubText(order[1..], m, Replace(s, order[0], m))
  }

  function Scrubbed(order: seq<string>, m: string, v: Json): Json
    decreases v
  {
    match v
    case JStr(s) => JStr(ScrubText(order, m, s))
    case JArr(items) => JArr(seq(|items|, i requires 0 <= i < |items| => Scrubbed(order, m, items[i])))
    case JObj(o) => JObj(map k | k in o :: Scrubbed(order, m, o[k]))
    case _ => v
  }

  /** `order` is the collected payloads, longest first; None where the source raises. */
  function Omit(cd: Codec, order: seq<string>, v: Json): Option<Json> {
    if !Walkable(cd, v) then None
    else if Collected(cd, v) == {} then Some(Walked(cd, v, ""))
    else Some(Scrubbed(order, cd.marker, Walked(cd, v, "")))
  }

  ghost predicate Orders(order: seq<string>, payloads: set<string>) {
    && (forall p :: p in payloads <==> p in order)
    && (forall i, j :: 0 <= i < j < |order| ==> order[i] != order[j] && |order[i]| >= |order[j]|)
  }

  /** What the payload theorems need of the codec. */
  ghost predicate Sound(cd: Codec) {
    && (forall t :: cd.show(JStr(t)) == t)
    && (forall t :: cd.decode(t).Some? ==> Base64(t))
    && Bracketed(cd.marker) && Foreign(BASE64, cd.marker)
  }

  predicate Base64(t: string) {
    forall i :: 0 <= i < |t| ==>
      'A' <= t[i] <= 'Z' || 'a' <= t[i] <= 'z' || '0' <= t[i] <= '9' || t[i] in "+/="
  }

  // ---- The input modalities ----------------------------------------------------------

  datatype Modality = Image | Document

  function ModalityOf(media: (string, string)): Modality {
    if media.0 == "application/pdf" then Document else Image
  }

  function Modalities(cd: Codec, v: Json): set<Modality>
    decreases v
  {
    match v
    case JArr(items) => set i, x | 0 <= i < |items| && x in Modalities(cd, items[i]) :: x
    case JObj(o) =>
      (if IsMedia(cd, v) then {ModalityOf(Source(cd, o).value)} else {})
      + set k, x | k in o && x in Modalities(cd, o[k]) :: x
    case _ => {}
  }

  /** No media block anywhere. */
  predicate SourceFree(cd: Codec, v: Json)
    decreases v
  {
    match v
    case JArr(items) => forall i :: 0 <= i < |items| ==> SourceFree(cd, items[i])
    case JObj(o) => !IsMedia(cd, v) && forall k :: k in o ==> SourceFree(cd, o[k])
    case _ => true
  }

  lemma {:induction false} NoModalityMeansSourceFree(cd: Codec, v: Json)
    ensures Modalities(cd, v) == {} <==> SourceFree(cd, v)
    decreases v
  {
    match v
    case JArr(items) =>
      forall i | 0 <= i < |items|
        ensures Modalities(cd, items[i]) <= Modalities(cd, v)
        ensures Modalities(cd, items[i]) == {} <==> SourceFree(cd, items[i])
      {
        NoModalityMeansSourceFree(cd, items[i]);
      }
    case JObj(o) =>
      forall k | k in o
        ensures Modalities(cd, o[k]) <= Modalities(cd, v)
        ensures Modalities(cd, o[k]) == {} <==> SourceFree(cd, o[k])
      {
        NoModalityMeansSourceFree(cd, o[k]);
      }
      if IsMedia(cd, v) {
        assert ModalityOf(Source(cd, o).value) in Modalities(cd, v);
      }
    case _ =>
  }

  // ---- A value without media is left as it is ----------------------------------------

  lemma SourceFreeJoinsNothing(cd: Codec, o: Fields)
    requires SourceFree(cd, JObj(o))
    ensures !Joins(cd, o)
  {
    if "content" in o && o["content"].JArr? {
      assert SourceFree(cd, o["content"]);
    }
  }

  lemma {:induction false} WalkKeepsSourceFree(cd: Codec, v: Json, path: string)
    requires SourceFree(cd, v)
    ensures Walked(cd, v, path) == v && Walkable(cd, v) && Collected(cd, v) == {}
    decreases v, 1
  {
    match v
    case JArr(items) =>
      forall i | 0 <= i < |items|
        ensures Walked(cd, items[i], PathAt(cd, items, i, path)) == items[i]
        ensures Walkable(cd, items[i]) && Collected(cd, items[i]) == {}
      {
        WalkKeepsSourceFree(cd, items[i], PathAt(cd, items, i, path));
      }
    case JObj(o) =>
      WalkKeepsFields(cd, v, path);
      SourceFreeJoinsNothing(cd, o);
    case _ =>
  }

  lemma {:induction false} WalkKeepsFields(cd: Codec, v: Json, path: string)
    requires v.JObj? && SourceFree(cd, v)
    ensures WalkedFields(cd, v, path) == v.fields
    ensures forall k :: k in v.fields ==> Walkable(cd, v.fields[k]) && Collected(cd, v.fields[k]) == {}
    decreases v, 0
  {
    forall k | k in v.fields
      ensures Walked(cd, v.fields[k], path) == v.fields[k]
      ensures Walkable(cd, v.fields[k]) && Collected(cd, v.fields[k]) == {}
    {
      WalkKeepsSourceFree(cd, v.fields[k], path);
    }
  }

  // ---- The walk leaves no media ------------------------------------------------------

  /** A block offers no media that another did not offer. */
  lemma SourceStays(cd: Codec, o: Fields, t: Fields)
    requires MediaType(Get(t, "type")) ==> Get(o, "type") == Get(t, "type")
    requires HasBase64(Get(t, "source")) ==> HasBase64(Get(o, "source"))
    requires "data" in t && "mimeType" in t ==> "data" in o && "mimeType" in o
    requires HasBlob(Get(t, "resource")) ==> HasBlob(Get(o, "resource"))
    requires Get(o, "type") == Get(t, "type") && DataUrl(UrlOf(t)).Some? ==> DataUrl(UrlOf(o)).Some?
    ensures Source(cd, t).Some? ==> Source(cd, o).Some?
  {
  }

  /** One field of a walked object: the walked field, but for a joined content. */
  lemma WalkedField(cd: Codec, v: Json, path: string, k: string)
    requires v.JObj? && !IsMedia(cd, v) && k != "content"
    ensures k in Walked(cd, v, path).fields <==> k in v.fields
    ensures Get(Walked(cd, v, path).fields, k) == Walked(cd, Get(v.fields, k), path)
  {
  }

  /** A field of a field keeps its text, unless media stood there. */
  lemma WalkedInner(cd: Codec, v: Json, path: string, k: string)
    requires v.JObj? && k != "type" && k != "source" && k != "content"
    ensures k in Walked(cd, v, path).fields ==> k in v.fields
    ensures Get(Walked(cd, v, path).fields, k).JStr? ==> Get(Walked(cd, v, path).fields, k) == Get(v.fields, k)
  {
    if !IsMedia(cd, v) {
      WalkedField(cd, v, path, k);
    }
  }

  lemma WalkedBase64(cd: Codec, v: Json, path: string)
    requires HasBase64(Walked(cd, v, path))
    ensures HasBase64(v)
  {
    if !IsMedia(cd, v) {
      WalkedField(cd, v, path, "type");
    }
  }

  lemma WalkedUrl(cd: Codec, v: Json, path: string)
    requires v.JObj? && !IsMedia(cd, v)
    requires var t := Walked(cd, v, path).fields; Get(t, "type") == Get(v.fields, "type") && UrlOf(t).JStr?
    ensures UrlOf(Walked(cd, v, path).fields) == UrlOf(v.fields)
  {
    WalkedField(cd, v, path, "image_url");
    WalkedField(cd, v, path, "file");
    WalkedField(cd, v, path, "file_data");
    if Linked(Get(v.fields, "type")) {
      var url := Get(v.fields, "image_url");
      if url.JObj? {
        WalkedInner(cd, url, path, "url");
      }
    } else {
      var file := Get(v.fields, "file");
      if file.JObj? {
        WalkedInner(cd, file, path, "file_data");
      }
    }
  }

  /** A block without media has none when its fields are walked. */
  lemma WalkedIsNoMedia(cd: Codec, v: Json, path: string)
    requires v.JObj? && !IsMedia(cd, v)
    ensures !IsMedia(cd, Walked(cd, v, path))
  {
    var o, t := v.fields, Walked(cd, v, path).fields;
    WalkedField(cd, v, path, "type");
    WalkedField(cd, v, path, "source");
    WalkedField(cd, v, path, "data");
    WalkedField(cd, v, path, "mimeType");
    WalkedField(cd, v, path, "resource");
    if HasBase64(Get(t, "source")) {
      WalkedBase64(cd, Get(o, "source"), path);
    }
    if HasBlob(Get(t, "resource")) {
      WalkedInner(cd, Get(o, "resource"), path, "blob");
    }
    if Get(o, "type") == Get(t, "type") && DataUrl(UrlOf(t)).Some? {
      WalkedUrl(cd, v, path);
    }
    SourceStays(cd, o, t);
  }

  lemma MetadataIsNoMedia(cd: Codec, path: string, media: (string, string))
    ensures SourceFree(cd, JObj(Metadata(cd, path, media)))
  {
    var metadata := Metadata(cd, path, media);
    assert "type" !in metadata;
    assert forall k :: k in metadata ==> SourceFree(cd, metadata[k]);
  }

  /** Nor has what stands for a media block. */
  lemma OmittedIsNoMedia(cd: Codec, o: Fields, path: string, media: (string, string))
    requires MediaType(Get(o, "type"))
    ensures SourceFree(cd, Omitted(cd, o, path, media))
  {
    MetadataIsNoMedia(cd, path, media);
    StandInIsNoMedia(cd, Get(o, "type"), Metadata(cd, path, media));
  }

  lemma StandInIsNoMedia(cd: Codec, t: Json, metadata: Fields)
    requires MediaType(t) && "type" !in metadata && SourceFree(cd, JObj(metadata))
    ensures SourceFree(cd, JObj(map["type" := t, "source" := JObj(metadata)]))
  {
    var o: Fields := map["type" := t, "source" := JObj(metadata)];
    assert !IsMedia(cd, JObj(o));
  }

  lemma {:induction false} WalkLeavesNoMedia(cd: Codec, v: Json, path: string)
    ensures SourceFree(cd, Walked(cd, v, path))
    decreases v
  {
    match v
    case JArr(items) =>
      forall i | 0 <= i < |items|
        ensures SourceFree(cd, Walked(cd, items[i], PathAt(cd, items, i, path)))
      {
        WalkLeavesNoMedia(cd, items[i], PathAt(cd, items, i, path));
      }
    case JObj(o) =>
      if IsMedia(cd, v) {
        OmittedIsNoMedia(cd, o, path, Source(cd, o).value);
      } else {
        WalkedIsNoMedia(cd, v, path);
        forall k | k in o
          ensures SourceFree(cd, Walked(cd, o[k], path))
        {
          WalkLeavesNoMedia(cd, o[k], path);
        }
      }
    case _ =>
  }

  // ---- The scrub leaves no media -----------------------------------------------------

  /** Texts that hold a bracket were perhaps scrubbed; others were not. */
  lemma {:induction false} ScrubTextShows(order: seq<string>, m: string, s: string, p: string)
    requires Bracketed(m)
    ensures Without(ScrubText(order, m, s), '[') ==> ScrubText(order, m, s) == s
    ensures Without(p, '[') && p <= ScrubText(order, m, s) ==> p <= s
    decreases |order|
  {
    if order != [] {
      ScrubTextShows(order[1..], m, Replace(s, order[0], m), p);
      ReplaceShows(s, order[0], m, p);
    }
  }

  lemma {:induction false} ScrubTextAddsNothing(order: seq<string>, m: string, s: string, w: string)
    requires Bracketed(m) && Foreign(w, m) && Occurs(w, ScrubText(order, m, s))
    ensures Occurs(w, s)
    decreases |order|
  {
    if order != [] {
      ScrubTextAddsNothing(order[1..], m, Replace(s, order[0], m), w);
      ReplaceAddsNothing(w, s, order[0], m);
    }
  }

  lemma {:induction false} ScrubTextRemoves(order: seq<string>, m: string, s: string, w: string)
    requires Bracketed(m) && Foreign(w, m) && w in order
    ensures !Occurs(w, ScrubText(order, m, s))
    decreases |order|
  {
    var first := Replace(s, order[0], m);
    if order[0] == w {
      ReplaceRemoves(s, w, m);
      if Occurs(w, ScrubText(order[1..], m, first)) {
        ScrubTextAddsNothing(order[1..], m, first, w);
      }
    } else {
      ScrubTextRemoves(order[1..], m, first, w);
    }
  }

  lemma FoundMeansOccurs(w: string, s: string)
    requires w != ""
    ensures IndexOf(w, s) < |s| <==> Occurs(w, s)
  {
    IndexIsFirst(w, s);
    if IndexOf(w, s) < |s| {
      assert OccursAt(w, s, IndexOf(w, s));
    }
  }

  lemma ScrubbedUrl(order: seq<string>, m: string, url: Json)
    requires Bracketed(m) && Foreign(BASE64, m)
    requires DataUrl(Scrubbed(order, m, url)).Some?
    ensures DataUrl(url).Some?
  {
    ScrubTextShows(order, m, url.s, DATA);
    FoundMeansOccurs(BASE64, ScrubText(order, m, url.s));
    ScrubTextAddsNothing(order, m, url.s, BASE64);
    FoundMeansOccurs(BASE64, url.s);
  }

  lemma ScrubbedField(order: seq<string>, m: string, o: Fields, k: string)
    ensures var t := Scrubbed(order, m, JObj(o)).fields;
            (k in t <==> k in o) && Get(t, k) == Scrubbed(order, m, Get(o, k))
  {
  }

  /** A name without a bracket is found in a field only when it stood there. */
  lemma ScrubbedName(order: seq<string>, m: string, v: Json, name: string)
    requires Bracketed(m) && Without(name, '[')
    ensures Scrubbed(order, m, v) == JStr(name) ==> v == JStr(name)
  {
    if v.JStr? {
      ScrubTextShows(order, m, v.s, "");
    }
  }

  lemma ScrubbedType(order: seq<string>, m: string, v: Json)
    requires Bracketed(m) && MediaType(Scrubbed(order, m, v))
    ensures v == Scrubbed(order, m, v)
  {
    ScrubbedName(order, m, v, Scrubbed(order, m, v).s);
  }

  lemma ScrubbedBase64(order: seq<string>, m: string, v: Json)
    requires Bracketed(m) && HasBase64(Scrubbed(order, m, v))
    ensures HasBase64(v)
  {
    ScrubbedField(order, m, v.fields, "type");
    ScrubbedName(order, m, Get(v.fields, "type"), "base64");
  }

  lemma ScrubbedUrlOf(order: seq<string>, m: string, o: Fields)
    requires var t := Scrubbed(order, m, JObj(o)).fields; Get(t, "type") == Get(o, "type")
    ensures UrlOf(Scrubbed(order, m, JObj(o)).fields) == Scrubbed(order, m, UrlOf(o))
  {
    ScrubbedField(order, m, o, "image_url");
    ScrubbedField(order, m, o, "file");
    ScrubbedField(order, m, o, "file_data");
    if Get(o, "image_url").JObj? {
      ScrubbedField(order, m, Get(o, "image_url").fields, "url");
    }
    if Get(o, "file").JObj? {
      ScrubbedField(order, m, Get(o, "file").fields, "file_data");
    }
  }

  lemma ScrubbedIsNoMedia(cd: Codec, order: seq<string>, o: Fields)
    requires Sound(cd) && !IsMedia(cd, JObj(o))
    ensures !IsMedia(cd, Scrubbed(order, cd.marker, JObj(o)))
  {
    var m, t := cd.marker, Scrubbed(order, cd.marker, JObj(o)).fields;
    ScrubbedField(order, m, o, "type");
    ScrubbedField(order, m, o, "source");
    ScrubbedField(order, m, o, "data");
    ScrubbedField(order, m, o, "mimeType");
    ScrubbedField(order, m, o, "resource");
    if MediaType(Get(t, "type")) {
      ScrubbedType(order, m, Get(o, "type"));
    }
    if HasBase64(Get(t, "source")) {
      ScrubbedBase64(order, m, Get(o, "source"));
    }
    if Get(o, "type") == Get(t, "type") && DataUrl(UrlOf(t)).Some? {
      ScrubbedUrlOf(order, m, o);
      ScrubbedUrl(order, m, UrlOf(o));
    }
    SourceStays(cd, o, t);
  }

  lemma {:induction false} ScrubLeavesNoMedia(cd: Codec, order: seq<string>, v: Json)
    requires Sound(cd) && SourceFree(cd, v)
    ensures SourceFree(cd, Scrubbed(order, cd.marker, v))
    decreases v
  {
    match v
    case JArr(items) =>
      forall i | 0 <= i < |items|
        ensures SourceFree(cd, Scrubbed(order, cd.marker, items[i]))
      {
        ScrubLeavesNoMedia(cd, order, items[i]);
      }
    case JObj(o) =>
      ScrubbedIsNoMedia(cd, order, o);
      forall k | k in o
        ensures SourceFree(cd, Scrubbed(order, cd.marker, o[k]))
      {
        ScrubLeavesNoMedia(cd, order, o[k]);
      }
    case _ =>
  }

  // ---- The guarantees ----------------------------------------------------------------

  /** The recogniser finds nothing in what is left, in whatever order the echoes went. */
  lemma OmitLeavesNoMedia(cd: Codec, order: seq<string>, v: Json)
    requires Sound(cd) && Omit(cd, order, v).Some?
    ensures Modalities(cd, Omit(cd, order, v).value) == {}
  {
    var walked := Walked(cd, v, "");
    WalkLeavesNoMedia(cd, v, "");
    ScrubLeavesNoMedia(cd, order, walked);
    NoModalityMeansSourceFree(cd, Omit(cd, order, v).value);
  }

  /** Only values with media change, and none of those stays as it is. */
  lemma OmitIsIdentityWithoutMedia(cd: Codec, order: seq<string>, v: Json)
    requires Sound(cd)
    ensures Omit(cd, order, v) == Some(v) <==> Modalities(cd, v) == {}
  {
    NoModalityMeansSourceFree(cd, v);
    if SourceFree(cd, v) {
      WalkKeepsSourceFree(cd, v, "");
    } else if Omit(cd, order, v) == Some(v) {
      OmitLeavesNoMedia(cd, order, v);
    }
  }

  lemma OmitTwice(cd: Codec, order: seq<string>, again: seq<string>, v: Json)
    requires Sound(cd) && Omit(cd, order, v).Some?
    ensures Omit(cd, again, Omit(cd, order, v).value) == Omit(cd, order, v)
  {
    OmitLeavesNoMedia(cd, order, v);
    OmitIsIdentityWithoutMedia(cd, again, Omit(cd, order, v).value);
  }

  /** Some text in the value is this one; keys are no texts. */
  predicate Says(v: Json, s: string)
    decreases v
  {
    match v
    case JStr(t) => s == t
    case JArr(items) => exists i :: 0 <= i < |items| && Says(items[i], s)
    case JObj(o) => exists k :: k in o && Says(o[k], s)
    case _ => false
  }

  lemma {:induction false} ScrubbedSays(order: seq<string>, m: string, v: Json, s: string)
    requires Says(Scrubbed(order, m, v), s)
    ensures exists t :: s == ScrubText(order, m, t)
    decreases v
  {
    match v
    case JStr(t) =>
    case JArr(items) =>
      var i :| 0 <= i < |items| && Says(Scrubbed(order, m, items[i]), s);
      ScrubbedSays(order, m, items[i], s);
    case JObj(o) =>
      var k :| k in o && Says(Scrubbed(order, m, o[k]), s);
      ScrubbedSays(order, m, o[k], s);
    case _ =>
  }

  lemma {:induction false} CollectedDecode(cd: Codec, v: Json, p: string)
    requires p in Collected(cd, v)
    ensures cd.decode(p).Some?
    decreases v
  {
    match v
    case JArr(items) =>
      var i :| 0 <= i < |items| && p in Collected(cd, items[i]);
      CollectedDecode(cd, items[i], p);
    case JObj(o) =>
      if !IsMedia(cd, v) {
        var k :| k in o && p in Collected(cd, o[k]);
        CollectedDecode(cd, o[k], p);
      }
    case _ =>
  }

  lemma ForeignPayload(cd: Codec, p: string)
    requires Sound(cd) && cd.decode(p).Some? && p != "" && !Occurs(p, cd.marker)
    ensures Foreign(p, cd.marker)
  {
    assert Base64(p);
  }

  lemma ScrubbedTextLacks(order: seq<string>, m: string, v: Json, p: string, s: string)
    requires Bracketed(m) && Foreign(p, m) && p in order && Says(Scrubbed(order, m, v), s)
    ensures !Occurs(p, s)
  {
    ScrubbedSays(order, m, v, s);
    var t :| s == ScrubText(order, m, t);
    ScrubTextRemoves(order, m, t, p);
  }

  /** No text of the result holds a collected payload, if the payload is not empty and no part of
      the marker itself. */
  lemma EchoesAreScrubbed(cd: Codec, order: seq<string>, v: Json, p: string)
    requires Sound(cd) && Omit(cd, order, v).Some? && Orders(order, Collected(cd, v))
    requires p in Collected(cd, v) && p != "" && !Occurs(p, cd.marker)
    ensures forall s :: Says(Omit(cd, order, v).value, s) ==> !Occurs(p, s)
  {
    CollectedDecode(cd, v, p);
    ForeignPayload(cd, p);
    var walked := Walked(cd, v, "");
    assert Omit(cd, order, v) == Some(Scrubbed(order, cd.marker, walked));
    forall s | Says(Scrubbed(order, cd.marker, walked), s)
      ensures !Occurs(p, s)
    {
      ScrubbedTextLacks(order, cd.marker, walked, p, s);
    }
  }

  lemma {:induction false} ScrubTextOpens(order: seq<string>, m: string, s: string)
    requires Bracketed(m) && forall i :: 0 <= i < |order| ==> Without(order[i], '[')
    ensures Opens(ScrubText(order, m, s)) >= Opens(s)
    ensures ScrubText(order, m, s) == s <==> forall i :: 0 <= i < |order| ==> !Occurs(order[i], s)
    decreases |order|
  {
    if order != [] {
      var first := Replace(s, order[0], m);
      ReplaceOpens(s, order[0], m);
      ScrubTextOpens(order[1..], m, first);
      if !Occurs(order[0], s) {
        assert forall i :: 0 < i < |order| ==> order[i] == order[1..][i - 1];
      }
    }
  }

  lemma CollectedOpenNothing(cd: Codec, order: seq<string>, v: Json)
    requires Sound(cd) && Orders(order, Collected(cd, v))
    ensures forall i :: 0 <= i < |order| ==> Without(order[i], '[')
  {
    forall i | 0 <= i < |order|
      ensures Without(order[i], '[')
    {
      CollectedDecode(cd, v, order[i]);
      assert Base64(order[i]);
    }
  }

  /** Which texts the scrub changes: exactly those in which a collected payload occurs. */
  lemma ScrubChangesEchoes(cd: Codec, order: seq<string>, v: Json, s: string)
    requires Sound(cd) && Orders(order, Collected(cd, v))
    ensures ScrubText(order, cd.marker, s) == s <==> forall p :: p in Collected(cd, v) ==> !Occurs(p, s)
  {
    CollectedOpenNothing(cd, order, v);
    ScrubTextOpens(order, cd.marker, s);
    if forall i :: 0 <= i < |order| ==> !Occurs(order[i], s) {
      forall p | p in Collected(cd, v)
        ensures !Occurs(p, s)
      {
        var i :| 0 <= i < |order| && order[i] == p;
      }
    } else {
      var i :| 0 <= i < |order| && Occurs(order[i], s);
      assert order[i] in Collected(cd, v);
    }
  }

  /** The scrub changes no text of the value. */
  ghost predicate Quiet(order: seq<string>, m: string, v: Json) {
    forall s :: Says(v, s) ==> ScrubText(order, m, s) == s
  }

  lemma QuietItems(order: seq<string>, m: string, items: seq<Json>)
    ensures Quiet(order, m, JArr(items)) <==> forall i :: 0 <= i < |items| ==> Quiet(order, m, items[i])
  {
    if Quiet(order, m, JArr(items)) {
      forall i, s | 0 <= i < |items| && Says(items[i], s)
        ensures ScrubText(order, m, s) == s
      {
        assert Says(JArr(items), s);
      }
    }
  }

  lemma QuietFields(order: seq<string>, m: string, o: Fields)
    ensures Quiet(order, m, JObj(o)) <==> forall k :: k in o ==> Quiet(order, m, o[k])
  {
    if Quiet(order, m, JObj(o)) {
      forall k, s | k in o && Says(o[k], s)
        ensures ScrubText(order, m, s) == s
      {
        assert Says(JObj(o), s);
      }
    }
  }

  lemma {:induction false} ScrubbedStays(order: seq<string>, m: string, v: Json)
    ensures Scrubbed(order, m, v) == v <==> Quiet(order, m, v)
    decreases v
  {
    match v
    case JStr(t) =>
      assert Says(v, t);
    case JArr(items) =>
      forall i | 0 <= i < |items|
        ensures Scrubbed(order, m, items[i]) == items[i] <==> Quiet(order, m, items[i])
      {
        ScrubbedStays(order, m, items[i]);
      }
      ScrubbedItems(order, m, items);
      QuietItems(order, m, items);
    case JObj(o) =>
      forall k | k in o
        ensures Scrubbed(order, m, o[k]) == o[k] <==> Quiet(order, m, o[k])
      {
        ScrubbedStays(order, m, o[k]);
      }
      ScrubbedFields(order, m, o);
      QuietFields(order, m, o);
    case _ =>
  }

  lemma ScrubbedItems(order: seq<string>, m: string, items: seq<Json>)
    ensures Scrubbed(order, m, JArr(items)) == JArr(items)
            <==> forall i :: 0 <= i < |items| ==> Scrubbed(order, m, items[i]) == items[i]
  {
    var scrubbed := Scrubbed(order, m, JArr(items)).items;
    assert |scrubbed| == |items| && forall i :: 0 <= i < |items| ==> scrubbed[i] == Scrubbed(order, m, items[i]);
    assert (forall i :: 0 <= i < |items| ==> scrubbed[i] == items[i]) ==> scrubbed == items;
  }

  lemma ScrubbedFields(order: seq<string>, m: string, o: Fields)
    ensures Scrubbed(order, m, JObj(o)) == JObj(o) <==> forall k :: k in o ==> Scrubbed(order, m, o[k]) == o[k]
  {
    var scrubbed := Scrubbed(order, m, JObj(o)).fields;
    assert scrubbed.Keys == o.Keys && forall k :: k in o ==> scrubbed[k] == Scrubbed(order, m, o[k]);
    assert (forall k :: k in o ==> scrubbed[k] == o[k]) ==> scrubbed == o;
  }

  /** And which values: the result is the walked value exactly when no text of that holds one. */
  lemma OmitScrubsExactly(cd: Codec, order: seq<string>, v: Json)
    requires Sound(cd) && Walkable(cd, v) && Orders(order, Collected(cd, v))
    ensures Omit(cd, order, v) == Some(Walked(cd, v, ""))
            <==> forall s, p :: Says(Walked(cd, v, ""), s) && p in Collected(cd, v) ==> !Occurs(p, s)
  {
    var walked := Walked(cd, v, "");
    ScrubbedStays(order, cd.marker, walked);
    forall s
      ensures ScrubText(order, cd.marker, s) == s <==> forall p :: p in Collected(cd, v) ==> !Occurs(p, s)
    {
      ScrubChangesEchoes(cd, order, v, s);
    }
  }

  lemma {:induction false} ScrubTextLast(order: seq<string>, m: string, s: string)
    requires order != []
    ensures ScrubText(order, m, s) == Replace(ScrubText(order[..|order| - 1], m, s), order[|order| - 1], m)
    decreases |order|
  {
    if |order| == 1 {
      assert order[1..] == [] && order[..0] == [];
    } else {
      ScrubTextLast(order[1..], m, Replace(s, order[0], m));
      assert order[1..][..|order| - 2] == order[..|order| - 1][1..];
    }
  }

  lemma LastIsShortest(order: seq<string>, payloads: set<string>, i: nat)
    requires Orders(order, payloads) && i < |order|
    ensures |order[|order| - 1]| <= |order[i]|
  {
  }

  lemma EmptyGoesLast(order: seq<string>, payloads: set<string>)
    requires Orders(order, payloads) && "" in payloads
    ensures order != [] && order[|order| - 1] == ""
  {
    var i :| 0 <= i < |order| && order[i] == "";
    LastIsShortest(order, payloads, i);
  }

  /** A text with the marker before every character and at the end. */
  ghost predicate Spoiled(m: string, s: string) {
    exists t :: s == Replace(t, "", m)
  }

  lemma LastSpoilsAll(order: seq<string>, m: string, v: Json, s: string)
    requires order != [] && order[|order| - 1] == "" && Says(Scrubbed(order, m, v), s)
    ensures Spoiled(m, s)
  {
    ScrubbedSays(order, m, v, s);
    var u :| s == ScrubText(order, m, u);
    ScrubTextLast(order, m, u);
  }

  /** An empty payload goes last and spoils every text of the value, names of types included. */
  lemma EmptyPayloadSpoilsAll(cd: Codec, order: seq<string>, v: Json, s: string)
    requires Omit(cd, order, v).Some? && Orders(order, Collected(cd, v)) && "" in Collected(cd, v)
    requires Says(Omit(cd, order, v).value, s)
    ensures Spoiled(cd.marker, s)
  {
    EmptyGoesLast(order, Collected(cd, v));
    LastSpoilsAll(order, cd.marker, Walked(cd, v, ""), s);
  }

  /** A value that carries the payload and repeats it. */
  function Echoing(p: string): Json {
    JArr([JObj(map["type" := JStr("image"), "data" := JStr(p), "mimeType" := JStr("")]), JStr(p)])
  }

  lemma EchoingCollects(cd: Codec, p: string)
    requires Sound(cd) && cd.decode(p).Some?
    ensures Walkable(cd, Echoing(p)) && Collected(cd, Echoing(p)) == {p}
    ensures Says(Walked(cd, Echoing(p), ""), p)
  {
    var items := Echoing(p).items;
    assert Collected(cd, items[0]) == {p} && Collected(cd, items[1]) == {};
    assert Says(Walked(cd, Echoing(p), "").items[1], p);
  }

  lemma {:induction false} ScrubbedEcho(order: seq<string>, m: string, v: Json, s: string)
    requires Says(v, s)
    ensures Says(Scrubbed(order, m, v), ScrubText(order, m, s))
    decreases v
  {
    match v
    case JStr(t) =>
    case JArr(items) =>
      var i :| 0 <= i < |items| && Says(items[i], s);
      ScrubbedEcho(order, m, items[i], s);
      assert Says(Scrubbed(order, m, v).items[i], ScrubText(order, m, s));
    case JObj(o) =>
      var k :| k in o && Says(o[k], s);
      ScrubbedEcho(order, m, o[k], s);
      assert Says(Scrubbed(order, m, v).fields[k], ScrubText(order, m, s));
    case _ =>
  }

  /** The payload is collected from the value, and a text of the result holds it. */
  ghost predicate Survives(cd: Codec, order: seq<string>, v: Json, p: string) {
    && Omit(cd, order, v).Some? && Orders(order, Collected(cd, v)) && p in Collected(cd, v)
    && exists s :: Says(Omit(cd, order, v).value, s) && Occurs(p, s)
  }

  lemma ScrubTextOfOne(p: string, m: string, s: string)
    ensures ScrubText([p], m, s) == Replace(s, p, m)
  {
    assert [p][1..] == [];
  }

  /** An echo of such a payload becomes the marker, which holds it. */
  lemma EchoIsLeft(cd: Codec, p: string)
    requires Sound(cd) && cd.decode(p).Some? && (p == "" || Occurs(p, cd.marker))
    ensures Survives(cd, [p], Echoing(p), p)
  {
    EchoingCollects(cd, p);
    var walked := Walked(cd, Echoing(p), "");
    var s := ScrubText([p], cd.marker, p);
    ScrubbedEcho([p], cd.marker, walked, p);
    ScrubTextOfOne(p, cd.marker, p);
    EchoIsReplaced(p, cd.marker);
    assert Omit(cd, [p], Echoing(p)) == Some(Scrubbed([p], cd.marker, walked));
  }

  lemma EchoIsReplaced(p: string, m: string)
    requires p == "" || Occurs(p, m)
    ensures Occurs(p, Replace(p, p, m))
  {
    if p == "" {
      assert OccursAt(p, Replace(p, p, m), 0);
    } else {
      ReplaceItself(p, m);
    }
  }

  /** A payload that decodes can survive in some value exactly when it is empty or part of the
      marker. */
  lemma SurvivorsAreInTheMarker(cd: Codec, p: string)
    requires Sound(cd) && cd.decode(p).Some?
    ensures (exists v, order :: Survives(cd, order, v, p)) <==> p == "" || Occurs(p, cd.marker)
  {
    if p == "" || Occurs(p, cd.marker) {
      EchoIsLeft(cd, p);
    } else {
      forall v, order
        ensures !Survives(cd, order, v, p)
      {
        if Omit(cd, order, v).Some? && Orders(order, Collected(cd, v)) && p in Collected(cd, v) {
          EchoesAreScrubbed(cd, order, v, p);
        }
      }
    }
  }

  // ---- The source's marker -----------------------------------------------------------

  const MARKER := "[media payload omitted]"

  /** The source's marker meets what the theorems ask of one. */
  lemma MarkerIsSound()
    ensures Bracketed(MARKER) && Foreign(BASE64, MARKER)
  {
    assert MARKER[0] == '[' && MARKER[22] == ']' && |MARKER| == 23;
    MarkerHasNo(BASE64);
  }

  lemma MarkerHasNo(w: string)
    requires w != "" && w[0] == ';'
    ensures !Occurs(w, MARKER)
  {
    assert Without(MARKER, ';');
    forall i: nat
      ensures !OccursAt(w, MARKER, i)
    {
      if i + |w| <= |MARKER| {
        assert MARKER[i..i + |w|][0] == MARKER[i];
      }
    }
  }

  /** It holds the word `load`, which is base64: that payload can survive. */
  lemma MarkerHoldsLoad()
    ensures Base64("load") && Occurs("load", MARKER)
  {
    assert MARKER[10] == 'l' && MARKER[11] == 'o' && MARKER[12] == 'a' && MARKER[13] == 'd';
    assert MARKER[10..14] == "load";
    assert OccursAt("load", MARKER, 10);
  }

  // ---- The passes as they run --------------------------------------------------------

  class Omitter {
    const cd: Codec
    var payloads: set<string>

    constructor (cd: Codec)
      ensures this.cd == cd && payloads == {}
    {
      this.cd := cd;
      payloads := {};
    }

    /** The walk, collecting payloads as it goes; None where the source raises. */
    method Walk(v: Json, path: string) returns (r: Option<Json>)
      modifies this
      ensures r.Some? <==> Walkable(cd, v)
      ensures r.Some? ==> r.value == Walked(cd, v, path) && payloads == old(payloads) + Collected(cd, v)
      decreases v, 1
    {
      match v
      case JArr(items) =>
        r := WalkItems(v, path);
      case JObj(o) =>
        if IsMedia(cd, v) {
          var media := Source(cd, o).value;
          if cd.decode(media.1).Some? {
            payloads := payloads + {media.1};
          }
          return Some(Omitted(cd, o, path, media));
        }
        var out := WalkFields(v, path);
        if out.None? {
          return None;
        }
        if Joins(cd, o) {
          r := Join(v, out.value, path);
        } else {
          r := Some(JObj(out.value));
        }
      case _ =>
        r := Some(v);
    }

    method WalkItems(v: Json, path: string) returns (r: Option<Json>)
      requires v.JArr?
      modifies this
      ensures r.Some? <==> Walkable(cd, v)
      ensures r.Some? ==> r.value == Walked(cd, v, path) && payloads == old(payloads) + Collected(cd, v)
      decreases v, 0
    {
      var items: seq<Json> := [];
      var at := path;
      for i := 0 to |v.items|
        invariant |items| == i && ItemsDone(cd, v, path, items, at)
        invariant payloads == old(payloads) + CollectedBelow(cd, v.items, i)
      {
        ghost var before := at;
        at := PathAfter(cd, v.items[i], at);
        PathGoesOn(cd, v, path, items, before);
        var item := Walk(v.items[i], at);
        if item.None? {
          return None;
        }
        ItemDone(cd, v, path, items, before, item.value);
        BelowOneMore(cd, old(payloads), v.items, i);
        items := items + [item.value];
      }
      ItemsAreWalked(cd, v, path, items, at);
      BelowAll(cd, v);
      return Some(JArr(items));
    }

    method WalkFields(v: Json, path: string) returns (r: Option<Fields>)
      requires v.JObj? && !IsMedia(cd, v)
      modifies this
      ensures r.Some? <==> forall k :: k in v.fields ==> Walkable(cd, v.fields[k])
      ensures r.Some? ==> r.value == WalkedFields(cd, v, path)
      ensures r.Some? ==> payloads == old(payloads) + Collected(cd, v)
      decreases v, 0
    {
      var out: Fields := map[];
      var rest := v.fields.Keys;
      while rest != {}
        invariant rest <= v.fields.Keys
        invariant forall k :: k in out <==> k in v.fields && k !in rest
        invariant forall k :: k in out ==> Walkable(cd, v.fields[k]) && out[k] == Walked(cd, v.fields[k], path)
        invariant payloads == old(payloads) + CollectedOutside(cd, v.fields, rest)
        decreases |rest|
      {
        var k :| k in rest;
        var field := Walk(v.fields[k], path);
        if field.None? {
          return None;
        }
        OutsideOneLess(cd, old(payloads), v.fields, rest, k);
        out := out[k := field.value];
        rest := rest - {k};
      }
      OutsideNone(cd, v);
      assert out == WalkedFields(cd, v, path);
      return Some(out);
    }

    /** The content of a tool result as one text; the source raises on a block it cannot read. */
    method Join(v: Json, out: Fields, path: string) returns (r: Option<Json>)
      requires v.JObj? && !IsMedia(cd, v) && Joins(cd, v.fields)
      requires forall k :: k in v.fields ==> Walkable(cd, v.fields[k])
      requires out == WalkedFields(cd, v, path)
      ensures r.Some? <==> Walkable(cd, v)
      ensures r.Some? ==> r.value == Walked(cd, v, path)
    {
      var content := v.fields["content"].items;
      if !Readable(content) {
        return None;
      }
      return Some(JObj(WithJoined(cd, out)));
    }

    /** `omit_payloads`. */
    method OmitPayloads(v: Json) returns (r: Option<Json>)
      modifies this
      ensures exists order :: (r.Some? ==> Orders(order, Collected(cd, v))) && r == Omit(cd, order, v)
    {
      payloads := {};
      var clean := Walk(v, "");
      if clean.None? {
        assert Omit(cd, [], v) == None;
        return None;
      }
      var order := LongestFirst(payloads);
      if payloads == {} {
        assert Omit(cd, order, v) == clean;
        return clean;
      }
      var scrubbed := ScrubEchoes(order, clean.value);
      assert Omit(cd, order, v) == Some(scrubbed);
      return Some(scrubbed);
    }

    method ScrubEchoes(order: seq<string>, v: Json) returns (r: Json)
      ensures r == Scrubbed(order, cd.marker, v)
      decreases v
    {
      match v
      case JStr(s) =>
        var t := s;
        assert order[0..] == order;
        for i := 0 to |order|
          invariant ScrubText(order[i..], cd.marker, t) == ScrubText(order, cd.marker, s)
        {
          assert order[i..][1..] == order[i + 1..];
          t := Replace(t, order[i], cd.marker);
        }
        r := JStr(t);
      case JArr(items) =>
        var out: seq<Json> := [];
        for i := 0 to |items|
          invariant |out| == i
          invariant forall j :: 0 <= j < i ==> out[j] == Scrubbed(order, cd.marker, items[j])
        {
          var item := ScrubEchoes(order, items[i]);
          out := out + [item];
        }
        r := JArr(out);
      case JObj(o) =>
        var out: Fields := map[];
        var rest := o.Keys;
        while rest != {}
          invariant rest <= o.Keys
          invariant forall k :: k in out <==> k in o && k !in rest
          invariant forall k :: k in out ==> out[k] == Scrubbed(order, cd.marker, o[k])
          decreases |rest|
        {
          var k :| k in rest;
          var field := ScrubEchoes(order, o[k]);
          out := out[k := field];
          rest := rest - {k};
        }
        r := JObj(out);
      case _ =>
        r := v;
    }
  }

  function CollectedBelow(cd: Codec, items: seq<Json>, n: nat): set<string>
    requires n <= |items|
  {
    set i, p | 0 <= i < n && p in Collected(cd, items[i]) :: p
  }

  function CollectedOutside(cd: Codec, o: Fields, rest: set<string>): set<string> {
    set k, p | k in o.Keys - rest && p in Collected(cd, o[k]) :: p
  }

  lemma BelowOneMore(cd: Codec, early: set<string>, items: seq<Json>, i: nat)
    requires i < |items|
    ensures early + CollectedBelow(cd, items, i) + Collected(cd, items[i]) == early + CollectedBelow(cd, items, i + 1)
  {
  }

  /** The first items walked, and the path in force behind them. */
  ghost predicate ItemsDone(cd: Codec, v: Json, path: string, items: seq<Json>, at: string)
    requires v.JArr?
  {
    && |items| <= |v.items|
    && at == (if items == [] then path else PathAt(cd, v.items, |items| - 1, path))
    && forall j :: 0 <= j < |items| ==>
         Walkable(cd, v.items[j]) && items[j] == Walked(cd, v.items[j], PathAt(cd, v.items, j, path))
  }

  lemma PathGoesOn(cd: Codec, v: Json, path: string, items: seq<Json>, before: string)
    requires v.JArr? && |items| < |v.items| && ItemsDone(cd, v, path, items, before)
    ensures PathAfter(cd, v.items[|items|], before) == PathAt(cd, v.items, |items|, path)
  {
  }

  lemma ItemDone(cd: Codec, v: Json, path: string, items: seq<Json>, before: string, item: Json)
    requires v.JArr? && |items| < |v.items| && ItemsDone(cd, v, path, items, before)
    requires Walkable(cd, v.items[|items|])
    requires item == Walked(cd, v.items[|items|], PathAfter(cd, v.items[|items|], before))
    ensures ItemsDone(cd, v, path, items + [item], PathAfter(cd, v.items[|items|], before))
  {
    PathGoesOn(cd, v, path, items, before);
  }

  lemma ItemsAreWalked(cd: Codec, v: Json, path: string, items: seq<Json>, at: string)
    requires v.JArr? && |items| == |v.items| && ItemsDone(cd, v, path, items, at)
    ensures JArr(items) == Walked(cd, v, path) && Walkable(cd, v)
  {
    assert items == Walked(cd, v, path).items;
  }

  lemma BelowAll(cd: Codec, v: Json)
    requires v.JArr?
    ensures CollectedBelow(cd, v.items, |v.items|) == Collected(cd, v)
  {
  }

  lemma OutsideOneLess(cd: Codec, early: set<string>, o: Fields, rest: set<string>, k: string)
    requires k in rest && rest <= o.Keys
    ensures early + CollectedOutside(cd, o, rest) + Collected(cd, o[k]) == early + CollectedOutside(cd, o, rest - {k})
  {
  }

  lemma OutsideNone(cd: Codec, v: Json)
    requires v.JObj? && !IsMedia(cd, v)
    ensures CollectedOutside(cd, v.fields, {}) == Collected(cd, v)
  {
  }

  lemma {:induction false} LongestExists(s: set<string>)
    requires s != {}
    ensures exists p :: p in s && forall q :: q in s ==> |q| <= |p|
    decreases |s|
  {
    var p :| p in s;
    if s != {p} {
      LongestExists(s - {p});
      var q :| q in s - {p} && forall x :: x in s - {p} ==> |x| <= |q|;
      if |p| >= |q| {
        assert forall x :: x in s ==> |x| <= |p|;
      } else {
        assert forall x :: x in s ==> |x| <= |q|;
      }
    }
  }

  /** `sorted(payloads, key=len, reverse=True)`, in any order among equals. */
  method LongestFirst(payloads: set<string>) returns (order: seq<string>)
    ensures Orders(order, payloads)
  {
    order := [];
    var rest := payloads;
    while rest != {}
      invariant rest <= payloads && Orders(order, payloads - rest)
      invariant forall p, q :: p in order && q in rest ==> |p| >= |q|
      decreases |rest|
    {
      LongestExists(rest);
      var p :| p in rest && forall q :: q in rest ==> |q| <= |p|;
      order := order + [p];
      rest := rest - {p};
    }
    assert payloads - {} == payloads;
  }

  function ModalitiesOutside(cd: Codec, o: Fields, rest: set<string>): set<Modality> {
    set k, x | k in o.Keys - rest && x in Modalities(cd, o[k]) :: x
  }

  function ModalitiesBelow(cd: Codec, items: seq<Json>, n: nat): set<Modality>
    requires n <= |items|
  {
    set i, x | 0 <= i < n && x in Modalities(cd, items[i]) :: x
  }

  lemma ModalitiesOneLess(cd: Codec, own: set<Modality>, o: Fields, rest: set<string>, k: string)
    requires k in rest && rest <= o.Keys
    ensures own + ModalitiesOutside(cd, o, rest) + Modalities(cd, o[k]) == own + ModalitiesOutside(cd, o, rest - {k})
  {
  }

  lemma ModalitiesOfAll(cd: Codec, v: Json)
    ensures v.JArr? ==> ModalitiesBelow(cd, v.items, |v.items|) == Modalities(cd, v)
    ensures v.JObj? ==>
              Modalities(cd, v) == (if IsMedia(cd, v) then {ModalityOf(Source(cd, v.fields).value)} else {})
                                   + ModalitiesOutside(cd, v.fields, {})
  {
  }

  /** `input_modalities`, gathering what it finds. */
  method InputModalities(cd: Codec, v: Json) returns (found: set<Modality>)
    ensures found == Modalities(cd, v)
    decreases v, 1
  {
    match v
    case JObj(o) => found := ModalitiesOfFields(cd, v);
    case JArr(items) => found := ModalitiesOfItems(cd, v);
    case _ => found := {};
  }

  method ModalitiesOfFields(cd: Codec, v: Json) returns (found: set<Modality>)
    requires v.JObj?
    ensures found == Modalities(cd, v)
    decreases v, 0
  {
    found := if IsMedia(cd, v) then {ModalityOf(Source(cd, v.fields).value)} else {};
    ghost var own := found;
    var rest := v.fields.Keys;
    while rest != {}
      invariant rest <= v.fields.Keys
      invariant found == own + ModalitiesOutside(cd, v.fields, rest)
      decreases |rest|
    {
      var k :| k in rest;
      var more := InputModalities(cd, v.fields[k]);
      ModalitiesOneLess(cd, own, v.fields, rest, k);
      found := found + more;
      rest := rest - {k};
    }
    ModalitiesOfAll(cd, v);
  }

  method ModalitiesOfItems(cd: Codec, v: Json) returns (found: set<Modality>)
    requires v.JArr?
    ensures found == Modalities(cd, v)
    decreases v, 0
  {
    found := {};
    for i := 0 to |v.items|
      invariant found == ModalitiesBelow(cd, v.items, i)
    {
      var more := InputModalities(cd, v.items[i]);
      found := found + more;
    }
    ModalitiesOfAll(cd, v);
  }
}
