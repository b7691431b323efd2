/** What `media.py` recognises: the blocks of the native, OpenAI and MCP forms, built field by field.
    Each is replaced by its metadata wherever it stands, and what is none of them is left.
 */
module WireForms {
  import opened Wrappers
  import opened Text
  import opened Media

  /** Where a block carries its payload: in a base64 source, beside its MIME type, in a resource's
      blob, or in a data URL. */
  datatype Form =
    | Native(kind: string)
    | Tool(kind: string)
    | Blob
    | Link(kind: string)
    | LinkObject(kind: string)
    | Attached(kind: string)
    | Filed(kind: string)

  predicate ByUrl(form: Form) {
    form.Link? || form.LinkObject? || form.Attached? || form.Filed?
  }

  predicate OnTheWire(form: Form) {
    match form
    case Native(kind) => kind == "image" || kind == "document"
    case Tool(kind) => kind == "image" || kind == "document"
    case Blob => true
    case Link(kind) => kind == "image_url" || kind == "input_image"
    case LinkObject(kind) => kind == "image_url" || kind == "input_image"
    case Attached(kind) => IsFileKind(kind)
    case Filed(kind) => IsFileKind(kind)
  }

  predicate IsFileKind(kind: string) {
    kind == "input_file" || kind == "file" || kind == "image" || kind == "document" || kind == "resource"
  }

  function KindOf(form: Form): string {
    if form.Blob? then "resource" else form.kind
  }

  function Url(mediaType: string, data: string): string {
    "data:" + mediaType + ";base64," + data
  }

  /** The fields of a block by URL. */
  function Linking(form: Form, inner: Fields, url: string): Fields
    requires ByUrl(form)
  {
    match form
    case Link(kind) => map["type" := JStr(kind), "image_url" := JStr(url)]
    case LinkObject(kind) => map["type" := JStr(kind), "image_url" := JObj(inner["url" := JStr(url)])]
    case Attached(kind) => map["type" := JStr(kind), "file_data" := JStr(url)]
    case Filed(kind) => map["type" := JStr(kind), "file" := JObj(inner["file_data" := JStr(url)])]
  }

  /** The fields of any; `inner` are the further fields of an object in it. */
  function Carrying(form: Form, inner: Fields, mediaType: string, data: string): Fields {
    match form
    case Native(kind) =>
      map["type" := JStr(kind),
          "source" := JObj(inner["type" := JStr("base64")]["media_type" := JStr(mediaType)]["data" := JStr(data)])]
    case Tool(kind) => map["type" := JStr(kind), "mimeType" := JStr(mediaType), "data" := JStr(data)]
    case Blob =>
      map["type" := JStr("resource"), "resource" := JObj(inner["mimeType" := JStr(mediaType)]["blob" := JStr(data)])]
    case _ => Linking(form, inner, Url(mediaType, data))
  }

  const WIRE_FIELDS := {"type", "source", "data", "mimeType", "resource", "image_url", "file", "file_data"}

  /** The block, with further fields of no meaning here. */
  function Block(form: Form, extra: Fields, inner: Fields, mediaType: string, data: string): Fields {
    extra + Carrying(form, inner, mediaType, data)
  }

  /** A URL splits at its first `;base64,`. */
  predicate OnWire(form: Form, extra: Fields) {
    OnTheWire(form) && extra.Keys !! WIRE_FIELDS
  }

  ghost predicate Splits(form: Form, mediaType: string) {
    ByUrl(form) ==> !Occurs(";base64,", mediaType)
  }

  // ---- Data URLs ---------------------------------------------------------------------

  lemma FirstAt(w: string, s: string, i: nat)
    requires w != "" && OccursAt(w, s, i) && forall j: nat :: j < i ==> !OccursAt(w, s, j)
    ensures IndexOf(w, s) == i
  {
    IndexIsFirst(w, s);
  }

  /** An occurrence that begins before the word behind `p` ends before it. */
  lemma NotInto(w: string, p: string, rest: string, j: nat)
    requires w != "" && Without(w[1..], w[0]) && j < |p|
    ensures OccursAt(w, p + w + rest, j) ==> j + |w| <= |p|
  {
    var s := p + w + rest;
    if |p| < j + |w| <= |s| {
      assert s[j..j + |w|][|p| - j] == s[|p|] == w[0];
      assert w[1..][|p| - j - 1] == w[|p| - j];
    }
  }

  /** Behind a part that does not hold it, the word is first found there. */
  lemma FoundBehind(w: string, p: string, rest: string)
    requires w != "" && Without(w[1..], w[0]) && !Occurs(w, p)
    ensures IndexOf(w, p + w + rest) == |p|
  {
    var s := p + w + rest;
    assert s[|p|..|p| + |w|] == w;
    forall j: nat | j < |p|
      ensures !OccursAt(w, s, j)
    {
      NotInto(w, p, rest, j);
      assert s == p + (w + rest);
      if j + |w| <= |p| {
        OccursInFront(w, p, w + rest, j);
      }
    }
    FirstAt(w, s, |p|);
  }

  lemma BehindData(mediaType: string, i: nat)
    ensures OccursAt(BASE64, DATA + mediaType, i) ==> i >= 5
  {
    if i < 5 && i + 8 <= |DATA + mediaType| {
      assert (DATA + mediaType)[i..i + 8][0] == DATA[i];
    }
  }

  lemma NotInPrefixed(mediaType: string)
    requires !Occurs(BASE64, mediaType)
    ensures !Occurs(BASE64, DATA + mediaType)
  {
    forall i: nat
      ensures !OccursAt(BASE64, DATA + mediaType, i)
    {
      BehindData(mediaType, i);
      if i >= 5 {
        OccursBehind(BASE64, DATA, mediaType, i - 5);
      }
    }
  }

  lemma UrlReads(mediaType: string, data: string)
    requires !Occurs(BASE64, mediaType)
    ensures DataUrl(JStr(Url(mediaType, data))) == Some((mediaType, data))
  {
    var p := DATA + mediaType;
    var url := p + BASE64 + data;
    assert url == Url(mediaType, data);
    NotInPrefixed(mediaType);
    FoundBehind(BASE64, p, data);
    assert DATA <= url && url[|DATA|..|p|] == mediaType && url[|p| + |BASE64|..] == data;
  }

  /** What the block says under the names that are read. */
  lemma WireFieldsOf(extra: Fields, carried: Fields, name: string)
    requires extra.Keys !! WIRE_FIELDS && name in WIRE_FIELDS
    ensures Get(extra + carried, name) == Get(carried, name) && (name in extra + carried <==> name in carried)
  {
  }

  lemma BlockSays(extra: Fields, carried: Fields)
    requires extra.Keys !! WIRE_FIELDS
    ensures var o := extra + carried;
            && Get(o, "type") == Get(carried, "type") && Get(o, "source") == Get(carried, "source")
            && Get(o, "resource") == Get(carried, "resource") && Get(o, "image_url") == Get(carried, "image_url")
            && Get(o, "file") == Get(carried, "file") && Get(o, "file_data") == Get(carried, "file_data")
            && Get(o, "data") == Get(carried, "data") && Get(o, "mimeType") == Get(carried, "mimeType")
            && ("data" in o <==> "data" in carried) && ("mimeType" in o <==> "mimeType" in carried)
  {
    WireFieldsOf(extra, carried, "type");
    WireFieldsOf(extra, carried, "source");
    WireFieldsOf(extra, carried, "resource");
    WireFieldsOf(extra, carried, "image_url");
    WireFieldsOf(extra, carried, "file");
    WireFieldsOf(extra, carried, "file_data");
    WireFieldsOf(extra, carried, "data");
    WireFieldsOf(extra, carried, "mimeType");
  }

  /** Only those are read. */
  lemma SourceReads(cd: Codec, extra: Fields, carried: Fields)
    requires extra.Keys !! WIRE_FIELDS
    ensures Source(cd, extra + carried) == Source(cd, carried)
  {
    BlockSays(extra, carried);
  }

  /** A block by URL is read as its URL is, whatever that holds. */
  lemma SourceOfLinking(cd: Codec, form: Form, inner: Fields, url: string)
    requires OnTheWire(form) && ByUrl(form)
    ensures Source(cd, Linking(form, inner, url)) == DataUrl(JStr(url))
  {
  }

  lemma SourceOfNative(cd: Codec, kind: string, inner: Fields, mediaType: string, data: string)
    requires Sound(cd) && OnTheWire(Native(kind))
    ensures Source(cd, Carrying(Native(kind), inner, mediaType, data)) == Some((mediaType, data))
  {
  }

  lemma SourceOfTool(cd: Codec, kind: string, inner: Fields, mediaType: string, data: string)
    requires Sound(cd) && OnTheWire(Tool(kind))
    ensures Source(cd, Carrying(Tool(kind), inner, mediaType, data)) == Some((mediaType, data))
  {
  }

  lemma SourceOfBlob(cd: Codec, inner: Fields, mediaType: string, data: string)
    requires Sound(cd)
    ensures Source(cd, Carrying(Blob, inner, mediaType, data)) == Some((mediaType, data))
  {
  }

  lemma SourceOfBlock(cd: Codec, form: Form, extra: Fields, inner: Fields, mediaType: string, data: string)
    requires Sound(cd) && OnWire(form, extra) && Splits(form, mediaType)
    ensures Source(cd, Block(form, extra, inner, mediaType, data)) == Some((mediaType, data))
  {
    SourceReads(cd, extra, Carrying(form, inner, mediaType, data));
    match form
    case Native(kind) => SourceOfNative(cd, kind, inner, mediaType, data);
    case Tool(kind) => SourceOfTool(cd, kind, inner, mediaType, data);
    case Blob => SourceOfBlob(cd, inner, mediaType, data);
    case _ =>
      SourceOfLinking(cd, form, inner, Url(mediaType, data));
      UrlReads(mediaType, data);
  }

  // ---- What is left of a block -------------------------------------------------------

  /** The metadata that stands for a block. */
  function Record(kind: string, path: string, mediaType: string, d: Option<Decoded>): Json {
    var known: Fields :=
      map["source_path" := JStr(path), "media_type" := JStr(mediaType), "payload_omitted" := JBool(true)];
    JObj(map["type" := JStr(kind), "source" := JObj(
      if d.Some? then known["byte_size" := JNum(d.value.size)]["sha256" := JStr(d.value.sha256)]
      else known["error" := JStr("invalid media payload")])])
  }

  lemma KindOfBlock(form: Form, extra: Fields, inner: Fields, mediaType: string, data: string)
    requires OnWire(form, extra)
    ensures Get(Block(form, extra, inner, mediaType, data), "type") == JStr(KindOf(form))
  {
    WireFieldsOf(extra, Carrying(form, inner, mediaType, data), "type");
  }

  lemma OmittedIsRecord(cd: Codec, o: Fields, kind: string, path: string, media: (string, string))
    requires Get(o, "type") == JStr(kind)
    ensures Omitted(cd, o, path, media) == Record(kind, path, media.0, cd.decode(media.1))
  {
  }

  /** A block is replaced by its kind and metadata: the media type, and the size and hash of what the
      payload decodes to. */
  lemma BlockIsRecorded(cd: Codec, form: Form, extra: Fields, inner: Fields, mediaType: string, data: string, path: string)
    requires Sound(cd) && OnWire(form, extra) && Splits(form, mediaType)
    ensures var block := JObj(Block(form, extra, inner, mediaType, data));
            && Walkable(cd, block)
            && Walked(cd, block, path) == Record(KindOf(form), path, mediaType, cd.decode(data))
            && Collected(cd, block) == if cd.decode(data).Some? then {data} else {}
  {
    var o := Block(form, extra, inner, mediaType, data);
    SourceOfBlock(cd, form, extra, inner, mediaType, data);
    KindOfBlock(form, extra, inner, mediaType, data);
    MediaIsRecorded(cd, o, KindOf(form), mediaType, data, path);
  }

  lemma MediaIsRecorded(cd: Codec, o: Fields, kind: string, mediaType: string, data: string, path: string)
    requires Source(cd, o) == Some((mediaType, data)) && Get(o, "type") == JStr(kind)
    ensures Walkable(cd, JObj(o)) && Walked(cd, JObj(o), path) == Record(kind, path, mediaType, cd.decode(data))
    ensures Collected(cd, JObj(o)) == if cd.decode(data).Some? then {data} else {}
  {
    OmittedIsRecord(cd, o, kind, path, (mediaType, data));
  }

  /** A PDF is a document and everything else an image. */
  lemma BlockHasModality(cd: Codec, form: Form, extra: Fields, inner: Fields, mediaType: string, data: string)
    requires Sound(cd) && OnWire(form, extra) && Splits(form, mediaType)
    ensures var o, m := Block(form, extra, inner, mediaType, data), if mediaType == "application/pdf" then Document else Image;
            && m in Modalities(cd, JObj(o))
            && ((forall k :: k in o ==> SourceFree(cd, o[k])) ==> Modalities(cd, JObj(o)) == {m})
  {
    SourceOfBlock(cd, form, extra, inner, mediaType, data);
    var o := Block(form, extra, inner, mediaType, data);
    forall k | k in o
      ensures SourceFree(cd, o[k]) ==> Modalities(cd, o[k]) == {}
    {
      NoModalityMeansSourceFree(cd, o[k]);
    }
  }

  predicate WireKind(kind: string) {
    IsFileKind(kind) || kind == "image_url" || kind == "input_image"
  }

  predicate HasWireKind(o: Fields) {
    var t := Get(o, "type"); t.JStr? && WireKind(t.s)
  }

  /** The value stands in the other, in no media block there. */
  predicate Stands(v: Json, b: Json)
    decreases v
  {
    || v == b
    || (v.JArr? && exists i :: 0 <= i < |v.items| && Stands(v.items[i], b))
    || (v.JObj? && !HasWireKind(v.fields) && exists k :: k in v.fields && Stands(v.fields[k], b))
  }

  lemma {:induction false} StandingIsCollected(cd: Codec, v: Json, b: Json, p: string)
    requires Stands(v, b) && p in Collected(cd, b)
    ensures p in Collected(cd, v)
    decreases v
  {
    if v != b {
      match v
      case JArr(items) =>
        var i :| 0 <= i < |items| && Stands(items[i], b);
        StandingIsCollected(cd, items[i], b, p);
      case JObj(o) =>
        var k :| k in o && Stands(o[k], b);
        StandingIsCollected(cd, o[k], b, p);
    }
  }

  /** Wherever a block of any form stands, whatever else the value holds, no text of the result holds
      its payload, unless that does not decode, is empty or is part of the marker. */
  lemma PayloadIsOmitted(cd: Codec, order: seq<string>, v: Json, form: Form, extra: Fields, inner: Fields,
                         mediaType: string, data: string)
    requires Sound(cd) && OnWire(form, extra) && Splits(form, mediaType)
    requires Stands(v, JObj(Block(form, extra, inner, mediaType, data)))
    requires Omit(cd, order, v).Some? && Orders(order, Collected(cd, v))
    requires cd.decode(data).Some? && data != "" && !Occurs(data, cd.marker)
    ensures forall s :: Says(Omit(cd, order, v).value, s) ==> !Occurs(data, s)
  {
    BlockIsRecorded(cd, form, extra, inner, mediaType, data, "");
    StandingIsCollected(cd, v, JObj(Block(form, extra, inner, mediaType, data)), data);
    EchoesAreScrubbed(cd, order, v, data);
  }

  lemma RecordSays(kind: string, mediaType: string, d: Decoded, s: string)
    requires Says(Record(kind, "", mediaType, Some(d)), s)
    ensures s == kind || s == "" || s == mediaType || s == d.sha256
  {
    var record := Record(kind, "", mediaType, Some(d));
    var k :| k in record.fields && Says(record.fields[k], s);
    if k == "source" {
      var inside := record.fields[k];
      var name :| name in inside.fields && Says(inside.fields[name], s);
    }
  }

  lemma RecordIsQuiet(cd: Codec, order: seq<string>, v: Json, kind: string, mediaType: string, data: string, d: Decoded)
    requires Sound(cd) && Walkable(cd, v) && Collected(cd, v) == {data} && Orders(order, Collected(cd, v))
    requires Walked(cd, v, "") == Record(kind, "", mediaType, Some(d))
    requires !Occurs(data, kind) && !Occurs(data, "") && !Occurs(data, mediaType) && !Occurs(data, d.sha256)
    ensures Omit(cd, order, v) == Some(Record(kind, "", mediaType, Some(d)))
  {
    forall s, p | Says(Walked(cd, v, ""), s) && p in Collected(cd, v)
      ensures !Occurs(p, s)
    {
      RecordSays(kind, mediaType, d, s);
    }
    OmitScrubsExactly(cd, order, v);
  }

  /** The result for a block by itself is its record, with an error for a payload that does not decode. */
  lemma BadBlockAlone(cd: Codec, order: seq<string>, form: Form, extra: Fields, inner: Fields, mediaType: string, data: string)
    requires Sound(cd) && OnWire(form, extra) && Splits(form, mediaType) && cd.decode(data).None?
    ensures Omit(cd, order, JObj(Block(form, extra, inner, mediaType, data))) == Some(Record(KindOf(form), "", mediaType, None))
  {
    BlockIsRecorded(cd, form, extra, inner, mediaType, data, "");
  }

  /** One that does decode also goes from the record's own texts, so it must be in none of them. */
  lemma BlockAlone(cd: Codec, order: seq<string>, form: Form, extra: Fields, inner: Fields, mediaType: string, data: string)
    requires Sound(cd) && OnWire(form, extra) && Splits(form, mediaType) && cd.decode(data).Some?
    requires Orders(order, Collected(cd, JObj(Block(form, extra, inner, mediaType, data))))
    requires data != "" && !Occurs(data, KindOf(form)) && !Occurs(data, mediaType)
    requires !Occurs(data, cd.decode(data).value.sha256)
    ensures Omit(cd, order, JObj(Block(form, extra, inner, mediaType, data)))
         == Some(Record(KindOf(form), "", mediaType, cd.decode(data)))
  {
    BlockIsRecorded(cd, form, extra, inner, mediaType, data, "");
    NothingInEmpty(data);
    var block := JObj(Block(form, extra, inner, mediaType, data));
    RecordIsQuiet(cd, order, block, KindOf(form), mediaType, data, cd.decode(data).value);
  }

  // ---- What is no media --------------------------------------------------------------

  lemma PlainStays(cd: Codec, order: seq<string>, o: Fields)
    requires Sound(cd) && forall k :: k in o ==> SourceFree(cd, o[k])
    ensures Source(cd, o).None? <==> Omit(cd, order, JObj(o)) == Some(JObj(o))
    ensures Source(cd, o).None? <==> Modalities(cd, JObj(o)) == {}
  {
    NoModalityMeansSourceFree(cd, JObj(o));
    OmitIsIdentityWithoutMedia(cd, order, JObj(o));
  }

  /** A block by URL is left as it is exactly when the URL is no data URL in base64. */
  lemma OnlyDataUrlsGo(cd: Codec, order: seq<string>, form: Form, extra: Fields, inner: Fields, url: string)
    requires Sound(cd) && OnWire(form, extra) && ByUrl(form)
    requires var o := extra + Linking(form, inner, url); forall k :: k in o ==> SourceFree(cd, o[k])
    ensures var block := JObj(extra + Linking(form, inner, url));
            Omit(cd, order, block) == Some(block) <==> !("data:" <= url && Occurs(";base64,", url))
  {
    SourceReads(cd, extra, Linking(form, inner, url));
    SourceOfLinking(cd, form, inner, url);
    FoundMeansOccurs(BASE64, url);
    PlainStays(cd, order, extra + Linking(form, inner, url));
  }

  /** An object of any other type is left as it is. */
  lemma OtherKindsStay(cd: Codec, order: seq<string>, o: Fields)
    requires Sound(cd) && forall k :: k in o ==> SourceFree(cd, o[k])
    requires !HasWireKind(o)
    ensures Omit(cd, order, JObj(o)) == Some(JObj(o))
  {
    PlainStays(cd, order, o);
  }

  /** And so is an image or document whose source is no base64 source, a remote one say. */
  lemma OtherSourcesStay(cd: Codec, order: seq<string>, extra: Fields, kind: string, source: Json)
    requires Sound(cd) && OnWire(Native(kind), extra)
    requires source.JObj? ==> Get(source.fields, "type") != JStr("base64")
    requires SourceFree(cd, source) && forall k :: k in extra ==> SourceFree(cd, extra[k])
    ensures var block := JObj(extra + map["type" := JStr(kind), "source" := source]);
            Omit(cd, order, block) == Some(block)
  {
    var carried: Fields := map["type" := JStr(kind), "source" := source];
    SourceReads(cd, extra, carried);
    assert Source(cd, carried).None?;
    PlainStays(cd, order, extra + carried);
  }

  // ---- Paths and joined content ------------------------------------------------------

  /** The path the item's text names, if it has a text that names one. */
  predicate NamesPath(cd: Codec, item: Json, path: string) {
    && item.JObj? && "text" in item.fields && item.fields["text"].JStr?
    && cd.sourcePath(item.fields["text"].s) == path && path != ""
  }

  /** A record's path is the one named last among the items up to its block, or the one around. */
  lemma {:induction false} PathIsNamedLast(cd: Codec, items: seq<Json>, i: nat, path: string)
    requires i < |items|
    ensures NamesPath(cd, items[i], PathAt(cd, items, i, path))
            || ((forall p :: !NamesPath(cd, items[i], p))
                && PathAt(cd, items, i, path) == if i == 0 then path else PathAt(cd, items, i - 1, path))
  {
  }

  /** Joined content is its items' lines, each behind the one before it. */
  lemma {:induction false} LinesJoin(cd: Codec, a: seq<Json>, b: seq<Json>)
    requires a != [] && b != []
    ensures Lines(cd, a + b) == Lines(cd, a) + "\n" + Lines(cd, b)
    ensures Lines(cd, [a[0]]) == if IsText(a[0]) then cd.show(Get(a[0].fields, "text")) else cd.dumps(a[0]) + DUMP_SUFFIX
    decreases |a|
  {
    assert (a + b)[0] == a[0] && (a + b)[1..] == a[1..] + b;
    if |a| == 1 {
      assert a[1..] + b == b && a == [a[0]];
    } else {
      LinesJoin(cd, a[1..], b);
      var line, rest := Line(cd, a[0]), Lines(cd, a[1..]);
      assert line + "\n" + (rest + "\n" + Lines(cd, b)) == line + "\n" + rest + "\n" + Lines(cd, b);
    }
  }

  lemma JoinedIsText(cd: Codec, o: Fields, path: string)
    requires Joins(cd, o) && !IsMedia(cd, JObj(o))
    ensures Walked(cd, JObj(o), path).JObj? && Walked(cd, o["content"], path).JArr?
    ensures Get(Walked(cd, JObj(o), path).fields, "content") == JStr(Lines(cd, Walked(cd, o["content"], path).items))
  {
    var out := WalkedFields(cd, JObj(o), path);
    assert out["content"] == Walked(cd, o["content"], path);
  }

  lemma JoinedRaises(cd: Codec, o: Fields)
    requires Joins(cd, o) && !IsMedia(cd, JObj(o))
    ensures Walkable(cd, JObj(o)) <==> (forall k :: k in o ==> Walkable(cd, o[k])) && Readable(o["content"].items)
  {
  }

  lemma BlockJoins(cd: Codec, o: Fields, i: nat)
    requires Get(o, "type") == JStr("tool_result") && Get(o, "content").JArr? && i < |o["content"].items|
    requires IsMedia(cd, o["content"].items[i])
    ensures Joins(cd, o) && !IsMedia(cd, JObj(o))
  {
  }

  lemma BlockIsMedia(cd: Codec, form: Form, extra: Fields, inner: Fields, mediaType: string, data: string)
    requires Sound(cd) && OnWire(form, extra) && Splits(form, mediaType)
    ensures IsMedia(cd, JObj(Block(form, extra, inner, mediaType, data)))
  {
    SourceOfBlock(cd, form, extra, inner, mediaType, data);
  }

  /** A tool result with media, a block of any form, among its content becomes one text, the lines of
      what is left of its items; it raises unless they are all objects, and the texts among them have
      one. */
  lemma ToolResultIsJoined(cd: Codec, o: Fields, path: string, i: nat)
    requires Get(o, "type") == JStr("tool_result") && Get(o, "content").JArr? && i < |o["content"].items|
    requires IsMedia(cd, o["content"].items[i])
    ensures Walked(cd, JObj(o), path).JObj? && Walked(cd, o["content"], path).JArr?
    ensures Get(Walked(cd, JObj(o), path).fields, "content") == JStr(Lines(cd, Walked(cd, o["content"], path).items))
    ensures Walkable(cd, JObj(o)) <==>
              && (forall k :: k in o ==> Walkable(cd, o[k]))
              && forall item :: item in o["content"].items ==>
                   item.JObj? && (Get(item.fields, "type") == JStr("text") ==> "text" in item.fields)
  {
    BlockJoins(cd, o, i);
    JoinedIsText(cd, o, path);
    JoinedRaises(cd, o);
    ReadableItems(o["content"].items);
  }

  lemma ReadableItems(items: seq<Json>)
    ensures Readable(items) <==>
              forall item :: item in items ==>
                item.JObj? && (Get(item.fields, "type") == JStr("text") ==> "text" in item.fields)
  {
    forall i | 0 <= i < |items|
      ensures items[i] in items
    {
    }
  }
}
