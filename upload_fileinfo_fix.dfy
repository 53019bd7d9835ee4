/**
 * The CMS upload middleware (cms/src/middlewares/upload-fileinfo-fix.ts):
 * the admin panel sends upload `fileInfo` entries as JSON text instead of
 * objects, and the middleware parses each such entry back into an object,
 * in the request body and in its `fields` object, before handing the
 * request on.
 */
module UploadFileInfoFix {
  import opened Wrappers
  import opened Json

  /** What one `fileInfo` entry becomes: text that parses to an object or array is replaced by it; anything else stays. */
  function RepairEntry(item: Value, parse: string -> Option<Value>): (r: Value)
    ensures !item.Str? ==> r == item
    ensures item.Str? && parse(item.s).Some? && IsObject(parse(item.s).value) ==> r == parse(item.s).value
    ensures item.Str? && (parse(item.s).None? || !IsObject(parse(item.s).value)) ==> r == item
    ensures r.Str? ==> r == item
  {
    if item.Str? then
      match parse(item.s)
      case Some(parsed) => if IsObject(parsed) then parsed else item
      case None => item
    else item
  }

  /**
   * `parseFileInfoArray`: entry by entry, in place, so the length and order
   * are kept; only text entries can change, and only into objects.
   */
  function ParseFileInfoArray(arr: seq<Value>, parse: string -> Option<Value>): (r: seq<Value>)
    ensures |r| == |arr|
    ensures forall i :: 0 <= i < |arr| ==> r[i] == RepairEntry(arr[i], parse)
    ensures forall i :: 0 <= i < |arr| && !arr[i].Str? ==> r[i] == arr[i]
    ensures forall i :: 0 <= i < |arr| && r[i] != arr[i] ==> arr[i].Str? && IsObject(r[i])
  {
    seq(|arr|, i requires 0 <= i < |arr| => RepairEntry(arr[i], parse))
  }

  /** Repairing twice is repairing once: a repaired entry is an object, or text that did not parse to one. */
  lemma ParseFileInfoIdempotent(arr: seq<Value>, parse: string -> Option<Value>)
    ensures ParseFileInfoArray(ParseFileInfoArray(arr, parse), parse) == ParseFileInfoArray(arr, parse)
  {
    var once := ParseFileInfoArray(arr, parse);
    forall i | 0 <= i < |arr| ensures RepairEntry(once[i], parse) == once[i] {
      if once[i].Str? {
        assert once[i] == arr[i];
      }
    }
  }

  /** `v && Array.isArray(v)` for the property `key` of an object. */
  predicate HasArray(fields: map<string, Value>, key: string) {
    key in fields && fields[key].Arr?
  }

  /** The request body's `fileInfo` list, if it has one, repaired. */
  function RepairedTop(body: map<string, Value>, parse: string -> Option<Value>): (r: map<string, Value>)
    ensures r.Keys == body.Keys
    ensures forall k :: k in body && k != "fileInfo" ==> r[k] == body[k]
    ensures HasArray(body, "fileInfo") ==> r["fileInfo"] == Arr(ParseFileInfoArray(body["fileInfo"].items, parse))
    ensures !HasArray(body, "fileInfo") ==> r == body
  {
    if HasArray(body, "fileInfo") then body["fileInfo" := Arr(ParseFileInfoArray(body["fileInfo"].items, parse))]
    else body
  }

  /**
   * A request as the middleware sees it: the parsed body, if any, and the
   * bodies the next handler in the chain was called with.
   */
  class UploadRequest {
    var body: Option<map<string, Value>>
    var handedOn: seq<Option<map<string, Value>>>

    constructor(body: Option<map<string, Value>>)
      ensures this.body == body && handedOn == []
    {
      this.body := body;
      handedOn := [];
    }

    /**
     * The middleware: without a body it only calls the next handler;
     * otherwise it rewrites `body.fileInfo` and `body.fields.fileInfo` where
     * they are arrays, leaves every other entry alone, and then calls the
     * next handler exactly once, with the rewritten body.
     */
    method Handle(parse: string -> Option<Value>)
      modifies this
      ensures old(body).None? ==> body.None?
      ensures old(body).Some? ==> body.Some? && body.value.Keys == old(body).value.Keys
      ensures old(body).Some? ==> forall k :: k in body.value && k != "fileInfo" && k != "fields" ==> body.value[k] == old(body).value[k]
      ensures old(body).Some? && "fileInfo" in old(body).value ==> body.value["fileInfo"] == RepairedTop(old(body).value, parse)["fileInfo"]
      ensures old(body).Some? && "fields" in old(body).value && !(old(body).value["fields"].Obj? && HasArray(old(body).value["fields"].fields, "fileInfo")) ==>
        body.value["fields"] == old(body).value["fields"]
      ensures old(body).Some? && "fields" in old(body).value && old(body).value["fields"].Obj? && HasArray(old(body).value["fields"].fields, "fileInfo") ==>
        body.value["fields"] == Obj(RepairedTop(old(body).value["fields"].fields, parse))
      ensures handedOn == old(handedOn) + [body]
    {
      if body.None? {
        handedOn := handedOn + [body];
        return;
      }
      var b := body.value;
      if HasArray(b, "fileInfo") {
        b := b["fileInfo" := Arr(ParseFileInfoArray(b["fileInfo"].items, parse))];
      }
      if "fields" in b && b["fields"].Obj? && HasArray(b["fields"].fields, "fileInfo") {
        var fields := b["fields"].fields;
        fields := fields["fileInfo" := Arr(ParseFileInfoArray(fields["fileInfo"].items, parse))];
        b := b["fields" := Obj(fields)];
      }
      body := Some(b);
      handedOn := handedOn + [body];
    }
  }
}
