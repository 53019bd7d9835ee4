/**
 * Media references and media URLs of the content gateway (lib/strapi.ts):
 * flattening the many wire shapes of a media reference to `{url}`, building
 * an absolute URL for a media path, and the configured base URL.
 */
module StrapiMedia {
  import opened Wrappers
  import opened Json

  /** A normalised media reference: the URL exactly as the content API gave it. */
  datatype Media = Media(url: string)

  /** The property paths at which a media reference may carry its URL. */
  const UrlPaths: seq<seq<string>> :=
    [["url"], ["attributes", "url"], ["data", "url"], ["data", "attributes", "url"]]

  /**
   * `normalizeStrapiMedia`: unwraps a non-nullish `data` envelope, then takes
   * the direct `url` unless it is nullish, else `attributes.url`. Anything
   * but a non-empty string there gives no media.
   */
  function NormalizeMedia(media: Option<Value>): (r: Option<Media>)
    ensures !Truthy(media) || !IsObject(media.value) ==> r == None
    ensures r.Some? ==> r.value.url != ""
    ensures r.Some? ==> exists i :: 0 <= i < |UrlPaths| && Lookup(media.value, UrlPaths[i]) == Some(Str(r.value.url))
  {
    if !Truthy(media) || !IsObject(media.value) then None
    else
      var unwrapped := Coalesce(Get(media.value, "data"), media).value;
      var url := Coalesce(Get(unwrapped, "url"), GetOpt(Get(unwrapped, "attributes"), "url"));
      match url
      case Some(Str(s)) =>
        if s == "" then None
        else
          assert Lookup(media.value, UrlPaths[0]) == Some(Str(s))
              || Lookup(media.value, UrlPaths[1]) == Some(Str(s))
              || Lookup(media.value, UrlPaths[2]) == Some(Str(s))
              || Lookup(media.value, UrlPaths[3]) == Some(Str(s));
          Some(Media(s))
      case _ => None
  }

  /**
   * Conversely, a non-empty URL at the place the source looks for it is
   * always found, whatever other properties the reference carries: the
   * direct `url`, else `attributes.url`, of the `data` envelope when that is
   * an object and of the reference itself when `data` is nullish.
   */
  lemma NormalizeMediaFinds(f: map<string, Value>, s: string)
    requires s != ""
    ensures IsNullish(Get(Obj(f), "data")) && Get(Obj(f), "url") == Some(Str(s))
      ==> NormalizeMedia(Some(Obj(f))) == Some(Media(s))
    ensures IsNullish(Get(Obj(f), "data")) && IsNullish(Get(Obj(f), "url"))
        && Lookup(Obj(f), ["attributes", "url"]) == Some(Str(s))
      ==> NormalizeMedia(Some(Obj(f))) == Some(Media(s))
    ensures Lookup(Obj(f), ["data", "url"]) == Some(Str(s))
      ==> NormalizeMedia(Some(Obj(f))) == Some(Media(s))
    ensures Get(Obj(f), "data").Some? && IsNullish(Lookup(Obj(f), ["data", "url"]))
        && Lookup(Obj(f), ["data", "attributes", "url"]) == Some(Str(s))
      ==> NormalizeMedia(Some(Obj(f))) == Some(Media(s))
  {
    var v := Obj(f);
    assert Lookup(v, ["attributes", "url"]) == GetOpt(Get(v, "attributes"), "url") by {
      assert ["attributes", "url"][1..] == ["url"];
    }
    if Get(v, "data").Some? {
      var g := Get(v, "data").value;
      assert Lookup(v, ["data", "url"]) == Get(g, "url") by {
        assert ["data", "url"][1..] == ["url"];
      }
      assert Lookup(v, ["data", "attributes", "url"]) == GetOpt(Get(g, "attributes"), "url") by {
        assert ["data", "attributes", "url"][1..] == ["attributes", "url"];
        assert ["attributes", "url"][1..] == ["url"];
      }
    }
  }

  /** A non-empty string, the only URL the source accepts. */
  predicate IsUrl(v: Option<Value>) {
    v.Some? && v.value.Str? && v.value.s != ""
  }

  /**
   * The other direction of the priority rule: when the slot the source reads
   * (`url` of `data ?? media`, else its `attributes.url`) holds anything but
   * a non-empty string, there is no media, even if a lower-priority path
   * carries one.
   */
  lemma NormalizeMediaMisses(f: map<string, Value>)
    ensures IsNullish(Get(Obj(f), "data")) && !IsNullish(Get(Obj(f), "url")) && !IsUrl(Get(Obj(f), "url"))
      ==> NormalizeMedia(Some(Obj(f))) == None
    ensures IsNullish(Get(Obj(f), "data")) && IsNullish(Get(Obj(f), "url"))
        && !IsUrl(Lookup(Obj(f), ["attributes", "url"]))
      ==> NormalizeMedia(Some(Obj(f))) == None
    ensures !IsNullish(Get(Obj(f), "data")) && !IsNullish(Lookup(Obj(f), ["data", "url"]))
        && !IsUrl(Lookup(Obj(f), ["data", "url"]))
      ==> NormalizeMedia(Some(Obj(f))) == None
    ensures !IsNullish(Get(Obj(f), "data")) && IsNullish(Lookup(Obj(f), ["data", "url"]))
        && !IsUrl(Lookup(Obj(f), ["data", "attributes", "url"]))
      ==> NormalizeMedia(Some(Obj(f))) == None
  {
    var v := Obj(f);
    assert Lookup(v, ["attributes", "url"]) == GetOpt(Get(v, "attributes"), "url") by {
      assert ["attributes", "url"][1..] == ["url"];
    }
    if Get(v, "data").Some? {
      var g := Get(v, "data").value;
      assert Lookup(v, ["data", "url"]) == Get(g, "url") by {
        assert ["data", "url"][1..] == ["url"];
      }
      assert Lookup(v, ["data", "attributes", "url"]) == GetOpt(Get(g, "attributes"), "url") by {
        assert ["data", "attributes", "url"][1..] == ["attributes", "url"];
        assert ["attributes", "url"][1..] == ["url"];
      }
    }
  }

  /** The source's two examples: a numeric `url`, and an empty `data` object beside a `url`. */
  lemma ChosenSlotWins()
    ensures NormalizeMedia(Some(Obj(map["url" := Num(5), "attributes" := UrlObject("a")]))) == None
    ensures NormalizeMedia(Some(Obj(map["data" := Obj(map[]), "url" := Str("a")]))) == None
  {
    NormalizeMediaMisses(map["url" := Num(5), "attributes" := UrlObject("a")]);
    var g := map["data" := Obj(map[]), "url" := Str("a")];
    assert Lookup(Obj(g), ["data", "url"]) == None by {
      assert ["data", "url"][1..] == ["url"];
    }
    assert Lookup(Obj(g), ["data", "attributes", "url"]) == None by {
      assert ["data", "attributes", "url"][1..] == ["attributes", "url"];
    }
    NormalizeMediaMisses(g);
  }

  /** A non-nullish `data` that is not an object hides everything else. */
  lemma DataNotObjectHides(f: map<string, Value>)
    requires "data" in f && !f["data"].Null? && !f["data"].Obj?
    ensures NormalizeMedia(Some(Obj(f))) == None
  {
  }

  function UrlObject(u: string): Value {
    Obj(map["url" := Str(u)])
  }

  /**
   * The four accepted shapes `{url}`, `{attributes:{url}}`, `{data:{url}}`
   * and `{data:{attributes:{url}}}` all yield the same media, relative or
   * absolute URL alike.
   */
  lemma MediaShapesAgree(u: string)
    requires u != ""
    ensures NormalizeMedia(Some(UrlObject(u))) == Some(Media(u))
    ensures NormalizeMedia(Some(Obj(map["attributes" := UrlObject(u)]))) == Some(Media(u))
    ensures NormalizeMedia(Some(Obj(map["data" := UrlObject(u)]))) == Some(Media(u))
    ensures NormalizeMedia(Some(Obj(map["data" := Obj(map["attributes" := UrlObject(u)])]))) == Some(Media(u))
  {
  }

  /** A `data` envelope takes precedence over a `url` beside it. */
  lemma DataEnvelopeFirst(outer: string, inner: string)
    requires inner != ""
    ensures NormalizeMedia(Some(Obj(map["url" := Str(outer), "data" := UrlObject(inner)]))) == Some(Media(inner))
  {
  }

  /** A present but empty `url` hides `attributes.url`: `??` only skips null and undefined. */
  lemma EmptyUrlHidesAttributes(u: string)
    ensures NormalizeMedia(Some(Obj(map["url" := Str(""), "attributes" := UrlObject(u)]))) == None
  {
  }

  /** A null `data` envelope is ignored: the reference itself is read. */
  lemma NullEnvelopeIgnored(u: string)
    requires u != ""
    ensures NormalizeMedia(Some(Obj(map["data" := Null, "url" := Str(u)]))) == Some(Media(u))
  {
  }

  /** Empty objects, non-string URLs and arrays give no media. */
  lemma NoMediaCases(n: int, items: seq<Value>)
    ensures NormalizeMedia(Some(Obj(map[]))) == None
    ensures NormalizeMedia(Some(Obj(map["url" := Num(n)]))) == None
    ensures NormalizeMedia(Some(Arr(items))) == None
    ensures NormalizeMedia(Some(Obj(map["data" := Null]))) == None
  {
  }

  predicate StartsWith(s: string, prefix: string) {
    |prefix| <= |s| && s[..|prefix|] == prefix
  }

  /**
   * `STRAPI_URL`: the configured URL with one trailing slash removed; when
   * that is empty, the local development server in development and "" (not
   * configured) otherwise.
   */
  function BaseUrl(envUrl: Option<string>, isDevelopment: bool): (r: string)
    ensures r == "" <==> !isDevelopment && (envUrl.None? || envUrl.value == "" || envUrl.value == "/")
    ensures envUrl.Some? && |envUrl.value| > 1 && envUrl.value[|envUrl.value| - 1] == '/' ==>
      r + "/" == envUrl.value
    ensures envUrl.Some? && envUrl.value != "" && envUrl.value[|envUrl.value| - 1] != '/' ==>
      r == envUrl.value
    ensures isDevelopment && (envUrl.None? || envUrl.value == "" || envUrl.value == "/") ==>
      r == "http://localhost:1337"
  {
    var stripped := match envUrl
      case None => ""
      case Some(u) => if u != "" && u[|u| - 1] == '/' then u[..|u| - 1] else u;
    if stripped != "" then stripped
    else if isDevelopment then "http://localhost:1337"
    else ""
  }

  /**
   * `getStrapiMediaUrl`: absolute (`http…`) paths are kept; other paths are
   * put under the base URL with exactly one slash between; nothing without a
   * path or, for a relative path, without a base URL.
   */
  function MediaUrl(path: Option<string>, baseUrl: string): (r: Option<string>)
    ensures path.None? || path.value == "" ==> r == None
    ensures path.Some? && StartsWith(path.value, "http") ==> r == path
    ensures path.Some? && path.value != "" && !StartsWith(path.value, "http") ==>
      r == if baseUrl == "" then None
           else Some(baseUrl + "/" + (if path.value[0] == '/' then path.value[1..] else path.value))
  {
    match path
    case None => None
    case Some(p) =>
      if p == "" then None
      else if StartsWith(p, "http") then Some(p)
      else if baseUrl != "" then
        var u := baseUrl + (if StartsWith(p, "/") then p else "/" + p);
        assert StartsWith(p, "/") <==> p[0] == '/';
        assert p[0] == '/' ==> p == "/" + p[1..];
        assert baseUrl + "/" + p[1..] == baseUrl + ("/" + p[1..]);
        assert baseUrl + "/" + p == baseUrl + ("/" + p);
        Some(u)
      else None
  }

  /** The media URL always ends with the given path. */
  lemma MediaUrlEndsWithPath(path: string, baseUrl: string)
    requires MediaUrl(Some(path), baseUrl).Some?
    ensures var u := MediaUrl(Some(path), baseUrl).value;
      |path| <= |u| && u[|u| - |path|..] == path
  {
  }
}
