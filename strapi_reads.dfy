/**
 * The `getX` read wrappers of lib/strapi.ts, as functions from the fetch
 * outcome to the normalised result: a single type reads `data` and
 * normalises it, a collection reads `data` as a list (a single object counts
 * as a one-element list) and keeps the entries that normalise; any error
 * becomes the empty answer. The blog-post reads add their query building
 * and the slug lookup.
 */
module StrapiReads {
  import opened Wrappers
  import opened Json
  import opened StrapiFetch

  /** The `data` member of a successful answer, or `None` when the read failed or `data` is nullish. */
  function Payload(fetched: Result<Value, FetchError>): (r: Option<Value>)
    ensures r.Some? ==> fetched.Success? && !r.value.Null?
    ensures r.Some? ==> Get(fetched.value, "data") == r
    ensures fetched.Success? && !IsNullish(Get(fetched.value, "data")) ==> r.Some?
  {
    if fetched.Failure? then None
    else
      var raw := Get(fetched.value, "data");
      if IsNullish(raw) then None else raw
  }

  /**
   * A single-type read (`getHeader`, `getHero`, ...): null on any error, on
   * nullish `data`, and whenever the normaliser gives null.
   */
  function ReadSingleton<V>(fetched: Result<Value, FetchError>, normalize: Value -> Option<V>): (r: Option<V>)
    ensures fetched.Failure? ==> r.None?
    ensures r.Some? ==> Payload(fetched).Some? && r == normalize(Payload(fetched).value)
    ensures Payload(fetched).Some? ==> r == normalize(Payload(fetched).value)
  {
    match Payload(fetched)
    case None => None
    case Some(raw) => normalize(raw)
  }

  /** `list.map(normalize).filter((x) => x !== null)` */
  function FilterMap<V(!new)>(list: seq<Value>, normalize: Value -> Option<V>): (r: seq<V>)
    ensures |r| <= |list|
    ensures forall v :: v in r <==> exists i :: 0 <= i < |list| && normalize(list[i]) == Some(v)
  {
    if list == [] then []
    else
      var rest := FilterMap(list[1..], normalize);
      assert forall v :: v in rest <==> exists i :: 1 <= i < |list| && normalize(list[i]) == Some(v) by {
        forall v | v in rest ensures exists i :: 1 <= i < |list| && normalize(list[i]) == Some(v) {
          var j :| 0 <= j < |list[1..]| && normalize(list[1..][j]) == Some(v);
          assert list[1..][j] == list[j + 1];
        }
        forall v, i | 1 <= i < |list| && normalize(list[i]) == Some(v) ensures v in rest {
          assert list[1..][i - 1] == list[i];
        }
      }
      match normalize(list[0])
      case None => rest
      case Some(v) => [v] + rest
  }

  /** The filter keeps input order: the entries kept from a concatenation are those of each part, in turn. */
  lemma {:induction false} FilterMapAppend<V(!new)>(a: seq<Value>, b: seq<Value>, normalize: Value -> Option<V>)
    ensures FilterMap(a + b, normalize) == FilterMap(a, normalize) + FilterMap(b, normalize)
    decreases |a|
  {
    if a == [] {
      assert a + b == b;
    } else {
      assert (a + b)[0] == a[0];
      assert (a + b)[1..] == a[1..] + b;
      FilterMapAppend(a[1..], b, normalize);
    }
  }

  /** A single entry is kept, normalised, exactly when it normalises. */
  lemma FilterMapOne<V(!new)>(x: Value, normalize: Value -> Option<V>)
    ensures FilterMap([x], normalize) == if normalize(x).Some? then [normalize(x).value] else []
  {
    assert [x][1..] == [];
  }

  /** `Array.isArray(raw) ? raw : [raw]` */
  function AsList(raw: Value): (list: seq<Value>)
    ensures raw.Arr? ==> list == raw.items
    ensures !raw.Arr? ==> list == [raw]
  {
    if raw.Arr? then raw.items else [raw]
  }

  /**
   * A collection read (`getFeatures`, `getBlogPosts`, ...): empty on any
   * error or nullish `data`; otherwise the entries of the list that
   * normalise, in order.
   */
  function ReadCollection<V(!new)>(fetched: Result<Value, FetchError>, normalize: Value -> Option<V>): (r: seq<V>)
    ensures Payload(fetched).None? ==> r == []
    ensures Payload(fetched).Some? ==> r == FilterMap(AsList(Payload(fetched).value), normalize)
    ensures Payload(fetched).Some? ==> |r| <= |AsList(Payload(fetched).value)|
  {
    match Payload(fetched)
    case None => []
    case Some(raw) => FilterMap(AsList(raw), normalize)
  }

  /** Entries keep their relative order: when every entry normalises, the result lists them all, in place. */
  lemma {:induction false} FilterMapTotal<V(!new)>(list: seq<Value>, normalize: Value -> Option<V>)
    requires forall i :: 0 <= i < |list| ==> normalize(list[i]).Some?
    ensures |FilterMap(list, normalize)| == |list|
    ensures forall i :: 0 <= i < |list| ==> FilterMap(list, normalize)[i] == normalize(list[i]).value
  {
    if list != [] {
      FilterMapTotal(list[1..], normalize);
      var rest := FilterMap(list[1..], normalize);
      assert FilterMap(list, normalize) == [normalize(list[0]).value] + rest;
      forall i | 1 <= i < |list| ensures FilterMap(list, normalize)[i] == normalize(list[i]).value {
        assert list[1..][i - 1] == list[i];
      }
    }
  }

  // ---- Blog posts ----

  /** The fixed part of the blog-post list query. */
  const BlogPostsPopulate: Value := Obj(map["Image" := Bool(true)])
  const BlogPostsSort: Value := Arr([Str("Date:desc"), Str("Featured:desc"), Str("Order:asc")])
  const Published: Value := Str("published")

  /**
   * The query `getBlogPosts(limit, featured)` builds: pagination only for a
   * positive limit, the `Featured` filter only when `featured` is given, and
   * the fixed populate/sort/status entries always.
   */
  method BlogPostsQuery(limit: Option<int>, featured: Option<bool>) returns (query: map<string, Value>)
    ensures query.Keys <= {"populate", "sort", "status", "pagination", "filters"}
    ensures "populate" in query && query["populate"] == BlogPostsPopulate
    ensures "sort" in query && query["sort"] == BlogPostsSort
    ensures "status" in query && query["status"] == Published
    ensures "pagination" in query <==> limit.Some? && limit.value > 0
    ensures "pagination" in query ==> query["pagination"] == Obj(map["limit" := Num(limit.value)])
    ensures "filters" in query <==> featured.Some?
    ensures "filters" in query ==> query["filters"] == Obj(map["Featured" := Obj(map["$eq" := Bool(featured.value)])])
  {
    query := map["populate" := BlogPostsPopulate, "sort" := BlogPostsSort, "status" := Published];
    if limit.Some? && limit.value > 0 {
      query := query["pagination" := Obj(map["limit" := Num(limit.value)])];
    }
    if featured.Some? {
      query := query["filters" := Obj(map["Featured" := Obj(map["$eq" := Bool(featured.value)])])];
    }
  }

  /**
   * `getBlogPostBySlug`: null for an empty slug, on any error, when `data`
   * is not an array or is empty; otherwise the normalisation of the first
   * entry alone.
   */
  function BlogPostBySlug<V>(slug: string, fetched: Result<Value, FetchError>, normalize: Value -> Option<V>): (r: Option<V>)
    ensures slug == "" ==> r.None?
    ensures Payload(fetched).None? ==> r.None?
    ensures Payload(fetched).Some? && !Payload(fetched).value.Arr? ==> r.None?
    ensures Payload(fetched).Some? && Payload(fetched).value == Arr([]) ==> r.None?
    ensures slug != "" && Payload(fetched).Some? && Payload(fetched).value.Arr? && Payload(fetched).value.items != [] ==>
      r == normalize(Payload(fetched).value.items[0])
  {
    if slug == "" then None
    else match Payload(fetched)
      case Some(Arr(items)) => if items == [] then None else normalize(items[0])
      case _ => None
  }

  /** Only the first matching post matters: answers that agree on it agree on the result. */
  lemma BySlugFirstOnly<V>(slug: string, a: seq<Value>, b: seq<Value>, normalize: Value -> Option<V>)
    requires a != [] && b != [] && a[0] == b[0]
    ensures BlogPostBySlug(slug, Success(Obj(map["data" := Arr(a)])), normalize)
         == BlogPostBySlug(slug, Success(Obj(map["data" := Arr(b)])), normalize)
  {
  }
}
