/**
 * Field renaming of whole documents of the content gateway (lib/strapi.ts):
 * the site header with its ordered navigation links, the hero banner, menu
 * category cards and blog posts. Raw documents carry the content API's
 * PascalCase fields, each possibly absent (`None`); the normalised view
 * models carry camelCase fields with the source's defaults filled in.
 */
module StrapiDocuments {
  import opened Wrappers
  import opened Json
  import opened StrapiMedia
  import opened OrderSort

  // ---- Navigation links (header, and the footer's two link groups) ----

  /** A raw `{Label?, Href?, Order?}` link component; `text` is the `Label` field. */
  datatype NavLinkDoc = NavLinkDoc(text: Option<string>, href: Option<string>, order: Option<int>)

  /** A normalised link; `order` is the sort key, missing counting as 0. */
  datatype NavLink = NavLink(text: string, href: string, order: int)

  function NavOrder(l: NavLink): int {
    l.order
  }

  /** One raw link with its defaults: no label is "", no target is "#", no order is 0. */
  function ToNavLink(d: NavLinkDoc): (l: NavLink)
    ensures l.text == (if d.text.None? then "" else d.text.value)
    ensures l.href == (if d.href.None? then "#" else d.href.value)
    ensures l.order == (if d.order.None? then 0 else d.order.value)
  {
    NavLink(d.text.GetOr(""), d.href.GetOr("#"), d.order.GetOr(0))
  }

  /** `raw.map(ToNavLink).filter((l) => l.text)`: the links whose label is not empty, in input order. */
  function LabelledLinks(raw: seq<NavLinkDoc>): (r: seq<NavLink>)
    ensures |r| <= |raw|
    ensures forall l :: l in r ==> l.text != ""
    ensures forall l :: l in r <==> exists i :: 0 <= i < |raw| && ToNavLink(raw[i]) == l && l.text != ""
  {
    if raw == [] then []
    else
      var l := ToNavLink(raw[0]);
      var rest := LabelledLinks(raw[1..]);
      assert forall x :: x in rest <==> exists i :: 1 <= i < |raw| && ToNavLink(raw[i]) == x && x.text != "" by {
        forall x | x in rest ensures exists i :: 1 <= i < |raw| && ToNavLink(raw[i]) == x && x.text != "" {
          var j :| 0 <= j < |raw[1..]| && ToNavLink(raw[1..][j]) == x && x.text != "";
          assert ToNavLink(raw[j + 1]) == x;
        }
        forall x, i | 1 <= i < |raw| && ToNavLink(raw[i]) == x && x.text != "" ensures x in rest {
          assert ToNavLink(raw[1..][i - 1]) == x;
        }
      }
      (if l.text != "" then [l] else []) + rest
  }

  /**
   * The filter keeps input order: the survivors of a concatenation are the
   * survivors of each part, one after the other.
   */
  lemma {:induction false} LabelledLinksAppend(a: seq<NavLinkDoc>, b: seq<NavLinkDoc>)
    ensures LabelledLinks(a + b) == LabelledLinks(a) + LabelledLinks(b)
    decreases |a|
  {
    if a == [] {
      assert a + b == b;
    } else {
      assert (a + b)[0] == a[0];
      assert (a + b)[1..] == a[1..] + b;
      LabelledLinksAppend(a[1..], b);
    }
  }

  /** A single raw link survives, as itself, exactly when its label is non-empty. */
  lemma LabelledLinksOne(d: NavLinkDoc)
    ensures LabelledLinks([d]) == if d.text.Some? && d.text.value != "" then [ToNavLink(d)] else []
  {
    assert [d][1..] == [];
  }

  /**
   * The navigation-link normaliser shared by the header and the footer:
   * labelled links, stably sorted ascending by order. A missing link list
   * (or one that is not an array) gives no links.
   */
  function NavLinks(raw: Option<seq<NavLinkDoc>>): (r: seq<NavLink>)
    ensures raw.None? ==> r == []
    ensures raw.Some? ==> multiset(r) == multiset(LabelledLinks(raw.value))
    ensures raw.Some? ==> SameGroups(r, LabelledLinks(raw.value), NavOrder)
    ensures Sorted(r, NavOrder)
    ensures forall l :: l in r ==> l.text != ""
  {
    match raw
    case None => []
    case Some(links) =>
      var kept := LabelledLinks(links);
      SortByKeyStable(kept, NavOrder);
      var r := SortByKey(kept, NavOrder);
      assert forall l :: l in r ==> l in multiset(kept);
      r
  }

  /**
   * Every raw link with a non-empty label survives, its missing target read
   * as "#" and its missing order as 0; no other link appears.
   */
  lemma NavLinkSurvivors(raw: seq<NavLinkDoc>, l: NavLink)
    ensures l in NavLinks(Some(raw)) <==>
      exists i :: 0 <= i < |raw| && raw[i].text.Some? && raw[i].text.value != ""
        && l == NavLink(raw[i].text.value, raw[i].href.GetOr("#"), raw[i].order.GetOr(0))
  {
    var r := NavLinks(Some(raw));
    assert l in r <==> l in multiset(r);
    assert l in LabelledLinks(raw) <==> l in multiset(LabelledLinks(raw));
  }

  /** Links whose orders are all missing keep their input order. */
  lemma NavLinksWithoutOrder(raw: seq<NavLinkDoc>)
    requires forall i :: 0 <= i < |raw| ==> raw[i].order.None?
    ensures NavLinks(Some(raw)) == LabelledLinks(raw)
  {
    var kept := LabelledLinks(raw);
    assert forall l :: l in kept ==> l.order == 0;
    SortedUnchanged(kept, NavOrder);
  }

  // ---- Site header ----

  /** The raw header single type. */
  datatype HeaderDoc = HeaderDoc(
    logo: Option<Value>,
    logoLink: Option<string>,
    navLinks: Option<seq<NavLinkDoc>>,
    ctaText: Option<string>,
    ctaLink: Option<string>)

  datatype Header = Header(
    logo: Option<Media>,
    logoLink: string,
    navLinks: Option<seq<NavLink>>,
    ctaText: Option<string>,
    ctaLink: Option<string>)

  /**
   * `normalizeHeader`: no document gives no header; the logo link defaults to
   * "/"; the navigation links are `NavLinks`, absent rather than empty when
   * none survive.
   */
  function NormalizeHeader(doc: Option<HeaderDoc>): (r: Option<Header>)
    ensures doc.None? <==> r.None?
    ensures r.Some? ==> r.value.navLinks != Some([])
    ensures r.Some? ==> (r.value.navLinks.None? <==> NavLinks(doc.value.navLinks) == [])
    ensures r.Some? && r.value.navLinks.Some? ==> r.value.navLinks.value == NavLinks(doc.value.navLinks)
    ensures r.Some? && r.value.navLinks.Some? ==> Sorted(r.value.navLinks.value, NavOrder)
    ensures r.Some? ==> r.value.logoLink == (if doc.value.logoLink.None? then "/" else doc.value.logoLink.value)
    ensures r.Some? ==> r.value.logo == NormalizeMedia(doc.value.logo)
    ensures r.Some? ==> r.value.ctaText == doc.value.ctaText && r.value.ctaLink == doc.value.ctaLink
  {
    match doc
    case None => None
    case Some(d) =>
      var links := NavLinks(d.navLinks);
      Some(Header(
        NormalizeMedia(d.logo),
        d.logoLink.GetOr("/"),
        if |links| > 0 then Some(links) else None,
        d.ctaText,
        d.ctaLink))
  }

  /** An empty header document: every default at once. */
  lemma HeaderDefaults()
    ensures NormalizeHeader(Some(HeaderDoc(None, None, None, None, None)))
         == Some(Header(None, "/", None, None, None))
  {
  }

  // ---- Hero banner ----

  /**
   * The raw hero single type. The content type's field for the secondary
   * call-to-action link is misspelt `SeconadaryctaLink`; the correct
   * spelling `SecondaryCtaLink` is read as a fallback.
   */
  datatype HeroDoc = HeroDoc(
    id: Option<int>,
    documentId: Option<string>,
    title: Option<string>,
    subtitle: Option<string>,
    image: Option<Value>,
    cta: Option<string>,
    ctaLink: Option<string>,
    secondaryCta: Option<string>,
    seconadaryCtaLink: Option<string>,
    secondaryCtaLink: Option<string>,
    seo: Option<Value>)

  datatype Hero = Hero(
    id: int,
    documentId: Option<string>,
    title: Option<string>,
    subtitle: Option<string>,
    image: Option<Media>,
    cta: Option<string>,
    ctaLink: Option<string>,
    secondaryCta: Option<string>,
    secondaryCtaLink: Option<string>,
    seo: Option<Value>)

  /** `normalizeHero` */
  function NormalizeHero(doc: Option<HeroDoc>): (r: Option<Hero>)
    ensures doc.None? <==> r.None?
    ensures r.Some? ==> r.value.id == (if doc.value.id.None? then 0 else doc.value.id.value)
    ensures r.Some? ==>
      r.value.secondaryCtaLink
      == (if doc.value.seconadaryCtaLink.Some? then doc.value.seconadaryCtaLink else doc.value.secondaryCtaLink)
    ensures r.Some? ==> r.value.image == NormalizeMedia(doc.value.image)
    ensures r.Some? ==> r.value.title == doc.value.title && r.value.subtitle == doc.value.subtitle
    ensures r.Some? ==> r.value.documentId == doc.value.documentId && r.value.seo == doc.value.seo
    ensures r.Some? ==>
      r.value.cta == doc.value.cta && r.value.ctaLink == doc.value.ctaLink && r.value.secondaryCta == doc.value.secondaryCta
  {
    match doc
    case None => None
    case Some(d) =>
      var secondaryLink := if d.seconadaryCtaLink.Some? then d.seconadaryCtaLink else d.secondaryCtaLink;
      Some(Hero(
        d.id.GetOr(0), d.documentId, d.title, d.subtitle, NormalizeMedia(d.image),
        d.cta, d.ctaLink, d.secondaryCta, secondaryLink, d.seo))
  }

  /** The misspelt field wins over the correctly spelt one when both are present. */
  lemma HeroTypoFieldWins(d: HeroDoc, typo: string, correct: string)
    ensures NormalizeHero(Some(d.(seconadaryCtaLink := Some(typo), secondaryCtaLink := Some(correct)))).value.secondaryCtaLink
         == Some(typo)
    ensures NormalizeHero(Some(d.(seconadaryCtaLink := None, secondaryCtaLink := Some(correct)))).value.secondaryCtaLink
         == Some(correct)
  {
  }

  // ---- Menu category cards ----

  datatype MenuDoc = MenuDoc(
    id: Option<int>,
    documentId: Option<string>,
    title: Option<string>,
    description: Option<string>,
    icon: Option<Value>,
    order: Option<int>)

  datatype Menu = Menu(
    id: int,
    documentId: Option<string>,
    title: Option<string>,
    description: Option<string>,
    icon: Option<Media>,
    order: int)

  /** `normalizeMenu`: `Title`/`Description`/`Icon`/`Order` renamed, a missing id or order read as 0. */
  function NormalizeMenu(doc: Option<MenuDoc>): (r: Option<Menu>)
    ensures doc.None? <==> r.None?
    ensures r.Some? ==> r.value.order == (if doc.value.order.None? then 0 else doc.value.order.value)
    ensures r.Some? ==> r.value.id == (if doc.value.id.None? then 0 else doc.value.id.value)
    ensures r.Some? ==> r.value.icon == NormalizeMedia(doc.value.icon)
    ensures r.Some? ==> r.value.title == doc.value.title && r.value.description == doc.value.description
    ensures r.Some? ==> r.value.documentId == doc.value.documentId
  {
    match doc
    case None => None
    case Some(d) =>
      Some(Menu(d.id.GetOr(0), d.documentId, d.title, d.description, NormalizeMedia(d.icon), d.order.GetOr(0)))
  }

  // ---- Blog posts ----

  datatype BlogPostDoc = BlogPostDoc(
    id: Option<int>,
    documentId: Option<string>,
    title: Option<string>,
    slug: Option<string>,
    date: Option<string>,
    image: Option<Value>,
    excerpt: Option<string>,
    content: Option<Value>,
    featured: Option<bool>,
    order: Option<int>,
    gallery: Option<Value>,
    detailImage: Option<Value>)

  datatype BlogPost = BlogPost(
    id: int,
    documentId: Option<string>,
    title: Option<string>,
    slug: Option<string>,
    date: Option<string>,
    image: Option<Media>,
    excerpt: Option<string>,
    content: Option<Value>,
    featured: bool,
    order: int,
    gallery: Option<seq<Media>>,
    detailImage: Option<Media>)

  /** `items.map(normalizeStrapiMedia).filter(non-null)`: the items that are media references, in order. */
  function MediaList(items: seq<Value>): (r: seq<Media>)
    ensures |r| <= |items|
    ensures forall m :: m in r ==> m.url != ""
    ensures forall m :: m in r ==> exists i :: 0 <= i < |items| && NormalizeMedia(Some(items[i])) == Some(m)
    ensures forall i :: 0 <= i < |items| && NormalizeMedia(Some(items[i])).Some? ==> NormalizeMedia(Some(items[i])).value in r
  {
    if items == [] then []
    else
      var rest := MediaList(items[1..]);
      assert forall m :: m in rest ==> exists i :: 1 <= i < |items| && NormalizeMedia(Some(items[i])) == Some(m) by {
        forall m | m in rest ensures exists i :: 1 <= i < |items| && NormalizeMedia(Some(items[i])) == Some(m) {
          var j :| 0 <= j < |items[1..]| && NormalizeMedia(Some(items[1..][j])) == Some(m);
          assert items[1..][j] == items[j + 1];
        }
      }
      assert forall i :: 1 <= i < |items| ==> items[i] == items[1..][i - 1];
      match NormalizeMedia(Some(items[0]))
      case Some(m) => [m] + rest
      case None => rest
  }

  /** When every item is a media reference, none is dropped and each stays in its place. */
  lemma {:induction false} MediaListKeepsAll(items: seq<Value>)
    requires forall i :: 0 <= i < |items| ==> NormalizeMedia(Some(items[i])).Some?
    ensures |MediaList(items)| == |items|
    ensures forall i :: 0 <= i < |items| ==> MediaList(items)[i] == NormalizeMedia(Some(items[i])).value
  {
    if items != [] {
      MediaListKeepsAll(items[1..]);
      assert forall i :: 1 <= i < |items| ==> items[i] == items[1..][i - 1];
    }
  }

  /** The filter keeps input order: the media of a concatenation are those of each part, in turn. */
  lemma {:induction false} MediaListAppend(a: seq<Value>, b: seq<Value>)
    ensures MediaList(a + b) == MediaList(a) + MediaList(b)
    decreases |a|
  {
    if a == [] {
      assert a + b == b;
    } else {
      assert (a + b)[0] == a[0];
      assert (a + b)[1..] == a[1..] + b;
      MediaListAppend(a[1..], b);
    }
  }

  /** The gallery: a `data` envelope or a bare array of media; anything else is no gallery. */
  function Gallery(gallery: Option<Value>): (r: Option<seq<Media>>)
    ensures gallery.None? || gallery.value.Null? ==> r == None
    ensures gallery.Some? && gallery.value.Arr? ==> r == Some(MediaList(gallery.value.items))
    ensures gallery.Some? && Get(gallery.value, "data").Some? && Get(gallery.value, "data").value.Arr?
      ==> r == Some(MediaList(Get(gallery.value, "data").value.items))
    ensures gallery.Some? && gallery.value.Obj? && !(Get(gallery.value, "data").Some? && Get(gallery.value, "data").value.Arr?)
      ==> r == None
    ensures r.Some? ==> gallery.Some? && (gallery.value.Arr? || gallery.value.Obj?)
  {
    match Coalesce(GetOpt(gallery, "data"), gallery)
    case Some(Arr(items)) => Some(MediaList(items))
    case _ => None
  }

  /**
   * `normalizeBlogPost`: `featured` defaults to false and `order` to 0; a
   * null `Content` reads as absent, as `?? undefined` makes it.
   */
  function NormalizeBlogPost(doc: Option<BlogPostDoc>): (r: Option<BlogPost>)
    ensures doc.None? <==> r.None?
    ensures r.Some? ==> r.value.featured == (doc.value.featured == Some(true))
    ensures r.Some? ==> r.value.order == (if doc.value.order.None? then 0 else doc.value.order.value)
    ensures r.Some? ==> r.value.slug == doc.value.slug && r.value.title == doc.value.title
    ensures r.Some? ==> r.value.gallery == Gallery(doc.value.gallery)
    ensures r.Some? ==> r.value.image == NormalizeMedia(doc.value.image)
    ensures r.Some? ==> r.value.detailImage == NormalizeMedia(doc.value.detailImage)
    ensures r.Some? ==> r.value.id == (if doc.value.id.None? then 0 else doc.value.id.value)
    ensures r.Some? ==> r.value.documentId == doc.value.documentId && r.value.date == doc.value.date
    ensures r.Some? ==> r.value.excerpt == doc.value.excerpt
    ensures r.Some? ==> r.value.content == (if IsNullish(doc.value.content) then None else doc.value.content)
  {
    match doc
    case None => None
    case Some(d) =>
      Some(BlogPost(
        d.id.GetOr(0), d.documentId, d.title, d.slug, d.date, NormalizeMedia(d.image),
        d.excerpt, if IsNullish(d.content) then None else d.content, d.featured.GetOr(false), d.order.GetOr(0),
        Gallery(d.gallery), NormalizeMedia(d.detailImage)))
  }

  /** A gallery given bare or inside a `data` envelope normalises the same. */
  lemma GalleryShapesAgree(items: seq<Value>)
    ensures Gallery(Some(Obj(map["data" := Arr(items)]))) == Gallery(Some(Arr(items)))
    ensures Gallery(Some(Obj(map["data" := Null]))) == None
    ensures Gallery(None) == None && Gallery(Some(Null)) == None
  {
  }
}
