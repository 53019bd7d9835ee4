/**
 * The site footer (lib/strapi.ts): two titled groups of navigation links,
 * social links whose icon is one of four known names, and an Instagram grid
 * of at most four images. Each list is sorted stably by `Order` (missing
 * counts as 0) and the order field is then dropped from the view model.
 */
module StrapiFooter {
  import opened Wrappers
  import opened Json
  import opened StrapiMedia
  import opened OrderSort
  import opened StrapiDocuments
  import opened StrapiSections

  // ---- Navigation link groups ----

  datatype FooterNavLink = FooterNavLink(text: string, href: string)

  /** Drops the order of each link, keeping text and target in place. */
  function StripNavOrder(links: seq<NavLink>): (r: seq<FooterNavLink>)
    ensures |r| == |links|
    ensures forall i :: 0 <= i < |r| ==> r[i].text == links[i].text && r[i].href == links[i].href
  {
    seq(|links|, i requires 0 <= i < |links| => FooterNavLink(links[i].text, links[i].href))
  }

  /**
   * `normalizeFooterNavLinks`: the header's link normalisation (`NavLinks`:
   * labelled links, missing target "#", stably sorted by order) with the
   * order dropped; every link has a label.
   */
  function FooterNavLinks(raw: Option<seq<NavLinkDoc>>): (r: seq<FooterNavLink>)
    ensures r == StripNavOrder(NavLinks(raw))
    ensures forall i :: 0 <= i < |r| ==> r[i].text != ""
  {
    var links := NavLinks(raw);
    assert forall i :: 0 <= i < |links| ==> links[i] in links;
    StripNavOrder(links)
  }

  // ---- Social links ----

  /** The only icons a social link can have. */
  datatype SocialIcon = Twitter | Facebook | Instagram | Github

  function IconName(icon: SocialIcon): string {
    match icon
    case Twitter => "twitter"
    case Facebook => "facebook"
    case Instagram => "instagram"
    case Github => "github"
  }

  /** `icons.includes(l.Icon) ? l.Icon : 'twitter'` */
  function ParseIcon(name: Option<string>): (icon: SocialIcon)
    ensures name.Some? && name.value in ["twitter", "facebook", "instagram", "github"] ==> IconName(icon) == name.value
    ensures name.None? || name.value !in ["twitter", "facebook", "instagram", "github"] ==> icon == Twitter
  {
    match name
    case Some("facebook") => Facebook
    case Some("instagram") => Instagram
    case Some("github") => Github
    case _ => Twitter
  }

  /** Every icon survives the round trip through its name. */
  lemma IconNameRoundTrip(icon: SocialIcon)
    ensures ParseIcon(Some(IconName(icon))) == icon
  {
  }

  datatype SocialLinkDoc = SocialLinkDoc(icon: Option<string>, href: Option<string>, order: Option<int>)

  /** A social link before its order is dropped. */
  datatype OrderedSocialLink = OrderedSocialLink(icon: SocialIcon, href: string, order: int)

  datatype SocialLink = SocialLink(icon: SocialIcon, href: string)

  /** One raw social link with its defaults: an unknown icon is twitter, no target "#", no order 0. */
  function ToOrderedSocialLink(d: SocialLinkDoc): (l: OrderedSocialLink)
    ensures l.icon == ParseIcon(d.icon)
    ensures l.href == (if d.href.None? then "#" else d.href.value)
    ensures l.order == (if d.order.None? then 0 else d.order.value)
  {
    OrderedSocialLink(ParseIcon(d.icon), d.href.GetOr("#"), d.order.GetOr(0))
  }

  function SocialOrder(l: OrderedSocialLink): int {
    l.order
  }

  /** `raw.map(...).filter((l) => l.href)`: only an explicitly empty target is dropped. */
  function LinkedSocial(raw: seq<SocialLinkDoc>): (r: seq<OrderedSocialLink>)
    ensures |r| <= |raw|
    ensures forall l :: l in r <==> exists i :: 0 <= i < |raw| && raw[i].href != Some("") && l == ToOrderedSocialLink(raw[i])
  {
    if raw == [] then []
    else
      var l := ToOrderedSocialLink(raw[0]);
      var rest := LinkedSocial(raw[1..]);
      assert forall x :: x in rest <==> exists i :: 1 <= i < |raw| && raw[i].href != Some("") && x == ToOrderedSocialLink(raw[i]) by {
        forall x | x in rest ensures exists i :: 1 <= i < |raw| && raw[i].href != Some("") && x == ToOrderedSocialLink(raw[i]) {
          var j :| 0 <= j < |raw[1..]| && raw[1..][j].href != Some("") && x == ToOrderedSocialLink(raw[1..][j]);
          assert raw[1..][j] == raw[j + 1];
        }
        forall x, i | 1 <= i < |raw| && raw[i].href != Some("") && x == ToOrderedSocialLink(raw[i]) ensures x in rest {
          assert raw[1..][i - 1] == raw[i];
        }
      }
      (if l.href != "" then [l] else []) + rest
  }

  /** The filter keeps input order: the survivors of a concatenation are those of each part, in turn. */
  lemma {:induction false} LinkedSocialAppend(a: seq<SocialLinkDoc>, b: seq<SocialLinkDoc>)
    ensures LinkedSocial(a + b) == LinkedSocial(a) + LinkedSocial(b)
    decreases |a|
  {
    if a == [] {
      assert a + b == b;
    } else {
      assert (a + b)[0] == a[0];
      assert (a + b)[1..] == a[1..] + b;
      LinkedSocialAppend(a[1..], b);
    }
  }

  /** A single raw social link survives, as itself, unless its target is explicitly empty. */
  lemma LinkedSocialOne(d: SocialLinkDoc)
    ensures LinkedSocial([d]) == if d.href == Some("") then [] else [ToOrderedSocialLink(d)]
  {
    assert [d][1..] == [];
  }

  /** The kept social links, stably sorted by order. */
  function SortedSocial(raw: Option<seq<SocialLinkDoc>>): (r: seq<OrderedSocialLink>)
    ensures Sorted(r, SocialOrder)
    ensures raw.None? ==> r == []
    ensures raw.Some? ==> multiset(r) == multiset(LinkedSocial(raw.value))
    ensures raw.Some? ==> SameGroups(r, LinkedSocial(raw.value), SocialOrder)
  {
    match raw
    case None => []
    case Some(links) =>
      SortByKeyStable(LinkedSocial(links), SocialOrder);
      SortByKey(LinkedSocial(links), SocialOrder)
  }

  /** Drops the order of each social link, keeping icon and target in place. */
  function StripSocialOrder(links: seq<OrderedSocialLink>): (r: seq<SocialLink>)
    ensures |r| == |links|
    ensures forall i :: 0 <= i < |r| ==> r[i].icon == links[i].icon && r[i].href == links[i].href
  {
    seq(|links|, i requires 0 <= i < |links| => SocialLink(links[i].icon, links[i].href))
  }

  /**
   * `normalizeFooterSocialLinks`: the kept links, sorted by order, without
   * their order; no link has an empty target.
   */
  function SocialLinks(raw: Option<seq<SocialLinkDoc>>): (r: seq<SocialLink>)
    ensures r == StripSocialOrder(SortedSocial(raw))
    ensures forall i :: 0 <= i < |r| ==> r[i].href != ""
  {
    var links := SortedSocial(raw);
    assert forall i :: 0 <= i < |links| ==> links[i].href != "" by {
      forall i | 0 <= i < |links| ensures links[i].href != "" {
        assert links[i] in multiset(links);
        if raw.Some? {
          SocialLinkSurvivors(raw.value, links[i]);
        }
      }
    }
    StripSocialOrder(links)
  }

  /** Which raw entries survive as social links. */
  lemma SocialLinkSurvivors(raw: seq<SocialLinkDoc>, l: OrderedSocialLink)
    ensures l in SortedSocial(Some(raw)) <==>
      exists i :: 0 <= i < |raw| && raw[i].href != Some("")
        && l == OrderedSocialLink(ParseIcon(raw[i].icon), raw[i].href.GetOr("#"), raw[i].order.GetOr(0))
  {
    var r := SortedSocial(Some(raw));
    assert l in r <==> l in multiset(r);
    assert l in LinkedSocial(raw) <==> l in multiset(LinkedSocial(raw));
  }

  // ---- Instagram grid ----

  datatype InstagramItemDoc = InstagramItemDoc(image: Option<Value>, link: Option<string>, order: Option<int>)

  /** An Instagram item before its order is dropped. */
  datatype OrderedInstagramItem = OrderedInstagramItem(image: Option<Media>, link: Option<string>, order: int)

  datatype InstagramItem = InstagramItem(image: Option<Media>, link: Option<string>)

  /** One raw grid item: its image normalised, its link kept, no order read as 0. */
  function ToOrderedInstagramItem(d: InstagramItemDoc): (x: OrderedInstagramItem)
    ensures x.image == NormalizeMedia(d.image) && x.link == d.link
    ensures x.order == (if d.order.None? then 0 else d.order.value)
  {
    OrderedInstagramItem(NormalizeMedia(d.image), d.link, d.order.GetOr(0))
  }

  function InstagramOrder(x: OrderedInstagramItem): int {
    x.order
  }

  /** The grid's capacity. */
  const InstagramGridSize: nat := 4

  /**
   * `normalizeFooterInstagramItems`: every item normalised, stably sorted by
   * order, and the first four kept, without their order.
   */
  function InstagramItems(raw: Option<seq<InstagramItemDoc>>): (r: seq<InstagramItem>)
    ensures raw.None? ==> r == []
    ensures raw.Some? ==> |r| == if |raw.value| < InstagramGridSize then |raw.value| else InstagramGridSize
    ensures raw.Some? ==>
      var sorted := SortByKey(MapAll(raw.value, ToOrderedInstagramItem), InstagramOrder);
      forall i :: 0 <= i < |r| ==> r[i] == InstagramItem(sorted[i].image, sorted[i].link)
  {
    match raw
    case None => []
    case Some(items) =>
      var sorted := SortByKey(MapAll(items, ToOrderedInstagramItem), InstagramOrder);
      var n := if |sorted| < InstagramGridSize then |sorted| else InstagramGridSize;
      seq(n, i requires 0 <= i < n => InstagramItem(sorted[i].image, sorted[i].link))
  }

  /** No item outside the grid sorts before one inside it. */
  lemma InstagramKeepsLowestOrders(raw: seq<InstagramItemDoc>, i: int, j: int)
    requires var sorted := SortByKey(MapAll(raw, ToOrderedInstagramItem), InstagramOrder);
      0 <= i < InstagramGridSize <= j < |sorted|
    ensures var sorted := SortByKey(MapAll(raw, ToOrderedInstagramItem), InstagramOrder);
      sorted[i].order <= sorted[j].order
  {
  }

  // ---- Footer document ----

  datatype FooterDoc = FooterDoc(
    logo: Option<Value>,
    logoLink: Option<string>,
    description: Option<string>,
    socialLinks: Option<seq<SocialLinkDoc>>,
    pagesTitle: Option<string>,
    pagesLinks: Option<seq<NavLinkDoc>>,
    utilityTitle: Option<string>,
    utilityLinks: Option<seq<NavLinkDoc>>,
    instagramTitle: Option<string>,
    instagramItems: Option<seq<InstagramItemDoc>>,
    copyrightText: Option<string>)

  datatype Footer = Footer(
    logo: Option<Media>,
    logoLink: string,
    description: Option<string>,
    socialLinks: seq<SocialLink>,
    pagesTitle: Option<string>,
    pagesLinks: seq<FooterNavLink>,
    utilityTitle: Option<string>,
    utilityLinks: seq<FooterNavLink>,
    instagramTitle: Option<string>,
    instagramItems: seq<InstagramItem>,
    copyrightText: Option<string>)

  /**
   * `normalizeFooter`: the logo link defaults to "/"; unlike the header, empty
   * lists stay empty lists; the grid holds at most four items.
   */
  function NormalizeFooter(doc: Option<FooterDoc>): (r: Option<Footer>)
    ensures doc.None? <==> r.None?
    ensures r.Some? ==> r.value.logoLink == (if doc.value.logoLink.None? then "/" else doc.value.logoLink.value)
    ensures r.Some? ==> |r.value.instagramItems| <= InstagramGridSize
    ensures r.Some? ==> r.value.socialLinks == SocialLinks(doc.value.socialLinks)
    ensures r.Some? ==> r.value.pagesLinks == FooterNavLinks(doc.value.pagesLinks)
    ensures r.Some? ==> r.value.utilityLinks == FooterNavLinks(doc.value.utilityLinks)
    ensures r.Some? ==> r.value.instagramItems == InstagramItems(doc.value.instagramItems)
    ensures r.Some? ==> r.value.logo == NormalizeMedia(doc.value.logo) && r.value.description == doc.value.description
    ensures r.Some? ==>
      && r.value.pagesTitle == doc.value.pagesTitle
      && r.value.utilityTitle == doc.value.utilityTitle
      && r.value.instagramTitle == doc.value.instagramTitle
    ensures r.Some? ==> r.value.copyrightText == doc.value.copyrightText
  {
    match doc
    case None => None
    case Some(d) =>
      Some(Footer(
        NormalizeMedia(d.logo), d.logoLink.GetOr("/"), d.description,
        SocialLinks(d.socialLinks),
        d.pagesTitle, FooterNavLinks(d.pagesLinks),
        d.utilityTitle, FooterNavLinks(d.utilityLinks),
        d.instagramTitle, InstagramItems(d.instagramItems),
        d.copyrightText))
  }
}
