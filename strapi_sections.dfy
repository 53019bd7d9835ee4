/**
 * The section single types whose ordered components live inside the
 * document (lib/strapi.ts): signature dishes, the about-page video section
 * with its features, the guest statistics and the delivery section. The
 * content API cannot sort nested components, so each list is normalised and
 * then sorted locally, stably and ascending by `Order` (missing counts as 0).
 */
module StrapiSections {
  import opened Wrappers
  import opened Json
  import opened StrapiMedia
  import opened OrderSort

  /** `raw.map(f)` */
  function MapAll<D, C>(raw: seq<D>, f: D -> C): (r: seq<C>)
    ensures |r| == |raw|
    ensures forall i :: 0 <= i < |raw| ==> r[i] == f(raw[i])
  {
    seq(|raw|, i requires 0 <= i < |raw| => f(raw[i]))
  }

  /**
   * The component-list pattern shared by the four sections:
   * `Array.isArray(raw) ? raw.map(f).sort(byOrder) : []`, then `undefined`
   * instead of an empty list. Every component is kept.
   */
  function OrderedComponents<D, C>(raw: Option<seq<D>>, f: D -> C, key: C -> int): (r: Option<seq<C>>)
    ensures r.None? <==> raw.None? || raw.value == []
    ensures r.Some? ==> |r.value| == |raw.value|
    ensures r.Some? ==> Sorted(r.value, key)
    ensures r.Some? ==> multiset(r.value) == multiset(MapAll(raw.value, f))
    ensures r.Some? ==> SameGroups(r.value, MapAll(raw.value, f), key)
  {
    match raw
    case None => None
    case Some(items) =>
      var mapped := MapAll(items, f);
      SortByKeyStable(mapped, key);
      var sorted := SortByKey(mapped, key);
      if |sorted| > 0 then Some(sorted) else None
  }

  // ---- Signature dishes ----

  datatype SignatureDishDoc = SignatureDishDoc(
    image: Option<Value>, subtitle: Option<string>, name: Option<string>,
    description: Option<string>, order: Option<int>)

  datatype SignatureDish = SignatureDish(
    image: Option<Media>, subtitle: Option<string>, name: Option<string>,
    description: Option<string>, order: int)

  datatype SignatureDishesDoc = SignatureDishesDoc(
    title: Option<string>, subtitle: Option<string>, dishes: Option<seq<SignatureDishDoc>>)

  datatype SignatureDishes = SignatureDishes(
    title: Option<string>, subtitle: Option<string>, dishes: Option<seq<SignatureDish>>)

  /** `normalizeSignatureDish`: a missing order is 0. */
  function ToSignatureDish(d: SignatureDishDoc): (x: SignatureDish)
    ensures x.image == NormalizeMedia(d.image)
    ensures x.subtitle == d.subtitle && x.name == d.name && x.description == d.description
    ensures x.order == (if d.order.None? then 0 else d.order.value)
  {
    SignatureDish(NormalizeMedia(d.image), d.subtitle, d.name, d.description, d.order.GetOr(0))
  }

  function DishOrder(d: SignatureDish): int {
    d.order
  }

  /** `normalizeSignatureDishes` */
  function NormalizeSignatureDishes(doc: Option<SignatureDishesDoc>): (r: Option<SignatureDishes>)
    ensures doc.None? <==> r.None?
    ensures r.Some? ==> r.value.title == doc.value.title && r.value.subtitle == doc.value.subtitle
    ensures r.Some? ==> r.value.dishes == OrderedComponents(doc.value.dishes, ToSignatureDish, DishOrder)
  {
    match doc
    case None => None
    case Some(d) =>
      Some(SignatureDishes(d.title, d.subtitle, OrderedComponents(d.dishes, ToSignatureDish, DishOrder)))
  }

  // ---- About video section ----

  datatype AboutVideoFeatureDoc = AboutVideoFeatureDoc(
    icon: Option<Value>, title: Option<string>, description: Option<string>, order: Option<int>)

  datatype AboutVideoFeature = AboutVideoFeature(
    icon: Option<Media>, title: Option<string>, description: Option<string>, order: int)

  datatype AboutVideoSectionDoc = AboutVideoSectionDoc(
    backgroundImage: Option<Value>, headline: Option<string>, videoUrl: Option<string>,
    features: Option<seq<AboutVideoFeatureDoc>>)

  datatype AboutVideoSection = AboutVideoSection(
    backgroundImage: Option<Media>, headline: Option<string>, videoUrl: Option<string>,
    features: Option<seq<AboutVideoFeature>>)

  /** `normalizeAboutVideoFeature`: a missing order is 0. */
  function ToAboutVideoFeature(d: AboutVideoFeatureDoc): (x: AboutVideoFeature)
    ensures x.icon == NormalizeMedia(d.icon)
    ensures x.title == d.title && x.description == d.description
    ensures x.order == (if d.order.None? then 0 else d.order.value)
  {
    AboutVideoFeature(NormalizeMedia(d.icon), d.title, d.description, d.order.GetOr(0))
  }

  function VideoFeatureOrder(f: AboutVideoFeature): int {
    f.order
  }

  /** `normalizeAboutVideoSection` */
  function NormalizeAboutVideoSection(doc: Option<AboutVideoSectionDoc>): (r: Option<AboutVideoSection>)
    ensures doc.None? <==> r.None?
    ensures r.Some? ==> r.value.headline == doc.value.headline && r.value.videoUrl == doc.value.videoUrl
    ensures r.Some? ==> r.value.backgroundImage == NormalizeMedia(doc.value.backgroundImage)
    ensures r.Some? ==>
      r.value.features == OrderedComponents(doc.value.features, ToAboutVideoFeature, VideoFeatureOrder)
  {
    match doc
    case None => None
    case Some(d) =>
      Some(AboutVideoSection(
        NormalizeMedia(d.backgroundImage), d.headline, d.videoUrl,
        OrderedComponents(d.features, ToAboutVideoFeature, VideoFeatureOrder)))
  }

  // ---- About guest section ----

  /** A raw `{Value?, Label?, Order?}` statistic; `caption` is the `Label` field. */
  datatype AboutGuestStatDoc = AboutGuestStatDoc(value: Option<string>, caption: Option<string>, order: Option<int>)

  datatype AboutGuestStat = AboutGuestStat(value: string, caption: string, order: int)

  datatype AboutGuestSectionDoc = AboutGuestSectionDoc(
    title: Option<string>, subtitle: Option<string>, stats: Option<seq<AboutGuestStatDoc>>, image: Option<Value>)

  datatype AboutGuestSection = AboutGuestSection(
    title: Option<string>, subtitle: Option<string>, stats: Option<seq<AboutGuestStat>>, image: Option<Media>)

  /** `normalizeAboutGuestStat`: missing value and label are "", a missing order is 0. */
  function ToAboutGuestStat(d: AboutGuestStatDoc): (x: AboutGuestStat)
    ensures x.value == (if d.value.None? then "" else d.value.value)
    ensures x.caption == (if d.caption.None? then "" else d.caption.value)
    ensures x.order == (if d.order.None? then 0 else d.order.value)
  {
    AboutGuestStat(d.value.GetOr(""), d.caption.GetOr(""), d.order.GetOr(0))
  }

  function StatOrder(s: AboutGuestStat): int {
    s.order
  }

  /** `normalizeAboutGuestSection` */
  function NormalizeAboutGuestSection(doc: Option<AboutGuestSectionDoc>): (r: Option<AboutGuestSection>)
    ensures doc.None? <==> r.None?
    ensures r.Some? ==> r.value.title == doc.value.title && r.value.subtitle == doc.value.subtitle
    ensures r.Some? ==> r.value.image == NormalizeMedia(doc.value.image)
    ensures r.Some? ==> r.value.stats == OrderedComponents(doc.value.stats, ToAboutGuestStat, StatOrder)
  {
    match doc
    case None => None
    case Some(d) =>
      Some(AboutGuestSection(
        d.title, d.subtitle, OrderedComponents(d.stats, ToAboutGuestStat, StatOrder), NormalizeMedia(d.image)))
  }

  // ---- Delivery section ----

  datatype DeliveryFeatureDoc = DeliveryFeatureDoc(icon: Option<Value>, text: Option<string>, order: Option<int>)

  datatype DeliveryFeature = DeliveryFeature(icon: Option<Media>, text: Option<string>, order: int)

  datatype DeliverySectionDoc = DeliverySectionDoc(
    title: Option<string>, description: Option<string>,
    imageLeft: Option<Value>, imageMiddleTop: Option<Value>, imageMiddleBottom: Option<Value>,
    features: Option<seq<DeliveryFeatureDoc>>)

  datatype DeliverySection = DeliverySection(
    title: Option<string>, description: Option<string>,
    imageLeft: Option<Media>, imageMiddleTop: Option<Media>, imageMiddleBottom: Option<Media>,
    features: Option<seq<DeliveryFeature>>)

  /** `normalizeDeliveryFeature`: a missing order is 0. */
  function ToDeliveryFeature(d: DeliveryFeatureDoc): (x: DeliveryFeature)
    ensures x.icon == NormalizeMedia(d.icon) && x.text == d.text
    ensures x.order == (if d.order.None? then 0 else d.order.value)
  {
    DeliveryFeature(NormalizeMedia(d.icon), d.text, d.order.GetOr(0))
  }

  function DeliveryOrder(f: DeliveryFeature): int {
    f.order
  }

  /** `normalizeDeliverySection` */
  function NormalizeDeliverySection(doc: Option<DeliverySectionDoc>): (r: Option<DeliverySection>)
    ensures doc.None? <==> r.None?
    ensures r.Some? ==> r.value.title == doc.value.title && r.value.description == doc.value.description
    ensures r.Some? ==>
      && r.value.imageLeft == NormalizeMedia(doc.value.imageLeft)
      && r.value.imageMiddleTop == NormalizeMedia(doc.value.imageMiddleTop)
      && r.value.imageMiddleBottom == NormalizeMedia(doc.value.imageMiddleBottom)
    ensures r.Some? ==> r.value.features == OrderedComponents(doc.value.features, ToDeliveryFeature, DeliveryOrder)
  {
    match doc
    case None => None
    case Some(d) =>
      Some(DeliverySection(
        d.title, d.description,
        NormalizeMedia(d.imageLeft), NormalizeMedia(d.imageMiddleTop), NormalizeMedia(d.imageMiddleBottom),
        OrderedComponents(d.features, ToDeliveryFeature, DeliveryOrder)))
  }

  /**
   * Orders `[3, 1, 2]` come out as `[1, 2, 3]`; the statistics are the
   * example, every section list behaving alike.
   */
  lemma StatsExample(a: string, b: string, c: string)
    ensures var raw := [AboutGuestStatDoc(Some(a), None, Some(3)), AboutGuestStatDoc(Some(b), None, Some(1)),
                        AboutGuestStatDoc(Some(c), None, Some(2))];
      OrderedComponents(Some(raw), ToAboutGuestStat, StatOrder)
      == Some([AboutGuestStat(b, "", 1), AboutGuestStat(c, "", 2), AboutGuestStat(a, "", 3)])
  {
    var raw := [AboutGuestStatDoc(Some(a), None, Some(3)), AboutGuestStatDoc(Some(b), None, Some(1)),
                AboutGuestStatDoc(Some(c), None, Some(2))];
    var mapped := MapAll(raw, ToAboutGuestStat);
    assert mapped == [AboutGuestStat(a, "", 3), AboutGuestStat(b, "", 1), AboutGuestStat(c, "", 2)];
    SortThree(mapped[0], mapped[1], mapped[2], StatOrder);
  }
}
