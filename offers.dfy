/**
 * The upsell rule: `sugerir_upsell`, which picks the offer made after a
 * purchase, and the resolution the upsell stage performs when the caller
 * accepts it.
 */
module Offers {
  import opened Wrappers
  import opened Text

  /** The three replies `sugerir_upsell` can give. */
  datatype Offer = CaseOffer | WatchOffer | GenericOffer

  const PhoneMarker: string := "iphone"
  const SpeakerMarker: string := "alexa"
  /** Catalogue names of the two upsell products, compared exactly (case matters). */
  const CaseProduct: string := "Capa iPhone 15"
  const WatchProduct: string := "Xiaomi Watch 2"

  /**
   * `sugerir_upsell`: the phone marker wins over the speaker marker; with
   * neither, the generic "anything else?" reply.
   */
  function SuggestUpsell(product: string): (r: Offer)
    ensures r == CaseOffer <==> Contains(Lower(product), PhoneMarker)
    ensures r == WatchOffer <==> !Contains(Lower(product), PhoneMarker) && Contains(Lower(product), SpeakerMarker)
    ensures r == GenericOffer <==> !Contains(Lower(product), PhoneMarker) && !Contains(Lower(product), SpeakerMarker)
  {
    var p := Lower(product);
    if Contains(p, PhoneMarker) then CaseOffer
    else if Contains(p, SpeakerMarker) then WatchOffer
    else GenericOffer
  }

  /**
   * The name the upsell stage looks up when the caller says yes; `None` when
   * neither marker occurs, where the source leaves `produto_upsell` unbound.
   */
  function UpsellProduct(pending: string): (r: Option<string>)
    ensures r.Some? ==> r.value == CaseProduct || r.value == WatchProduct
  {
    var p := Lower(pending);
    if Contains(p, PhoneMarker) then Some(CaseProduct)
    else if Contains(p, SpeakerMarker) then Some(WatchProduct)
    else None
  }

  /**
   * Which marker picks which product: the phone marker the case, the speaker
   * marker (without the phone marker) the watch, neither marker nothing.
   */
  lemma UpsellProductChoice(pending: string)
    ensures UpsellProduct(pending) == Some(CaseProduct) <==> Contains(Lower(pending), PhoneMarker)
    ensures UpsellProduct(pending) == Some(WatchProduct)
        <==> !Contains(Lower(pending), PhoneMarker) && Contains(Lower(pending), SpeakerMarker)
    ensures UpsellProduct(pending).None?
        <==> !Contains(Lower(pending), PhoneMarker) && !Contains(Lower(pending), SpeakerMarker)
  {
    assert CaseProduct[0] != WatchProduct[0];
  }

  /** The product each offer names: the case, the watch, or none for the generic reply. */
  function OfferedProduct(offer: Offer): Option<string> {
    match offer
    case CaseOffer => Some(CaseProduct)
    case WatchOffer => Some(WatchProduct)
    case GenericOffer => None
  }

  /** The product resolved on "yes" is always the one the offer named. */
  lemma OfferAgreesWithResolution(pending: string)
    ensures UpsellProduct(pending) == OfferedProduct(SuggestUpsell(pending))
  {
  }
}
