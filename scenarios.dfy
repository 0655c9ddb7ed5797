/**
 * Concrete conversations over a sample catalogue with the products the
 * bot's prompts name. Prices are in cents; the case and the watch carry the
 * prices the upsell offers quote (R$99 and R$799), the phone's is a sample value.
 */
module Scenarios {
  import opened Wrappers
  import opened Text
  import opened Catalog
  import opened Faq
  import opened Offers
  import opened Dialogue

  const Phone := Product("iPhone 15", 699900, 10, "128 GB")
  const Watch := Product("Xiaomi Watch 2", 79900, 7, "AMOLED")
  const Case := Product("Capa iPhone 15", 9900, 30, "Silicone")

  const Sample: seq<Product> := [Phone, Watch, Case]

  const NoFaqs: seq<FaqRow> := []

  /** Lower-casing a literal, character by character. */
  lemma LowerFrom(s: string, t: string)
    requires |s| == |t| && forall i :: 0 <= i < |s| ==> LowerChar(s[i]) == t[i]
    ensures Lower(s) == t
  {
  }

  /** No two sample rows share a name. */
  lemma SampleDistinct()
    ensures DistinctNames(Sample)
  {
    assert "Xiaomi Watch 2"[0] != "Capa iPhone 15"[0];
  }

  /** "preço" is a price keyword. */
  lemma PrecoIsPrice()
    ensures MentionsAny("preço", PriceKeywords)
  {
    ContainsWitness("preço", "preço", 0);
    assert Contains("preço", PriceKeywords[0]);
  }

  /** "preço" from the menu asks for a product. */
  lemma MenuPrice()
    ensures Step(Session(Menu, [], ""), "preço", Sample, NoFaqs) == Next(Session(AskPrice, [], ""), [PriceQuestion])
  {
    PrecoIsPrice();
  }

  /** "iphone 15" in the price stage answers with the phone and asks whether to buy it. */
  lemma PriceOfPhone()
    ensures Step(Session(AskPrice, [], ""), "iphone 15", Sample, NoFaqs)
         == Next(Session(ConfirmPurchase, [], "iphone 15"), [PriceInfo(Some(Phone))])
  {
    PhoneTextFacts();
    AskPriceRecordsPending(Session(AskPrice, [], ""), "iphone 15", Sample, NoFaqs);
  }

  /** "sim" is an affirmative answer. */
  lemma SimIsYes()
    ensures MentionsAny("sim", YesKeywords)
  {
    ContainsWitness("sim", "sim", 0);
    assert Contains("sim", YesKeywords[0]);
  }

  /** "iphone 15" is already lower case and names the phone. */
  lemma PhoneTextFacts()
    ensures Lower("iphone 15") == "iphone 15"
    ensures UpsellProduct("iphone 15") == Some(CaseProduct)
    ensures Lookup(Sample, "iphone 15", true) == Some(Phone)
    ensures SuggestUpsell("iphone 15") == CaseOffer
  {
    PendingLower();
    PhoneLookup();
    PhoneOffer();
  }

  /** The caller's text is already lower case. */
  lemma PendingLower()
    ensures Lower("iphone 15") == "iphone 15"
  {
    LowerFrom("iphone 15", "iphone 15");
  }

  /** The lower-cased filter on "iphone 15" finds the phone, the first row. */
  lemma PhoneLookup()
    ensures Lookup(Sample, "iphone 15", true) == Some(Phone)
  {
    PhoneNameLower();
    assert NameMatches(Sample[0], "iphone 15", true);
  }

  /** "iphone 15" carries the phone marker: the case is offered and resolved. */
  lemma PhoneOffer()
    ensures UpsellProduct("iphone 15") == Some(CaseProduct)
    ensures SuggestUpsell("iphone 15") == CaseOffer
  {
    PendingLower();
    ContainsWitness("iphone 15", "iphone", 0);
  }

  /** The phone's catalogue name lower-cases to the caller's text. */
  lemma PhoneNameLower()
    ensures Lower("iPhone 15") == "iphone 15"
  {
    assert LowerChar('P') == 'p';
    LowerFrom("iPhone 15", "iphone 15");
  }

  /** The exact lookup of the case's name finds the case, the last row. */
  lemma CaseLookup()
    ensures Lookup(Sample, CaseProduct, false) == Some(Case)
  {
    assert "Xiaomi Watch 2"[0] != "Capa iPhone 15"[0];
    forall j | 0 <= j < 2 ensures !NameMatches(Sample[j], CaseProduct, false) {
      assert Sample[j].name != CaseProduct;
    }
    assert NameMatches(Sample[2], CaseProduct, false);
  }

  /** "sim" to the case offer adds the case, bills phone plus case once each, empties the cart. */
  lemma AcceptCase()
    ensures Step(Session(Upsell, ["iPhone 15"], "iphone 15"), "sim", Sample, NoFaqs)
         == Next(Session(Menu, [], "iphone 15"), [UpsellAdded(Case, 709800), MoreHelp])
  {
    var s := Session(Upsell, ["iPhone 15"], "iphone 15");
    SimIsYes();
    PhoneTextFacts();
    CaseLookup();
    SampleDistinct();
    ReachableAcceptBills(s, "sim", Sample, NoFaqs, Phone, Case);
  }

  /** Text naming both a purchase and a price goes to the price question: price is tested first. */
  lemma PriceBeatsBuy()
    ensures Step(Session(Menu, [], ""), "comprar preço", Sample, NoFaqs).session.stage == AskPrice
  {
    ContainsWitness("comprar preço", "preço", 8);
    assert Contains("comprar preço", PriceKeywords[0]);
  }

  /** No sample name lower-cases to "pixel 8": the lengths differ. */
  lemma PixelNotSold()
    ensures forall j :: 0 <= j < |Sample| ==> Lower(Sample[j].name) != "pixel 8"
  {
    forall j | 0 <= j < |Sample| ensures Lower(Sample[j].name) != "pixel 8" {
      assert |Lower(Sample[j].name)| == |Sample[j].name| != |"pixel 8"|;
    }
  }

  /** An unknown product in the stock stage is a not-found reply and back to the menu. */
  lemma StockUnknownProduct()
    ensures Step(Session(AskStock, [], ""), "pixel 8", Sample, NoFaqs)
         == Next(Session(Menu, [], ""), [StockInfo(None), MoreHelp])
  {
    PixelNotSold();
    StockMissIsReply(Session(AskStock, [], ""), "pixel 8", Sample, NoFaqs);
  }

  /** The mixed-case text lower-cases to plain lower case. */
  lemma MixedTextLower()
    ensures Lower("Alexa e iPhone") == "alexa e iphone"
  {
    LowerFrom("Alexa e iPhone", "alexa e iphone");
  }

  /** The phone marker occurs in the lower-cased text, after the speaker marker. */
  lemma MixedTextHasPhone()
    ensures Contains("alexa e iphone", PhoneMarker)
  {
    assert OccursAt("alexa e iphone", PhoneMarker, 8) by {
      assert "alexa e iphone"[8..14] == "iphone";
    }
    ContainsWitness("alexa e iphone", PhoneMarker, 8);
  }

  /** Both markers present: the phone marker decides the offer. */
  lemma PhoneMarkerWins()
    ensures SuggestUpsell("Alexa e iPhone") == CaseOffer
  {
    MixedTextLower();
    MixedTextHasPhone();
  }
}
