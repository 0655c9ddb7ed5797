/**
 * The per-caller conversation state machine of the `webhook` handler: one
 * inbound message moves one session through one transition and produces
 * the reply bodies for it, or a fault.
 */
module Dialogue {
  import opened Wrappers
  import opened Text
  import opened Catalog
  import opened Faq
  import opened Offers

  /** The eight values of `state["stage"]`. */
  datatype Stage = Welcome | Menu | AskPrice | AskStock | AskFaq | Buying | ConfirmPurchase | Upsell

  /** One caller's session: stage, cart (`carrinho`) and last product mentioned (`produto_atual`). */
  datatype Session = Session(stage: Stage, cart: seq<string>, pending: string)

  /** The reply bodies the handler appends to its response, one value per `msg.body(...)` call. */
  datatype Reply =
    | Greeting                            // welcome text with the menu
    | PriceQuestion                       // which product's price?
    | StockQuestion                       // which product's stock?
    | FaqQuestion                         // what is the question?
    | ProductChoice                       // pick a product to buy
    | AgentHandoff                        // an agent will help soon
    | NotUnderstood                       // did not understand, with the menu
    | PriceInfo(found: Option<Product>)   // price, stock and specification or not found, then "buy?"
    | StockInfo(found: Option<Product>)   // stock count or not found
    | MoreHelp                            // "what else can I help with?" and the menu
    | FaqInfo(answer: Option<string>)     // FAQ answer or the fallback, then the menu
    | Added(product: Product)             // product added to the cart, with its price
    | Suggestion(offer: Offer)            // the upsell offer
    | ChooseAgain                         // product not found, pick another
    | OkMoreHelp                          // "ok! what else?" and the menu
    | UpsellAdded(product: Product, total: nat) // upsell product added, total and payment link
    | UpsellFailed                        // the upsell product could not be added
    | TotalDue(total: nat)                // total and payment link
    | Apology                             // the generic error reply of the exception handler

  /** The result of one message: the new session and its replies, or a raised exception. */
  datatype Outcome = Next(session: Session, replies: seq<Reply>) | Fault

  /** Keyword lists of the menu intents and of the affirmative answer. */
  const PriceKeywords: seq<string> := ["preço", "precos", "price"]
  const StockKeywords: seq<string> := ["estoque", "stock"]
  const FaqKeywords: seq<string> := ["faq", "duvida", "dúvida", "ajuda"]
  const BuyKeywords: seq<string> := ["comprar", "buy"]
  const AgentKeywords: seq<string> := ["falar com atendente", "atendente", "suporte"]
  const YesKeywords: seq<string> := ["sim", "yes"]

  /** The session created for a caller seen for the first time. */
  const NewSession: Session := Session(Welcome, [], "")

  /** The menu stage: intents tried in a fixed order, the first that matches wins. */
  function MenuStep(s: Session, msg: string): Outcome {
    if MentionsAny(msg, PriceKeywords) then Next(s.(stage := AskPrice), [PriceQuestion])
    else if MentionsAny(msg, StockKeywords) then Next(s.(stage := AskStock), [StockQuestion])
    else if MentionsAny(msg, FaqKeywords) then Next(s.(stage := AskFaq), [FaqQuestion])
    else if MentionsAny(msg, BuyKeywords) then Next(s.(stage := Buying), [ProductChoice])
    else if MentionsAny(msg, AgentKeywords) then Next(s.(stage := Welcome), [AgentHandoff])
    else Next(s, [NotUnderstood])
  }

  /** The upsell stage: resolve the offered product on "yes", report the total, empty the cart. */
  function UpsellStep(s: Session, msg: string, catalog: seq<Product>): Outcome {
    var done := s.(stage := Menu, cart := []);
    if MentionsAny(msg, YesKeywords) then
      match UpsellProduct(s.pending)
      case None => Fault
      case Some(name) =>
        (match Lookup(catalog, name, false)
         case Some(u) => Next(done, [UpsellAdded(u, Total(catalog, s.cart + [u.name])), MoreHelp])
         case None => Next(done, [UpsellFailed, MoreHelp]))
    else
      Next(done, [TotalDue(Total(catalog, s.cart)), MoreHelp])
  }

  /**
   * One transition of the handler for the message `msg`, with the catalogue
   * and FAQ rows loaded at start-up. The handler lower-cases and strips the
   * message body before the transition; in this model `Process` does so with
   * `Normalize`.
   */
  function Step(s: Session, msg: string, catalog: seq<Product>, faqs: seq<FaqRow>): Outcome {
    match s.stage
    case Welcome => Next(s.(stage := Menu), [Greeting])
    case Menu => MenuStep(s, msg)
    case AskPrice =>
      Next(s.(pending := msg, stage := ConfirmPurchase), [PriceInfo(LookupProduct(catalog, msg))])
    case AskStock =>
      Next(s.(stage := Menu), [StockInfo(Lookup(catalog, msg, true)), MoreHelp])
    case AskFaq =>
      Next(s.(stage := Menu), [FaqInfo(Answer(faqs, msg))])
    case Buying =>
      (match Lookup(catalog, msg, true)
       case Some(p) =>
         Next(s.(cart := s.cart + [p.name], pending := msg, stage := Upsell),
              [Added(p), Suggestion(SuggestUpsell(msg))])
       case None => Next(s, [ChooseAgain]))
    case ConfirmPurchase =>
      if MentionsAny(msg, YesKeywords) then
        (match Lookup(catalog, s.pending, true)
         case Some(p) =>
           Next(s.(cart := s.cart + [p.name], stage := Upsell), [Added(p), Suggestion(SuggestUpsell(s.pending))])
         case None => Fault)
      else
        Next(s.(stage := Menu), [OkMoreHelp])
    case Upsell => UpsellStep(s, msg, catalog)
  }

  // ---------------------------------------------------------------------------
  // Faults and totality

  /** Exactly the two situations in which the handler raises. */
  predicate Faults(s: Session, msg: string, catalog: seq<Product>) {
    MentionsAny(msg, YesKeywords) &&
    ((s.stage == ConfirmPurchase && Lookup(catalog, s.pending, true).None?) ||
     (s.stage == Upsell && UpsellProduct(s.pending).None?))
  }

  /** A step faults if and only if one of the two fault situations holds. */
  lemma FaultIff(s: Session, msg: string, catalog: seq<Product>, faqs: seq<FaqRow>)
    ensures Step(s, msg, catalog, faqs).Fault? <==> Faults(s, msg, catalog)
  {
  }

  /** Every step that does not fault produces at least one reply. */
  lemma RepliesNonEmpty(s: Session, msg: string, catalog: seq<Product>, faqs: seq<FaqRow>)
    ensures Step(s, msg, catalog, faqs).Next? ==> |Step(s, msg, catalog, faqs).replies| >= 1
  {
  }

  // ---------------------------------------------------------------------------
  // Stage by stage

  /** From the welcome stage any text greets the caller and opens the menu; the cart is kept. */
  lemma WelcomeAnyText(s: Session, msg: string, catalog: seq<Product>, faqs: seq<FaqRow>)
    requires s.stage == Welcome
    ensures Step(s, msg, catalog, faqs) == Next(Session(Menu, s.cart, s.pending), [Greeting])
  {
  }

  /**
   * The menu tries price, stock, FAQ, buy and agent in that order; whatever
   * the text, the cart and the pending product stay as they were.
   */
  lemma MenuTransitions(s: Session, msg: string, catalog: seq<Product>, faqs: seq<FaqRow>)
    requires s.stage == Menu
    ensures var r := Step(s, msg, catalog, faqs);
      r.Next? && r.session.cart == s.cart && r.session.pending == s.pending && |r.replies| == 1
      && (MentionsAny(msg, PriceKeywords) ==> r.session.stage == AskPrice)
      && (!MentionsAny(msg, PriceKeywords) && MentionsAny(msg, StockKeywords) ==> r.session.stage == AskStock)
      && (!MentionsAny(msg, PriceKeywords) && !MentionsAny(msg, StockKeywords) && MentionsAny(msg, FaqKeywords)
          ==> r.session.stage == AskFaq)
      && ((!MentionsAny(msg, PriceKeywords) && !MentionsAny(msg, StockKeywords) && !MentionsAny(msg, FaqKeywords)
           && MentionsAny(msg, BuyKeywords)) ==> r.session.stage == Buying)
  {
  }

  /** The agent intent returns to the welcome stage, and only it does. */
  lemma MenuAgentReturnsToWelcome(s: Session, msg: string, catalog: seq<Product>, faqs: seq<FaqRow>)
    requires s.stage == Menu
    ensures var r := Step(s, msg, catalog, faqs);
      r.Next? && (r.session.stage == Welcome <==>
        !MentionsAny(msg, PriceKeywords) && !MentionsAny(msg, StockKeywords) && !MentionsAny(msg, FaqKeywords)
        && !MentionsAny(msg, BuyKeywords) && MentionsAny(msg, AgentKeywords))
  {
  }

  /** Text that matches no intent keeps the menu, the whole session and says "did not understand". */
  lemma MenuNoMatch(s: Session, msg: string, catalog: seq<Product>, faqs: seq<FaqRow>)
    requires s.stage == Menu
    requires !MentionsAny(msg, PriceKeywords) && !MentionsAny(msg, StockKeywords) && !MentionsAny(msg, FaqKeywords)
    requires !MentionsAny(msg, BuyKeywords) && !MentionsAny(msg, AgentKeywords)
    ensures Step(s, msg, catalog, faqs) == Next(s, [NotUnderstood])
  {
  }

  /** The menu intents as data: each keyword list with the stage it leads to, in priority order. */
  const IntentTable: seq<(seq<string>, Stage)> :=
    [(PriceKeywords, AskPrice), (StockKeywords, AskStock), (FaqKeywords, AskFaq),
     (BuyKeywords, Buying), (AgentKeywords, Welcome)]

  /** Reference reading of the menu: the stage of the first table row the text mentions. */
  function FirstIntent(table: seq<(seq<string>, Stage)>, msg: string): Option<Stage> {
    if table == [] then None
    else if MentionsAny(msg, table[0].0) then Some(table[0].1)
    else FirstIntent(table[1..], msg)
  }

  /** The chain of tests in the menu is exactly a first-match search over the intent table. */
  lemma MenuIsFirstMatch(s: Session, msg: string, catalog: seq<Product>, faqs: seq<FaqRow>)
    requires s.stage == Menu
    ensures Step(s, msg, catalog, faqs).session.stage ==
      (match FirstIntent(IntentTable, msg) case Some(st) => st case None => Menu)
  {
    var t := IntentTable;
    assert FirstIntent(t, msg) == if MentionsAny(msg, PriceKeywords) then Some(AskPrice) else FirstIntent(t[1..], msg);
    assert FirstIntent(t[1..], msg) == if MentionsAny(msg, StockKeywords) then Some(AskStock) else FirstIntent(t[1..][1..], msg);
    assert FirstIntent(t[1..][1..], msg) == if MentionsAny(msg, FaqKeywords) then Some(AskFaq) else FirstIntent(t[1..][1..][1..], msg);
    assert FirstIntent(t[1..][1..][1..], msg) == if MentionsAny(msg, BuyKeywords) then Some(Buying) else FirstIntent(t[1..][1..][1..][1..], msg);
    assert FirstIntent(t[1..][1..][1..][1..], msg) == if MentionsAny(msg, AgentKeywords) then Some(Welcome) else FirstIntent(t[1..][1..][1..][1..][1..], msg);
    assert t[1..] == [(StockKeywords, AskStock), (FaqKeywords, AskFaq), (BuyKeywords, Buying), (AgentKeywords, Welcome)];
    assert t[1..][1..] == [(FaqKeywords, AskFaq), (BuyKeywords, Buying), (AgentKeywords, Welcome)];
    assert t[1..][1..][1..] == [(BuyKeywords, Buying), (AgentKeywords, Welcome)];
    assert t[1..][1..][1..][1..] == [(AgentKeywords, Welcome)];
    assert t[1..][1..][1..][1..][1..] == [];
  }

  /** The price stage always records the text as the pending product, found or not. */
  lemma AskPriceRecordsPending(s: Session, msg: string, catalog: seq<Product>, faqs: seq<FaqRow>)
    requires s.stage == AskPrice
    ensures var r := Step(s, msg, catalog, faqs);
      r.Next? && r.session == Session(ConfirmPurchase, s.cart, msg)
      && r.replies == [PriceInfo(LookupProduct(catalog, msg))]
  {
  }

  /** The stock and FAQ stages always return to the menu, whatever the text. */
  lemma StockAndFaqReturnToMenu(s: Session, msg: string, catalog: seq<Product>, faqs: seq<FaqRow>)
    requires s.stage == AskStock || s.stage == AskFaq
    ensures var r := Step(s, msg, catalog, faqs);
      r.Next? && r.session == s.(stage := Menu)
  {
  }

  /** A miss in the stock stage is an ordinary not-found reply. */
  lemma StockMissIsReply(s: Session, msg: string, catalog: seq<Product>, faqs: seq<FaqRow>)
    requires s.stage == AskStock
    requires forall j :: 0 <= j < |catalog| ==> Lower(catalog[j].name) != msg
    ensures Step(s, msg, catalog, faqs) == Next(s.(stage := Menu), [StockInfo(None), MoreHelp])
  {
  }

  /**
   * Buying: a hit appends the catalogue's own spelling of the name and
   * records the text; a miss changes nothing and asks again.
   */
  lemma BuyingOutcome(s: Session, msg: string, catalog: seq<Product>, faqs: seq<FaqRow>)
    requires s.stage == Buying
    ensures var r := Step(s, msg, catalog, faqs);
      r.Next? && (match Lookup(catalog, msg, true)
        case Some(p) =>
          Lower(p.name) == msg && r.session == Session(Upsell, s.cart + [p.name], msg)
          && r.replies == [Added(p), Suggestion(SuggestUpsell(msg))]
        case None => r.session == s && r.replies == [ChooseAgain])
  {
  }

  /** Confirming: "yes" adds the pending product (or faults), anything else goes back to the menu. */
  lemma ConfirmOutcome(s: Session, msg: string, catalog: seq<Product>, faqs: seq<FaqRow>)
    requires s.stage == ConfirmPurchase
    ensures var r := Step(s, msg, catalog, faqs);
      (!MentionsAny(msg, YesKeywords) ==> r == Next(s.(stage := Menu), [OkMoreHelp]))
      && (MentionsAny(msg, YesKeywords) && Lookup(catalog, s.pending, true).Some? ==>
            var p := Lookup(catalog, s.pending, true).value;
            r == Next(Session(Upsell, s.cart + [p.name], s.pending), [Added(p), Suggestion(SuggestUpsell(s.pending))]))
  {
  }

  /**
   * The upsell stage ends in the menu with an empty cart and the pending
   * product kept, and its last reply is the menu prompt.
   */
  lemma UpsellAlwaysClears(s: Session, msg: string, catalog: seq<Product>, faqs: seq<FaqRow>)
    requires s.stage == Upsell
    requires Step(s, msg, catalog, faqs).Next?
    ensures var r := Step(s, msg, catalog, faqs);
      r.session == Session(Menu, [], s.pending) && |r.replies| == 2 && r.replies[1] == MoreHelp
  {
  }

  /** Declining the upsell reports the total of the cart as it was before it is emptied. */
  lemma UpsellDeclineTotal(s: Session, msg: string, catalog: seq<Product>, faqs: seq<FaqRow>)
    requires s.stage == Upsell && !MentionsAny(msg, YesKeywords)
    ensures Step(s, msg, catalog, faqs) == Next(Session(Menu, [], s.pending), [TotalDue(Total(catalog, s.cart)), MoreHelp])
  {
  }

  /**
   * Accepting the upsell: the total is taken after the upsell product is
   * appended; if that product is not in the catalogue the error reply is sent.
   */
  lemma UpsellAcceptOutcome(s: Session, msg: string, catalog: seq<Product>, faqs: seq<FaqRow>)
    requires s.stage == Upsell && MentionsAny(msg, YesKeywords) && UpsellProduct(s.pending).Some?
    ensures var name := UpsellProduct(s.pending).value;
      Step(s, msg, catalog, faqs) == Next(Session(Menu, [], s.pending),
        match Lookup(catalog, name, false)
        case Some(u) => [UpsellAdded(u, Total(catalog, s.cart + [name])), MoreHelp]
        case None => [UpsellFailed, MoreHelp])
    ensures var name := UpsellProduct(s.pending).value;
      Lookup(catalog, name, false).Some? ==> Lookup(catalog, name, false).value.name == name
  {
  }

  // ---------------------------------------------------------------------------
  // The reachable-session invariant

  /**
   * Every session the handler can produce: outside the upsell stage the cart
   * is empty; in it, the cart holds exactly the product named by the pending
   * text.
   */
  predicate Reachable(s: Session, catalog: seq<Product>) {
    if s.stage == Upsell then
      Lookup(catalog, s.pending, true).Some? && s.cart == [Lookup(catalog, s.pending, true).value.name]
    else s.cart == []
  }

  /** A new session is reachable. */
  lemma NewSessionReachable(catalog: seq<Product>)
    ensures Reachable(NewSession, catalog)
  {
  }

  /** Every step keeps a session reachable. */
  lemma StepPreservesReachable(s: Session, msg: string, catalog: seq<Product>, faqs: seq<FaqRow>)
    requires Reachable(s, catalog)
    ensures Step(s, msg, catalog, faqs).Next? ==> Reachable(Step(s, msg, catalog, faqs).session, catalog)
  {
    match s.stage
    case Buying =>
      if Lookup(catalog, msg, true).Some? {
        var p := Lookup(catalog, msg, true).value;
        assert s.cart + [p.name] == [p.name];
      }
    case ConfirmPurchase =>
      if MentionsAny(msg, YesKeywords) && Lookup(catalog, s.pending, true).Some? {
        var p := Lookup(catalog, s.pending, true).value;
        assert s.cart + [p.name] == [p.name];
      }
    case _ =>
  }

  /**
   * In a reachable session with distinct catalogue names, declining the upsell
   * bills exactly the one product bought.
   */
  lemma ReachableDeclineBillsProduct(s: Session, msg: string, catalog: seq<Product>, faqs: seq<FaqRow>, p: Product)
    requires DistinctNames(catalog) && Reachable(s, catalog)
    requires s.stage == Upsell && !MentionsAny(msg, YesKeywords) && Lookup(catalog, s.pending, true) == Some(p)
    ensures Step(s, msg, catalog, faqs) == Next(Session(Menu, [], s.pending), [TotalDue(p.price), MoreHelp])
  {
    var i :| 0 <= i < |catalog| && catalog[i] == p;
    TotalSingle(catalog, i);
  }

  /**
   * In a reachable session with distinct catalogue names, accepting the upsell
   * bills the product plus the upsell product, or the product alone when the
   * upsell product is the product itself (a repeated entry is billed once).
   */
  lemma ReachableAcceptBills(s: Session, msg: string, catalog: seq<Product>, faqs: seq<FaqRow>, p: Product, u: Product)
    requires DistinctNames(catalog) && Reachable(s, catalog)
    requires s.stage == Upsell && MentionsAny(msg, YesKeywords) && Lookup(catalog, s.pending, true) == Some(p)
    requires UpsellProduct(s.pending).Some? && Lookup(catalog, UpsellProduct(s.pending).value, false) == Some(u)
    ensures Step(s, msg, catalog, faqs) == Next(Session(Menu, [], s.pending),
      [UpsellAdded(u, Total(catalog, s.cart + [u.name])), MoreHelp])
    ensures Total(catalog, s.cart + [u.name]) == if u.name == p.name then p.price else p.price + u.price
  {
    UpsellAcceptOutcome(s, msg, catalog, faqs);
    ReachableUpsellTotal(s, catalog, u);
  }

  /** The cart of a reachable upsell session plus one catalogue product, totalled. */
  lemma ReachableUpsellTotal(s: Session, catalog: seq<Product>, u: Product)
    requires DistinctNames(catalog) && Reachable(s, catalog) && s.stage == Upsell && u in catalog
    ensures var p := Lookup(catalog, s.pending, true).value;
      Total(catalog, s.cart + [u.name]) == if u.name == p.name then p.price else p.price + u.price
  {
    TotalAddSecond(catalog, Lookup(catalog, s.pending, true).value, u);
  }

  // ---------------------------------------------------------------------------
  // Across two messages

  /**
   * Accepting the offer made right after a purchase: the generic offer
   * ("anything else? [Sim]") faults on "yes"; a specific offer adds exactly
   * the product offered when the catalogue carries it, and reports the error
   * otherwise. Either way the cart is emptied and the menu reopened.
   */
  lemma AcceptingTheOffer(s: Session, msg: string, yes: string, catalog: seq<Product>, faqs: seq<FaqRow>)
    requires s.stage == Buying && Lookup(catalog, msg, true).Some? && MentionsAny(yes, YesKeywords)
    ensures var first := Step(s, msg, catalog, faqs);
      first.Next? && |first.replies| == 2 && first.replies[1] == Suggestion(SuggestUpsell(msg))
    ensures var second := Step(Step(s, msg, catalog, faqs).session, yes, catalog, faqs);
      match OfferedProduct(SuggestUpsell(msg))
      case None => second == Fault
      case Some(name) =>
        second.Next? && second.session == Session(Menu, [], msg) && |second.replies| == 2
        && (second.replies[0].UpsellAdded? <==> IsCatalogName(catalog, name))
        && (second.replies[0].UpsellAdded? ==> second.replies[0].product.name == name)
  {
    OfferAgreesWithResolution(msg);
    BuyingOutcome(s, msg, catalog, faqs);
    var p := Lookup(catalog, msg, true).value;
    var next := Session(Upsell, s.cart + [p.name], msg);
    assert Step(s, msg, catalog, faqs) == Next(next, [Added(p), Suggestion(SuggestUpsell(msg))]);
    if SuggestUpsell(msg) != GenericOffer {
      var name := UpsellProduct(msg).value;
      UpsellAcceptOutcome(next, yes, catalog, faqs);
      if IsCatalogName(catalog, name) {
        var i :| 0 <= i < |catalog| && catalog[i].name == name;
        assert NameMatches(catalog[i], name, false);
      }
    }
  }

  /**
   * A price search followed by "yes": on lower-case text the confirmation
   * faults exactly when the price search answered "not found".
   */
  lemma PriceSearchThenYes(s: Session, msg: string, yes: string, catalog: seq<Product>, faqs: seq<FaqRow>)
    requires s.stage == AskPrice && Lower(msg) == msg && MentionsAny(yes, YesKeywords)
    ensures var first := Step(s, msg, catalog, faqs);
      first.Next? && first.replies == [PriceInfo(LookupProduct(catalog, msg))]
      && (Step(first.session, yes, catalog, faqs).Fault? <==> LookupProduct(catalog, msg).None?)
  {
    InlineLookupAgrees(catalog, msg);
    AskPriceRecordsPending(s, msg, catalog, faqs);
    FaultIff(Step(s, msg, catalog, faqs).session, yes, catalog, faqs);
  }
}
