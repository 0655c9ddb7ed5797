# SavaStore WhatsApp chat bot — a Dafny model of its conversation core

`ChatBot1.py` is a Flask webhook that answers WhatsApp messages for a small
electronics shop. Every inbound message belongs to one caller. The handler
keeps one session per caller in the process-wide `user_state` dictionary:
a stage, a cart (`carrinho`) and the last product mentioned (`produto_atual`).
The message is lower-cased and stripped, and the session moves through
exactly one transition of an eight-stage state machine:

- `welcome`, `menu`, `buscar_preço`, `buscar_estoque`, `buscar_faq`,
  `comprar`, `decidir_compra`, `upsell`.

Each transition appends one or more reply bodies to the response. Two paths
raise a Python exception. The handler catches it and sends only a generic
apology.

This project models that core:

- `text.dfy`:
  - `Wrappers`: the `Option` type.
  - `Text`:
    - Python's substring `in` (`Contains`, with an index characterisation);
    - ASCII `str.lower()` and `str.strip()`;
    - the inbound normalisation `Normalize`.
- `catalog.dfy`, `Catalog`:
  - catalogue rows with integer-cent prices;
  - the three ways the source looks a name up: `buscar_produto`, the inline
    lower-cased filters, and the exact upsell filters;
  - the cart total `sum(catalogo[catalogo["Produto"].isin(cart)]["Preço"])`,
    which counts a repeated name once. A per-occurrence reference total
    stands beside it.
- `faq.dfy`, `Faq`: `buscar_faq`, a first-match search over the FAQ rows.
- `offers.dfy`, `Offers`:
  - `sugerir_upsell`;
  - the product the upsell stage resolves on "yes".
- `dialogue.dfy`, `Dialogue`:
  - the session record and the reply values;
  - the pure transition `Step`, which yields `Next(session, replies)`, or
    `Fault` on the two exception paths;
  - lemmas stage by stage;
  - the invariant `Reachable`, which every step preserves;
  - two-message properties.
- `store.dfy`, `Store`: the `SessionStore` class. It holds `user_state` as a
  map field. `Process` creates the session on first contact, normalises the
  text, applies `Step` and commits the result. A fault leaves the session as
  it was. No other caller's entry changes.
- `scenarios.dfy`, `Scenarios`: concrete conversations over a three-row
  sample catalogue.

Two behaviours of the code are worth stating up front:

- The cart total counts every catalogue row whose name is in the cart once
  (`isin`). A name that appears twice in the cart is billed once.
  `Catalog.RepeatChargedOnce` shows the difference from the per-occurrence
  reference `Catalog.OccurrenceTotal`.
- The handler is not total. The confirmation and upsell paths raise, and
  both are modelled as `Fault`.

I/O is not modelled. The inbound body and caller number are parameters of
`Process`. The catalogue and the FAQ rows are constructor parameters.

## Model

| member | source | states |
|---|---|---|
| Text.Contains | ChatBot1.py:88 | no contract of its own: defined as a left-to-right search for `t` as a prefix of `s` or of a later suffix; `Text.ContainsIff` states what it means |
| Text.MentionsAny | ChatBot1.py:88-101 | no contract of its own: defined as "some keyword of the list is a substring of the text", the `any(keyword in incoming_msg …)` tests (also lines 141 and 152); `Dialogue.MenuTransitions`, `Dialogue.FaultIff` and `Dialogue.MenuIsFirstMatch` state its use |
| Text.ContainsIff | ChatBot1.py:88 | `Contains(s, t)` holds exactly when `t` occurs at some index of `s` (Python's `t in s`) |
| Text.Lower | ChatBot1.py:69 | the result has the same length and each character is that character lower-cased (ASCII `str.lower()`) |
| Text.LowerIdempotent | ChatBot1.py:58 | lower-casing already lower-cased text changes nothing |
| Text.TrimLeft | ChatBot1.py:69 | the result is a suffix of the input, with every removed character whitespace and no leading whitespace left |
| Text.TrimRight | ChatBot1.py:69 | the result is a prefix of the input, with every removed character whitespace and no trailing whitespace left |
| Text.TrimmedPadded | ChatBot1.py:69 | the piece both trims leave sits at the end of the leading white space, with only white space around it |
| Text.Strip | ChatBot1.py:69 | the result is a contiguous piece of the input with only whitespace cut at either end, and neither end is whitespace |
| Text.StripIdempotent | ChatBot1.py:69 | stripping stripped text changes nothing |
| Text.Normalize | ChatBot1.py:69 | no contract of its own: defined as `Strip(Lower(body))`, the `.lower().strip()` of the inbound body; `Text.NormalizeIsLower` and `Text.NormalizeIsStripped` state its properties |
| Text.NormalizeIsLower | ChatBot1.py:69 | the normalised inbound text is lower case |
| Text.NormalizeIsStripped | ChatBot1.py:69 | the normalised inbound text is stripped |
| Text.PieceOfLowerIsLower | ChatBot1.py:69 | any contiguous piece of lower-cased text is itself lower case |
| Catalog.NameMatches | ChatBot1.py:35 | no contract of its own: defined as the row's lower-cased name equal to the key (`str.lower() ==`, lines 35, 115, 129, 142) or, without folding, the name equal to the key (`==`, lines 154, 156); `Catalog.Lookup` and `Catalog.LookupHitName` state its use |
| Catalog.FirstMatchFrom | ChatBot1.py:35-36 | the index found is the first row at or after `from` whose name matches; none exactly when no such row matches |
| Catalog.Lookup | ChatBot1.py:115-117 | the product found is the first catalogue row whose name matches the key (`.iloc[0]` of the filter); `None` exactly when no row matches |
| Catalog.LookupProduct | ChatBot1.py:34-47 | `buscar_produto`: a hit is a catalogue row whose lower-cased name equals the lower-cased query; not found exactly when no row's name equals it up to case |
| Catalog.UniqueNamesDistinct | ChatBot1.py:35 | names unique up to case are unique exactly |
| Catalog.LookupProductIgnoresCase | ChatBot1.py:35 | two queries that lower-case alike find the same product |
| Catalog.InlineLookupAgrees | ChatBot1.py:129 | on lower-case text the inline filter (only the name side lower-cased) finds what `buscar_produto` finds |
| Catalog.LookupFindsEveryProduct | ChatBot1.py:34-36 | with names unique up to case, any spelling of a product's name finds that very product |
| Catalog.LookupHitName | ChatBot1.py:154-158 | a hit carries a catalogue name; a lower-cased hit lower-cases to the key, an exact hit is the key itself |
| Catalog.Total | ChatBot1.py:159 | no contract of its own: defined as the sum of the prices of the catalogue rows whose name is in the cart (also line 165); the `Catalog.Total…` lemmas and `Catalog.RepeatChargedOnce` state its properties |
| Catalog.TotalSetSemantics | ChatBot1.py:159 | two carts holding the same names, in any order and with any repetition, have the same total |
| Catalog.TotalDuplicate | ChatBot1.py:158-159 | appending a name already in the cart leaves the total unchanged |
| Catalog.TotalForeignName | ChatBot1.py:158-159 | appending a name no row carries leaves the total unchanged |
| Catalog.TotalAddNew | ChatBot1.py:158-159 | with distinct names, appending a new catalogue name adds exactly that product's price |
| Catalog.TotalSingle | ChatBot1.py:165 | with distinct names, a one-product cart costs that product's price |
| Catalog.TotalPairDistinct | ChatBot1.py:158-159 | with distinct names, a cart of two different products costs both prices |
| Catalog.TotalAddSecond | ChatBot1.py:158-159 | with distinct names, a product plus an added product costs one price if they are the same, both prices otherwise |
| Catalog.TotalEmpty | ChatBot1.py:165 | an empty cart costs nothing |
| Catalog.TotalMatchesOccurrenceTotal | ChatBot1.py:165 | on a cart without repeated names the set-based total equals the per-occurrence sum |
| Catalog.RepeatChargedOnce | ChatBot1.py:159 | a cart holding one product twice costs its price once, where a per-occurrence sum would charge twice |
| Catalog.ExactLookupFinds | ChatBot1.py:154 | with distinct names, the exact-name filter finds each row by its own name, and that row's price is the name's price |
| Faq.RowMatches | ChatBot1.py:52 | no contract of its own: defined as "some lower-cased word of the row's question is a substring of the lower-cased text asked", so the word "o" matches any text holding an "o" and "entrega" matches "entregas"; `Faq.Answer` states its use |
| Faq.FirstRowFrom | ChatBot1.py:51-53 | the row found is the first at or after `from` some lower-cased word of whose question is a substring of the lower-cased text asked; none exactly when no such row exists |
| Faq.Answer | ChatBot1.py:50-54 | the answer is that of the first row some lower-cased word of whose question is a substring of the lower-cased text asked; the fallback (`None`) exactly when no row is |
| Faq.FirstMatchWins | ChatBot1.py:51-53 | a matching row with no matching row before it gives the answer |
| Faq.LaterRowsIrrelevant | ChatBot1.py:51-53 | once a row answers, rows loaded after it never change the answer |
| Faq.AnswerIgnoresCase | ChatBot1.py:52 | questions that lower-case alike get the same answer |
| Faq.EmptyWordMatchesAll | ChatBot1.py:52 | a row holding the empty word, which `split()` never yields (`Faq.SplitWords`), matches every question |
| Faq.EmptyRowNeverMatches | ChatBot1.py:52 | a row whose question has no words never matches |
| Offers.SuggestUpsell | ChatBot1.py:57-63 | the case offer exactly when the lower-cased product text contains "iphone", even when it also contains "alexa"; the watch offer exactly when it contains "alexa" but not "iphone"; the generic reply exactly when it contains neither |
| Offers.UpsellProduct | ChatBot1.py:152-156 | the product resolved on "yes" is, when there is one, the case or the watch by exact catalogue name; which marker picks which is `Offers.UpsellProductChoice` |
| Offers.UpsellProductChoice | ChatBot1.py:153-156 | the case exactly when the lower-cased pending text contains "iphone"; the watch exactly when it contains "alexa" but not "iphone"; nothing exactly when it contains neither |
| Offers.OfferAgreesWithResolution | ChatBot1.py:153-156 | the product resolved on "yes" is always the one the offer named, and none after the generic offer |
| Dialogue.Step | ChatBot1.py:80-169 | no contract of its own: defined as the `if state["stage"] == …` chain, one branch per stage, giving the new session and the replies, or `Fault` where the branch raises; `Dialogue.FaultIff`, `Dialogue.RepliesNonEmpty`, the stage lemmas below and `Dialogue.StepPreservesReachable` state its properties |
| Dialogue.MenuStep | ChatBot1.py:87-106 | no contract of its own: defined as the chain of intent tests of the menu stage; `Dialogue.MenuTransitions`, `Dialogue.MenuAgentReturnsToWelcome`, `Dialogue.MenuNoMatch` and `Dialogue.MenuIsFirstMatch` state its properties |
| Dialogue.UpsellStep | ChatBot1.py:151-169 | no contract of its own: defined as the upsell branch: resolve the offered product on "yes", report the total, empty the cart; `Dialogue.UpsellAlwaysClears`, `Dialogue.UpsellDeclineTotal`, `Dialogue.UpsellAcceptOutcome` and `Dialogue.ReachableAcceptBills` state its properties |
| Dialogue.NewSession | ChatBot1.py:76 | a constant: stage `welcome`, empty cart, empty pending product; `Dialogue.NewSessionReachable` and `Store.FirstContactGreets` state its properties |
| Dialogue.FaultIff | ChatBot1.py:141-143 | a step faults exactly in two cases: "yes" while confirming a product the catalogue lacks (`iloc[0]` on an empty frame), or "yes" in the upsell stage when neither marker occurs (`produto_upsell` unbound, lines 152-157) |
| Dialogue.RepliesNonEmpty | ChatBot1.py:80-169 | every step that does not fault produces at least one reply |
| Dialogue.WelcomeAnyText | ChatBot1.py:81-85 | from `welcome` any text greets and opens the menu, keeping cart and pending product |
| Dialogue.MenuTransitions | ChatBot1.py:87-100 | the menu never faults, keeps cart and pending product, gives one reply, and tests price, stock, FAQ and buy in that order |
| Dialogue.MenuAgentReturnsToWelcome | ChatBot1.py:101-103 | the menu returns to `welcome` exactly when the agent intent is the first the text mentions |
| Dialogue.MenuNoMatch | ChatBot1.py:104-106 | text matching no intent keeps the whole session and says "did not understand" |
| Dialogue.MenuIsFirstMatch | ChatBot1.py:87-106 | the menu's next stage is that of the first row of the intent table the text mentions, or `menu` when none |
| Dialogue.AskPriceRecordsPending | ChatBot1.py:108-112 | the price stage always records the text as pending, found or not, replies with `buscar_produto`'s result, and waits for the confirmation |
| Dialogue.StockAndFaqReturnToMenu | ChatBot1.py:114-126 | the stock and FAQ stages always return to the menu with cart and pending kept |
| Dialogue.StockMissIsReply | ChatBot1.py:114-121 | an unknown product in the stock stage is the not-found reply, not a fault |
| Dialogue.BuyingOutcome | ChatBot1.py:128-138 | buying: a hit appends the catalogue's own spelling of the name, records the text, moves to `upsell` and makes the offer; a miss changes nothing and asks again |
| Dialogue.ConfirmOutcome | ChatBot1.py:140-149 | confirming: text without "sim"/"yes" goes to the menu unchanged; "yes" on a known product appends it and makes the offer |
| Dialogue.UpsellAlwaysClears | ChatBot1.py:167-169 | whenever the upsell stage completes it ends in the menu with an empty cart and the pending product kept |
| Dialogue.UpsellDeclineTotal | ChatBot1.py:164-169 | declining reports the total of the cart as it was before clearing |
| Dialogue.UpsellAcceptOutcome | ChatBot1.py:152-163 | accepting reports the total taken after the upsell product is appended, or the "could not add" reply when the catalogue lacks it; the product added carries exactly the resolved name |
| Dialogue.NewSessionReachable | ChatBot1.py:76 | a fresh session satisfies the invariant |
| Dialogue.StepPreservesReachable | ChatBot1.py:80-169 | every step keeps the invariant: outside `upsell` the cart is empty, in `upsell` it holds exactly the product the pending text names |
| Dialogue.ReachableDeclineBillsProduct | ChatBot1.py:164-166 | in a reachable upsell session, declining bills exactly the one product bought |
| Dialogue.ReachableAcceptBills | ChatBot1.py:152-161 | in a reachable upsell session, accepting bills the product plus the upsell product, or the product alone when the two coincide |
| Dialogue.ReachableUpsellTotal | ChatBot1.py:158-159 | in a reachable upsell session the cart plus one catalogue product costs one or two prices as the names coincide or not |
| Dialogue.AcceptingTheOffer | ChatBot1.py:128-169 | after a purchase in the buy stage (`comprar`), "yes" to the generic offer faults; "yes" to a specific offer adds exactly the product offered when the catalogue carries it, and either way ends in the menu with an empty cart |
| Dialogue.PriceSearchThenYes | ChatBot1.py:108-143 | after a price search on lower-case text, "yes" faults exactly when the search answered "not found" |
| Store.SessionStore.constructor | ChatBot1.py:31 | the store starts with an empty session map over the loaded data |
| Store.SessionStore.Process | ChatBot1.py:67-176 | the caller's session is created on first contact and moves one `Step` on the normalised text; a fault keeps it and replies with the apology only; no other caller's entry changes; the invariant is kept |
| Store.SessionStore.Open | ChatBot1.py:75-76 | a caller without a session gets the fresh one; the set of callers grows by exactly this caller and every existing entry is kept; the invariant is kept |
| Store.StepKeepsValid | ChatBot1.py:69-169 | a step on lower-case text keeps a session reachable and its pending product lower case |
| Store.StoreKeepsValid | ChatBot1.py:75-78 | storing a valid session under one caller keeps every entry valid |
| Store.FirstContactGreets | ChatBot1.py:75-85 | a first message of any text from an unseen caller greets and opens the menu with an empty cart |
| Store.PendingStaysLower | ChatBot1.py:111 | a step on lower-case text keeps the pending product lower case |
| Scenarios.MenuPrice | ChatBot1.py:88-90 | "preço" from the menu asks which product |
| Scenarios.PriceOfPhone | ChatBot1.py:108-112 | "iphone 15" in the price stage answers with the iPhone row and waits for the confirmation |
| Scenarios.AcceptCase | ChatBot1.py:152-161 | "sim" to the case offer after the iPhone bills R$6999 + R$99 and empties the cart |
| Scenarios.PriceBeatsBuy | ChatBot1.py:88-100 | "comprar preço" goes to the price question: price is tested before buy |
| Scenarios.StockUnknownProduct | ChatBot1.py:114-121 | an unknown product in the stock stage gives the not-found reply and returns to the menu |
| Scenarios.PhoneMarkerWins | ChatBot1.py:57-60 | "Alexa e iPhone" gets the case offer: the phone marker wins |

## Left out

- Flask routing, the Twilio `MessagingResponse` encoding and `app.run`
  (ChatBot1.py:1-6, 65-72, 171, 178-179): transport glue. Replies are
  abstract values, one per `msg.body(...)` call, without their Portuguese
  wording. The inbound body and caller number are parameters of `Process`.
- Loading the CSV files with pandas, the comma-to-dot price conversion, the
  `exit()` on load errors and the debug prints (ChatBot1.py:8-28). The
  catalogue and FAQ rows are constructor parameters. FAQ rows come with
  their question already split into words.
- The column-name mismatch: line 16 converts a `Preco` column (read again at
  line 38), while lines 44, 133, 144, 159 and 165 read `Preço`. With a
  catalogue that has only `Preco`, those reads raise `KeyError`, and some do
  so after the session was already written:
  - line 133 raises after the cart append and the pending update at lines
    131-132, with the stage still `comprar`;
  - line 144 raises after the cart append at line 143, with the stage still
    `decidir_compra`;
  - line 159 raises after the upsell product's append at line 158, with the
    stage still `upsell`;
  - line 165 raises with nothing changed yet.
  The model has one integer-cent `price` field, so none of these reads
  fail, and it does not capture these half-written sessions.
- The float formatting of prices (`:.2f`) and the fallback in
  `buscar_produto` (ChatBot1.py:37-46). Prices and totals are exact integer
  cents, so float summation error is not modelled.
- Text.Lower: lower-cases the ASCII range only. Python's `str.lower()` also
  folds non-ASCII letters such as "Ç".
- Text.Strip: removes only the ASCII whitespace that `str.strip()` removes.
  It does not remove Unicode spaces such as U+00A0.
- Text.TrimLeft: drops only ASCII whitespace (`Text.IsSpace`), like `Text.Strip`.
- Text.TrimRight: drops only ASCII whitespace (`Text.IsSpace`), like `Text.Strip`.
- Faq.FaqRow: admits word lists that `split()` never produces, such as an
  empty word or one holding white space. `Faq.SplitWords` states the lists
  `split()` does produce; the model does not require it. An empty word
  matches every question (`Faq.EmptyWordMatchesAll`).
- Concurrency: the source has no locking. `Process` handles one message at
  a time.
- The exception handler's `print` (ChatBot1.py:173): logging.
