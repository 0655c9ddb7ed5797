/**
 * The process-wide `user_state` dictionary and the `webhook` handler that
 * drives one session per inbound message.
 */
module Store {
  import opened Text
  import opened Catalog
  import opened Faq
  import opened Dialogue

  class SessionStore {
    /** The catalogue and FAQ rows loaded at start-up; never changed afterwards. */
    const catalog: seq<Product>
    const faqs: seq<FaqRow>
    /** `user_state`: caller number to session. */
    var userState: map<string, Session>

    /** Every stored session is one the handler can produce, and its pending product is lower case. */
    ghost predicate Valid()
      reads this
    {
      AllValid(userState, catalog)
    }

    /** An empty session map over the loaded data. */
    constructor (catalog: seq<Product>, faqs: seq<FaqRow>)
      ensures this.catalog == catalog && this.faqs == faqs
      ensures userState == map[]
      ensures Valid()
    {
      this.catalog := catalog;
      this.faqs := faqs;
      userState := map[];
    }

    /**
     * The handler for one inbound message `body` from `caller`: the session
     * is created on first contact, the lower-cased and stripped text moves it
     * one step, and a fault yields the single apology with the session left
     * as it was. No other caller's entry is touched.
     */
    method Process(caller: string, body: string) returns (replies: seq<Reply>)
      requires Valid()
      modifies this
      ensures Valid()
      ensures forall c :: c in userState <==> c in old(userState) || c == caller
      ensures forall other :: other in old(userState) && other != caller ==> userState[other] == old(userState[other])
      ensures var before := if caller in old(userState) then old(userState[caller]) else NewSession;
        match Step(before, Normalize(body), catalog, faqs)
        case Next(after, out) => userState[caller] == after && replies == out
        case Fault => userState[caller] == before && replies == [Apology]
      ensures |replies| >= 1
    {
      var msg := Normalize(body);
      NormalizeIsLower(body);
      Open(caller);
      var state := userState[caller];
      var outcome := Step(state, msg, catalog, faqs);
      RepliesNonEmpty(state, msg, catalog, faqs);
      match outcome {
        case Next(after, out) =>
          StepKeepsValid(state, msg, catalog, faqs);
          StoreKeepsValid(userState, catalog, caller, after);
          userState := userState[caller := after];
          replies := out;
        case Fault =>
          replies := [Apology];
      }
    }

    /** First contact: a caller without a session gets a fresh one; every existing entry is kept. */
    method Open(caller: string)
      requires Valid()
      modifies this
      ensures Valid()
      ensures forall c :: c in userState <==> c in old(userState) || c == caller
      ensures forall c :: c in old(userState) ==> userState[c] == old(userState[c])
      ensures caller !in old(userState) ==> userState[caller] == NewSession
    {
      if caller !in userState {
        NewSessionReachable(catalog);
        StoreKeepsValid(userState, catalog, caller, NewSession);
        userState := userState[caller := NewSession];
      }
    }
  }

  /** A session the handler may hold: reachable, with a lower-case pending product. */
  ghost predicate SessionValid(s: Session, catalog: seq<Product>) {
    Reachable(s, catalog) && Lower(s.pending) == s.pending
  }

  /** Every stored session may be held. */
  ghost predicate AllValid(m: map<string, Session>, catalog: seq<Product>) {
    forall caller :: caller in m ==> SessionValid(m[caller], catalog)
  }

  /** Storing a valid session under any caller keeps the whole map valid. */
  lemma StoreKeepsValid(m: map<string, Session>, catalog: seq<Product>, caller: string, s: Session)
    requires AllValid(m, catalog) && Reachable(s, catalog) && Lower(s.pending) == s.pending
    ensures AllValid(m[caller := s], catalog)
  {
  }

  /** A step on lower-case text keeps a session valid. */
  lemma StepKeepsValid(s: Session, msg: string, catalog: seq<Product>, faqs: seq<FaqRow>)
    requires SessionValid(s, catalog) && Lower(msg) == msg
    ensures Step(s, msg, catalog, faqs).Next? ==> SessionValid(Step(s, msg, catalog, faqs).session, catalog)
  {
    StepPreservesReachable(s, msg, catalog, faqs);
    PendingStaysLower(s, msg, catalog, faqs);
  }

  /** The first message from an unseen caller: a fresh session that the greeting moves to the menu. */
  lemma FirstContactGreets(body: string, catalog: seq<Product>, faqs: seq<FaqRow>)
    ensures Step(NewSession, Normalize(body), catalog, faqs) == Next(Session(Menu, [], ""), [Greeting])
  {
  }

  /** A step records only the message itself as the pending product, so lower-case text keeps it lower case. */
  lemma PendingStaysLower(s: Session, msg: string, catalog: seq<Product>, faqs: seq<FaqRow>)
    requires Lower(s.pending) == s.pending && Lower(msg) == msg
    ensures Step(s, msg, catalog, faqs).Next? ==> Lower(Step(s, msg, catalog, faqs).session.pending) == Step(s, msg, catalog, faqs).session.pending
  {
  }
}
