/**
 * `buscar_faq`: the FAQ rows are scanned in load order and the first row
 * that shares a keyword with the question answers it.
 */
module Faq {
  import opened Wrappers
  import opened Text

  /**
   * One FAQ row: the words of its question text (as `split()` returns them)
   * and its answer.
   */
  datatype FaqRow = FaqRow(keywords: seq<string>, answer: string)

  /**
   * The word lists `split()` can produce: every word is non-empty and holds
   * no white space. `FaqRow` itself admits any list; an empty word would
   * match every question, since the empty string occurs in every text.
   */
  predicate SplitWords(row: FaqRow) {
    forall i :: 0 <= i < |row.keywords| ==>
      row.keywords[i] != [] && forall k :: 0 <= k < |row.keywords[i]| ==> !IsSpace(row.keywords[i][k])
  }

  /** Some lower-cased word of the row's question is a substring of the lower-cased question asked. */
  predicate RowMatches(row: FaqRow, question: string) {
    exists i :: 0 <= i < |row.keywords| && Contains(Lower(question), Lower(row.keywords[i]))
  }

  /** The first row at or after `from` that matches the question. */
  function FirstRowFrom(faqs: seq<FaqRow>, question: string, from: nat): (r: Option<nat>)
    requires from <= |faqs|
    ensures r.Some? ==> from <= r.value < |faqs| && RowMatches(faqs[r.value], question)
    ensures r.Some? ==> forall j :: from <= j < r.value ==> !RowMatches(faqs[j], question)
    ensures r.None? <==> forall j :: from <= j < |faqs| ==> !RowMatches(faqs[j], question)
    decreases |faqs| - from
  {
    if from == |faqs| then None
    else if RowMatches(faqs[from], question) then Some(from)
    else FirstRowFrom(faqs, question, from + 1)
  }

  /**
   * The answer of the first matching row; `None` stands for the fixed
   * fallback reply ("não sei responder isso").
   */
  function Answer(faqs: seq<FaqRow>, question: string): (r: Option<string>)
    ensures r.Some? ==> exists i :: 0 <= i < |faqs| && RowMatches(faqs[i], question) && r.value == faqs[i].answer
                                   && forall j :: 0 <= j < i ==> !RowMatches(faqs[j], question)
    ensures r.None? <==> forall j :: 0 <= j < |faqs| ==> !RowMatches(faqs[j], question)
  {
    match FirstRowFrom(faqs, question, 0)
    case Some(i) => Some(faqs[i].answer)
    case None => None
  }

  /** The first matching row answers, whatever later rows say. */
  lemma FirstMatchWins(faqs: seq<FaqRow>, question: string, i: nat)
    requires i < |faqs| && RowMatches(faqs[i], question)
    requires forall j :: 0 <= j < i ==> !RowMatches(faqs[j], question)
    ensures Answer(faqs, question) == Some(faqs[i].answer)
  {
    var r := FirstRowFrom(faqs, question, 0);
    assert r.Some?;
    assert !(r.value < i) && !(i < r.value);
  }

  /** Rows loaded after an answering row never change the answer. */
  lemma LaterRowsIrrelevant(faqs: seq<FaqRow>, more: seq<FaqRow>, question: string)
    requires Answer(faqs, question).Some?
    ensures Answer(faqs + more, question) == Answer(faqs, question)
  {
    var i :| 0 <= i < |faqs| && RowMatches(faqs[i], question) && Answer(faqs, question).value == faqs[i].answer
              && forall j :: 0 <= j < i ==> !RowMatches(faqs[j], question);
    var all := faqs + more;
    assert all[i] == faqs[i];
    forall j | 0 <= j < i ensures !RowMatches(all[j], question) {
      assert all[j] == faqs[j];
    }
    FirstMatchWins(all, question, i);
  }

  /** The search ignores the case of the question. */
  lemma AnswerIgnoresCase(faqs: seq<FaqRow>, q1: string, q2: string)
    requires Lower(q1) == Lower(q2)
    ensures Answer(faqs, q1) == Answer(faqs, q2)
  {
    assert forall j :: 0 <= j < |faqs| ==> (RowMatches(faqs[j], q1) <==> RowMatches(faqs[j], q2));
    if Answer(faqs, q1).Some? {
      var i :| 0 <= i < |faqs| && RowMatches(faqs[i], q1) && Answer(faqs, q1).value == faqs[i].answer
                && forall j :: 0 <= j < i ==> !RowMatches(faqs[j], q1);
      FirstMatchWins(faqs, q2, i);
    }
  }

  /** A row holding the empty word, which `split()` never yields, matches every question. */
  lemma EmptyWordMatchesAll(row: FaqRow, question: string, i: nat)
    requires i < |row.keywords| && row.keywords[i] == []
    ensures RowMatches(row, question)
  {
    ContainsWitness(Lower(question), Lower(row.keywords[i]), 0);
  }

  /** A row whose question has no words matches nothing. */
  lemma EmptyRowNeverMatches(row: FaqRow, question: string)
    requires row.keywords == []
    ensures !RowMatches(row, question)
  {
  }
}
