/** The page's pipeline from an uploaded sheet to the advice section:
    normalise the ledger, keep the chosen days, categorize, advise. */
module Dashboard {
  import opened Wrappers
  import opened Sequences
  import Ledger
  import DateFilter
  import C = Categorizer
  import R = Recommendations
  import Display

  /** The categorized rows of the normalised ledger within `[start, end]`. */
  function CategorizedWindow(raw: seq<Ledger.RawRow>, start: int, end: int): (r: Result<seq<C.Categorized>, Ledger.AmountError>)
    ensures r.Success? <==> Ledger.Normalize(raw).Success?
    ensures r.Success? ==> forall k :: 0 <= k < |r.value| ==> r.value[k].category in C.Labels
  {
    var ledger :- Ledger.Normalize(raw);
    Success(C.CategorizeAll(DateFilter.FilterByDate(ledger, start, end)))
  }

  /** The advice section, or the amount error that stops the page. */
  function Advice(raw: seq<Ledger.RawRow>, start: int, end: int, maxRecs: int): (r: Result<Display.Panel, Ledger.AmountError>)
    ensures r.Success? <==> Ledger.Normalize(raw).Success?
  {
    var rows :- CategorizedWindow(raw, start, end);
    Success(Display.ShowRecommendations(rows, maxRecs))
  }

  /** Whatever the sheet, every card advises on a category that is never
      essential: entertainment, cash handling, card references, accounts or
      others. */
  lemma AdviceOnDiscretionaryLabels(raw: seq<Ledger.RawRow>, start: int, end: int, maxRecs: int, card: Display.Card)
    requires Advice(raw, start, end, maxRecs).Success?
    requires card in Display.AllCards(Advice(raw, start, end, maxRecs).value)
    ensures card.advice.category in R.DiscretionaryLabels
  {
    Display.CardsOnDiscretionaryLabels(CategorizedWindow(raw, start, end).value, maxRecs, card);
  }
}
