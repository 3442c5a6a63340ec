/**
 * The aggregation pass of fund_app.py's main page: each holding is fetched in
 * turn; holdings whose fetch gives no data are skipped, and the successful
 * ones add their market value and day's profit to the running totals and a
 * result card to the list.
 */
module Portfolio {
  import opened Wrappers
  import opened FundFetch
  import opened Holdings

  /** A result card: the fetched quote together with the holding's profit for the day ({**f, "day_p": day_p}). */
  datatype Entry = Entry(quote: Quote, dayP: real)

  /** The fetch used per holding code (fetch_fund_data with its network access bound). */
  type Fetch = string -> Option<Quote>

  /** Market value of one holding: shares * current value. */
  function HoldingValue(h: Holding, q: Quote): real {
    h.shares * q.curr
  }

  /** Daily P/L of one holding: shares * (current value - previous value). */
  function DayProfit(h: Holding, q: Quote): real {
    h.shares * (q.curr - q.last)
  }

  /** The holdings whose fetch returned a quote, in holdings order. */
  function Fetched(hs: seq<Holding>, fetch: Fetch): seq<Holding> {
    if hs == [] then []
    else
      var h := hs[|hs| - 1];
      Fetched(hs[..|hs| - 1], fetch) + (if fetch(h.code).Some? then [h] else [])
  }

  /** The result list: one card per successfully fetched holding. */
  function Entries(hs: seq<Holding>, fetch: Fetch): seq<Entry> {
    if hs == [] then []
    else
      var h := hs[|hs| - 1];
      var rest := Entries(hs[..|hs| - 1], fetch);
      if fetch(h.code).None? then rest
      else rest + [Entry(fetch(h.code).value, DayProfit(h, fetch(h.code).value))]
  }

  /** total_m: the sum of shares * curr over the holdings that were fetched. */
  function MarketValue(hs: seq<Holding>, fetch: Fetch): real {
    if hs == [] then 0.0
    else
      var h := hs[|hs| - 1];
      MarketValue(hs[..|hs| - 1], fetch) +
        (if fetch(h.code).None? then 0.0 else HoldingValue(h, fetch(h.code).value))
  }

  /** total_d: the sum of shares * (curr - last) over the holdings that were fetched. */
  function DailyProfit(hs: seq<Holding>, fetch: Fetch): real {
    if hs == [] then 0.0
    else
      var h := hs[|hs| - 1];
      DailyProfit(hs[..|hs| - 1], fetch) +
        (if fetch(h.code).None? then 0.0 else DayProfit(h, fetch(h.code).value))
  }

  /** The sum of the day_p figures shown on the cards. */
  function SumDayP(es: seq<Entry>): real {
    if es == [] then 0.0 else SumDayP(es[..|es| - 1]) + es[|es| - 1].dayP
  }

  /** The loop of lines 114-125: one pass over the holdings, one fetch each. */
  method Aggregate(holdings: seq<Holding>, fetch: Fetch) returns (totalM: real, totalD: real, results: seq<Entry>)
    ensures results == Entries(holdings, fetch)
    ensures totalM == MarketValue(holdings, fetch)
    ensures totalD == DailyProfit(holdings, fetch)
  {
    totalM, totalD := 0.0, 0.0;
    results := [];
    var i := 0;
    while i < |holdings|
      invariant 0 <= i <= |holdings|
      invariant results == Entries(holdings[..i], fetch)
      invariant totalM == MarketValue(holdings[..i], fetch)
      invariant totalD == DailyProfit(holdings[..i], fetch)
    {
      var h := holdings[i];
      assert holdings[..i + 1][..i] == holdings[..i] && holdings[..i + 1][i] == h;
      var f := fetch(h.code);
      if f.Some? {
        var sh := h.shares;
        var dayP := sh * (f.value.curr - f.value.last);
        assert dayP == DayProfit(h, f.value) && sh * f.value.curr == HoldingValue(h, f.value);
        totalM := totalM + sh * f.value.curr;
        totalD := totalD + dayP;
        results := results + [Entry(f.value, dayP)];
      }
      i := i + 1;
    }
    assert holdings[..i] == holdings;
  }

  /** Exactly the holdings whose fetch succeeded are kept, each as often as it occurs. */
  lemma {:induction false} FetchedContents(hs: seq<Holding>, fetch: Fetch)
    ensures forall i :: 0 <= i < |Fetched(hs, fetch)| ==> fetch(Fetched(hs, fetch)[i].code).Some?
    ensures forall h :: multiset(Fetched(hs, fetch))[h] == if fetch(h.code).Some? then multiset(hs)[h] else 0
  {
    if hs != [] {
      var init, h := hs[..|hs| - 1], hs[|hs| - 1];
      FetchedContents(init, fetch);
      assert hs == init + [h];
    }
  }

  /** Each card holds its holding's quote and day_p = shares * (curr - last), card i for fetched holding i. */
  lemma {:induction false} EntriesMatchFetched(hs: seq<Holding>, fetch: Fetch)
    ensures |Entries(hs, fetch)| == |Fetched(hs, fetch)|
    ensures forall i :: 0 <= i < |Entries(hs, fetch)| ==>
      var h := Fetched(hs, fetch)[i];
      fetch(h.code).Some? &&
      Entries(hs, fetch)[i] == Entry(fetch(h.code).value, h.shares * (fetch(h.code).value.curr - fetch(h.code).value.last))
  {
    if hs != [] {
      var init, h := hs[..|hs| - 1], hs[|hs| - 1];
      EntriesMatchFetched(init, fetch);
      var e0, f0 := Entries(init, fetch), Fetched(init, fetch);
      if fetch(h.code).Some? {
        var q := fetch(h.code).value;
        assert DayProfit(h, q) == h.shares * (q.curr - q.last);
        assert Entries(hs, fetch) == e0 + [Entry(q, DayProfit(h, q))];
        assert Fetched(hs, fetch) == f0 + [h];
        forall i | 0 <= i < |e0|
          ensures Entries(hs, fetch)[i] == e0[i] && Fetched(hs, fetch)[i] == f0[i]
        {
        }
      } else {
        assert Entries(hs, fetch) == e0;
        assert Fetched(hs, fetch) == f0;
      }
    }
  }

  /** Concatenation splits the list of fetched holdings. */
  lemma {:induction false} FetchedAppend(a: seq<Holding>, b: seq<Holding>, fetch: Fetch)
    ensures Fetched(a + b, fetch) == Fetched(a, fetch) + Fetched(b, fetch)
    decreases |b|
  {
    if b == [] {
      assert a + b == a;
    } else {
      var init := b[..|b| - 1];
      assert (a + b)[..|a + b| - 1] == a + init;
      assert (a + b)[|a + b| - 1] == b[|b| - 1];
      FetchedAppend(a, init, fetch);
    }
  }

  /** Concatenation splits the result list. */
  lemma {:induction false} EntriesAppend(a: seq<Holding>, b: seq<Holding>, fetch: Fetch)
    ensures Entries(a + b, fetch) == Entries(a, fetch) + Entries(b, fetch)
    decreases |b|
  {
    if b == [] {
      assert a + b == a;
    } else {
      var init := b[..|b| - 1];
      assert (a + b)[..|a + b| - 1] == a + init;
      assert (a + b)[|a + b| - 1] == b[|b| - 1];
      EntriesAppend(a, init, fetch);
    }
  }

  /** Concatenation adds the market values. */
  lemma {:induction false} MarketValueAppend(a: seq<Holding>, b: seq<Holding>, fetch: Fetch)
    ensures MarketValue(a + b, fetch) == MarketValue(a, fetch) + MarketValue(b, fetch)
    decreases |b|
  {
    if b == [] {
      assert a + b == a;
    } else {
      var init := b[..|b| - 1];
      assert (a + b)[..|a + b| - 1] == a + init;
      assert (a + b)[|a + b| - 1] == b[|b| - 1];
      MarketValueAppend(a, init, fetch);
    }
  }

  /** Concatenation adds the day's profits. */
  lemma {:induction false} DailyProfitAppend(a: seq<Holding>, b: seq<Holding>, fetch: Fetch)
    ensures DailyProfit(a + b, fetch) == DailyProfit(a, fetch) + DailyProfit(b, fetch)
    decreases |b|
  {
    if b == [] {
      assert a + b == a;
    } else {
      var init := b[..|b| - 1];
      assert (a + b)[..|a + b| - 1] == a + init;
      assert (a + b)[|a + b| - 1] == b[|b| - 1];
      DailyProfitAppend(a, init, fetch);
    }
  }

  /** A holding whose fetch fails adds nothing: not a card, not to either total. */
  lemma SkipFailed(a: seq<Holding>, h: Holding, b: seq<Holding>, fetch: Fetch)
    requires fetch(h.code).None?
    ensures Entries(a + [h] + b, fetch) == Entries(a + b, fetch)
    ensures MarketValue(a + [h] + b, fetch) == MarketValue(a + b, fetch)
    ensures DailyProfit(a + [h] + b, fetch) == DailyProfit(a + b, fetch)
  {
    assert [h][..0] == [];
    EntriesAppend(a + [h], b, fetch);
    EntriesAppend(a, [h], fetch);
    EntriesAppend(a, b, fetch);
    MarketValueAppend(a + [h], b, fetch);
    MarketValueAppend(a, [h], fetch);
    MarketValueAppend(a, b, fetch);
    DailyProfitAppend(a + [h], b, fetch);
    DailyProfitAppend(a, [h], fetch);
    DailyProfitAppend(a, b, fetch);
  }

  /** The totals over all holdings are the totals over the fetched ones alone. */
  lemma {:induction false} TotalsOverFetchedOnly(hs: seq<Holding>, fetch: Fetch)
    ensures MarketValue(hs, fetch) == MarketValue(Fetched(hs, fetch), fetch)
    ensures DailyProfit(hs, fetch) == DailyProfit(Fetched(hs, fetch), fetch)
    ensures Entries(hs, fetch) == Entries(Fetched(hs, fetch), fetch)
  {
    if hs != [] {
      var init := hs[..|hs| - 1];
      var h := hs[|hs| - 1];
      TotalsOverFetchedOnly(init, fetch);
      if fetch(h.code).Some? {
        var fi := Fetched(init, fetch);
        assert (fi + [h])[..|fi + [h]| - 1] == fi;
        assert (fi + [h])[|fi + [h]| - 1] == h;
        assert Fetched(hs, fetch) == fi + [h];
        assert MarketValue(fi + [h], fetch) == MarketValue(fi, fetch) + HoldingValue(h, fetch(h.code).value);
      } else {
        assert Fetched(hs, fetch) == Fetched(init, fetch);
      }
    }
  }

  /** The day's profit in the summary card is the sum of the day_p of the result cards. */
  lemma {:induction false} DailyProfitIsSumOfCards(hs: seq<Holding>, fetch: Fetch)
    ensures DailyProfit(hs, fetch) == SumDayP(Entries(hs, fetch))
  {
    if hs != [] {
      var init := hs[..|hs| - 1];
      DailyProfitIsSumOfCards(init, fetch);
      var rest := Entries(init, fetch);
      match fetch(hs[|hs| - 1].code)
      case None =>
      case Some(q) =>
        var e := Entry(q, DayProfit(hs[|hs| - 1], q));
        assert (rest + [e])[..|rest + [e]| - 1] == rest;
    }
  }

  /** With no card to show, both totals are zero. */
  lemma {:induction false} NoCardsNoTotals(hs: seq<Holding>, fetch: Fetch)
    requires Entries(hs, fetch) == []
    ensures MarketValue(hs, fetch) == 0.0 && DailyProfit(hs, fetch) == 0.0
  {
    if hs != [] {
      NoCardsNoTotals(hs[..|hs| - 1], fetch);
    }
  }

  /** The fetched holdings keep their holdings order. */
  lemma {:induction false} FetchedKeepsOrder(hs: seq<Holding>, fetch: Fetch)
    ensures IsSubsequence(Fetched(hs, fetch), hs)
  {
    if hs != [] {
      var init := hs[..|hs| - 1];
      var h := hs[|hs| - 1];
      FetchedKeepsOrder(init, fetch);
      SubsequenceSnoc(Fetched(init, fetch), init, h);
      assert init + [h] == hs;
      if fetch(h.code).None? {
        assert Fetched(hs, fetch) == Fetched(init, fetch);
      }
    }
  }
}
