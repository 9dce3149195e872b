/** The "Dividend Entry for 2024" page: the shared summariser, called with
    this page's reference list (Slovak country names with diacritics). */
module DividendsView {

  import opened Wrappers
  import opened Dividends
  import opened EntryForm

  /** France withholds 25% and pays in EUR; the United States withholds 15%
      and pays in USD. */
  const Countries: seq<CountryInfo> := [
    CountryInfo("250", "Francúzsko", 0.25, "EUR"),
    CountryInfo("840", "Spojené štáty americké", 0.15, "USD")
  ]

  const France := "Francúzsko"
  const UnitedStates := "Spojené štáty americké"

  /** The default "Tax %" for the selected country, in percentage points. */
  function DefaultTax(selected: string): (r: real)
    ensures selected == France ==> r == 25.0
    ensures selected == UnitedStates ==> r == 15.0
    ensures selected != France && selected != UnitedStates ==> r == 15.0
    ensures r >= 0.0
  {
    PercentDefault(Countries, selected)
  }

  /** The preselected currency; always one of the currency options. */
  function DefaultCurrency(selected: string): (r: string)
    ensures selected == UnitedStates ==> r == "USD"
    ensures selected != UnitedStates ==> r == "EUR"
    ensures CurrencyIndex(r).Some?
  {
    CurrencyDefault(Countries, selected)
  }

  /** One page run: only when the table is not empty, it is shown as it
      stands and then summarised with this page's list and rate; at rate 0 a
      USD entry makes the summariser raise after the table is shown. */
  function Render(table: seq<Row>, rate: real): (p: Page)
    ensures p.view.NoEntries? <==> |table| == 0
    ensures Entries(p.table) == Entries(table)
    ensures p.view.NoEntries? ==> p.table == table
    ensures p.view.Shown? && p.view.summary.None? ==> p.table == table
    ensures p.view.Shown? && p.view.summary.Some? ==>
              AllConvertible(Entries(table), rate) && p.table == Annotate(table, rate)
    ensures p.view.Shown? ==>
              && p.view.rows == table
              && (p.view.summary.None? <==> rate == 0.0 && HasUsdEntry(table))
              && (p.view.summary.Some? ==>
                    && AllConvertible(Entries(table), rate)
                    && p.view.summary.value.Keys == CountriesOf(Entries(table))
                    && (France in p.view.summary.value ==> p.view.summary.value[France].usd == 0.0)
                    && p.view.summary.value == Summarise(Entries(table), rate, Countries))
  {
    assert !UsdDefault(Countries, France);
    if |table| == 0 then Page(table, NoEntries)
    else
      match Dividends.ProcessDividends(table, rate, Countries)
      case None => Page(table, Shown(table, None))
      case Some(r) => Page(r.table, Shown(table, Some(r.summary)))
  }

  /** Rendering the page again on the table the first run left behind gives
      the same summary: the first run only wrote the derived columns. */
  lemma RenderTwice(table: seq<Row>, rate: real)
    ensures var p1 := Render(table, rate);
            var p2 := Render(p1.table, rate);
            p1.view.Shown? ==> p2.view.Shown? && p2.view.summary == p1.view.summary
  {
  }

  /** The entries are shown as stored, before they are summarised again, so
      after a run at rate `r1` the next run at rate `r2` shows each row with
      the EUR and after-tax values computed at `r1`, and a row added in
      between shows them empty. */
  lemma ShowsPreviousRun(table: seq<Row>, f: Form, r1: real, r2: real)
    requires |table| > 0 && AllConvertible(Entries(table), r1) && ValidForm(f)
    ensures var t1 := Render(table, r1).table;
            var p2 := Render(AddDividend(t1, f), r2);
            && p2.view.Shown?
            && p2.view.rows[..|table|] == Annotate(table, r1)
            && p2.view.rows[|table|].derived.None?
  {
  }

  /** Two entries of different countries fall into two one-entry groups. */
  lemma PairGroups(e0: Entry, e1: Entry)
    requires e0.country != e1.country
    ensures CountriesOf([e0, e1]) == {e0.country, e1.country}
    ensures OfCountry([e0, e1], e0.country) == [e0]
    ensures OfCountry([e0, e1], e1.country) == [e1]
  {
    assert [e0, e1] == [e0] + [e1];
    assert [e0] == [] + [e0];
    CountriesOfSnoc([], e0);
    CountriesOfSnoc([e0], e1);
    OfCountrySnoc([], e0, e0.country);
    OfCountrySnoc([e0], e1, e0.country);
    OfCountrySnoc([], e0, e1.country);
    OfCountrySnoc([e0], e1, e1.country);
  }

  /** The sum over a one-entry group is that entry's amount. */
  lemma TotalOfOne(e: Entry, rate: real, col: Column)
    requires Convertible(e, rate)
    ensures Total([e], rate, col) == Amount(e, rate, col)
  {
    assert [e] == [] + [e];
    TotalSnoc([], e, rate, col);
  }

  /** One French EUR entry and one US USD entry at rate 1.08. */
  lemma Scenario()
    ensures var es := [Entry(France, 100.0, "EUR", 25.0, "IBKR"),
                       Entry(UnitedStates, 50.0, "USD", 15.0, "Schwab")];
            var s := Summarise(es, 1.08, Countries);
            && s.Keys == {France, UnitedStates}
            && s[France] == Totals(100.0, 75.0, 0.0)
            && s[UnitedStates] == Totals(50.0 / 1.08, 50.0 / 1.08 * 0.85, 50.0)
  {
    var e0 := Entry(France, 100.0, "EUR", 25.0, "IBKR");
    var e1 := Entry(UnitedStates, 50.0, "USD", 15.0, "Schwab");
    PairGroups(e0, e1);
    TotalOfOne(e0, 1.08, EurColumn);
    TotalOfOne(e0, 1.08, AfterTaxColumn);
    TotalOfOne(e1, 1.08, EurColumn);
    TotalOfOne(e1, 1.08, AfterTaxColumn);
    TotalOfOne(e1, 1.08, UsdColumn);
    assert UsdDefault(Countries, UnitedStates) && !UsdDefault(Countries, France);
  }

}
