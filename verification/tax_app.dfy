/** The stand-alone "Slovak Tax Dividend Helper" page with its own copy of
    the summariser and its own reference list (plain ASCII country names). */
module TaxApp {

  import opened Wrappers
  import opened Dividends
  import opened EntryForm

  /** The page's reference list: only the United States defaults to USD. */
  const Countries: seq<CountryInfo> := [
    CountryInfo("250", "Francuzsko", 0.15, "EUR"),
    CountryInfo("840", "Spojene staty americke", 0.10, "USD")
  ]

  const France := "Francuzsko"
  const UnitedStates := "Spojene staty americke"

  /** The default "Tax %" shown for the selected country: the table rate as a
      fraction (0.15 when unlisted), times 100. */
  function ShownTax(selected: string): (r: real)
    ensures selected == France ==> r == 15.0
    ensures selected == UnitedStates ==> r == 10.0
    ensures selected != France && selected != UnitedStates ==> r == 15.0
    ensures r >= 0.0
  {
    ShownTaxAgrees(Countries, selected);
    FractionDefault(Countries, selected) * 100.0
  }

  /** The preselected currency; its index in the currency options always
      exists, so the page never hits the ValueError of `list.index`. */
  function DefaultCurrency(selected: string): (r: string)
    ensures selected == UnitedStates ==> r == "USD"
    ensures selected != UnitedStates ==> r == "EUR"
    ensures CurrencyIndex(r).Some?
  {
    CurrencyDefault(Countries, selected)
  }

  /** This page's `process_dividends(df, conversion_rate)`: the shared
      summariser read against the module-level list. */
  function ProcessDividends(table: seq<Row>, rate: real): (r: Option<Processed>)
    ensures r.None? <==> rate == 0.0 && HasUsdEntry(table)
    ensures r.Some? <==> AllConvertible(Entries(table), rate)
    ensures r.Some? ==> Entries(r.value.table) == Entries(table)
    ensures r.Some? ==> r.value.table == Annotate(table, rate)
    ensures r.Some? ==> r.value.summary == Summarise(Entries(table), rate, Countries)
    ensures r.Some? ==> r.value.summary.Keys == CountriesOf(Entries(table))
    ensures r.Some? && France in r.value.summary ==> r.value.summary[France].usd == 0.0
    ensures r.Some? && UnitedStates in r.value.summary ==>
              r.value.summary[UnitedStates].usd == Total(OfCountry(Entries(table), UnitedStates), rate, UsdColumn)
  {
    assert UsdDefault(Countries, UnitedStates) && !UsdDefault(Countries, France);
    Dividends.ProcessDividends(table, rate, Countries)
  }

  /** The spellings of the other page's list are not in this one, so a
      USD entry recorded under the accented US name gets no USD column. */
  lemma AccentedNamesUnlisted(table: seq<Row>, rate: real)
    ensures var r := ProcessDividends(table, rate);
            r.Some? && "Spojené štáty americké" in r.value.summary ==>
              r.value.summary["Spojené štáty americké"].usd == 0.0
  {
    assert Lookup(Countries, "Spojené štáty americké").None?;
  }

  /** One page run: only when the table is not empty, the entries are shown
      without their derived columns and then summarised; at rate 0 a USD
      entry makes the summariser raise after the entries are shown. */
  function Render(table: seq<Row>, rate: real): (p: Page)
    ensures p.view.NoEntries? <==> |table| == 0
    ensures Entries(p.table) == Entries(table)
    ensures p.view.NoEntries? ==> p.table == table
    ensures p.view.Shown? && p.view.summary.None? ==> p.table == table
    ensures p.view.Shown? && p.view.summary.Some? ==>
              AllConvertible(Entries(table), rate) && p.table == Annotate(table, rate)
    ensures p.view.Shown? ==>
              && Entries(p.view.rows) == Entries(table)
              && (forall i :: 0 <= i < |p.view.rows| ==> p.view.rows[i].derived.None?)
              && (p.view.summary.None? <==> rate == 0.0 && HasUsdEntry(table))
              && (p.view.summary.Some? ==>
                    AllConvertible(Entries(table), rate)
                    && p.view.summary.value == Summarise(Entries(table), rate, Countries))
  {
    if |table| == 0 then Page(table, NoEntries)
    else
      match ProcessDividends(table, rate)
      case None => Page(table, Shown(DropDerived(table), None))
      case Some(r) => Page(r.table, Shown(DropDerived(table), Some(r.summary)))
  }

  /** Pressing "Add Dividend" and re-rendering: the entries are shown, and
      at any non-zero rate the summary has a row for the new entry's country. */
  lemma AddThenRender(table: seq<Row>, f: Form, rate: real)
    requires ValidForm(f)
    ensures var p := Render(AddDividend(table, f), rate);
            && p.view.Shown?
            && (p.view.summary.Some? ==> f.country in p.view.summary.value)
            && (rate != 0.0 ==> p.view.summary.Some?)
  {
    var es := Entries(AddDividend(table, f));
    assert es[|es| - 1].country == f.country;
    assert f.country in CountriesOf(es);
  }
}
