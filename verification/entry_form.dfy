/** The entry-collection side of both dividend pages: form defaults looked
    up in a reference list, the append-only entry table, and what a page
    shows of it. */
module EntryForm {

  import opened Wrappers
  import opened Dividends

  /** The "Currency" selectbox options, in order. */
  const Currencies: seq<string> := ["EUR", "USD"]

  /** The "Source" selectbox options, in order. */
  const Sources: seq<string> := ["IBKR", "Revolut", "Schwab"]

  /** A number input with `min_value=0.0` and no upper bound. */
  type NonNegative = x: real | x >= 0.0

  /** `["EUR", "USD"].index(c)`: None where Python raises ValueError. */
  function CurrencyIndex(c: string): (r: Option<nat>)
    ensures r.Some? <==> c in Currencies
    ensures r.Some? ==> r.value < |Currencies| && Currencies[r.value] == c
  {
    if c == "EUR" then Some(0) else if c == "USD" then Some(1) else None
  }

  /** The default withholding rate as a fraction: the reference item's, or
      0.15 when the selected country is not listed. */
  function FractionDefault(countries: seq<CountryInfo>, selected: string): (r: real)
    ensures Lookup(countries, selected).Some? ==> r == Lookup(countries, selected).value.taxRate
    ensures Lookup(countries, selected).None? ==> r == 0.15
  {
    match Lookup(countries, selected)
    case Some(d) => d.taxRate
    case None => 0.15
  }

  /** The default "Tax %" value in percentage points: the reference item's
      rate times 100, or 15 when the selected country is not listed. */
  function PercentDefault(countries: seq<CountryInfo>, selected: string): (r: real)
    ensures Lookup(countries, selected).Some? ==> r == Lookup(countries, selected).value.taxRate * 100.0
    ensures Lookup(countries, selected).None? ==> r == 15.0
  {
    match Lookup(countries, selected)
    case Some(d) => d.taxRate * 100.0
    case None => 15.0
  }

  /** The preselected currency: the reference item's, or "EUR". */
  function CurrencyDefault(countries: seq<CountryInfo>, selected: string): (r: string)
    ensures Lookup(countries, selected).None? ==> r == "EUR"
    ensures Lookup(countries, selected).Some? ==> r == Lookup(countries, selected).value.currency
    ensures (forall i :: 0 <= i < |countries| ==> countries[i].currency in Currencies) ==> r in Currencies
  {
    match Lookup(countries, selected)
    case Some(d) => d.currency
    case None => "EUR"
  }

  /** Both ways of writing the default agree: the fraction shown times 100
      is the percentage, for a listed and an unlisted country alike. */
  lemma ShownTaxAgrees(countries: seq<CountryInfo>, selected: string)
    ensures FractionDefault(countries, selected) * 100.0 == PercentDefault(countries, selected)
    ensures (forall i :: 0 <= i < |countries| ==> countries[i].taxRate >= 0.0)
            ==> PercentDefault(countries, selected) >= 0.0
  {
    match Lookup(countries, selected)
    case Some(d) =>
    case None =>
  }

  /** A country picked from the selectbox of reference names is always
      found, so its defaults are that item's. */
  lemma SelectedIsListed(countries: seq<CountryInfo>, k: nat)
    requires k < |countries|
    ensures Lookup(countries, countries[k].name).Some?
    ensures Lookup(countries, countries[k].name).value.name == countries[k].name
  {
  }

  /** The form's values at the moment "Add Dividend" is pressed; the two
      selectboxes return one of their options, given here by index. */
  datatype Form = Form(
    country: string,
    taxPercent: NonNegative,
    dividends: NonNegative,
    currency: nat,
    source: nat)

  predicate ValidForm(f: Form) {
    f.currency < |Currencies| && f.source < |Sources|
  }

  /** The record `{Country, Dividends, Currency, Tax %, Source}` the form builds. */
  function EntryOf(f: Form): (e: Entry)
    requires ValidForm(f)
    ensures e.country == f.country && e.dividends == f.dividends && e.taxPercent == f.taxPercent
    ensures e.currency == Currencies[f.currency] && e.source == Sources[f.source]
    ensures e.currency in Currencies && e.source in Sources
    ensures e.dividends >= 0.0 && e.taxPercent >= 0.0
  {
    Entry(f.country, f.dividends, Currencies[f.currency], f.taxPercent, Sources[f.source])
  }

  /** An entry as the form can produce it. */
  predicate ValidEntry(e: Entry) {
    e.dividends >= 0.0 && e.taxPercent >= 0.0 && e.currency in Currencies && e.source in Sources
  }

  predicate ValidTable(table: seq<Row>) {
    forall i :: 0 <= i < |table| ==> ValidEntry(table[i].entry)
  }

  /** "Add Dividend": one new row at the end, without derived columns;
      every earlier row is kept as it was. */
  function AddDividend(table: seq<Row>, f: Form): (r: seq<Row>)
    requires ValidForm(f)
    ensures |r| == |table| + 1 && r[..|table|] == table
    ensures Entries(r) == Entries(table) + [EntryOf(f)]
    ensures r[|table|].derived.None?
    ensures ValidTable(table) ==> ValidTable(r)
  {
    var r := table + [Row(EntryOf(f), None)];
    assert Entries(r) == Entries(table) + [EntryOf(f)];
    r
  }

  /** `drop(columns=[the derived columns], errors='ignore')`: total whether or
      not the derived columns are present, and keeps the recorded fields. */
  function DropDerived(table: seq<Row>): (r: seq<Row>)
    ensures Entries(r) == Entries(table)
    ensures forall i :: 0 <= i < |r| ==> r[i].derived.None?
  {
    seq(|table|, i requires 0 <= i < |table| => Row(table[i].entry, None))
  }

  /** What a dividend page shows below the form: nothing but a message, or
      the entry table followed by the summary; the summary is None when the
      summariser raised, after the entries were already shown. */
  datatype View = NoEntries | Shown(rows: seq<Row>, summary: Option<Summary>)

  /** The entry table after a page run, and what the page showed. */
  datatype Page = Page(table: seq<Row>, view: View)
}
