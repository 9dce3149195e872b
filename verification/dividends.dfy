/** The dividend summariser: per-entry conversion to EUR, withholding tax,
    and aggregation by country, with a USD column gated by a reference list
    of countries. Both pages of the system call it, each with its own list. */
module Dividends {

  import opened Wrappers

  /** One row of the entry table, as the "Add Dividend" form records it.
      `taxPercent` is in percentage points (15.0 means 15%). */
  datatype Entry = Entry(
    country: string,
    dividends: real,
    currency: string,
    taxPercent: real,
    source: string)

  /** The two columns the summariser writes back into the entry table:
      "Dividends (EUR)" and the after-tax EUR column. */
  datatype Derived = Derived(eur: real, afterTax: real)

  /** A row of the entry table: the recorded fields, plus the derived
      columns if a previous summary has written them. */
  datatype Row = Row(entry: Entry, derived: Option<Derived>)

  /** An item of a reference country list: numeric code, display name,
      default withholding rate as a fraction, default currency. */
  datatype CountryInfo = CountryInfo(code: string, name: string, taxRate: real, currency: string)

  /** One summary row: "Dividends (EUR)", the after-tax EUR sum, "Dividends (USD)". */
  datatype Totals = Totals(eur: real, afterTax: real, usd: real)

  /** The summary table keyed by the exact country string. */
  type Summary = map<string, Totals>

  /** The three summed columns, to state facts about them once. */
  datatype Column = EurColumn | AfterTaxColumn | UsdColumn

  /** The first item of `countries` whose name is `name`, if any. */
  function Lookup(countries: seq<CountryInfo>, name: string): (r: Option<CountryInfo>)
    ensures r.None? <==> forall i :: 0 <= i < |countries| ==> countries[i].name != name
    ensures r.Some? ==> exists i :: 0 <= i < |countries| && countries[i] == r.value
                                  && r.value.name == name
                                  && forall j :: 0 <= j < i ==> countries[j].name != name
  {
    if |countries| == 0 then None
    else if countries[0].name == name then Some(countries[0])
    else
      var r := Lookup(countries[1..], name);
      assert r.Some? ==> exists i :: 0 <= i < |countries| - 1 && countries[1..][i] == r.value
                                    && forall j :: 0 <= j < i ==> countries[1..][j].name != name;
      r
  }

  /** The reference list declares USD as the default currency of `name`. */
  predicate UsdDefault(countries: seq<CountryInfo>, name: string) {
    var d := Lookup(countries, name);
    d.Some? && d.value.currency == "USD"
  }

  /** Only a "USD" amount is divided by the rate, so only a USD entry needs a
      non-zero rate; at rate 0 a USD entry raises ZeroDivisionError. */
  predicate Convertible(e: Entry, rate: real) {
    e.currency == "USD" ==> rate != 0.0
  }

  /** No entry is in USD. */
  predicate UsdFree(es: seq<Entry>) {
    forall i :: 0 <= i < |es| ==> es[i].currency != "USD"
  }

  /** Every entry can be converted: the rate is non-zero, or no entry is in USD. */
  predicate AllConvertible(es: seq<Entry>, rate: real) {
    rate != 0.0 || UsdFree(es)
  }

  /** The entry's amount in EUR: only "USD" amounts are divided by the
      EUR-to-USD rate; every other currency passes through unchanged. */
  function ToEur(e: Entry, rate: real): (r: real)
    requires Convertible(e, rate)
    ensures e.currency == "USD" ==> r * rate == e.dividends
    ensures e.currency != "USD" ==> r == e.dividends
  {
    if e.currency == "USD" then e.dividends / rate else e.dividends
  }

  /** The EUR amount left after withholding `taxPercent` percent; no clamping. */
  function AfterTax(eur: real, taxPercent: real): (r: real)
    ensures eur - r == eur * taxPercent / 100.0
    ensures taxPercent == 0.0 ==> r == eur
    ensures eur >= 0.0 && 0.0 <= taxPercent <= 100.0 ==> 0.0 <= r <= eur
    ensures eur > 0.0 && taxPercent > 100.0 ==> r < 0.0
  {
    eur * (1.0 - taxPercent / 100.0)
  }

  /** What one entry contributes to a column of its country's summary row. */
  function Amount(e: Entry, rate: real, col: Column): real
    requires Convertible(e, rate)
  {
    match col
    case EurColumn => ToEur(e, rate)
    case AfterTaxColumn => AfterTax(ToEur(e, rate), e.taxPercent)
    case UsdColumn => if e.currency == "USD" then e.dividends else 0.0
  }

  /** The column total over a sequence of entries. */
  function Total(es: seq<Entry>, rate: real, col: Column): real
    requires AllConvertible(es, rate)
  {
    if |es| == 0 then 0.0
    else Total(es[..|es| - 1], rate, col) + Amount(es[|es| - 1], rate, col)
  }

  /** The distinct country strings occurring in the entries. */
  function CountriesOf(es: seq<Entry>): set<string> {
    set i | 0 <= i < |es| :: es[i].country
  }

  /** The entries of country `c`, in their original order. */
  function OfCountry(es: seq<Entry>, c: string): (r: seq<Entry>)
    ensures |r| <= |es|
    ensures forall i :: 0 <= i < |r| ==> r[i].country == c
    ensures UsdFree(es) ==> UsdFree(r)
    ensures c !in CountriesOf(es) ==> r == []
  {
    if |es| == 0 then []
    else
      var p := OfCountry(es[..|es| - 1], c);
      assert es[..|es| - 1] + [es[|es| - 1]] == es;
      assert CountriesOf(es) == CountriesOf(es[..|es| - 1]) + {es[|es| - 1].country} by {
        CountriesOfSnoc(es[..|es| - 1], es[|es| - 1]);
      }
      if es[|es| - 1].country == c then p + [es[|es| - 1]] else p
  }

  /** The selection keeps every entry of `c`, as often as it occurs, and
      nothing else: `df[df["Country"] == c]`. */
  lemma {:induction false} OfCountryKeepsAll(es: seq<Entry>, c: string)
    ensures forall x :: multiset(OfCountry(es, c))[x] == if x.country == c then multiset(es)[x] else 0
    decreases |es|
  {
    if |es| > 0 {
      var p := es[..|es| - 1];
      assert p + [es[|es| - 1]] == es;
      assert multiset(es) == multiset(p) + multiset{es[|es| - 1]};
      OfCountryKeepsAll(p, c);
    }
  }

  lemma CountriesOfSnoc(es: seq<Entry>, e: Entry)
    ensures CountriesOf(es + [e]) == CountriesOf(es) + {e.country}
  {
    var s := es + [e];
    forall c | c in CountriesOf(s)
      ensures c in CountriesOf(es) + {e.country}
    {
      var i :| 0 <= i < |s| && s[i].country == c;
      if i < |es| {
        assert es[i] == s[i];
      }
    }
    forall c | c in CountriesOf(es)
      ensures c in CountriesOf(s)
    {
      var i :| 0 <= i < |es| && es[i].country == c;
      assert s[i] == es[i];
    }
    assert s[|es|] == e;
  }

  lemma OfCountrySnoc(es: seq<Entry>, e: Entry, c: string)
    ensures OfCountry(es + [e], c) == if e.country == c then OfCountry(es, c) + [e] else OfCountry(es, c)
  {
    assert (es + [e])[..|es|] == es;
  }

  /** Appending an entry keeps the table convertible exactly when the entry is. */
  lemma ConvertibleSnoc(es: seq<Entry>, e: Entry, rate: real)
    ensures AllConvertible(es + [e], rate) <==> AllConvertible(es, rate) && Convertible(e, rate)
  {
    if rate == 0.0 {
      if UsdFree(es + [e]) {
        assert forall i :: 0 <= i < |es| ==> es[i] == (es + [e])[i];
        assert e == (es + [e])[|es|];
      }
    }
  }

  lemma TotalSnoc(es: seq<Entry>, e: Entry, rate: real, col: Column)
    requires AllConvertible(es + [e], rate) && AllConvertible(es, rate) && Convertible(e, rate)
    ensures Total(es + [e], rate, col) == Total(es, rate, col) + Amount(e, rate, col)
  {
    assert (es + [e])[..|es|] == es;
  }

  /** The per-country EUR and after-tax sums of `es` are recorded in `g`. */
  ghost predicate GroupedSums(es: seq<Entry>, rate: real, g: map<string, Derived>)
    requires AllConvertible(es, rate)
  {
    && g.Keys == CountriesOf(es)
    && forall c :: c in g ==>
         g[c] == Derived(Total(OfCountry(es, c), rate, EurColumn),
                         Total(OfCountry(es, c), rate, AfterTaxColumn))
  }

  /** Adds one entry's EUR and after-tax amounts to its country's group. */
  function AddToGroup(g: map<string, Derived>, e: Entry, rate: real): map<string, Derived>
    requires Convertible(e, rate)
  {
    var prev := if e.country in g then g[e.country] else Derived(0.0, 0.0);
    g[e.country := Derived(prev.eur + Amount(e, rate, EurColumn),
                           prev.afterTax + Amount(e, rate, AfterTaxColumn))]
  }

  /** The group of the appended entry's own country grows by its amounts. */
  lemma AddToGroupOwn(es: seq<Entry>, e: Entry, rate: real, g: map<string, Derived>)
    requires AllConvertible(es + [e], rate) && AllConvertible(es, rate) && Convertible(e, rate)
    requires GroupedSums(es, rate, g)
    ensures AddToGroup(g, e, rate)[e.country]
            == Derived(Total(OfCountry(es + [e], e.country), rate, EurColumn),
                       Total(OfCountry(es + [e], e.country), rate, AfterTaxColumn))
  {
    var c := e.country;
    OfCountrySnoc(es, e, c);
    var xs := OfCountry(es, c);
    ConvertibleSnoc(xs, e, rate);
    TotalSnoc(xs, e, rate, EurColumn);
    TotalSnoc(xs, e, rate, AfterTaxColumn);
    if c !in g {
      assert xs == [];
    }
  }

  /** The group of any other country is left as it was. */
  lemma AddToGroupOther(es: seq<Entry>, e: Entry, rate: real, g: map<string, Derived>, c: string)
    requires AllConvertible(es + [e], rate) && AllConvertible(es, rate) && Convertible(e, rate)
    requires GroupedSums(es, rate, g) && c in g && c != e.country
    ensures AddToGroup(g, e, rate)[c]
            == Derived(Total(OfCountry(es + [e], c), rate, EurColumn),
                       Total(OfCountry(es + [e], c), rate, AfterTaxColumn))
  {
    OfCountrySnoc(es, e, c);
  }

  lemma AddToGroupKeeps(es: seq<Entry>, e: Entry, rate: real, g: map<string, Derived>)
    requires AllConvertible(es + [e], rate) && AllConvertible(es, rate) && Convertible(e, rate)
    requires GroupedSums(es, rate, g)
    ensures GroupedSums(es + [e], rate, AddToGroup(g, e, rate))
  {
    var g1 := AddToGroup(g, e, rate);
    CountriesOfSnoc(es, e);
    assert g1.Keys == CountriesOf(es + [e]);
    forall c | c in g1
      ensures g1[c] == Derived(Total(OfCountry(es + [e], c), rate, EurColumn),
                               Total(OfCountry(es + [e], c), rate, AfterTaxColumn))
    {
      if c == e.country {
        AddToGroupOwn(es, e, rate, g);
      } else {
        AddToGroupOther(es, e, rate, g, c);
      }
    }
  }

  /** The per-country EUR and after-tax sums, accumulated entry by entry the
      way a group-by sum does. */
  function GroupSums(es: seq<Entry>, rate: real): (g: map<string, Derived>)
    requires AllConvertible(es, rate)
    ensures g.Keys == CountriesOf(es)
    ensures forall c :: c in g ==>
              g[c] == Derived(Total(OfCountry(es, c), rate, EurColumn),
                              Total(OfCountry(es, c), rate, AfterTaxColumn))
  {
    if |es| == 0 then map[]
    else
      var p := es[..|es| - 1];
      assert p + [es[|es| - 1]] == es;
      var g' := GroupSums(p, rate);
      AddToGroupKeeps(p, es[|es| - 1], rate, g');
      AddToGroup(g', es[|es| - 1], rate)
  }

  /** The summary table: one row per distinct country string; EUR and
      after-tax sums over that country's entries; the USD column is the sum
      of the original amounts of the country's "USD" entries when the first
      matching reference item declares USD, and 0 otherwise. */
  function Summarise(es: seq<Entry>, rate: real, countries: seq<CountryInfo>): (s: Summary)
    requires AllConvertible(es, rate)
    ensures s.Keys == CountriesOf(es)
    ensures forall c :: c in s ==> s[c].eur == Total(OfCountry(es, c), rate, EurColumn)
    ensures forall c :: c in s ==> s[c].afterTax == Total(OfCountry(es, c), rate, AfterTaxColumn)
    ensures forall c :: c in s && UsdDefault(countries, c) ==>
              s[c].usd == Total(OfCountry(es, c), rate, UsdColumn)
    ensures forall c :: c in s && !UsdDefault(countries, c) ==> s[c].usd == 0.0
  {
    var g := GroupSums(es, rate);
    map c | c in g :: Totals(g[c].eur, g[c].afterTax,
                             if UsdDefault(countries, c) then Total(OfCountry(es, c), rate, UsdColumn) else 0.0)
  }

  /** The recorded fields of each row, without the derived columns. */
  function Entries(table: seq<Row>): (r: seq<Entry>)
    ensures |r| == |table|
    ensures forall i :: 0 <= i < |table| ==> r[i] == table[i].entry
  {
    seq(|table|, i requires 0 <= i < |table| => table[i].entry)
  }

  /** The entry table after the summariser wrote its two derived columns:
      the recorded fields are untouched. */
  function Annotate(table: seq<Row>, rate: real): (r: seq<Row>)
    requires AllConvertible(Entries(table), rate)
    ensures Entries(r) == Entries(table)
    ensures forall i :: 0 <= i < |r| ==>
              r[i].derived == Some(Derived(ToEur(r[i].entry, rate),
                                           AfterTax(ToEur(r[i].entry, rate), r[i].entry.taxPercent)))
  {
    seq(|table|, i requires 0 <= i < |table| =>
      Row(table[i].entry, Some(Derived(ToEur(table[i].entry, rate),
                                       AfterTax(ToEur(table[i].entry, rate), table[i].entry.taxPercent)))))
  }

  /** A call of the summariser: the table it leaves behind and the summary. */
  datatype Processed = Processed(table: seq<Row>, summary: Summary)

  /** Some row is a "USD" entry. */
  predicate HasUsdEntry(table: seq<Row>) {
    exists i :: 0 <= i < |table| && table[i].entry.currency == "USD"
  }

  /** `process_dividends(df, conversion_rate, countries)`. None is the
      ZeroDivisionError a "USD" row raises at rate 0, before any column is
      written; any other table is summarised, at rate 0 too. */
  function ProcessDividends(table: seq<Row>, rate: real, countries: seq<CountryInfo>): (r: Option<Processed>)
    ensures r.None? <==> rate == 0.0 && HasUsdEntry(table)
    ensures r.Some? <==> AllConvertible(Entries(table), rate)
    ensures r.Some? ==> Entries(r.value.table) == Entries(table)
    ensures r.Some? ==> r.value.table == Annotate(table, rate)
    ensures r.Some? ==> r.value.summary.Keys == CountriesOf(Entries(table))
    ensures r.Some? ==> r.value.summary == Summarise(Entries(table), rate, countries)
  {
    var es := Entries(table);
    if rate == 0.0 && HasUsdEntry(table) then None
    else Some(Processed(Annotate(table, rate), Summarise(es, rate, countries)))
  }

  /** Only the derived columns are written, so a second call on the table
      the first call left behind changes nothing and yields the same summary. */
  lemma ProcessTwice(table: seq<Row>, rate: real, countries: seq<CountryInfo>)
    ensures var r := ProcessDividends(table, rate, countries);
            r.Some? ==> ProcessDividends(r.value.table, rate, countries) == r
  {
    var r := ProcessDividends(table, rate, countries);
    if r.Some? {
      var t1 := Annotate(table, rate);
      assert Entries(t1) == Entries(table);
      var t2 := Annotate(t1, rate);
      assert |t2| == |t1|;
      assert forall i :: 0 <= i < |t1| ==> t2[i] == t1[i];
      assert t2 == t1;
    }
  }

  /** Pairwise different keys. */
  ghost predicate NoDuplicates(keys: seq<string>) {
    forall i, j :: 0 <= i < j < |keys| ==> keys[i] != keys[j]
  }

  /** A column of a summary row. */
  function ColumnOf(t: Totals, col: Column): real {
    match col
    case EurColumn => t.eur
    case AfterTaxColumn => t.afterTax
    case UsdColumn => t.usd
  }

  /** The column summed over the summary rows named by `keys`. */
  function SumRows(s: Summary, keys: seq<string>, col: Column): real
    requires forall i :: 0 <= i < |keys| ==> keys[i] in s
  {
    if |keys| == 0 then 0.0 else ColumnOf(s[keys[0]], col) + SumRows(s, keys[1..], col)
  }

  /** The column summed over each key's entries. */
  function SumByCountry(es: seq<Entry>, keys: seq<string>, rate: real, col: Column): real
    requires AllConvertible(es, rate)
  {
    if |keys| == 0 then 0.0
    else Total(OfCountry(es, keys[0]), rate, col) + SumByCountry(es, keys[1..], rate, col)
  }

  lemma {:induction false} SumByCountrySnoc(es: seq<Entry>, e: Entry, keys: seq<string>, rate: real, col: Column)
    requires AllConvertible(es + [e], rate) && AllConvertible(es, rate) && Convertible(e, rate)
    requires NoDuplicates(keys)
    ensures SumByCountry(es + [e], keys, rate, col)
            == SumByCountry(es, keys, rate, col) + (if e.country in keys then Amount(e, rate, col) else 0.0)
    decreases |keys|
  {
    if |keys| > 0 {
      OfCountrySnoc(es, e, keys[0]);
      TotalSnoc(OfCountry(es, keys[0]), e, rate, col);
      SumByCountrySnoc(es, e, keys[1..], rate, col);
      assert e.country in keys <==> e.country == keys[0] || e.country in keys[1..];
      assert keys[0] !in keys[1..];
    }
  }

  lemma {:induction false} SumByCountryLossless(es: seq<Entry>, keys: seq<string>, rate: real, col: Column)
    requires AllConvertible(es, rate) && NoDuplicates(keys)
    requires forall i :: 0 <= i < |es| ==> es[i].country in keys
    ensures SumByCountry(es, keys, rate, col) == Total(es, rate, col)
    decreases |es|
  {
    if |es| == 0 {
      SumByCountryEmpty(keys, rate, col);
    } else {
      var p := es[..|es| - 1];
      var e := es[|es| - 1];
      assert p + [e] == es;
      SumByCountryLossless(p, keys, rate, col);
      SumByCountrySnoc(p, e, keys, rate, col);
    }
  }

  lemma {:induction false} SumByCountryEmpty(keys: seq<string>, rate: real, col: Column)
    ensures SumByCountry([], keys, rate, col) == 0.0
    decreases |keys|
  {
    if |keys| > 0 {
      SumByCountryEmpty(keys[1..], rate, col);
    }
  }

  lemma {:induction false} SumRowsByCountry(es: seq<Entry>, rate: real, countries: seq<CountryInfo>,
                                            keys: seq<string>, col: Column)
    requires AllConvertible(es, rate) && col != UsdColumn
    requires forall i :: 0 <= i < |keys| ==> keys[i] in Summarise(es, rate, countries)
    ensures SumRows(Summarise(es, rate, countries), keys, col) == SumByCountry(es, keys, rate, col)
    decreases |keys|
  {
    if |keys| > 0 {
      SumRowsByCountry(es, rate, countries, keys[1..], col);
    }
  }

  /** Aggregation is lossless: summing the EUR (or after-tax) column over
      all summary rows, listed once each in any order, gives the sum over
      every entry. */
  lemma SummaryLossless(es: seq<Entry>, rate: real, countries: seq<CountryInfo>,
                        keys: seq<string>, col: Column)
    requires AllConvertible(es, rate) && col != UsdColumn
    requires NoDuplicates(keys)
    requires forall k :: k in Summarise(es, rate, countries) <==> k in keys
    ensures SumRows(Summarise(es, rate, countries), keys, col) == Total(es, rate, col)
  {
    var s := Summarise(es, rate, countries);
    forall i | 0 <= i < |es|
      ensures es[i].country in keys
    {
      assert es[i].country in CountriesOf(es);
    }
    SumRowsByCountry(es, rate, countries, keys, col);
    SumByCountryLossless(es, keys, rate, col);
  }

  /** Appending one entry adds its country's row if it was missing, and
      leaves every other country's summary row as it was. */
  lemma AddEntryOthers(es: seq<Entry>, e: Entry, rate: real, countries: seq<CountryInfo>)
    requires AllConvertible(es + [e], rate) && AllConvertible(es, rate) && Convertible(e, rate)
    ensures var s0 := Summarise(es, rate, countries);
            var s1 := Summarise(es + [e], rate, countries);
            && s1.Keys == s0.Keys + {e.country}
            && forall c :: c in s0 && c != e.country ==> s1[c] == s0[c]
  {
    var s0 := Summarise(es, rate, countries);
    var s1 := Summarise(es + [e], rate, countries);
    CountriesOfSnoc(es, e);
    forall c | c in s0 && c != e.country
      ensures s1[c] == s0[c]
    {
      OfCountrySnoc(es, e, c);
    }
  }

  /** Appending one entry adds exactly that entry's contribution to each
      column of its own country's summary row; its original amount reaches
      the USD column only when it is a "USD" entry of a USD-default country. */
  lemma AddEntryOwn(es: seq<Entry>, e: Entry, rate: real, countries: seq<CountryInfo>)
    requires AllConvertible(es + [e], rate) && AllConvertible(es, rate) && Convertible(e, rate)
    ensures var s0 := Summarise(es, rate, countries);
            var s1 := Summarise(es + [e], rate, countries);
            var t := if e.country in s0 then s0[e.country] else Totals(0.0, 0.0, 0.0);
            && e.country in s1
            && s1[e.country].eur == t.eur + ToEur(e, rate)
            && s1[e.country].afterTax == t.afterTax + AfterTax(ToEur(e, rate), e.taxPercent)
            && s1[e.country].usd
               == t.usd + (if UsdDefault(countries, e.country) && e.currency == "USD" then e.dividends else 0.0)
  {
    var c := e.country;
    CountriesOfSnoc(es, e);
    OfCountrySnoc(es, e, c);
    var xs := OfCountry(es, c);
    TotalSnoc(xs, e, rate, EurColumn);
    TotalSnoc(xs, e, rate, AfterTaxColumn);
    TotalSnoc(xs, e, rate, UsdColumn);
    if c !in CountriesOf(es) {
      assert xs == [];
    }
  }
}
