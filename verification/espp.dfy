/** The pure helpers of the ESPP tax report page: cleaning dollar strings,
    laying out a plain-text table, filtering the spreadsheet's rows, and the
    portfolio cost, value and gain arithmetic. */
module Espp {

  import opened Wrappers
  import opened Text

  // ---------------------------------------------------------------------
  // clean_dollar_value
  // ---------------------------------------------------------------------

  /** The ASCII characters Python's `str.strip()` removes: blank, tab, the
      line and page breaks, and the four information separators 0x1C-0x1F. */
  predicate IsSpace(c: char) {
    || c == ' ' || c == '\t' || c == '\n' || c == '\r' || c == '\U{0B}' || c == '\U{0C}'
    || c == '\U{1C}' || c == '\U{1D}' || c == '\U{1E}' || c == '\U{1F}'
  }

  predicate IsDigit(c: char) {
    '0' <= c <= '9'
  }

  predicate AllDigits(s: string) {
    forall i :: 0 <= i < |s| ==> IsDigit(s[i])
  }

  /** `s.replace(c, "")`. */
  function Remove(s: string, c: char): (r: string)
    ensures c !in r
    ensures forall x :: x in r <==> x in s && x != c
  {
    if |s| == 0 then ""
    else if s[0] == c then Remove(s[1..], c)
    else [s[0]] + Remove(s[1..], c)
  }

  /** Every other character is kept as often as it occurs; with
      `RemoveConcat`, also in its original order. */
  lemma {:induction false} RemoveCounts(s: string, c: char)
    ensures multiset(Remove(s, c)) == multiset(s)[c := 0]
    decreases |s|
  {
    if |s| > 0 {
      assert s == [s[0]] + s[1..];
      assert multiset(s) == multiset{s[0]} + multiset(s[1..]);
      RemoveCounts(s[1..], c);
    }
  }

  lemma {:induction false} RemoveConcat(a: string, b: string, c: char)
    ensures Remove(a + b, c) == Remove(a, c) + Remove(b, c)
    decreases |a|
  {
    if |a| > 0 {
      assert (a + b)[1..] == a[1..] + b;
      RemoveConcat(a[1..], b, c);
    } else {
      assert a + b == b;
    }
  }

  lemma RemoveAbsent(s: string, c: char)
    requires c !in s
    ensures Remove(s, c) == s
  {
    if |s| > 0 {
      assert c !in s[1..];
      RemoveAbsent(s[1..], c);
    }
  }

  /** `s.lstrip()`: drop leading whitespace. */
  function StripLeft(s: string): (r: string)
    ensures |r| <= |s| && r == s[|s| - |r|..]
    ensures forall i :: 0 <= i < |s| - |r| ==> IsSpace(s[i])
    ensures |r| > 0 ==> !IsSpace(r[0])
  {
    if |s| > 0 && IsSpace(s[0]) then StripLeft(s[1..]) else s
  }

  /** `s.rstrip()`: drop trailing whitespace. */
  function StripRight(s: string): (r: string)
    ensures |r| <= |s| && r == s[..|r|]
    ensures forall i :: |r| <= i < |s| ==> IsSpace(s[i])
    ensures |r| > 0 ==> !IsSpace(r[|r| - 1])
  {
    if |s| > 0 && IsSpace(s[|s| - 1]) then StripRight(s[..|s| - 1]) else s
  }

  /** `s.strip()`. */
  function Strip(s: string): (r: string)
    ensures |r| > 0 ==> !IsSpace(r[0]) && !IsSpace(r[|r| - 1])
  {
    StripLeft(StripRight(s))
  }

  /** What `clean_dollar_value` hands to `float`: every "$" and "," removed,
      then surrounding whitespace stripped. */
  function Cleaned(s: string): (r: string)
    ensures '$' !in r && ',' !in r
    ensures |r| > 0 ==> !IsSpace(r[0]) && !IsSpace(r[|r| - 1])
  {
    var t := Strip(Remove(Remove(s, '$'), ','));
    assert forall x :: x in t ==> x in Remove(Remove(s, '$'), ',');
    t
  }

  /** The cleaned text is what is left of the input once every "$" and ","
      is removed, less only whitespace on either side. */
  lemma CleanedIsStripped(s: string)
    ensures exists i, j :: StrippedAt(Remove(Remove(s, '$'), ','), Cleaned(s), i, j)
  {
    var t := Remove(Remove(s, '$'), ',');
    StripIsSlice(t);
    var i, j :| StrippedAt(t, Strip(t), i, j);
    assert Cleaned(s) == Strip(t);
  }

  /** `r` is the slice `t[i..j]` and only whitespace lies outside it. */
  predicate StrippedAt(t: string, r: string, i: int, j: int) {
    0 <= i <= j <= |t| && r == t[i..j] && Blank(t[..i]) && Blank(t[j..])
  }

  /** `rstrip` keeps a prefix and drops only whitespace after it. */
  lemma StripRightSlice(t: string)
    ensures var u := StripRight(t); u == t[..|u|] && Blank(t[|u|..])
  {
    var u := StripRight(t);
    var q := t[|u|..];
    forall k | 0 <= k < |q|
      ensures IsSpace(q[k])
    {
      assert q[k] == t[|u| + k];
    }
  }

  /** `lstrip` keeps a suffix and drops only whitespace before it. */
  lemma StripLeftSlice(u: string)
    ensures var r := StripLeft(u); r == u[|u| - |r|..] && Blank(u[..|u| - |r|])
  {
    var r := StripLeft(u);
    var p := u[..|u| - |r|];
    forall k | 0 <= k < |p|
      ensures IsSpace(p[k])
    {
      assert p[k] == u[k];
    }
  }

  /** `strip` keeps a slice and drops only whitespace on either side of it. */
  lemma StripIsSlice(t: string)
    ensures exists i, j :: StrippedAt(t, Strip(t), i, j)
  {
    var u := StripRight(t);
    var r := StripLeft(u);
    StripRightSlice(t);
    StripLeftSlice(u);
    var j := |u|;
    var i := |u| - |r|;
    assert Strip(t) == r == u[i..];
    assert u == t[..j];
    assert u[i..] == t[i..j];
    assert u[..i] == t[..i];
    assert Blank(t[..i]) && Blank(t[j..]);
    assert StrippedAt(t, Strip(t), i, j);
  }

  function DigitsValue(s: string): nat
    requires AllDigits(s)
  {
    if |s| == 0 then 0 else 10 * DigitsValue(s[..|s| - 1]) + (s[|s| - 1] as int - '0' as int)
  }

  function Pow10(n: nat): (r: nat)
    ensures r > 0
  {
    if n == 0 then 1 else 10 * Pow10(n - 1)
  }

  /** The index of the first '.', or |s| when there is none. */
  function DotIndex(s: string): (k: nat)
    ensures k <= |s|
    ensures k < |s| ==> s[k] == '.'
    ensures forall i :: 0 <= i < k ==> s[i] != '.'
  {
    if |s| == 0 then 0 else if s[0] == '.' then 0 else 1 + DotIndex(s[1..])
  }

  /** An unsigned decimal: digits, optionally '.' and more digits, with at
      least one digit in all. */
  function ParseUnsigned(s: string): Option<real> {
    var k := DotIndex(s);
    var whole := s[..k];
    var frac := if k < |s| then s[k + 1..] else "";
    if AllDigits(whole) && AllDigits(frac) && |whole| + |frac| > 0 then
      Some(DigitsValue(whole) as real + DigitsValue(frac) as real / Pow10(|frac|) as real)
    else None
  }

  /** The decimal grammar accepted in place of Python's `float(str)`:
      an optional sign, then an unsigned decimal. */
  function ParseNumber(s: string): Option<real> {
    if |s| > 0 && (s[0] == '+' || s[0] == '-') then
      match ParseUnsigned(s[1..])
      case None => None
      case Some(v) => Some(if s[0] == '-' then -v else v)
    else ParseUnsigned(s)
  }

  /** Only digits and at most one '.', with at least one digit. */
  ghost predicate UnsignedDecimal(u: string) {
    && (forall i :: 0 <= i < |u| ==> IsDigit(u[i]) || u[i] == '.')
    && (forall i, j :: 0 <= i < j < |u| && u[i] == '.' ==> u[j] != '.')
    && (exists i :: 0 <= i < |u| && IsDigit(u[i]))
  }

  /** What the grammar accepts: an optional sign, then an unsigned decimal. */
  ghost predicate WellFormedNumber(s: string) {
    if |s| > 0 && (s[0] == '+' || s[0] == '-') then UnsignedDecimal(s[1..]) else UnsignedDecimal(s)
  }

  lemma ParseUnsignedSound(u: string)
    requires ParseUnsigned(u).Some?
    ensures UnsignedDecimal(u)
  {
    var k := DotIndex(u);
    var frac := if k < |u| then u[k + 1..] else "";
    assert AllDigits(u[..k]) && AllDigits(frac);
    forall i | 0 <= i < |u|
      ensures IsDigit(u[i]) || u[i] == '.'
      ensures i != k ==> IsDigit(u[i])
    {
      if i < k {
        assert u[i] == u[..k][i];
      } else if i > k {
        assert u[i] == frac[i - k - 1];
      }
    }
    if k > 0 {
      assert IsDigit(u[0]);
    } else {
      assert IsDigit(u[k + 1]);
    }
  }

  lemma ParseUnsignedComplete(u: string)
    requires UnsignedDecimal(u)
    ensures ParseUnsigned(u).Some?
  {
    var k := DotIndex(u);
    var frac := if k < |u| then u[k + 1..] else "";
    forall i | 0 <= i < |frac|
      ensures IsDigit(frac[i])
    {
      assert frac[i] == u[k + 1 + i];
    }
    var d :| 0 <= d < |u| && IsDigit(u[d]);
    if d < k {
      assert |u[..k]| > 0;
    } else {
      assert |frac| > 0;
    }
  }

  lemma ParseUnsignedAccepts(u: string)
    ensures ParseUnsigned(u).Some? <==> UnsignedDecimal(u)
  {
    if ParseUnsigned(u).Some? {
      ParseUnsignedSound(u);
    }
    if UnsignedDecimal(u) {
      ParseUnsignedComplete(u);
    }
  }

  /** The parser accepts exactly the strings of its grammar. */
  lemma ParseNumberAccepts(s: string)
    ensures ParseNumber(s).Some? <==> WellFormedNumber(s)
  {
    if |s| > 0 && (s[0] == '+' || s[0] == '-') {
      ParseUnsignedAccepts(s[1..]);
    } else {
      ParseUnsignedAccepts(s);
    }
  }

  /** `clean_dollar_value(value)` applied to `str(value)`: None for an empty
      remainder and for one that does not parse, never an exception. */
  function CleanDollarValue(s: string): (r: Option<real>)
    ensures |Cleaned(s)| == 0 ==> r.None?
    ensures r.Some? <==> WellFormedNumber(Cleaned(s))
  {
    var t := Cleaned(s);
    ParseNumberAccepts(t);
    if |t| == 0 then None else ParseNumber(t)
  }

  // Display of money amounts, `f"{x:,.2f}"` for x a whole number of cents.

  function DigitChar(d: nat): (c: char)
    requires d < 10
    ensures IsDigit(c) && c as int - '0' as int == d
  {
    ('0' as int + d) as char
  }

  /** The decimal digits of `n`, most significant first. */
  function ShowNat(n: nat): (r: string)
    ensures |r| > 0 && AllDigits(r)
  {
    if n < 10 then [DigitChar(n)] else ShowNat(n / 10) + [DigitChar(n % 10)]
  }

  lemma {:induction false} ShowNatValue(n: nat)
    ensures DigitsValue(ShowNat(n)) == n
  {
    if n >= 10 {
      ShowNatValue(n / 10);
      var s := ShowNat(n);
      assert s[..|s| - 1] == ShowNat(n / 10);
    }
  }

  /** Two digits for the cents, `m` below 100. */
  function TwoDigits(m: nat): (r: string)
    requires m < 100
    ensures |r| == 2 && AllDigits(r) && DigitsValue(r) == m
  {
    var r := [DigitChar(m / 10), DigitChar(m % 10)];
    assert r[..1] == [DigitChar(m / 10)];
    assert r[..1][..0] == [];
    assert DigitsValue(r[..1]) == m / 10;
    r
  }

  /** The digits with "," between groups of three, counted from the right. */
  function Group(s: string): (r: string)
    ensures forall c :: c in r ==> c in s || c == ','
  {
    if |s| <= 3 then s else Group(s[..|s| - 3]) + "," + s[|s| - 3..]
  }

  lemma NotInSlice(s: string, c: char, i: int, j: int)
    requires c !in s && 0 <= i <= j <= |s|
    ensures c !in s[i..j]
  {
    forall k | 0 <= k < j - i
      ensures s[i..j][k] != c
    {
      assert s[i..j][k] == s[i + k];
    }
  }

  lemma {:induction false} GroupRemove(s: string)
    requires ',' !in s
    ensures Remove(Group(s), ',') == s
  {
    if |s| > 3 {
      var a := s[..|s| - 3];
      var b := s[|s| - 3..];
      NotInSlice(s, ',', 0, |s| - 3);
      NotInSlice(s, ',', |s| - 3, |s|);
      assert s[0..|s| - 3] == a && s[|s| - 3..|s|] == b;
      GroupRemove(a);
      RemoveConcat(Group(a) + ",", b, ',');
      RemoveConcat(Group(a), ",", ',');
      RemoveAbsent(b, ',');
      assert Remove(",", ',') == "";
      assert a + b == s;
    } else {
      RemoveAbsent(s, ',');
    }
  }

  function Magnitude(cents: int): nat {
    if cents < 0 then -cents else cents
  }

  /** A money amount given in cents as the report displays it, with a
      thousands separator and two decimals. */
  function FormatMoney(cents: int): string {
    var a := Magnitude(cents);
    (if cents < 0 then "-" else "") + (Group(ShowNat(a / 100)) + "." + TwoDigits(a % 100))
  }

  predicate Blank(s: string) {
    forall i :: 0 <= i < |s| ==> IsSpace(s[i])
  }

  lemma {:induction false} StripRightPadded(a: string, b: string)
    requires |a| > 0 && !IsSpace(a[|a| - 1]) && Blank(b)
    ensures StripRight(a + b) == a
    decreases |b|
  {
    if |b| > 0 {
      var b' := b[..|b| - 1];
      assert (a + b)[..|a + b| - 1] == a + b';
      StripRightPadded(a, b');
    } else {
      assert a + b == a;
    }
  }

  lemma {:induction false} StripLeftPadded(a: string, b: string)
    requires |b| > 0 && !IsSpace(b[0]) && Blank(a)
    ensures StripLeft(a + b) == b
    decreases |a|
  {
    if |a| > 0 {
      assert (a + b)[1..] == a[1..] + b;
      StripLeftPadded(a[1..], b);
    } else {
      assert a + b == b;
    }
  }

  /** Padding of "$" signs and whitespace cleans away entirely. */
  lemma CleanPadding(p: string)
    requires forall i :: 0 <= i < |p| ==> p[i] == '$' || IsSpace(p[i])
    ensures Remove(Remove(p, '$'), ',') == Remove(p, '$') && Blank(Remove(p, '$'))
  {
    var q := Remove(p, '$');
    assert forall i :: 0 <= i < |q| ==> q[i] in p;
    RemoveAbsent(q, ',');
  }

  lemma ParseShown(n: nat, m: nat)
    requires m < 100
    ensures ParseUnsigned(ShowNat(n) + "." + TwoDigits(m)) == Some(n as real + m as real / 100.0)
  {
    var w := ShowNat(n);
    var u := w + "." + TwoDigits(m);
    DotIndexAfterDigits(w, TwoDigits(m));
    assert u[..|w|] == w;
    assert u[|w| + 1..] == TwoDigits(m);
    ShowNatValue(n);
  }

  lemma DotIndexAfterDigits(w: string, f: string)
    requires AllDigits(w)
    ensures DotIndex(w + "." + f) == |w|
  {
    var u := w + "." + f;
    var k := DotIndex(u);
    assert u[|w|] == '.';
    assert forall i :: 0 <= i < |w| ==> u[i] == w[i];
  }

  /** A non-negative amount in cents without group separators. */
  function PlainUnsigned(a: nat): string {
    ShowNat(a / 100) + "." + TwoDigits(a % 100)
  }

  /** The displayed amount without its group separators. */
  function PlainMoney(cents: int): string {
    (if cents < 0 then "-" else "") + PlainUnsigned(Magnitude(cents))
  }

  lemma PlainMoneyEnds(cents: int)
    ensures |PlainMoney(cents)| > 0
    ensures !IsSpace(PlainMoney(cents)[0]) && !IsSpace(PlainMoney(cents)[|PlainMoney(cents)| - 1])
  {
    var u := PlainUnsigned(Magnitude(cents));
    assert u[|u| - 1] == TwoDigits(Magnitude(cents) % 100)[1];
    assert u[0] == ShowNat(Magnitude(cents) / 100)[0];
  }

  lemma MoneySymbolsRemoved(cents: int)
    ensures Remove(Remove(FormatMoney(cents), '$'), ',') == PlainMoney(cents)
  {
    var a := Magnitude(cents);
    var sign := if cents < 0 then "-" else "";
    var digits := ShowNat(a / 100);
    var tail := "." + TwoDigits(a % 100);
    var f := FormatMoney(cents);
    assert f == (sign + Group(digits)) + tail;
    assert PlainMoney(cents) == (sign + digits) + tail;
    assert '$' !in f;
    RemoveAbsent(f, '$');
    GroupRemove(digits);
    RemoveConcat(sign + Group(digits), tail, ',');
    RemoveConcat(sign, Group(digits), ',');
    RemoveAbsent(sign, ',');
    RemoveAbsent(tail, ',');
  }

  lemma CentsValue(a: nat)
    ensures (a / 100) as real + (a % 100) as real / 100.0 == a as real / 100.0
  {
    assert a == (a / 100) * 100 + a % 100;
  }

  lemma ParseSigned(sign: string, u: string, v: real)
    requires sign == "-" || sign == ""
    requires |u| > 0 && IsDigit(u[0]) && ParseUnsigned(u) == Some(v)
    ensures ParseNumber(sign + u) == Some(if sign == "-" then -v else v)
  {
    var s := sign + u;
    if sign == "-" {
      assert s[0] == '-' && s[1..] == u;
      assert ParseUnsigned(s[1..]) == Some(v);
    } else {
      assert s == u;
      assert !(u[0] == '+' || u[0] == '-');
    }
  }

  lemma PlainUnsignedValue(a: nat)
    ensures ParseUnsigned(PlainUnsigned(a)) == Some(a as real / 100.0)
    ensures IsDigit(PlainUnsigned(a)[0])
  {
    ParseShown(a / 100, a % 100);
    CentsValue(a);
    assert PlainUnsigned(a)[0] == ShowNat(a / 100)[0];
  }

  /** The sign put back in front of the magnitude gives the signed amount. */
  lemma SignedCents(cents: int)
    ensures cents < 0 ==> -(Magnitude(cents) as real / 100.0) == cents as real / 100.0
    ensures cents >= 0 ==> Magnitude(cents) as real / 100.0 == cents as real / 100.0
  {
  }

  lemma ParsePlainMoney(cents: int)
    ensures ParseNumber(PlainMoney(cents)) == Some(cents as real / 100.0)
  {
    var a := Magnitude(cents);
    var u := PlainUnsigned(a);
    PlainUnsignedValue(a);
    SignedCents(cents);
    if cents < 0 {
      NegativeMoney(cents, u);
      ParseSigned("-", u, a as real / 100.0);
    } else {
      assert PlainMoney(cents) == u;
      assert !(u[0] == '+' || u[0] == '-');
    }
  }

  lemma NegativeMoney(cents: int, u: string)
    requires cents < 0 && u == PlainUnsigned(Magnitude(cents))
    ensures PlainMoney(cents) == "-" + u
  {
  }

  lemma {:induction false} RemoveSymbolsAround(pre: string, f: string, post: string)
    requires forall i :: 0 <= i < |pre| ==> pre[i] == '$' || IsSpace(pre[i])
    requires forall i :: 0 <= i < |post| ==> post[i] == '$' || IsSpace(post[i])
    ensures Remove(Remove(pre + f + post, '$'), ',')
            == Remove(pre, '$') + Remove(Remove(f, '$'), ',') + Remove(post, '$')
    ensures Blank(Remove(pre, '$')) && Blank(Remove(post, '$'))
  {
    CleanPadding(pre);
    CleanPadding(post);
    RemoveConcat(pre + f, post, '$');
    RemoveConcat(pre, f, '$');
    var pre', post' := Remove(pre, '$'), Remove(post, '$');
    RemoveConcat(pre' + Remove(f, '$'), post', ',');
    RemoveConcat(pre', Remove(f, '$'), ',');
  }

  /** Cleaning a displayed amount, with any "$" signs and whitespace around
      it, gives the amount back. */
  lemma CleanFormatted(cents: int, pre: string, post: string)
    requires forall i :: 0 <= i < |pre| ==> pre[i] == '$' || IsSpace(pre[i])
    requires forall i :: 0 <= i < |post| ==> post[i] == '$' || IsSpace(post[i])
    ensures CleanDollarValue(pre + FormatMoney(cents) + post) == Some(cents as real / 100.0)
  {
    var core := PlainMoney(cents);
    PlainMoneyEnds(cents);
    var pre', post' := Remove(pre, '$'), Remove(post, '$');
    RemoveSymbolsAround(pre, FormatMoney(cents), post);
    MoneySymbolsRemoved(cents);
    StripRightPadded(pre' + core, post');
    StripLeftPadded(pre', core);
    assert Cleaned(pre + FormatMoney(cents) + post) == core;
    ParsePlainMoney(cents);
  }

  /** A remainder holding anything but digits, a point or a sign (a word
      such as "N/A") gives None instead of an error. */
  lemma NonNumeric(s: string, i: nat)
    requires i < |Cleaned(s)|
    requires !IsDigit(Cleaned(s)[i]) && Cleaned(s)[i] != '.' && Cleaned(s)[i] != '+' && Cleaned(s)[i] != '-'
    ensures CleanDollarValue(s) == None
  {
    var t := Cleaned(s);
    if |t| > 0 && (t[0] == '+' || t[0] == '-') {
      assert t[1..][i - 1] == t[i];
    }
  }

  /** Nothing but symbols and whitespace gives None. */
  lemma OnlySymbols(s: string)
    requires forall i :: 0 <= i < |s| ==> s[i] == '$' || IsSpace(s[i])
    ensures CleanDollarValue(s) == None
  {
    CleanPadding(s);
    var b := Remove(s, '$');
    StripRightBlank(b);
  }

  lemma {:induction false} StripRightBlank(s: string)
    requires Blank(s)
    ensures StripRight(s) == ""
    decreases |s|
  {
    if |s| > 0 {
      StripRightBlank(s[..|s| - 1]);
    }
  }

  // ---------------------------------------------------------------------
  // df_to_text_table
  // ---------------------------------------------------------------------

  /** The glyph the separator line is drawn with. */
  const Rule: char := '─'

  /** A column's stretch of the separator line: `"─" * n`. */
  function Rules(n: nat): (r: string)
    ensures |r| == n && forall k :: 0 <= k < n ==> r[k] == Rule
  {
    seq(n, _ => Rule)
  }

  /** Column separator between cells. */
  const Gap: string := "  "

  /** `f"{s:<{w}}"`: left-justified, padded with spaces, never truncated. */
  function PadRight(s: string, w: nat): (r: string)
    ensures |r| == if |s| >= w then |s| else w
    ensures r[..|s|] == s
    ensures forall i :: |s| <= i < |r| ==> r[i] == ' '
  {
    if |s| >= w then s else s + seq(w - |s|, _ => ' ')
  }

  /** The width of a column: the longest of its header and its cells. */
  function ColumnWidth(header: string, cells: seq<string>): (w: nat)
    ensures |header| <= w
    ensures forall i :: 0 <= i < |cells| ==> |cells[i]| <= w
    ensures w == |header| || exists i :: 0 <= i < |cells| && w == |cells[i]|
  {
    if |cells| == 0 then |header|
    else
      var w' := ColumnWidth(header, cells[..|cells| - 1]);
      var last := |cells[|cells| - 1]|;
      assert forall i :: 0 <= i < |cells| - 1 ==> cells[..|cells| - 1][i] == cells[i];
      if last > w' then last else w'
  }

  /** Every row has one cell per header. */
  predicate Rectangular(headers: seq<string>, rows: seq<seq<string>>) {
    forall i :: 0 <= i < |rows| ==> |rows[i]| == |headers|
  }

  /** The cells of column `j`, top to bottom. */
  function ColumnCells(rows: seq<seq<string>>, j: nat): (r: seq<string>)
    requires forall i :: 0 <= i < |rows| ==> j < |rows[i]|
    ensures |r| == |rows| && forall i :: 0 <= i < |rows| ==> r[i] == rows[i][j]
  {
    seq(|rows|, i requires 0 <= i < |rows| => rows[i][j])
  }

  function Widths(headers: seq<string>, rows: seq<seq<string>>): (ws: seq<nat>)
    requires Rectangular(headers, rows)
    ensures |ws| == |headers|
    ensures forall j :: 0 <= j < |ws| ==> |headers[j]| <= ws[j]
    ensures forall i, j :: 0 <= i < |rows| && 0 <= j < |ws| ==> |rows[i][j]| <= ws[j]
    ensures forall j :: 0 <= j < |ws| ==>
              ws[j] == |headers[j]| || exists i :: 0 <= i < |rows| && ws[j] == |rows[i][j]|
  {
    seq(|headers|, j requires 0 <= j < |headers| => ColumnWidth(headers[j], ColumnCells(rows, j)))
  }

  /** Each cell padded to its column's width, joined by the gap. */
  function FormatLine(cells: seq<string>, ws: seq<nat>): string
    requires |cells| == |ws|
  {
    Join(seq(|cells|, j requires 0 <= j < |cells| => PadRight(cells[j], ws[j])), Gap)
  }

  function SeparatorLine(ws: seq<nat>): string {
    Join(seq(|ws|, j requires 0 <= j < |ws| => Rules(ws[j])), Gap)
  }

  function Sum(ws: seq<nat>): nat {
    if |ws| == 0 then 0 else ws[0] + Sum(ws[1..])
  }

  /** The length every line of the table body has. */
  function LineWidth(ws: seq<nat>): nat {
    if |ws| == 0 then 0 else Sum(ws) + |Gap| * (|ws| - 1)
  }

  /** Where column `j` starts in a line. */
  function Offset(ws: seq<nat>, j: nat): nat
    requires j <= |ws|
  {
    if j == 0 then 0 else ws[0] + |Gap| + Offset(ws[1..], j - 1)
  }

  /** The parts fill their columns exactly. */
  predicate Fits(parts: seq<string>, ws: seq<nat>) {
    |parts| == |ws| && forall k :: 0 <= k < |parts| ==> |parts[k]| == ws[k]
  }

  lemma {:induction false} JoinLength(parts: seq<string>, ws: seq<nat>)
    requires Fits(parts, ws)
    ensures |Join(parts, Gap)| == LineWidth(ws)
    decreases |parts|
  {
    if |parts| > 1 {
      assert Fits(parts[1..], ws[1..]);
      JoinLength(parts[1..], ws[1..]);
    } else if |parts| == 1 {
      assert Sum(ws[1..]) == 0;
    }
  }

  lemma {:induction false} JoinAt(parts: seq<string>, ws: seq<nat>, j: nat)
    requires Fits(parts, ws) && j < |parts|
    ensures Offset(ws, j) + ws[j] <= |Join(parts, Gap)|
    ensures Join(parts, Gap)[Offset(ws, j)..Offset(ws, j) + ws[j]] == parts[j]
    decreases j
  {
    var s := Join(parts, Gap);
    if |parts| == 1 {
    } else if j == 0 {
      assert s == parts[0] + (Gap + Join(parts[1..], Gap));
    } else {
      assert Fits(parts[1..], ws[1..]);
      JoinAt(parts[1..], ws[1..], j - 1);
      var rest := Join(parts[1..], Gap);
      assert s == (parts[0] + Gap) + rest;
      var d := |parts[0]| + |Gap|;
      var o := Offset(ws[1..], j - 1);
      assert ws[1..][j - 1] == ws[j] && parts[1..][j - 1] == parts[j];
      assert Offset(ws, j) == d + o;
      assert rest[o..o + ws[j]] == parts[j];
      assert s[d + o..d + o + ws[j]] == rest[o..o + ws[j]];
    }
  }

  /** The gap after column `j` sits between it and the next column. */
  lemma {:induction false} JoinGapAt(parts: seq<string>, ws: seq<nat>, j: nat)
    requires Fits(parts, ws) && j + 1 < |parts|
    ensures Offset(ws, j + 1) == Offset(ws, j) + ws[j] + |Gap|
    ensures Offset(ws, j + 1) <= |Join(parts, Gap)|
    ensures Join(parts, Gap)[Offset(ws, j) + ws[j]..Offset(ws, j + 1)] == Gap
    decreases j
  {
    var s := Join(parts, Gap);
    var rest := Join(parts[1..], Gap);
    assert s == (parts[0] + Gap) + rest;
    var d := ws[0] + |Gap|;
    if j == 0 {
      assert s[ws[0]..d] == Gap;
    } else {
      assert Fits(parts[1..], ws[1..]);
      JoinGapAt(parts[1..], ws[1..], j - 1);
      var o := Offset(ws[1..], j - 1);
      assert ws[1..][j - 1] == ws[j];
      assert s[d + o + ws[j]..d + Offset(ws[1..], j)] == rest[o + ws[j]..Offset(ws[1..], j)];
    }
  }

  /** The last column ends the line. */
  lemma {:induction false} JoinEnd(parts: seq<string>, ws: seq<nat>)
    requires Fits(parts, ws) && |parts| > 0
    ensures Offset(ws, |ws| - 1) + ws[|ws| - 1] == |Join(parts, Gap)|
    decreases |parts|
  {
    if |parts| > 1 {
      assert Fits(parts[1..], ws[1..]);
      JoinEnd(parts[1..], ws[1..]);
      assert Join(parts, Gap) == (parts[0] + Gap) + Join(parts[1..], Gap);
      assert ws[1..][|ws| - 2] == ws[|ws| - 1];
    }
  }

  /** Column `j` of a formatted line holds its padded cell, followed by the
      gap or, for the last column, by the end of the line. */
  lemma LineLayout(cells: seq<string>, ws: seq<nat>, j: nat)
    requires |cells| == |ws| && j < |cells| && forall k :: 0 <= k < |cells| ==> |cells[k]| <= ws[k]
    ensures Offset(ws, j) + ws[j] <= |FormatLine(cells, ws)|
    ensures FormatLine(cells, ws)[Offset(ws, j)..Offset(ws, j) + ws[j]] == PadRight(cells[j], ws[j])
    ensures j + 1 < |ws| ==>
              && Offset(ws, j + 1) == Offset(ws, j) + ws[j] + |Gap|
              && Offset(ws, j + 1) <= |FormatLine(cells, ws)|
              && FormatLine(cells, ws)[Offset(ws, j) + ws[j]..Offset(ws, j + 1)] == Gap
    ensures j + 1 == |ws| ==> Offset(ws, j) + ws[j] == |FormatLine(cells, ws)|
  {
    var parts := seq(|cells|, k requires 0 <= k < |cells| => PadRight(cells[k], ws[k]));
    PaddedFits(cells, ws);
    JoinAt(parts, ws, j);
    if j + 1 < |ws| {
      JoinGapAt(parts, ws, j);
    } else {
      JoinEnd(parts, ws);
    }
  }

  /** Column `j` of the separator line is drawn in the rule glyph, followed
      by the gap or, for the last column, by the end of the line. */
  lemma SeparatorLayout(ws: seq<nat>, j: nat)
    requires j < |ws|
    ensures Offset(ws, j) + ws[j] <= |SeparatorLine(ws)|
    ensures SeparatorLine(ws)[Offset(ws, j)..Offset(ws, j) + ws[j]] == Rules(ws[j])
    ensures j + 1 < |ws| ==>
              && Offset(ws, j + 1) == Offset(ws, j) + ws[j] + |Gap|
              && Offset(ws, j + 1) <= |SeparatorLine(ws)|
              && SeparatorLine(ws)[Offset(ws, j) + ws[j]..Offset(ws, j + 1)] == Gap
    ensures j + 1 == |ws| ==> Offset(ws, j) + ws[j] == |SeparatorLine(ws)|
  {
    var parts := seq(|ws|, k requires 0 <= k < |ws| => Rules(ws[k]));
    assert Fits(parts, ws);
    JoinAt(parts, ws, j);
    if j + 1 < |ws| {
      JoinGapAt(parts, ws, j);
    } else {
      JoinEnd(parts, ws);
    }
  }

  lemma PaddedFits(cells: seq<string>, ws: seq<nat>)
    requires |cells| == |ws| && forall j :: 0 <= j < |cells| ==> |cells[j]| <= ws[j]
    ensures Fits(seq(|cells|, j requires 0 <= j < |cells| => PadRight(cells[j], ws[j])), ws)
  {
  }

  /** The header, separator and row lines for the given widths. */
  function BodyLines(headers: seq<string>, rows: seq<seq<string>>, ws: seq<nat>): (r: seq<string>)
    requires Rectangular(headers, rows) && |ws| == |headers|
    ensures |r| == 2 + |rows|
  {
    [FormatLine(headers, ws), SeparatorLine(ws)]
    + seq(|rows|, i requires 0 <= i < |rows| => FormatLine(rows[i], ws))
  }

  lemma LineFits(cells: seq<string>, ws: seq<nat>)
    requires |cells| == |ws| && forall j :: 0 <= j < |cells| ==> |cells[j]| <= ws[j]
    ensures |FormatLine(cells, ws)| == LineWidth(ws)
  {
    var parts := seq(|cells|, j requires 0 <= j < |cells| => PadRight(cells[j], ws[j]));
    PaddedFits(cells, ws);
    JoinLength(parts, ws);
  }

  lemma BodyLinesWidth(headers: seq<string>, rows: seq<seq<string>>)
    requires Rectangular(headers, rows)
    ensures var ws := Widths(headers, rows);
            forall k :: 0 <= k < |BodyLines(headers, rows, ws)| ==> |BodyLines(headers, rows, ws)[k]| == LineWidth(ws)
  {
    var ws := Widths(headers, rows);
    var lines := BodyLines(headers, rows, ws);
    LineFits(headers, ws);
    JoinLength(seq(|ws|, j requires 0 <= j < |ws| => Rules(ws[j])), ws);
    forall k | 2 <= k < |lines|
      ensures |lines[k]| == LineWidth(ws)
    {
      LineFits(rows[k - 2], ws);
    }
  }

  /** `df_to_text_table(df)`: "SUMMARY", a blank line, the header line, the
      separator line, then one line per row in order. None where pandas
      fails: with columns but no rows the column width is NaN. */
  function TextTable(headers: seq<string>, rows: seq<seq<string>>): (r: Option<seq<string>>)
    requires Rectangular(headers, rows)
    ensures r.None? <==> |rows| == 0 && |headers| > 0
    ensures r.Some? ==> |r.value| == 4 + |rows| && r.value[0] == "SUMMARY" && r.value[1] == ""
    ensures r.Some? ==> forall k :: 2 <= k < |r.value| ==> |r.value[k]| == LineWidth(Widths(headers, rows))
  {
    if |rows| == 0 && |headers| > 0 then None
    else
      BodyLinesWidth(headers, rows);
      Some(["SUMMARY", ""] + BodyLines(headers, rows, Widths(headers, rows)))
  }

  /** Columns line up: every cell, and its header, starts at its column's
      offset in its line and is shown in full. Each line is laid out the
      same way: column `j` holds the header or cell padded with blanks to
      the column's width (on the separator line, that many rule glyphs),
      then comes the two-blank gap, and the last column ends the line. */
  lemma TableAligned(headers: seq<string>, rows: seq<seq<string>>, i: nat, j: nat)
    requires Rectangular(headers, rows) && i < |rows| && j < |headers|
    ensures var ws := Widths(headers, rows);
            var lines := TextTable(headers, rows).value;
            && Offset(ws, j) + |headers[j]| <= |lines[2]|
            && lines[2][Offset(ws, j)..Offset(ws, j) + |headers[j]|] == headers[j]
            && Offset(ws, j) + |rows[i][j]| <= |lines[4 + i]|
            && lines[4 + i][Offset(ws, j)..Offset(ws, j) + |rows[i][j]|] == rows[i][j]
    ensures var ws := Widths(headers, rows);
            var lines := TextTable(headers, rows).value;
            var o := Offset(ws, j);
            && o + ws[j] <= |lines[2]| && o + ws[j] <= |lines[3]| && o + ws[j] <= |lines[4 + i]|
            && lines[2][o..o + ws[j]] == PadRight(headers[j], ws[j])
            && lines[3][o..o + ws[j]] == Rules(ws[j])
            && lines[4 + i][o..o + ws[j]] == PadRight(rows[i][j], ws[j])
    ensures var ws := Widths(headers, rows);
            var lines := TextTable(headers, rows).value;
            var o := Offset(ws, j);
            j + 1 < |headers| ==>
              && Offset(ws, j + 1) == o + ws[j] + |Gap|
              && Offset(ws, j + 1) <= |lines[2]| && Offset(ws, j + 1) <= |lines[3]|
              && Offset(ws, j + 1) <= |lines[4 + i]|
              && lines[2][o + ws[j]..Offset(ws, j + 1)] == Gap
              && lines[3][o + ws[j]..Offset(ws, j + 1)] == Gap
              && lines[4 + i][o + ws[j]..Offset(ws, j + 1)] == Gap
    ensures var ws := Widths(headers, rows);
            var lines := TextTable(headers, rows).value;
            j + 1 == |headers| ==>
              Offset(ws, j) + ws[j] == |lines[2]| == |lines[3]| == |lines[4 + i]|
  {
    CellsAligned(headers, rows, i, j);
    ColumnsDrawn(headers, rows, i, j);
    GapsDrawn(headers, rows, i, j);
  }

  lemma CellsAligned(headers: seq<string>, rows: seq<seq<string>>, i: nat, j: nat)
    requires Rectangular(headers, rows) && i < |rows| && j < |headers|
    ensures var ws := Widths(headers, rows);
            var lines := TextTable(headers, rows).value;
            && Offset(ws, j) + |headers[j]| <= |lines[2]|
            && lines[2][Offset(ws, j)..Offset(ws, j) + |headers[j]|] == headers[j]
            && Offset(ws, j) + |rows[i][j]| <= |lines[4 + i]|
            && lines[4 + i][Offset(ws, j)..Offset(ws, j) + |rows[i][j]|] == rows[i][j]
  {
    var ws := Widths(headers, rows);
    TableLines(headers, rows, i);
    var lines := TextTable(headers, rows).value;
    CellAtLine(lines[2], headers, ws, j);
    CellAtLine(lines[4 + i], rows[i], ws, j);
  }

  lemma ColumnsDrawn(headers: seq<string>, rows: seq<seq<string>>, i: nat, j: nat)
    requires Rectangular(headers, rows) && i < |rows| && j < |headers|
    ensures var ws := Widths(headers, rows);
            var lines := TextTable(headers, rows).value;
            var o := Offset(ws, j);
            && o + ws[j] <= |lines[2]| && o + ws[j] <= |lines[3]| && o + ws[j] <= |lines[4 + i]|
            && lines[2][o..o + ws[j]] == PadRight(headers[j], ws[j])
            && lines[3][o..o + ws[j]] == Rules(ws[j])
            && lines[4 + i][o..o + ws[j]] == PadRight(rows[i][j], ws[j])
  {
    TableLines(headers, rows, i);
    HeaderColumn(headers, rows, i, j);
    SeparatorColumn(headers, rows, i, j);
    RowColumn(headers, rows, i, j);
  }

  lemma HeaderColumn(headers: seq<string>, rows: seq<seq<string>>, i: nat, j: nat)
    requires Rectangular(headers, rows) && i < |rows| && j < |headers|
    ensures var ws := Widths(headers, rows);
            var lines := TextTable(headers, rows).value;
            var o := Offset(ws, j);
            o + ws[j] <= |lines[2]| && lines[2][o..o + ws[j]] == PadRight(headers[j], ws[j])
  {
    var ws := Widths(headers, rows);
    TableLines(headers, rows, i);
    var lines := TextTable(headers, rows).value;
    LineAt(lines[2], headers, ws, j);
  }

  lemma SeparatorColumn(headers: seq<string>, rows: seq<seq<string>>, i: nat, j: nat)
    requires Rectangular(headers, rows) && i < |rows| && j < |headers|
    ensures var ws := Widths(headers, rows);
            var lines := TextTable(headers, rows).value;
            var o := Offset(ws, j);
            o + ws[j] <= |lines[3]| && lines[3][o..o + ws[j]] == Rules(ws[j])
  {
    var ws := Widths(headers, rows);
    var lines := TextTable(headers, rows).value;
    assert lines[3] == SeparatorLine(ws);
    SeparatorAt(lines[3], ws, j);
  }

  lemma RowColumn(headers: seq<string>, rows: seq<seq<string>>, i: nat, j: nat)
    requires Rectangular(headers, rows) && i < |rows| && j < |headers|
    ensures var ws := Widths(headers, rows);
            var lines := TextTable(headers, rows).value;
            var o := Offset(ws, j);
            o + ws[j] <= |lines[4 + i]| && lines[4 + i][o..o + ws[j]] == PadRight(rows[i][j], ws[j])
  {
    var ws := Widths(headers, rows);
    TableLines(headers, rows, i);
    var lines := TextTable(headers, rows).value;
    LineAt(lines[4 + i], rows[i], ws, j);
  }

  lemma GapsDrawn(headers: seq<string>, rows: seq<seq<string>>, i: nat, j: nat)
    requires Rectangular(headers, rows) && i < |rows| && j < |headers|
    ensures var ws := Widths(headers, rows);
            var lines := TextTable(headers, rows).value;
            var o := Offset(ws, j);
            j + 1 < |headers| ==>
              && Offset(ws, j + 1) == o + ws[j] + |Gap|
              && Offset(ws, j + 1) <= |lines[2]| && Offset(ws, j + 1) <= |lines[3]|
              && Offset(ws, j + 1) <= |lines[4 + i]|
              && lines[2][o + ws[j]..Offset(ws, j + 1)] == Gap
              && lines[3][o + ws[j]..Offset(ws, j + 1)] == Gap
              && lines[4 + i][o + ws[j]..Offset(ws, j + 1)] == Gap
    ensures var ws := Widths(headers, rows);
            var lines := TextTable(headers, rows).value;
            j + 1 == |headers| ==>
              Offset(ws, j) + ws[j] == |lines[2]| == |lines[3]| == |lines[4 + i]|
  {
    var ws := Widths(headers, rows);
    TableLines(headers, rows, i);
    var lines := TextTable(headers, rows).value;
    LineAt(lines[2], headers, ws, j);
    LineAt(lines[4 + i], rows[i], ws, j);
    SeparatorAt(lines[3], ws, j);
  }

  /** `CellAt` for a line known to be the formatted cells. */
  lemma CellAtLine(line: string, cells: seq<string>, ws: seq<nat>, j: nat)
    requires |cells| == |ws| && j < |cells| && forall k :: 0 <= k < |cells| ==> |cells[k]| <= ws[k]
    requires line == FormatLine(cells, ws)
    ensures Offset(ws, j) + |cells[j]| <= |line|
    ensures line[Offset(ws, j)..Offset(ws, j) + |cells[j]|] == cells[j]
  {
    CellAt(cells, ws, j);
  }

  /** `LineLayout` for a line known to be the formatted cells. */
  lemma LineAt(line: string, cells: seq<string>, ws: seq<nat>, j: nat)
    requires |cells| == |ws| && j < |cells| && forall k :: 0 <= k < |cells| ==> |cells[k]| <= ws[k]
    requires line == FormatLine(cells, ws)
    ensures Offset(ws, j) + ws[j] <= |line|
    ensures line[Offset(ws, j)..Offset(ws, j) + ws[j]] == PadRight(cells[j], ws[j])
    ensures j + 1 < |ws| ==>
              && Offset(ws, j + 1) == Offset(ws, j) + ws[j] + |Gap|
              && Offset(ws, j + 1) <= |line|
              && line[Offset(ws, j) + ws[j]..Offset(ws, j + 1)] == Gap
    ensures j + 1 == |ws| ==> Offset(ws, j) + ws[j] == |line|
  {
    LineLayout(cells, ws, j);
  }

  /** `SeparatorLayout` for a line known to be the separator. */
  lemma SeparatorAt(line: string, ws: seq<nat>, j: nat)
    requires j < |ws| && line == SeparatorLine(ws)
    ensures Offset(ws, j) + ws[j] <= |line|
    ensures line[Offset(ws, j)..Offset(ws, j) + ws[j]] == Rules(ws[j])
    ensures j + 1 < |ws| ==>
              && Offset(ws, j + 1) == Offset(ws, j) + ws[j] + |Gap|
              && Offset(ws, j + 1) <= |line|
              && line[Offset(ws, j) + ws[j]..Offset(ws, j + 1)] == Gap
    ensures j + 1 == |ws| ==> Offset(ws, j) + ws[j] == |line|
  {
    SeparatorLayout(ws, j);
  }

  /** The header, separator and row lines of the table. */
  lemma TableLines(headers: seq<string>, rows: seq<seq<string>>, i: nat)
    requires Rectangular(headers, rows) && i < |rows|
    ensures var ws := Widths(headers, rows);
            var lines := TextTable(headers, rows).value;
            && lines[2] == FormatLine(headers, ws)
            && lines[3] == SeparatorLine(ws)
            && lines[4 + i] == FormatLine(rows[i], ws)
            && |headers| == |ws|
            && forall k :: 0 <= k < |headers| ==> |headers[k]| <= ws[k] && |rows[i][k]| <= ws[k]
  {
  }

  lemma CellAt(cells: seq<string>, ws: seq<nat>, j: nat)
    requires |cells| == |ws| && j < |cells| && forall k :: 0 <= k < |cells| ==> |cells[k]| <= ws[k]
    ensures Offset(ws, j) + |cells[j]| <= |FormatLine(cells, ws)|
    ensures FormatLine(cells, ws)[Offset(ws, j)..Offset(ws, j) + |cells[j]|] == cells[j]
  {
    var parts := seq(|cells|, k requires 0 <= k < |cells| => PadRight(cells[k], ws[k]));
    PaddedFits(cells, ws);
    JoinAt(parts, ws, j);
    var o := Offset(ws, j);
    var line := FormatLine(cells, ws);
    assert line == Join(parts, Gap);
    assert parts[j] == PadRight(cells[j], ws[j]) && |parts[j]| == ws[j];
    assert line[o..o + ws[j]] == parts[j];
    assert parts[j][..|cells[j]|] == cells[j];
    assert line[o..o + |cells[j]|] == line[o..o + ws[j]][..|cells[j]|];
  }

  /** The table as one string, lines separated by "\n". */
  function TableText(lines: seq<string>): string {
    Join(lines, "\n")
  }

  lemma LineHasNoNewline(cells: seq<string>, ws: seq<nat>)
    requires |cells| == |ws| && forall k :: 0 <= k < |cells| ==> '\n' !in cells[k]
    ensures '\n' !in FormatLine(cells, ws)
  {
    var parts := seq(|cells|, j requires 0 <= j < |cells| => PadRight(cells[j], ws[j]));
    forall k | 0 <= k < |parts|
      ensures '\n' !in parts[k]
    {
      assert forall i :: 0 <= i < |parts[k]| ==> parts[k][i] == ' ' || parts[k][i] == cells[k][i];
    }
    JoinChars(parts, Gap, '\n');
  }

  /** With no line break inside a header or a cell, splitting the text at
      line breaks gives back exactly the table's lines, in order. */
  lemma TableTextLines(headers: seq<string>, rows: seq<seq<string>>)
    requires Rectangular(headers, rows) && TextTable(headers, rows).Some?
    requires forall j :: 0 <= j < |headers| ==> '\n' !in headers[j]
    requires forall i, j :: 0 <= i < |rows| && 0 <= j < |headers| ==> '\n' !in rows[i][j]
    ensures Split(TableText(TextTable(headers, rows).value), "\n") == TextTable(headers, rows).value
  {
    var ws := Widths(headers, rows);
    var lines := TextTable(headers, rows).value;
    forall k | 0 <= k < |lines|
      ensures !Contains(lines[k], "\n")
    {
      if k == 2 {
        LineHasNoNewline(headers, ws);
      } else if k == 3 {
        JoinChars(seq(|ws|, j requires 0 <= j < |ws| => Rules(ws[j])), Gap, '\n');
      } else if k >= 4 {
        LineHasNoNewline(rows[k - 4], ws);
      }
      NoCharNoContains(lines[k], '\n');
    }
    SplitJoin(lines, "\n");
  }

  // ---------------------------------------------------------------------
  // Row filter of the uploaded purchase sheet
  // ---------------------------------------------------------------------

  /** A spreadsheet cell: empty (NaN), a string, or another value (a number
      or a date) given by its `str()` rendering. */
  datatype Cell = Missing | Str(text: string) | Other(shown: string)

  /** `str(cell)`, as `row.astype(str)` renders it. */
  function Shown(c: Cell): string {
    match c
    case Missing => "nan"
    case Str(t) => t
    case Other(t) => t
  }

  /** The footnote texts whose rows are dropped. */
  const UnwantedTexts: seq<string> := [
    "Date as of:", "Please note:", "All amount fields are in US Dollars.",
    "Cisco provides the information", "In addition, the information",
    "Please notify People Support Services"
  ]

  function LowerChar(c: char): char {
    if 'A' <= c <= 'Z' then (c as int + 32) as char else c
  }

  function Lower(s: string): (r: string)
    ensures |r| == |s|
  {
    seq(|s|, i requires 0 <= i < |s| => LowerChar(s[i]))
  }

  /** Some cell of the row contains some unwanted text, ignoring case. */
  predicate HasUnwanted(row: seq<Cell>) {
    exists j, k :: 0 <= j < |row| && 0 <= k < |UnwantedTexts|
                   && Contains(Lower(Shown(row[j])), Lower(UnwantedTexts[k]))
  }

  /** The first cell is a string starting with "Total"; non-string cells never match. */
  predicate IsTotalRow(row: seq<Cell>) {
    |row| > 0 && row[0].Str? && |row[0].text| >= 5 && row[0].text[..5] == "Total"
  }

  /** Some "Purchase Date" column of the row is empty. */
  predicate LacksPurchaseDate(headers: seq<string>, row: seq<Cell>) {
    exists j :: 0 <= j < |row| && j < |headers| && headers[j] == "Purchase Date" && row[j].Missing?
  }

  /** A row survives all three clean-up steps. */
  predicate Keep(headers: seq<string>, row: seq<Cell>) {
    !HasUnwanted(row) && !IsTotalRow(row) && !LacksPurchaseDate(headers, row)
  }

  /** The elements satisfying `p`, in their original order. */
  function Filter<T>(xs: seq<T>, p: T -> bool): (r: seq<T>)
    ensures |r| <= |xs|
  {
    if |xs| == 0 then []
    else Filter(xs[..|xs| - 1], p) + (if p(xs[|xs| - 1]) then [xs[|xs| - 1]] else [])
  }

  /** Filtering twice is filtering once by both conditions. */
  lemma {:induction false} FilterTwice<T>(xs: seq<T>, p: T -> bool, q: T -> bool, both: T -> bool)
    requires forall x :: both(x) == (p(x) && q(x))
    ensures Filter(Filter(xs, p), q) == Filter(xs, both)
    decreases |xs|
  {
    if |xs| > 0 {
      var ys := xs[..|xs| - 1];
      var x := xs[|xs| - 1];
      FilterTwice(ys, p, q, both);
      var f := Filter(ys, p);
      if p(x) {
        assert (f + [x])[..|f|] == f;
      } else {
        assert f + [] == f;
      }
    }
  }

  /** The three steps as the page applies them, one after the other; None
      where pandas raises because there is no "Purchase Date" column. */
  function CleanUp(headers: seq<string>, rows: seq<seq<Cell>>): (r: Option<seq<seq<Cell>>>)
    ensures r.None? <==> "Purchase Date" !in headers
    ensures r.Some? ==> |r.value| <= |rows|
  {
    if "Purchase Date" !in headers then None
    else
      var step1 := Filter(rows, (r: seq<Cell>) => !HasUnwanted(r));
      var step2 := Filter(step1, (r: seq<Cell>) => !IsTotalRow(r));
      Some(Filter(step2, (r: seq<Cell>) => !LacksPurchaseDate(headers, r)))
  }

  lemma CleanUpIsOnePass(headers: seq<string>, rows: seq<seq<Cell>>)
    requires "Purchase Date" in headers
    ensures CleanUp(headers, rows) == Some(Filter(rows, (r: seq<Cell>) => Keep(headers, r)))
  {
    var p1 := (r: seq<Cell>) => !HasUnwanted(r);
    var p2 := (r: seq<Cell>) => !IsTotalRow(r);
    var p12 := (r: seq<Cell>) => !HasUnwanted(r) && !IsTotalRow(r);
    var p3 := (r: seq<Cell>) => !LacksPurchaseDate(headers, r);
    FilterTwice(rows, p1, p2, p12);
    FilterTwice(rows, p12, p3, (r: seq<Cell>) => Keep(headers, r));
  }

  /** After scanning `xs[..i]`: `out` holds the kept elements and `idx`
      their rising positions, and a position below `i` is listed exactly
      when its element satisfies `p`. */
  ghost predicate Scanned<T>(xs: seq<T>, p: T -> bool, i: int, out: seq<T>, idx: seq<nat>) {
    && 0 <= i <= |xs|
    && out == Filter(xs[..i], p)
    && |out| == |idx|
    && (forall k :: 0 <= k < |idx| ==> idx[k] < i && out[k] == xs[idx[k]])
    && (forall k, l :: 0 <= k < l < |idx| ==> idx[k] < idx[l])
    && (forall m :: 0 <= m < i ==> (p(xs[m]) <==> m in idx))
  }

  /** Scanning one more element keeps `Scanned`. */
  lemma ScanStep<T>(xs: seq<T>, p: T -> bool, i: int, out: seq<T>, idx: seq<nat>)
    requires Scanned(xs, p, i, out, idx) && i < |xs|
    ensures p(xs[i]) ==> Scanned(xs, p, i + 1, out + [xs[i]], idx + [i])
    ensures !p(xs[i]) ==> Scanned(xs, p, i + 1, out, idx)
  {
    assert xs[..i + 1][..i] == xs[..i];
    assert Filter(xs[..i + 1], p) == Filter(xs[..i], p) + (if p(xs[i]) then [xs[i]] else []);
    if p(xs[i]) {
      assert forall m :: 0 <= m < i ==> (m in idx + [i] <==> m in idx);
    }
  }

  /** One pass over `xs` keeping the elements that satisfy `p`, also
      reporting their positions: the positions rise, and a position is
      reported exactly when its element satisfies `p`. */
  method FilterWithIndex<T>(xs: seq<T>, p: T -> bool) returns (out: seq<T>, idx: seq<nat>)
    ensures out == Filter(xs, p)
    ensures |out| == |idx|
    ensures forall k :: 0 <= k < |idx| ==> idx[k] < |xs| && out[k] == xs[idx[k]]
    ensures forall k, l :: 0 <= k < l < |idx| ==> idx[k] < idx[l]
    ensures forall i :: 0 <= i < |xs| ==> (p(xs[i]) <==> i in idx)
  {
    out, idx := [], [];
    var i := 0;
    while i < |xs|
      invariant Scanned(xs, p, i, out, idx)
    {
      ScanStep(xs, p, i, out, idx);
      if p(xs[i]) {
        out := out + [xs[i]];
        idx := idx + [i];
      }
      i := i + 1;
    }
    assert xs[..i] == xs;
  }

  /** The clean-up in one pass: the kept rows are exactly the rows that
      pass every step, in their original order. */
  method CleanRows(headers: seq<string>, rows: seq<seq<Cell>>) returns (kept: Option<seq<seq<Cell>>>, idx: seq<nat>)
    ensures kept.None? <==> "Purchase Date" !in headers
    ensures kept == CleanUp(headers, rows)
    ensures kept.Some? ==>
              && |kept.value| == |idx|
              && (forall k :: 0 <= k < |idx| ==> idx[k] < |rows| && kept.value[k] == rows[idx[k]])
              && (forall k, l :: 0 <= k < l < |idx| ==> idx[k] < idx[l])
              && (forall i :: 0 <= i < |rows| ==> (Keep(headers, rows[i]) <==> i in idx))
  {
    if "Purchase Date" !in headers {
      return None, [];
    }
    var out;
    out, idx := FilterWithIndex(rows, (r: seq<Cell>) => Keep(headers, r));
    CleanUpIsOnePass(headers, rows);
    kept := Some(out);
  }

  // ---------------------------------------------------------------------
  // Portfolio gain
  // ---------------------------------------------------------------------

  /** One purchase: "Shares Purchased" and "Purchase Price" as numbers. */
  datatype Lot = Lot(shares: real, price: real)

  /** The fixed USD-to-EUR rate of the report. */
  const UsdToEur: real := 0.92

  /** The sum of "Total Cost" = purchase price times shares. */
  function TotalCost(lots: seq<Lot>): real {
    if |lots| == 0 then 0.0 else TotalCost(lots[..|lots| - 1]) + lots[|lots| - 1].price * lots[|lots| - 1].shares
  }

  /** The sum of "Current Value" = shares times the latest price. */
  function CurrentValue(lots: seq<Lot>, latest: real): real {
    if |lots| == 0 then 0.0 else CurrentValue(lots[..|lots| - 1], latest) + lots[|lots| - 1].shares * latest
  }

  function TotalShares(lots: seq<Lot>): real {
    if |lots| == 0 then 0.0 else TotalShares(lots[..|lots| - 1]) + lots[|lots| - 1].shares
  }

  /** Each lot's own gain, shares times (latest minus purchase price), summed. */
  function LotGains(lots: seq<Lot>, latest: real): real {
    if |lots| == 0 then 0.0
    else LotGains(lots[..|lots| - 1], latest) + lots[|lots| - 1].shares * (latest - lots[|lots| - 1].price)
  }

  /** Value minus cost is the sum of the per-lot gains, and the value is
      the number of shares at the latest price. */
  lemma {:induction false} GainPerLot(lots: seq<Lot>, latest: real)
    ensures CurrentValue(lots, latest) - TotalCost(lots) == LotGains(lots, latest)
    ensures CurrentValue(lots, latest) == TotalShares(lots) * latest
    decreases |lots|
  {
    if |lots| > 0 {
      GainPerLot(lots[..|lots| - 1], latest);
    }
  }

  /** Never a loss when no lot was bought above the latest price. */
  lemma {:induction false} NoLoss(lots: seq<Lot>, latest: real)
    requires forall k :: 0 <= k < |lots| ==> lots[k].shares >= 0.0 && lots[k].price <= latest
    ensures LotGains(lots, latest) >= 0.0
    decreases |lots|
  {
    if |lots| > 0 {
      NoLoss(lots[..|lots| - 1], latest);
      var l := lots[|lots| - 1];
      assert l.shares * (latest - l.price) >= 0.0;
    }
  }

  /** The "Portfolio Summary" figures before display formatting. */
  datatype Portfolio = Portfolio(price: real, valueEur: real, valueUsd: real, gainEur: real, gainUsd: real)

  function Report(lots: seq<Lot>, latest: real): (r: Portfolio)
    ensures r.price == latest
    ensures r.valueUsd == TotalShares(lots) * latest
    ensures r.gainUsd == LotGains(lots, latest)
    ensures r.valueEur == r.valueUsd * UsdToEur && r.gainEur == r.gainUsd * UsdToEur
  {
    GainPerLot(lots, latest);
    var value := CurrentValue(lots, latest);
    var gain := value - TotalCost(lots);
    Portfolio(latest, value * UsdToEur, value, gain * UsdToEur, gain)
  }
}
