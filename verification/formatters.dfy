/**
 * The Abstract Factory example: date and currency formatters for France and
 * the USA, the two factories that hand them out, and the map from country
 * code to factory.  The formatters receive their fields already turned into
 * text (`str(x)` of whatever the caller passed).
 */
module Formatters {
  import opened Common
  import opened PyStr

  // ---------------------------------------------------------------------------
  // Dates

  /** A one-character day or month gets a leading `0`; any other is kept. */
  function Pad2(x: string): (r: string)
    ensures |x| != 1 ==> r == x
    ensures |x| == 1 ==> |r| == 2 && r[0] == '0' && r[1..] == x
  {
    if |x| == 1 then "0" + x else x
  }

  /** A two-character year gets the prefix `20`; any other is kept. */
  function PadYear(y: string): (r: string)
    ensures |y| != 2 ==> r == y
    ensures |y| == 2 ==> |r| == 4 && r[..2] == "20" && r[2..] == y
  {
    if |y| == 2 then "20" + y else y
  }

  /** `FranceDateFormatter.format_date`: day, month and year, separated by `/`. */
  function FranceDate(y: string, m: string, d: string): string {
    Pad2(d) + "/" + Pad2(m) + "/" + PadYear(y)
  }

  /** `USADateFormatter.format_date`: month, day and year, separated by `-`. */
  function UsaDate(y: string, m: string, d: string): string {
    Pad2(m) + "-" + Pad2(d) + "-" + PadYear(y)
  }

  /** Splitting a French date at `/` gives back the padded day, month and year. */
  lemma FranceDateFields(y: string, m: string, d: string)
    requires '/' !in y && '/' !in m && '/' !in d
    ensures Split(FranceDate(y, m, d), '/') == [Pad2(d), Pad2(m), PadYear(y)]
  {
    SplitThree(Pad2(d), Pad2(m), PadYear(y), '/');
  }

  /** Splitting an American date at `-` gives back the padded month, day and year. */
  lemma UsaDateFields(y: string, m: string, d: string)
    requires '-' !in y && '-' !in m && '-' !in d
    ensures Split(UsaDate(y, m, d), '-') == [Pad2(m), Pad2(d), PadYear(y)]
  {
    SplitThree(Pad2(m), Pad2(d), PadYear(y), '-');
  }

  /** The two date formats hold the same fields, with day and month swapped. */
  lemma DateFormatsAgree(y: string, m: string, d: string)
    requires '/' !in y && '/' !in m && '/' !in d
    requires '-' !in y && '-' !in m && '-' !in d
    ensures |Split(FranceDate(y, m, d), '/')| == 3 == |Split(UsaDate(y, m, d), '-')|
    ensures Split(FranceDate(y, m, d), '/')[0] == Split(UsaDate(y, m, d), '-')[1]
    ensures Split(FranceDate(y, m, d), '/')[1] == Split(UsaDate(y, m, d), '-')[0]
    ensures Split(FranceDate(y, m, d), '/')[2] == Split(UsaDate(y, m, d), '-')[2]
  {
    FranceDateFields(y, m, d);
    UsaDateFields(y, m, d);
  }

  // ---------------------------------------------------------------------------
  // Currency

  /** The cents field: empty becomes `00`, one character gets a leading `0`. */
  function Cents(c: string): (r: string)
    ensures |r| == if |c| < 2 then 2 else |c|
    ensures r[|r| - |c|..] == c
    ensures forall k :: 0 <= k < |r| - |c| ==> r[k] == '0'
  {
    if |c| == 0 then "00" else if |c| == 1 then "0" + c else c
  }

  /**
   * The digits of `s` with `sep` in front of every third character counted
   * from the right, never at the very front: after the first character comes
   * a separator exactly when the number of characters left is a positive
   * multiple of three.
   */
  function Grouped(s: string, sep: char): string
    decreases |s|
  {
    if s == [] then []
    else [s[0]] + (if |s| > 1 && (|s| - 1) % 3 == 0 then [sep] else []) + Grouped(s[1..], sep)
  }

  /** `s` with every `sep` deleted. */
  function Unsep(s: string, sep: char): (r: string)
    ensures sep !in r
    decreases |s|
  {
    if s == [] then [] else (if s[0] == sep then [] else [s[0]]) + Unsep(s[1..], sep)
  }

  /** The number of separators a text of length `n` gets. */
  function Seps(n: nat): nat {
    if n == 0 then 0 else (n - 1) / 3
  }

  lemma GroupedCons(c: char, t: string, sep: char)
    ensures Grouped([c] + t, sep) == [c] + (if |t| > 0 && |t| % 3 == 0 then [sep] else []) + Grouped(t, sep)
  {
    assert ([c] + t)[1..] == t;
  }

  lemma UnsepAppend(a: string, b: string, sep: char)
    ensures Unsep(a + b, sep) == Unsep(a, sep) + Unsep(b, sep)
    decreases |a|
  {
    if a != [] {
      assert (a + b)[1..] == a[1..] + b;
      UnsepAppend(a[1..], b, sep);
    } else {
      assert a + b == b;
    }
  }

  /** Deleting the separators from the grouped text gives back the digits. */
  lemma {:induction false} UngroupGrouped(s: string, sep: char)
    requires sep !in s
    ensures Unsep(Grouped(s, sep), sep) == s
    decreases |s|
  {
    if s != [] {
      var opt := if |s| > 1 && (|s| - 1) % 3 == 0 then [sep] else [];
      UngroupGrouped(s[1..], sep);
      UnsepAppend([s[0]] + opt, Grouped(s[1..], sep), sep);
      UnsepAppend([s[0]], opt, sep);
      assert Unsep([s[0]], sep) == [s[0]];
      assert Unsep(opt, sep) == [] by {
        if opt != [] {
          assert opt[1..] == [];
        }
      }
      assert s == [s[0]] + s[1..];
    }
  }

  /** A text of `n` characters grows by `(n - 1) / 3` separators. */
  lemma {:induction false} GroupedLength(s: string, sep: char)
    ensures |Grouped(s, sep)| == |s| + Seps(|s|)
    decreases |s|
  {
    if s != [] {
      GroupedLength(s[1..], sep);
    }
  }

  /** A grouped length is never a multiple of four. */
  lemma GroupedLengthMod(n: nat)
    requires n > 0
    ensures (n + Seps(n)) % 4 != 0
  {
    var q := (n - 1) / 3;
    assert n == 3 * q + 1 || n == 3 * q + 2 || n == 3 * q + 3;
    assert n + Seps(n) == 4 * q + (n - 3 * q);
  }

  lemma SepsAtGroup(n: nat)
    requires n > 1 && (n - 1) % 3 == 0
    ensures (n - 1 + Seps(n - 1) + 1) % 4 == 0
  {
    var q := (n - 1) / 3;
    assert n - 1 == 3 * q && q >= 1;
    assert Seps(n - 1) == q - 1;
  }

  /** Where the separators are: at the positions whose distance from the end is a
      multiple of four, which excludes the front. */
  lemma {:induction false} GroupedSeparators(s: string, sep: char)
    requires sep !in s
    ensures forall k :: 0 <= k < |Grouped(s, sep)| ==>
      (Grouped(s, sep)[k] == sep <==> (|Grouped(s, sep)| - k) % 4 == 0)
    decreases |s|
  {
    if s != [] {
      var r := Grouped(s, sep);
      var t := Grouped(s[1..], sep);
      GroupedSeparators(s[1..], sep);
      GroupedLength(s, sep);
      GroupedLength(s[1..], sep);
      GroupedLengthMod(|s|);
      if |s| > 1 && (|s| - 1) % 3 == 0 {
        SepsAtGroup(|s|);
        assert r == [s[0], sep] + t;
        SeparatorsWithSep(s[0], t, sep);
      } else {
        assert r == [s[0]] + t;
        SeparatorsWithout(s[0], t, sep);
      }
    }
  }

  lemma SeparatorsWithSep(c: char, t: string, sep: char)
    requires c != sep
    requires (|t| + 1) % 4 == 0
    requires forall k :: 0 <= k < |t| ==> (t[k] == sep <==> (|t| - k) % 4 == 0)
    ensures forall k :: 0 <= k < |t| + 2 ==> (([c, sep] + t)[k] == sep <==> (|t| + 2 - k) % 4 == 0)
  {
    var r := [c, sep] + t;
    forall k | 0 <= k < |r| ensures r[k] == sep <==> (|r| - k) % 4 == 0 {
      if k >= 2 {
        assert r[k] == t[k - 2];
      }
    }
  }

  lemma SeparatorsWithout(c: char, t: string, sep: char)
    requires c != sep
    requires (|t| + 1) % 4 != 0
    requires forall k :: 0 <= k < |t| ==> (t[k] == sep <==> (|t| - k) % 4 == 0)
    ensures forall k :: 0 <= k < |t| + 1 ==> (([c] + t)[k] == sep <==> (|t| + 1 - k) % 4 == 0)
  {
    var r := [c] + t;
    forall k | 0 <= k < |r| ensures r[k] == sep <==> (|r| - k) % 4 == 0 {
      if k >= 1 {
        assert r[k] == t[k - 1];
      }
    }
  }

  function Reversed(s: string): (r: string)
    ensures |r| == |s|
    decreases |s|
  {
    if s == [] then [] else Reversed(s[1..]) + [s[0]]
  }

  lemma {:induction false} ReversedAppend(a: string, b: string)
    ensures Reversed(a + b) == Reversed(b) + Reversed(a)
    decreases |a|
  {
    if a == [] {
      assert a + b == b;
    } else {
      assert (a + b)[1..] == a[1..] + b;
      ReversedAppend(a[1..], b);
    }
  }

  lemma {:induction false} ReversedTwice(s: string)
    ensures Reversed(Reversed(s)) == s
    decreases |s|
  {
    if s != [] {
      ReversedAppend(Reversed(s[1..]), [s[0]]);
      assert Reversed([s[0]]) == [s[0]];
      ReversedTwice(s[1..]);
    }
  }

  /**
   * The grouping loop of both currency formatters: walk the digits from the
   * right, put `sep` in front of every third one after the first, and reverse
   * the collected characters.
   */
  method Group(base: string, sep: char) returns (r: string)
    ensures r == Grouped(base, sep)
  {
    var digits: string := [];
    var i := 0;
    while i < |base|
      invariant 0 <= i <= |base|
      invariant digits == Reversed(Grouped(base[|base| - i..], sep))
    {
      var c := base[|base| - 1 - i];
      var t := base[|base| - i..];
      assert base[|base| - (i + 1)..] == [c] + t;
      GroupedCons(c, t, sep);
      var opt := if i > 0 && i % 3 == 0 then [sep] else [];
      ReversedAppend([c] + opt, Grouped(t, sep));
      ReversedAppend([c], opt);
      assert Reversed(opt) == opt by {
        if opt != [] {
          assert opt[1..] == [];
        }
      }
      assert Reversed([c]) == [c];
      if i != 0 && i % 3 == 0 {
        digits := digits + [sep];
      }
      digits := digits + [c];
      i := i + 1;
    }
    assert base[|base| - i..] == base;
    ReversedTwice(Grouped(base, sep));
    r := Reversed(digits);
  }

  /** The euro sign. */
  const Euro: char := '€'

  /** The sign between the French amount and its cents, as the source file spells it:
      the UTF-8 bytes of the euro sign read back as Windows-1252 text. */
  const EuroAsWritten: string := ['â', '‚', '¬']

  /** `FranceCurrencyFormatter.format_currency` as the source file has it. */
  function FranceCurrencyAsWritten(base: string, cents: string): string {
    Grouped(base, ' ') + EuroAsWritten + Cents(cents)
  }

  /** The bytes of a code point from U+0800 to U+FFFF in UTF-8. */
  function Utf8Three(cp: nat): seq<nat>
    requires 0x800 <= cp < 0x10000
  {
    [0xE0 + cp / 0x1000, 0x80 + (cp / 0x40) % 0x40, 0x80 + cp % 0x40]
  }

  /**
   * The sign as written is not the euro sign: it is three characters, made of
   * the three UTF-8 bytes of U+20AC, where `0xE2` and `0xAC` read as Latin-1
   * and `0x82` reads as Windows-1252 `U+201A`.  Formatting 1000 euros and 5
   * cents shows them.
   */
  lemma MojibakeEuro()
    ensures Utf8Three(Euro as nat) == [0xE2, 0x82, 0xAC]
    ensures EuroAsWritten[0] as nat == 0xE2 && EuroAsWritten[2] as nat == 0xAC
    ensures Euro !in EuroAsWritten
    ensures FranceCurrencyAsWritten("1000", "5") == "1 000" + EuroAsWritten + "05"
    ensures FranceCurrencyAsWritten("1000", "5") != "1 000" + [Euro] + "05"
  {
    assert Grouped("000", ' ') == "000";
    assert Grouped("1000", ' ') == "1 000";
    var a := FranceCurrencyAsWritten("1000", "5");
    assert a[5] == 'â';
  }

  /** `FranceCurrencyFormatter.format_currency` with the euro sign it means. */
  function FranceCurrency(base: string, cents: string): string {
    Grouped(base, ' ') + [Euro] + Cents(cents)
  }

  /** `USACurrencyFormatter.format_currency`. */
  function UsaCurrency(base: string, cents: string): string {
    "$" + Grouped(base, ',') + "." + Cents(cents)
  }

  lemma GroupedChars(s: string, sep: char, x: char)
    requires x != sep && x !in s
    ensures x !in Grouped(s, sep)
    decreases |s|
  {
    if s != [] {
      GroupedChars(s[1..], sep, x);
    }
  }

  /** A French amount splits at the euro sign into the grouped amount and the padded
      cents, and deleting the spaces from the first part gives back the amount. */
  lemma FranceCurrencyParts(base: string, cents: string)
    requires Euro !in base && Euro !in cents && ' ' !in base
    ensures Split(FranceCurrency(base, cents), Euro) == [Grouped(base, ' '), Cents(cents)]
    ensures Unsep(Split(FranceCurrency(base, cents), Euro)[0], ' ') == base
  {
    GroupedChars(base, ' ', Euro);
    CentsFree(cents, Euro);
    SplitTwo(Grouped(base, ' '), Cents(cents), Euro);
    UngroupGrouped(base, ' ');
  }

  /** A French amount as the source file writes it is the grouped amount, the three
      characters of the misspelt sign and the padded cents, one after the other;
      deleting the spaces from the first part gives back the amount, and no euro
      sign appears anywhere in it. */
  lemma FranceCurrencyAsWrittenParts(base: string, cents: string)
    requires ' ' !in base
    ensures var r, n := FranceCurrencyAsWritten(base, cents), |Grouped(base, ' ')|;
      n + 3 <= |r| && r[..n] == Grouped(base, ' ') && r[n..n + 3] == EuroAsWritten
      && r[n + 3..] == Cents(cents) && Unsep(r[..n], ' ') == base
    ensures Euro !in base && Euro !in cents ==> Euro !in FranceCurrencyAsWritten(base, cents)
  {
    var g := Grouped(base, ' ');
    var r := FranceCurrencyAsWritten(base, cents);
    assert r[..|g|] == g;
    assert r[|g|..|g| + 3] == EuroAsWritten;
    assert r[|g| + 3..] == Cents(cents);
    UngroupGrouped(base, ' ');
    if Euro !in base && Euro !in cents {
      GroupedChars(base, ' ', Euro);
      CentsFree(cents, Euro);
      assert Euro !in EuroAsWritten;
    }
  }

  lemma UsaTail(base: string, cents: string)
    ensures UsaCurrency(base, cents)[0] == '$'
    ensures UsaCurrency(base, cents)[1..] == Grouped(base, ',') + ['.'] + Cents(cents)
  {
    assert UsaCurrency(base, cents) == ['$'] + (Grouped(base, ',') + ['.'] + Cents(cents));
  }

  lemma CentsFree(cents: string, x: char)
    requires x != '0' && x !in cents
    ensures x !in Cents(cents)
  {
    if |cents| == 1 {
      assert Cents(cents) == ['0', cents[0]];
    }
  }

  /** An American amount is `$`, then the grouped amount and the padded cents split at
      the `.`, and deleting the commas gives back the amount. */
  lemma UsaCurrencyParts(base: string, cents: string)
    requires '.' !in base && '.' !in cents && ',' !in base
    ensures UsaCurrency(base, cents)[0] == '$'
    ensures Split(UsaCurrency(base, cents)[1..], '.') == [Grouped(base, ','), Cents(cents)]
    ensures Unsep(Split(UsaCurrency(base, cents)[1..], '.')[0], ',') == base
  {
    GroupedChars(base, ',', '.');
    CentsFree(cents, '.');
    UsaTail(base, cents);
    SplitTwo(Grouped(base, ','), Cents(cents), '.');
    UngroupGrouped(base, ',');
  }

  // ---------------------------------------------------------------------------
  // The formatter objects and the factories

  datatype DateFormatter = FranceDateFormatter | UsaDateFormatter
  datatype CurrencyFormatter = FranceCurrencyFormatter | UsaCurrencyFormatter
  datatype Factory = UsaFormatterFactory | FranceFormatterFactory

  /** `format_date` of either date formatter. */
  function FormatDate(f: DateFormatter, y: string, m: string, d: string): string {
    match f
    case FranceDateFormatter => FranceDate(y, m, d)
    case UsaDateFormatter => UsaDate(y, m, d)
  }

  /** `format_currency` of either currency formatter, running the grouping loop. */
  method FormatCurrency(f: CurrencyFormatter, base: string, cents: string) returns (r: string)
    ensures f.FranceCurrencyFormatter? ==> r == FranceCurrencyAsWritten(base, cents)
    ensures f.UsaCurrencyFormatter? ==> r == UsaCurrency(base, cents)
  {
    var c := if |cents| == 0 then "00" else if |cents| == 1 then "0" + cents else cents;
    match f
    case FranceCurrencyFormatter =>
      var b := Group(base, ' ');
      r := b + EuroAsWritten + c;
    case UsaCurrencyFormatter =>
      var b := Group(base, ',');
      r := "$" + b + "." + c;
  }

  function CreateDateFormatter(f: Factory): DateFormatter {
    match f
    case UsaFormatterFactory => UsaDateFormatter
    case FranceFormatterFactory => FranceDateFormatter
  }

  function CreateCurrencyFormatter(f: Factory): CurrencyFormatter {
    match f
    case UsaFormatterFactory => UsaCurrencyFormatter
    case FranceFormatterFactory => FranceCurrencyFormatter
  }

  /** `factory_map` */
  const FactoryMap: map<string, Factory> := map["US" := UsaFormatterFactory, "FR" := FranceFormatterFactory]

  /** `factory_map.get(code)` */
  function FactoryFor(code: string): (r: Option<Factory>)
    ensures r.Some? <==> code == "US" || code == "FR"
  {
    if code in FactoryMap then Some(FactoryMap[code]) else None
  }

  /** `country_code` */
  const CountryCode: string := "US"

  /** Each factory hands out the date and currency formatters of one country, and the
      map gives the American one for `US`, which is the module's choice, and the French
      one for `FR`. */
  lemma FactoriesMatch(f: Factory)
    ensures f.UsaFormatterFactory? <==> CreateDateFormatter(f).UsaDateFormatter?
    ensures f.UsaFormatterFactory? <==> CreateCurrencyFormatter(f).UsaCurrencyFormatter?
    ensures FactoryFor("US") == Some(UsaFormatterFactory)
    ensures FactoryFor("FR") == Some(FranceFormatterFactory)
    ensures FactoryFor(CountryCode) == Some(UsaFormatterFactory)
  {
  }

  /** A thousand gets one separator, a hundred none. */
  lemma GroupExample()
    ensures Grouped("1000", ',') == "1,000"
    ensures Grouped("100", ',') == "100"
  {
    assert Grouped("00", ',') == "00";
    assert Grouped("000", ',') == "000";
  }
}
