/**
 * Money display of src/currency.ts: the currency table, the symbol lookup,
 * the thousands grouping of formatted numbers and the money formatter.
 *
 * `Number.prototype.toFixed` is not modelled: it is the parameter
 * `toFixed(x, digits)`.
 */
module Money {
  import opened Wrappers

  /** An entry of the `currencies` table; `symbol` is `undefined` for most codes. */
  datatype Currency = Currency(code: string, name: string, symbol: Option<string>)

  /**
   * The `currencies` table, keyed by ISO 4217 code; split by the first
   * letter of the code.
   */
  function CurrencyTable(code: string): (r: Option<Currency>)
    ensures r.Some? ==> r.value.code == code
  {
    if |code| == 0 then None
    else match code[0]
      case 'A' => TableA(code)
      case 'B' => TableB(code)
      case 'C' => TableC(code)
      case 'D' => TableD(code)
      case 'E' => TableE(code)
      case 'F' => TableF(code)
      case 'G' => TableG(code)
      case 'H' => TableH(code)
      case 'I' => TableI(code)
      case 'J' => TableJ(code)
      case 'K' => TableK(code)
      case 'L' => TableL(code)
      case 'M' => TableM(code)
      case 'N' => TableN(code)
      case 'O' => TableO(code)
      case 'P' => TableP(code)
      case 'Q' => TableQ(code)
      case 'R' => TableR(code)
      case 'S' => TableS(code)
      case 'T' => TableT(code)
      case 'U' => TableU(code)
      case 'V' => TableV(code)
      case 'W' => TableW(code)
      case 'X' => TableX(code)
      case 'Y' => TableY(code)
      case 'Z' => TableZ(code)
      case _ => None
  }

  function TableA(code: string): (r: Option<Currency>)
    ensures r.Some? ==> r.value.code == code
  {
    match code
    case "AED" => Some(Currency("AED", "United Arab Emirates Dirham", None))
    case "AFN" => Some(Currency("AFN", "Afghan Afghani", None))
    case "ALL" => Some(Currency("ALL", "Albanian Lek", None))
    case "AMD" => Some(Currency("AMD", "Armenian Dram", Some("֏")))
    case "ANG" => Some(Currency("ANG", "Netherlands Antillean Guilder", None))
    case "AOA" => Some(Currency("AOA", "Angolan Kwanza", None))
    case "ARS" => Some(Currency("ARS", "Argentine Peso", None))
    case "AUD" => Some(Currency("AUD", "Australian Dollar", Some("AU$")))
    case "AWG" => Some(Currency("AWG", "Aruban Florin", None))
    case "AZN" => Some(Currency("AZN", "Azerbaijani Manat", None))
    case _ => None
  }

  function TableB(code: string): (r: Option<Currency>)
    ensures r.Some? ==> r.value.code == code
  {
    match code
    case "BAM" => Some(Currency("BAM", "Bosnia-Herzegovina Convertible Mark", None))
    case "BBD" => Some(Currency("BBD", "Barbadian Dollar", None))
    case "BDT" => Some(Currency("BDT", "Bangladeshi Taka", None))
    case "BGN" => Some(Currency("BGN", "Bulgarian Lev", None))
    case "BHD" => Some(Currency("BHD", "Bahraini Dinar", None))
    case "BIF" => Some(Currency("BIF", "Burundian Franc", None))
    case "BMD" => Some(Currency("BMD", "Bermudan Dollar", None))
    case "BND" => Some(Currency("BND", "Brunei Dollar", None))
    case "BOB" => Some(Currency("BOB", "Bolivian Boliviano", None))
    case "BRL" => Some(Currency("BRL", "Brazilian Real", None))
    case "BSD" => Some(Currency("BSD", "Bahamian Dollar", None))
    case "BTC" => Some(Currency("BTC", "Bitcoin", None))
    case "BTN" => Some(Currency("BTN", "Bhutanese Ngultrum", None))
    case "BWP" => Some(Currency("BWP", "Botswanan Pula", None))
    case "BYR" => Some(Currency("BYR", "Belarusian Ruble", None))
    case "BZD" => Some(Currency("BZD", "Belize Dollar", None))
    case _ => None
  }

  function TableC(code: string): (r: Option<Currency>)
    ensures r.Some? ==> r.value.code == code
  {
    match code
    case "CAD" => Some(Currency("CAD", "Canadian Dollar", Some("CA$")))
    case "CDF" => Some(Currency("CDF", "Congolese Franc", None))
    case "CHF" => Some(Currency("CHF", "Swiss Franc", None))
    case "CLF" => Some(Currency("CLF", "Chilean Unit of Account (UF)", None))
    case "CLP" => Some(Currency("CLP", "Chilean Peso", None))
    case "CNY" => Some(Currency("CNY", "Chinese Yuan", Some("元")))
    case "COP" => Some(Currency("COP", "Colombian Peso", None))
    case "CRC" => Some(Currency("CRC", "Costa Rican Colón", Some("₡")))
    case "CUC" => Some(Currency("CUC", "Cuban Convertible Peso", None))
    case "CUP" => Some(Currency("CUP", "Cuban Peso", None))
    case "CVE" => Some(Currency("CVE", "Cape Verdean Escudo", None))
    case "CZK" => Some(Currency("CZK", "Czech Republic Koruna", Some("Kč")))
    case _ => None
  }

  function TableD(code: string): (r: Option<Currency>)
    ensures r.Some? ==> r.value.code == code
  {
    match code
    case "DJF" => Some(Currency("DJF", "Djiboutian Franc", None))
    case "DKK" => Some(Currency("DKK", "Danish Krone", None))
    case "DOP" => Some(Currency("DOP", "Dominican Peso", None))
    case "DZD" => Some(Currency("DZD", "Algerian Dinar", None))
    case _ => None
  }

  function TableE(code: string): (r: Option<Currency>)
    ensures r.Some? ==> r.value.code == code
  {
    match code
    case "EEK" => Some(Currency("EEK", "Estonian Kroon", None))
    case "EGP" => Some(Currency("EGP", "Egyptian Pound", None))
    case "ERN" => Some(Currency("ERN", "Eritrean Nakfa", None))
    case "ETB" => Some(Currency("ETB", "Ethiopian Birr", None))
    case "EUR" => Some(Currency("EUR", "Euro", Some("€")))
    case _ => None
  }

  function TableF(code: string): (r: Option<Currency>)
    ensures r.Some? ==> r.value.code == code
  {
    match code
    case "FJD" => Some(Currency("FJD", "Fijian Dollar", None))
    case "FKP" => Some(Currency("FKP", "Falkland Islands Pound", None))
    case _ => None
  }

  function TableG(code: string): (r: Option<Currency>)
    ensures r.Some? ==> r.value.code == code
  {
    match code
    case "GBP" => Some(Currency("GBP", "British Pound Sterling", Some("£")))
    case "GEL" => Some(Currency("GEL", "Georgian Lari", None))
    case "GGP" => Some(Currency("GGP", "Guernsey Pound", None))
    case "GHS" => Some(Currency("GHS", "Ghanaian Cedi", None))
    case "GIP" => Some(Currency("GIP", "Gibraltar Pound", None))
    case "GMD" => Some(Currency("GMD", "Gambian Dalasi", None))
    case "GNF" => Some(Currency("GNF", "Guinean Franc", None))
    case "GTQ" => Some(Currency("GTQ", "Guatemalan Quetzal", None))
    case "GYD" => Some(Currency("GYD", "Guyanaese Dollar", None))
    case _ => None
  }

  function TableH(code: string): (r: Option<Currency>)
    ensures r.Some? ==> r.value.code == code
  {
    match code
    case "HKD" => Some(Currency("HKD", "Hong Kong Dollar", None))
    case "HNL" => Some(Currency("HNL", "Honduran Lempira", None))
    case "HRK" => Some(Currency("HRK", "Croatian Kuna", None))
    case "HTG" => Some(Currency("HTG", "Haitian Gourde", None))
    case "HUF" => Some(Currency("HUF", "Hungarian Forint", None))
    case _ => None
  }

  function TableI(code: string): (r: Option<Currency>)
    ensures r.Some? ==> r.value.code == code
  {
    match code
    case "IDR" => Some(Currency("IDR", "Indonesian Rupiah", None))
    case "ILS" => Some(Currency("ILS", "Israeli New Sheqel", None))
    case "IMP" => Some(Currency("IMP", "Manx pound", None))
    case "INR" => Some(Currency("INR", "Indian Rupee", Some("₹")))
    case "IQD" => Some(Currency("IQD", "Iraqi Dinar", None))
    case "IRR" => Some(Currency("IRR", "Iranian Rial", None))
    case "ISK" => Some(Currency("ISK", "Icelandic Króna", None))
    case _ => None
  }

  function TableJ(code: string): (r: Option<Currency>)
    ensures r.Some? ==> r.value.code == code
  {
    match code
    case "JEP" => Some(Currency("JEP", "Jersey Pound", None))
    case "JMD" => Some(Currency("JMD", "Jamaican Dollar", None))
    case "JOD" => Some(Currency("JOD", "Jordanian Dinar", None))
    case "JPY" => Some(Currency("JPY", "Japanese Yen", Some("¥")))
    case _ => None
  }

  function TableK(code: string): (r: Option<Currency>)
    ensures r.Some? ==> r.value.code == code
  {
    match code
    case "KES" => Some(Currency("KES", "Kenyan Shilling", None))
    case "KGS" => Some(Currency("KGS", "Kyrgystani Som", None))
    case "KHR" => Some(Currency("KHR", "Cambodian Riel", None))
    case "KMF" => Some(Currency("KMF", "Comorian Franc", None))
    case "KPW" => Some(Currency("KPW", "North Korean Won", None))
    case "KRW" => Some(Currency("KRW", "South Korean Won", None))
    case "KWD" => Some(Currency("KWD", "Kuwaiti Dinar", None))
    case "KYD" => Some(Currency("KYD", "Cayman Islands Dollar", None))
    case "KZT" => Some(Currency("KZT", "Kazakhstani Tenge", Some("₸")))
    case _ => None
  }

  function TableL(code: string): (r: Option<Currency>)
    ensures r.Some? ==> r.value.code == code
  {
    match code
    case "LAK" => Some(Currency("LAK", "Laotian Kip", Some("₭")))
    case "LBP" => Some(Currency("LBP", "Lebanese Pound", None))
    case "LKR" => Some(Currency("LKR", "Sri Lankan Rupee", None))
    case "LRD" => Some(Currency("LRD", "Liberian Dollar", None))
    case "LSL" => Some(Currency("LSL", "Lesotho Loti", None))
    case "LTL" => Some(Currency("LTL", "Lithuanian Litas", None))
    case "LVL" => Some(Currency("LVL", "Latvian Lats", None))
    case "LYD" => Some(Currency("LYD", "Libyan Dinar", None))
    case _ => None
  }

  function TableM(code: string): (r: Option<Currency>)
    ensures r.Some? ==> r.value.code == code
  {
    match code
    case "MAD" => Some(Currency("MAD", "Moroccan Dirham", None))
    case "MDL" => Some(Currency("MDL", "Moldovan Leu", None))
    case "MGA" => Some(Currency("MGA", "Malagasy Ariary", None))
    case "MKD" => Some(Currency("MKD", "Macedonian Denar", None))
    case "MMK" => Some(Currency("MMK", "Myanma Kyat", None))
    case "MNT" => Some(Currency("MNT", "Mongolian Tugrik", None))
    case "MOP" => Some(Currency("MOP", "Macanese Pataca", None))
    case "MRO" => Some(Currency("MRO", "Mauritanian Ouguiya", None))
    case "MTL" => Some(Currency("MTL", "Maltese Lira", None))
    case "MUR" => Some(Currency("MUR", "Mauritian Rupee", None))
    case "MVR" => Some(Currency("MVR", "Maldivian Rufiyaa", None))
    case "MWK" => Some(Currency("MWK", "Malawian Kwacha", None))
    case "MXN" => Some(Currency("MXN", "Mexican Peso", None))
    case "MYR" => Some(Currency("MYR", "Malaysian Ringgit", None))
    case "MZN" => Some(Currency("MZN", "Mozambican Metical", None))
    case _ => None
  }

  function TableN(code: string): (r: Option<Currency>)
    ensures r.Some? ==> r.value.code == code
  {
    match code
    case "NAD" => Some(Currency("NAD", "Namibian Dollar", None))
    case "NGN" => Some(Currency("NGN", "Nigerian Naira", None))
    case "NIO" => Some(Currency("NIO", "Nicaraguan Córdoba", None))
    case "NOK" => Some(Currency("NOK", "Norwegian Krone", None))
    case "NPR" => Some(Currency("NPR", "Nepalese Rupee", None))
    case "NZD" => Some(Currency("NZD", "New Zealand Dollar", None))
    case _ => None
  }

  function TableO(code: string): (r: Option<Currency>)
    ensures r.Some? ==> r.value.code == code
  {
    match code
    case "OMR" => Some(Currency("OMR", "Omani Rial", None))
    case _ => None
  }

  function TableP(code: string): (r: Option<Currency>)
    ensures r.Some? ==> r.value.code == code
  {
    match code
    case "PAB" => Some(Currency("PAB", "Panamanian Balboa", None))
    case "PEN" => Some(Currency("PEN", "Peruvian Nuevo Sol", Some("S/.")))
    case "PGK" => Some(Currency("PGK", "Papua New Guinean Kina", None))
    case "PHP" => Some(Currency("PHP", "Philippine Peso", Some("₱")))
    case "PKR" => Some(Currency("PKR", "Pakistani Rupee", None))
    case "PLN" => Some(Currency("PLN", "Polish Zloty", None))
    case "PYG" => Some(Currency("PYG", "Paraguayan Guarani", None))
    case _ => None
  }

  function TableQ(code: string): (r: Option<Currency>)
    ensures r.Some? ==> r.value.code == code
  {
    match code
    case "QAR" => Some(Currency("QAR", "Qatari Rial", None))
    case _ => None
  }

  function TableR(code: string): (r: Option<Currency>)
    ensures r.Some? ==> r.value.code == code
  {
    match code
    case "RON" => Some(Currency("RON", "Romanian Leu", None))
    case "RSD" => Some(Currency("RSD", "Serbian Dinar", None))
    case "RUB" => Some(Currency("RUB", "Russian Ruble", Some("₽")))
    case "RWF" => Some(Currency("RWF", "Rwandan Franc", None))
    case _ => None
  }

  function TableS(code: string): (r: Option<Currency>)
    ensures r.Some? ==> r.value.code == code
  {
    match code
    case "SAR" => Some(Currency("SAR", "Saudi Riyal", None))
    case "SBD" => Some(Currency("SBD", "Solomon Islands Dollar", None))
    case "SCR" => Some(Currency("SCR", "Seychellois Rupee", None))
    case "SDG" => Some(Currency("SDG", "Sudanese Pound", None))
    case "SEK" => Some(Currency("SEK", "Swedish Krona", None))
    case "SGD" => Some(Currency("SGD", "Singapore Dollar", None))
    case "SHP" => Some(Currency("SHP", "Saint Helena Pound", None))
    case "SLL" => Some(Currency("SLL", "Sierra Leonean Leone", None))
    case "SOS" => Some(Currency("SOS", "Somali Shilling", None))
    case "SRD" => Some(Currency("SRD", "Surinamese Dollar", None))
    case "STD" => Some(Currency("STD", "São Tomé and Príncipe Dobra", None))
    case "SVC" => Some(Currency("SVC", "Salvadoran Colón", None))
    case "SYP" => Some(Currency("SYP", "Syrian Pound", None))
    case "SZL" => Some(Currency("SZL", "Swazi Lilangeni", None))
    case _ => None
  }

  function TableT(code: string): (r: Option<Currency>)
    ensures r.Some? ==> r.value.code == code
  {
    match code
    case "THB" => Some(Currency("THB", "Thai Baht", Some("฿")))
    case "TJS" => Some(Currency("TJS", "Tajikistani Somoni", None))
    case "TMT" => Some(Currency("TMT", "Turkmenistani Manat", None))
    case "TND" => Some(Currency("TND", "Tunisian Dinar", None))
    case "TOP" => Some(Currency("TOP", "Tongan Paʻanga", None))
    case "TRY" => Some(Currency("TRY", "Turkish Lira", Some("₺")))
    case "TTD" => Some(Currency("TTD", "Trinidad and Tobago Dollar", None))
    case "TWD" => Some(Currency("TWD", "New Taiwan Dollar", None))
    case "TZS" => Some(Currency("TZS", "Tanzanian Shilling", None))
    case _ => None
  }

  function TableU(code: string): (r: Option<Currency>)
    ensures r.Some? ==> r.value.code == code
  {
    match code
    case "UAH" => Some(Currency("UAH", "Ukrainian Hryvnia", Some("₴")))
    case "UGX" => Some(Currency("UGX", "Ugandan Shilling", None))
    case "USD" => Some(Currency("USD", "United States Dollar", Some("$")))
    case "UYU" => Some(Currency("UYU", "Uruguayan Peso", None))
    case "UZS" => Some(Currency("UZS", "Uzbekistan Som", None))
    case _ => None
  }

  function TableV(code: string): (r: Option<Currency>)
    ensures r.Some? ==> r.value.code == code
  {
    match code
    case "VEF" => Some(Currency("VEF", "Venezuelan Bolívar Fuerte", None))
    case "VND" => Some(Currency("VND", "Vietnamese Dong", Some("₫")))
    case "VUV" => Some(Currency("VUV", "Vanuatu Vatu", None))
    case _ => None
  }

  function TableW(code: string): (r: Option<Currency>)
    ensures r.Some? ==> r.value.code == code
  {
    match code
    case "WST" => Some(Currency("WST", "Samoan Tala", None))
    case _ => None
  }

  function TableX(code: string): (r: Option<Currency>)
    ensures r.Some? ==> r.value.code == code
  {
    match code
    case "XAF" => Some(Currency("XAF", "CFA Franc BEAC", None))
    case "XAG" => Some(Currency("XAG", "Silver (troy ounce)", None))
    case "XAU" => Some(Currency("XAU", "Gold (troy ounce)", None))
    case "XCD" => Some(Currency("XCD", "East Caribbean Dollar", None))
    case "XDR" => Some(Currency("XDR", "Special Drawing Rights", None))
    case "XOF" => Some(Currency("XOF", "CFA Franc BCEAO", None))
    case "XPD" => Some(Currency("XPD", "Palladium Ounce", None))
    case "XPF" => Some(Currency("XPF", "CFP Franc", None))
    case "XPT" => Some(Currency("XPT", "Platinum Ounce", None))
    case _ => None
  }

  function TableY(code: string): (r: Option<Currency>)
    ensures r.Some? ==> r.value.code == code
  {
    match code
    case "YER" => Some(Currency("YER", "Yemeni Rial", None))
    case _ => None
  }

  function TableZ(code: string): (r: Option<Currency>)
    ensures r.Some? ==> r.value.code == code
  {
    match code
    case "ZAR" => Some(Currency("ZAR", "South African Rand", None))
    case "ZMK" => Some(Currency("ZMK", "Zambian Kwacha (pre-2013)", None))
    case "ZMW" => Some(Currency("ZMW", "Zambian Kwacha", None))
    case "ZWL" => Some(Currency("ZWL", "Zimbabwean Dollar", None))
    case _ => None
  }

  // ---------------------------------------------------------------------
  // prettyCurrency
  // ---------------------------------------------------------------------

  /**
   * `prettyCurrency(currency)`: `null` for an absent or empty code, the code
   * itself when it is not in the table, otherwise the entry's symbol or,
   * without one, its code.
   */
  function PrettyCurrency(currency: Option<string>): (r: Option<string>)
    ensures r.Some? && r.value != "" <==> currency.Some? && currency.value != ""
    ensures currency.Some? && currency.value != "" && CurrencyTable(currency.value).None? ==> r == currency
    ensures (currency.Some? && currency.value != "" && CurrencyTable(currency.value).Some?
             && CurrencyTable(currency.value).value.symbol.None?) ==> r == currency
    ensures (currency.Some? && CurrencyTable(currency.value).Some?
             && CurrencyTable(currency.value).value.symbol.Some?
             && CurrencyTable(currency.value).value.symbol.value != "") ==> r == CurrencyTable(currency.value).value.symbol
  {
    if currency.None? || currency.value == "" then None
    else match CurrencyTable(currency.value)
      case None => currency
      case Some(c) => if c.symbol.Some? && c.symbol.value != "" then c.symbol else Some(c.code)
  }

  /** The euro shows its sign, the dirham (no symbol) its code, an unknown code itself. */
  lemma PrettyCurrencyExamples()
    ensures PrettyCurrency(Some("EUR")) == Some("€")
    ensures PrettyCurrency(Some("AED")) == Some("AED")
    ensures PrettyCurrency(Some("XYZ")) == Some("XYZ")
    ensures PrettyCurrency(Some("")) == None && PrettyCurrency(None) == None
  {
    assert CurrencyTable("EUR") == TableE("EUR");
    assert CurrencyTable("AED") == TableA("AED");
    assert CurrencyTable("XYZ") == TableX("XYZ");
  }

  // ---------------------------------------------------------------------
  // prettyNumber
  // ---------------------------------------------------------------------

  predicate IsDigit(c: char) {
    '0' <= c <= '9'
  }

  predicate AllDigits(u: string) {
    forall i | 0 <= i < |u| :: IsDigit(u[i])
  }

  /** The length of the run of digits that starts `u`. */
  function DigitRun(u: string): (n: nat)
    ensures n <= |u| && AllDigits(u[..n])
    ensures n < |u| ==> !IsDigit(u[n])
  {
    if u == [] || !IsDigit(u[0]) then 0
    else
      var n := 1 + DigitRun(u[1..]);
      assert u[..n] == [u[0]] + u[1..][..n - 1];
      n
  }

  /**
   * A space goes after the first character of `t`: it is a digit followed
   * by a run of digits whose length is a positive multiple of three and
   * which ends the string or is followed by `'.'`.
   */
  predicate GroupBoundary(t: string) {
    && t != []
    && IsDigit(t[0])
    && var n := DigitRun(t[1..]);
      && n > 0 && n % 3 == 0
      && (1 + n == |t| || t[1 + n] == '.')
  }

  /** The lookahead `(?=(\d{3})+(\.|$))` succeeds with `k` groups of three digits. */
  predicate Lookahead(t: string, k: nat) {
    && k >= 1 && 1 + 3 * k <= |t|
    && AllDigits(t[1..1 + 3 * k])
    && (1 + 3 * k == |t| || t[1 + 3 * k] == '.')
  }

  /** `GroupBoundary` is exactly where the pattern `(\d)(?=(\d{3})+(\.|$))` matches. */
  lemma GroupBoundaryIsPattern(t: string)
    requires t != []
    ensures GroupBoundary(t) <==> IsDigit(t[0]) && exists k: nat :: Lookahead(t, k)
  {
    var u := t[1..];
    var n := DigitRun(u);
    if GroupBoundary(t) {
      assert u[..n] == t[1..1 + 3 * (n / 3)];
      assert Lookahead(t, n / 3);
    }
    if IsDigit(t[0]) && exists k: nat :: Lookahead(t, k) {
      var k: nat :| Lookahead(t, k);
      assert forall i | 0 <= i < 3 * k :: IsDigit(u[i]) by {
        forall i | 0 <= i < 3 * k
          ensures IsDigit(u[i])
        {
          assert u[i] == t[1..1 + 3 * k][i];
        }
      }
      DigitRunCovers(u, 3 * k);
    }
  }

  /** A run covers every prefix made of digits. */
  lemma {:induction false} DigitRunCovers(u: string, m: nat)
    requires m <= |u| && forall i | 0 <= i < m :: IsDigit(u[i])
    ensures DigitRun(u) >= m
  {
    if m > 0 {
      DigitRunCovers(u[1..], m - 1);
    }
  }

  /**
   * The `replace` of `prettyNumber`: a space after each digit that
   * `GroupBoundary` selects; every other character is copied.
   */
  function Grouped(s: string): (r: string)
    ensures |r| >= |s|
  {
    if s == [] then []
    else [s[0]] + (if GroupBoundary(s) then " " else "") + Grouped(s[1..])
  }

  /** The characters of `s` other than spaces. */
  function RemoveSpaces(s: string): (r: string)
    ensures |r| <= |s|
  {
    if s == [] then [] else (if s[0] == ' ' then "" else [s[0]]) + RemoveSpaces(s[1..])
  }

  /** Grouping only inserts spaces: taking them out again gives back the input. */
  lemma {:induction false} GroupedOnlyInsertsSpaces(s: string)
    ensures ' ' !in s ==> RemoveSpaces(Grouped(s)) == s
  {
    if s != [] && ' ' !in s {
      GroupedOnlyInsertsSpaces(s[1..]);
      var sep := if GroupBoundary(s) then " " else "";
      RemoveSpacesAppend([s[0]] + sep, Grouped(s[1..]));
      assert RemoveSpaces([s[0]] + sep) == [s[0]];
      assert s == [s[0]] + s[1..];
    }
  }

  lemma {:induction false} RemoveSpacesAppend(a: string, b: string)
    ensures RemoveSpaces(a + b) == RemoveSpaces(a) + RemoveSpaces(b)
  {
    if a != [] {
      RemoveSpacesAppend(a[1..], b);
      var head := if a[0] == ' ' then "" else [a[0]];
      assert (a + b)[0] == a[0];
      assert (a + b)[1..] == a[1..] + b;
      calc {
        RemoveSpaces(a + b);
        head + RemoveSpaces(a[1..] + b);
        head + (RemoveSpaces(a[1..]) + RemoveSpaces(b));
        (head + RemoveSpaces(a[1..])) + RemoveSpaces(b);
        RemoveSpaces(a) + RemoveSpaces(b);
      }
    } else {
      assert a + b == b;
    }
  }

  /**
   * `prettyNumber(number, fixed)` as written: when `fixed` is not given,
   * the code assigns 2 to `number` instead of to `fixed`, so it formats the
   * number 2 with no decimals, whatever `number` was.
   */
  function PrettyNumberAsWritten(number: real, fixed: Option<nat>, toFixed: (real, nat) -> string): (r: string)
    ensures var text := if fixed.Some? then toFixed(number, fixed.value) else toFixed(2.0, 0);
      |r| >= |text| && (' ' !in text ==> RemoveSpaces(r) == text)
  {
    var text := if fixed.Some? then toFixed(number, fixed.value) else toFixed(2.0, 0);
    GroupedOnlyInsertsSpaces(text); Grouped(text)
  }

  /** As written, the output without `fixed` does not depend on the number. */
  lemma PrettyNumberIgnoresNumber(a: real, b: real, toFixed: (real, nat) -> string)
    ensures PrettyNumberAsWritten(a, None, toFixed) == PrettyNumberAsWritten(b, None, toFixed)
  {
  }

  /** For instance 1234.5 prints as `"2"`. */
  lemma PrettyNumberAsWrittenExample(toFixed: (real, nat) -> string)
    requires toFixed(2.0, 0) == "2"
    ensures PrettyNumberAsWritten(1234.5, None, toFixed) == "2"
  {
    assert !GroupBoundary("2");
  }

  /** `prettyNumber(number, fixed)` with the default of two decimals applied to `fixed`. */
  function PrettyNumber(number: real, fixed: Option<nat>, toFixed: (real, nat) -> string): (r: string)
    ensures var text := toFixed(number, if fixed.Some? then fixed.value else 2);
      |r| >= |text| && (' ' !in text ==> RemoveSpaces(r) == text)
  {
    var text := toFixed(number, if fixed.Some? then fixed.value else 2);
    GroupedOnlyInsertsSpaces(text); Grouped(text)
  }

  /** The pretty text is the two-decimal text of the number, spaces aside. */
  lemma PrettyNumberKeepsDigits(number: real, toFixed: (real, nat) -> string)
    requires ' ' !in toFixed(number, 2)
    ensures RemoveSpaces(PrettyNumber(number, None, toFixed)) == toFixed(number, 2)
  {
    GroupedOnlyInsertsSpaces(toFixed(number, 2));
  }

  // ---------------------------------------------------------------------
  // prettyMoney
  // ---------------------------------------------------------------------

  /** The first argument of `prettyMoney`: a number, or an `IMoney` record. */
  datatype Amount = Plain(n: real) | Money(amt: real, cur: string)

  /**
   * `prettyMoney(amount, cur)` around a number formatter: `'-'` for a zero
   * amount; otherwise the formatted amount followed by a space and the
   * currency's display form when there is one. An `IMoney` amount brings
   * its own currency, which replaces `cur`.
   */
  function PrettyMoneyWith(amount: Amount, cur: Option<string>, format: real -> string): (r: string)
    ensures AmountOf(amount) == 0.0 ==> r == "-"
    ensures AmountOf(amount) != 0.0 ==> format(AmountOf(amount)) <= r
    ensures AmountOf(amount) != 0.0 ==>
      (r == format(AmountOf(amount)) <==> !NamesCurrency(CurrencyOf(amount, cur)))
  {
    var amt := AmountOf(amount);
    var currency := CurrencyOf(amount, cur);
    if amt == 0.0 then "-"
    else
      var amtStr := format(amt);
      var csymbol := PrettyCurrency(currency);
      if csymbol.Some? && csymbol.value != "" then amtStr + " " + csymbol.value else amtStr
  }

  /** The number an amount carries: `amount` itself, or `amount.amt`. */
  function AmountOf(amount: Amount): real {
    if amount.Plain? then amount.n else amount.amt
  }

  /** The currency shown: `cur`, or the record's own `amount.cur`. */
  function CurrencyOf(amount: Amount, cur: Option<string>): Option<string> {
    if amount.Plain? then cur else Some(amount.cur)
  }

  /** A currency argument that is given and not empty. */
  predicate NamesCurrency(currency: Option<string>) {
    currency.Some? && currency.value != ""
  }

  /** `prettyMoney` with `prettyNumber` as intended. */
  function PrettyMoney(amount: Amount, cur: Option<string>, toFixed: (real, nat) -> string): (r: string)
    ensures AmountOf(amount) == 0.0 ==> r == "-"
    ensures AmountOf(amount) != 0.0 ==> PrettyNumber(AmountOf(amount), None, toFixed) <= r
  {
    PrettyMoneyWith(amount, cur, n => PrettyNumber(n, None, toFixed))
  }

  /** `prettyMoney` with `prettyNumber` as written. */
  function PrettyMoneyAsWritten(amount: Amount, cur: Option<string>, toFixed: (real, nat) -> string): (r: string)
    ensures AmountOf(amount) == 0.0 ==> r == "-"
    ensures AmountOf(amount) != 0.0 ==> Grouped(toFixed(2.0, 0)) <= r
  {
    PrettyMoneyWith(amount, cur, n => PrettyNumberAsWritten(n, None, toFixed))
  }

  /**
   * A zero amount shows `'-'`; any other shows the formatted amount, then a
   * space and the display form of its currency when there is a currency.
   */
  lemma PrettyMoneyShape(amt: real, cur: Option<string>, format: real -> string)
    ensures amt == 0.0 ==> PrettyMoneyWith(Plain(amt), cur, format) == "-"
    ensures amt != 0.0 && (cur.None? || cur.value == "") ==> PrettyMoneyWith(Plain(amt), cur, format) == format(amt)
    ensures amt != 0.0 && cur.Some? && cur.value != "" ==>
      PrettyMoneyWith(Plain(amt), cur, format) == format(amt) + " " + PrettyCurrency(cur).value
  {
  }

  /**
   * The currency of an `IMoney` amount replaces the one passed alongside:
   * the record prints as its plain amount in its own currency.
   */
  lemma MoneyCurrencyOverrides(amt: real, own: string, cur: Option<string>, format: real -> string)
    ensures PrettyMoneyWith(Money(amt, own), cur, format) == PrettyMoneyWith(Plain(amt), Some(own), format)
  {
  }

  /** As written, every non-zero amount in the same currency prints the same. */
  lemma PrettyMoneyAsWrittenIgnoresAmount(a: real, b: real, cur: Option<string>, toFixed: (real, nat) -> string)
    requires a != 0.0 && b != 0.0
    ensures PrettyMoneyAsWritten(Plain(a), cur, toFixed) == PrettyMoneyAsWritten(Plain(b), cur, toFixed)
  {
  }

  /** Intended display of 1234 euros. */
  lemma PrettyMoneyExample(toFixed: (real, nat) -> string)
    requires toFixed(1234.0, 2) == "1234.00"
    ensures PrettyMoney(Money(1234.0, "EUR"), None, toFixed) == "1 234.00 €"
  {
    PrettyCurrencyExamples();
    GroupedThousands("1234.00");
  }

  /** A space goes after the thousands digit of `"1234.00"` and nowhere else. */
  lemma GroupedThousands(s: string)
    requires s == "1234.00"
    ensures Grouped(s) == "1 234.00"
  {
    forall k | 1 <= k < |s| ensures !GroupBoundary(s[k..]) {
      assert s[k..][1..] == s[k + 1..];
      if k < 4 {
        assert DigitRun(s[k + 1..]) == 3 - k by {
          DigitRunCovers(s[k + 1..], 3 - k);
        }
      }
    }
    assert s[1..][1..] == s[2..];
    assert DigitRun(s[1..]) == 3 by {
      DigitRunCovers(s[1..], 3);
    }
    GroupedPlain(s[1..]);
  }

  /** Text without a group boundary comes out unchanged. */
  lemma {:induction false} GroupedPlain(t: string)
    requires forall k | 0 <= k < |t| :: !GroupBoundary(t[k..])
    ensures Grouped(t) == t
  {
    if t != [] {
      forall k | 0 <= k < |t| - 1 ensures !GroupBoundary(t[1..][k..]) {
        assert t[1..][k..] == t[k + 1..];
      }
      GroupedPlain(t[1..]);
      assert t[0..] == t;
    }
  }
}
