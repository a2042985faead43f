/** The price-dependent part of reading a Mercado Livre listing: the price read
    from the scraped tags, the listing type and its commission band, the fixed
    fee, the tax and partner amounts, the estimated net range and the summary
    text that the report prints line by line. The scraping itself is outside the
    model: the tag texts arrive as inputs, `None` where a tag is missing. */
module Fees {
  import opened Wrappers
  import opened Strings
  import opened Decimal

  // ---------------------------------------------------------------- price

  /** The price shown by the fraction and cents tags: the fraction without
      surrounding whitespace and without its thousands dots, a point, and the
      cents (`"00"` when the cents tag is missing), read by `float`. A missing
      fraction tag or a text `float` rejects gives no price. */
  function ParsePrice(fraction: Option<string>, cents: Option<string>): (price: Option<real>)
    ensures fraction.None? ==> price.None?
  {
    match fraction
    case None => None
    case Some(raw) => ParseFloat(PriceText(raw, cents))
  }

  /** The text the price is read from: `f"{inteiro}.{centavos}"`. */
  function PriceText(raw: string, cents: Option<string>): string {
    var whole := RemoveChar(Strip(raw), '.');
    var centavos := if cents.Some? then Strip(cents.value) else "00";
    whole + "." + centavos
  }

  /** Digits grouped by thousands dots, as the listing shows them. */
  predicate DigitsAndDots(s: string) {
    forall k :: 0 <= k < |s| ==> IsDigit(s[k]) || s[k] == '.'
  }

  /** A grouped fraction such as `1.299` with cents `90` reads as `1299.90`:
      the dots are dropped and the cents become the decimals. */
  lemma PriceOfDigits(raw: string, cents: string)
    requires |raw| > 0 && |cents| > 0
    requires DigitsAndDots(raw) && AllDigits(cents) && IsDigit(raw[0]) && IsDigit(raw[|raw| - 1])
    ensures AllDigits(RemoveChar(raw, '.'))
    ensures ParsePrice(Some(raw), Some(cents)) == Some(DecimalValue(RemoveChar(raw, '.'), cents))
  {
    var whole := RemoveChar(raw, '.');
    DotsRemoved(raw);
    PriceTextOfDigits(raw, cents);
    ParseDigitsDotDigits(whole, cents);
  }

  lemma PriceTextOfDigits(raw: string, cents: string)
    requires |raw| > 0 && |cents| > 0
    requires DigitsAndDots(raw) && AllDigits(cents) && IsDigit(raw[0]) && IsDigit(raw[|raw| - 1])
    ensures PriceText(raw, Some(cents)) == RemoveChar(raw, '.') + "." + cents
  {
    EndsUnstripped(raw);
    DigitsUnstripped(cents);
    PriceTextUnstripped(raw, cents);
  }

  /** A fraction and cents that `strip()` leaves alone are joined as they are. */
  lemma PriceTextUnstripped(raw: string, cents: string)
    requires Strip(raw) == raw && Strip(cents) == cents
    ensures PriceText(raw, Some(cents)) == RemoveChar(raw, '.') + "." + cents
  {
  }

  lemma EndsUnstripped(s: string)
    requires |s| > 0 && IsDigit(s[0]) && IsDigit(s[|s| - 1])
    ensures Strip(s) == s
  {
    StripUnchanged(s);
  }

  lemma DigitsUnstripped(s: string)
    requires |s| > 0 && AllDigits(s)
    ensures Strip(s) == s
  {
    assert IsDigit(s[0]) && IsDigit(s[|s| - 1]);
    EndsUnstripped(s);
  }

  lemma {:induction false} DotsRemoved(s: string)
    requires DigitsAndDots(s)
    ensures AllDigits(RemoveChar(s, '.'))
    decreases |s|
  {
    if |s| > 0 {
      assert DigitsAndDots(s[1..]) by {
        forall k | 0 <= k < |s[1..]| ensures IsDigit(s[1..][k]) || s[1..][k] == '.' {
          assert s[1..][k] == s[k + 1];
        }
      }
      DotsRemoved(s[1..]);
      var rest := RemoveChar(s[1..], '.');
      var head: string := if s[0] == '.' then [] else [s[0]];
      assert RemoveChar(s, '.') == head + rest;
      forall k | 0 <= k < |head + rest| ensures IsDigit((head + rest)[k]) {
        if k >= |head| {
          assert (head + rest)[k] == rest[k - |head|];
        }
      }
    }
  }

  /** Without a cents tag the price is read as if the cents were `00`. */
  lemma MissingCents(raw: string)
    ensures ParsePrice(Some(raw), None) == ParsePrice(Some(raw), Some("00"))
  {
    StripUnchanged("00");
  }

  /** A character `float` never accepts anywhere in the fraction tag (other
      than the dots, which are dropped) leaves the price unread. */
  lemma ForeignCharInFraction(raw: string, cents: Option<string>, k: nat)
    requires k < |raw| && !FloatChar(raw[k])
    ensures ParsePrice(Some(raw), cents).None?
  {
    var t := PriceText(raw, cents);
    StripKeeps(raw, k);
    RemoveCharKeeps(Strip(raw), '.', raw[k]);
    var whole := RemoveChar(Strip(raw), '.');
    var i :| 0 <= i < |whole| && whole[i] == raw[k];
    var centavos := if cents.Some? then Strip(cents.value) else "00";
    assert t == whole + "." + centavos;
    assert t[i] == raw[k];
    if ParseFloat(t).Some? {
      FloatAlphabet(t);
      assert false;
    }
  }

  /** Likewise for a foreign character in the cents tag. */
  lemma ForeignCharInCents(raw: string, cents: string, k: nat)
    requires k < |cents| && !FloatChar(cents[k])
    ensures ParsePrice(Some(raw), Some(cents)).None?
  {
    var t := PriceText(raw, Some(cents));
    StripKeeps(cents, k);
    var whole := RemoveChar(Strip(raw), '.');
    var stripped := Strip(cents);
    var i :| 0 <= i < |stripped| && stripped[i] == cents[k];
    assert t == whole + "." + stripped;
    assert t[|whole| + 1 + i] == cents[k];
    if ParseFloat(t).Some? {
      FloatAlphabet(t);
      assert false;
    }
  }

  /** `float` drops only the ASCII whitespace and the whitespace above
      U+007F, so any other character inside the fraction, which `strip()`
      leaves there, makes it fail: the separators U+001C to U+001F, say. */
  lemma KeptForeignInFraction(raw: string, cents: Option<string>, i: nat, k: nat, j: nat)
    requires i <= k <= j < |raw| && !IsSpace(raw[i]) && !IsSpace(raw[j])
    requires !LiteralChar(raw[k]) && !FloatSpace(raw[k])
    ensures ParsePrice(Some(raw), cents).None?
  {
    KeptInPriceText(raw, cents, i, k, j);
    ForeignRejected(PriceText(raw, cents), raw[k]);
  }

  /** A character of the fraction between two that are not whitespace reaches
      the price text. */
  lemma KeptInPriceText(raw: string, cents: Option<string>, i: nat, k: nat, j: nat)
    requires i <= k <= j < |raw| && !IsSpace(raw[i]) && !IsSpace(raw[j]) && raw[k] != '.'
    ensures raw[k] in PriceText(raw, cents)
  {
    StripKeepsInside(raw, i, k, j);
    RemoveCharKeeps(Strip(raw), '.', raw[k]);
    WholeInPriceText(raw, cents, raw[k]);
  }

  /** The fraction's digits open the price text. */
  lemma WholeInPriceText(raw: string, cents: Option<string>, c: char)
    requires c in RemoveChar(Strip(raw), '.')
    ensures c in PriceText(raw, cents)
  {
    var whole := RemoveChar(Strip(raw), '.');
    var m :| 0 <= m < |whole| && whole[m] == c;
    assert PriceText(raw, cents)[m] == whole[m];
  }

  /** `float` fails on a text holding a character it neither reads nor drops. */
  lemma ForeignRejected(t: string, c: char)
    requires c in t && !LiteralChar(c) && !FloatSpace(c)
    ensures ParseFloat(t).None?
  {
    if ParseFloat(t).Some? {
      FloatAlphabet(t);
      assert false;
    }
  }

  /** The fraction `.<U+001C>5` gives no price: `strip()` keeps the separator
      between the point and the digit, and `float` does not drop it from
      `<U+001C>5.00`. */
  lemma SeparatorInFraction()
    ensures ParsePrice(Some(".\U{1c}5"), None) == None
  {
    var raw := ".\U{1c}5";
    assert raw[0] == '.' && raw[1] == '\U{1c}' && raw[2] == '5';
    KeptForeignInFraction(raw, None, 0, 1, 2);
  }

  /** Nor does `.<U+001C><U+00A0>5`: the no-break space beside the separator
      is made a space, but the separator itself stays. */
  lemma SpacedSeparatorInFraction()
    ensures ParsePrice(Some(".\U{1c}\U{a0}5"), None) == None
  {
    var raw := ".\U{1c}\U{a0}5";
    assert raw[0] == '.' && raw[1] == '\U{1c}' && raw[3] == '5';
    KeptForeignInFraction(raw, None, 0, 1, 3);
  }

  /** Python's truthiness of the optional price: `None` and `0.0` are false. */
  predicate Truthy(price: Option<real>) {
    price.Some? && price.value != 0.0
  }

  // ---------------------------------------------------------------- listing type

  /** The two listing types of Mercado Livre; `Classic` is "Clássico". */
  datatype ListingType = Premium | Classic

  const Phrase: string := "sem juros"

  /** A listing is Premium exactly when its lower-cased page text mentions
      instalments "sem juros" somewhere. */
  function Classify(pageText: string): (t: ListingType)
    ensures t == Premium <==> exists i :: OccursAt(Lower(pageText), Phrase, i)
  {
    ContainsAt(Lower(pageText), Phrase);
    if Contains(Lower(pageText), Phrase) then Premium else Classic
  }

  /** The commission band, in percent, of each listing type. */
  function CommissionBand(t: ListingType): (band: (real, real))
    ensures band.0 < band.1
  {
    match t
    case Premium => (16.5, 19.0)
    case Classic => (11.5, 14.0)
  }

  /** The phrase in any casing, anywhere in the page, makes the listing Premium. */
  lemma AnyCasingAnywhere(before: string, phrase: string, after: string)
    requires Lower(phrase) == Phrase
    ensures Classify(before + phrase + after) == Premium
  {
    LowerConcat(before + phrase, after);
    LowerConcat(before, phrase);
    var low := Lower(before + phrase + after);
    assert low == Lower(before) + Phrase + Lower(after);
    assert low[|before|..|before| + |Phrase|] == Phrase;
    assert OccursAt(low, Phrase, |before|);
  }

  /** A page without the phrase is a classic listing with the band 11.5 to 14. */
  lemma NoPhraseIsClassic(pageText: string)
    requires forall i :: !OccursAt(Lower(pageText), Phrase, i)
    ensures Classify(pageText) == Classic && CommissionBand(Classify(pageText)) == (11.5, 14.0)
  {
  }

  // ---------------------------------------------------------------- fees and amounts

  /** The fixed fee per sale: a step function of the price with the lower end of
      each bracket included, and nothing without a price. */
  function FixedFee(price: Option<real>): (fee: real)
    ensures price.None? <==> fee == 0.0
    ensures price.Some? ==> fee in {6.25, 6.5, 6.75, 20.0}
  {
    match price
    case None => 0.0
    case Some(p) =>
      if p < 30.0 then 6.25 else if p < 50.0 then 6.5 else if p < 79.0 then 6.75 else 20.0
  }

  /** Each fee belongs to exactly one half-open price bracket. */
  lemma FeeBrackets(p: real)
    ensures FixedFee(Some(p)) == 6.25 <==> p < 30.0
    ensures FixedFee(Some(p)) == 6.5 <==> 30.0 <= p < 50.0
    ensures FixedFee(Some(p)) == 6.75 <==> 50.0 <= p < 79.0
    ensures FixedFee(Some(p)) == 20.0 <==> 79.0 <= p
  {
  }

  /** A dearer product never pays a smaller fixed fee. */
  lemma FeeMonotone(p: real, q: real)
    requires p <= q
    ensures FixedFee(Some(p)) <= FixedFee(Some(q))
  {
  }

  /** `rate` percent of the price when the price is truthy, else 0. */
  function PercentOf(price: Option<real>, rate: real): (amount: real)
    ensures price.None? ==> amount == 0.0
    ensures price.Some? ==> amount == price.value * rate / 100.0
  {
    if Truthy(price) then price.value * (rate / 100.0) else 0.0
  }

  /** What is left of a sale at `price` after a commission in percent, the fixed
      fee, the tax and the partner commission. */
  function Net(price: real, commission: real, fee: real, tax: real, partner: real): real {
    price * (1.0 - commission / 100.0) - fee - tax - partner
  }

  // ---------------------------------------------------------------- the analysis

  /** The figures the application derives from a listing's price and type. */
  datatype Figures = Figures(
    price: Option<real>,
    listingType: ListingType,
    commissionMin: real,
    commissionMax: real,
    fixedFee: real,
    taxRate: real,
    tax: real,
    partnerRate: real,
    partnerAmount: real,
    netMin: Option<real>,
    netMax: Option<real>)

  /** What the application keeps about one listing: its title, the figures,
      the photo address and the summary text (`texto_completo`). */
  datatype FeeRecord = FeeRecord(title: string, figures: Figures, photoUrl: Option<string>, summary: string)

  const MissingTitle: string := "Título não encontrado"

  /** The title tag's text, or the placeholder when the tag is missing. */
  function TitleOf(tag: Option<string>): string {
    if tag.Some? then tag.value else MissingTitle
  }

  /** The analysis of a listing from its scraped parts. */
  function Analyse(titleTag: Option<string>, fraction: Option<string>, cents: Option<string>,
                   pageText: string, photoUrl: Option<string>, taxRate: real, partnerRate: real): (r: FeeRecord)
    ensures r.figures.listingType == Classify(pageText)
    ensures r.figures.price == ParsePrice(fraction, cents)
  {
    Assess(TitleOf(titleTag), ParsePrice(fraction, cents), Classify(pageText), photoUrl, taxRate, partnerRate)
  }

  /** The analysis once the title, price and listing type are known. */
  function Assess(title: string, price: Option<real>, t: ListingType, photoUrl: Option<string>,
                  taxRate: real, partnerRate: real): FeeRecord
  {
    var f := Figure(price, t, taxRate, partnerRate);
    FeeRecord(title, f, photoUrl, Summary(title, f))
  }

  /** The band, fee, amounts and net range for a price and a listing type. */
  function Figure(price: Option<real>, t: ListingType, taxRate: real, partnerRate: real): Figures {
    var (cmin, cmax) := CommissionBand(t);
    var fee := FixedFee(price);
    var tax := PercentOf(price, taxRate);
    var partner := PercentOf(price, partnerRate);
    var netMin := if price.Some? then Some(Net(price.value, cmax, fee, tax, partner)) else None;
    var netMax := if price.Some? then Some(Net(price.value, cmin, fee, tax, partner)) else None;
    Figures(price, t, cmin, cmax, fee, taxRate, tax, partnerRate, partner, netMin, netMax)
  }

  // ---------------------------------------------------------------- the summary text

  function PriceLines(title: string, price: Option<real>): seq<string> {
    if Truthy(price) then ["Título: " + title, "Preço: R$ " + Fmt2(price.value)] else ["Preço não encontrado"]
  }

  function TaxLine(f: Figures): string {
    "Alíquota imposto: " + Fmt2(f.taxRate) + "% (R$ " + Fmt2(f.tax) + ")"
  }

  function PartnerLine(f: Figures): string {
    "Comissão Webvend: " + Fmt2(f.partnerRate) + "% (R$ " + Fmt2(f.partnerAmount) + ")"
  }

  const NetPrefix: string := "Valor líquido estimado:"

  function NetLine(f: Figures): string {
    if f.netMin.Some? && f.netMax.Some? then NetPrefix + " de R$ " + Fmt2(f.netMin.value) + " a R$ " + Fmt2(f.netMax.value)
    else "Não foi possível calcular o valor líquido."
  }

  /** `texto_completo`: the price lines, then one line each for the tax, the
      partner commission and the net range, joined by line breaks. */
  function Summary(title: string, f: Figures): string {
    var head := if Truthy(f.price) then "Título: " + title + "\nPreço: R$ " + Fmt2(f.price.value) else "Preço não encontrado";
    head + "\n" + TaxLine(f) + "\n" + PartnerLine(f) + "\n" + NetLine(f)
  }

  /** The lines of the summary, as `split('\n')` gives them back. */
  function SummaryLines(title: string, f: Figures): seq<string> {
    PriceLines(title, f.price) + [TaxLine(f), PartnerLine(f), NetLine(f)]
  }

  /** A formatted amount never holds a line break. */
  lemma NoBreakInAmount(x: real)
    ensures '\n' !in Fmt2(x)
  {
    Fmt2Alphabet(x);
  }

  lemma NoBreakInLines(title: string, f: Figures)
    requires '\n' !in title
    ensures forall k :: 0 <= k < |SummaryLines(title, f)| ==> '\n' !in SummaryLines(title, f)[k]
  {
    AmountLineNoBreak(f);
    PriceLinesNoBreak(title, f.price);
    NetLineNoBreak(f);
  }

  lemma NoBreakIn5(a: string, b: string, c: string, d: string, e: string)
    requires '\n' !in a && '\n' !in b && '\n' !in c && '\n' !in d && '\n' !in e
    ensures '\n' !in a + b + c + d + e
  {
  }

  lemma AmountLineNoBreak(f: Figures)
    ensures '\n' !in TaxLine(f) && '\n' !in PartnerLine(f)
  {
    RateLineNoBreak("Alíquota imposto: ", f.taxRate, f.tax);
    RateLineNoBreak("Comissão Webvend: ", f.partnerRate, f.partnerAmount);
  }

  lemma RateLineNoBreak(caption: string, rate: real, amount: real)
    requires '\n' !in caption
    ensures '\n' !in caption + Fmt2(rate) + "% (R$ " + Fmt2(amount) + ")"
  {
    NoBreakInAmount(rate);
    NoBreakInAmount(amount);
    NoBreakIn5(caption, Fmt2(rate), "% (R$ ", Fmt2(amount), ")");
  }

  lemma NetLineNoBreak(f: Figures)
    ensures '\n' !in NetLine(f)
  {
    if f.netMin.Some? && f.netMax.Some? {
      NetRangeNoBreak(f.netMin.value, f.netMax.value);
    }
  }

  lemma NetRangeNoBreak(low: real, high: real)
    ensures '\n' !in NetPrefix + " de R$ " + Fmt2(low) + " a R$ " + Fmt2(high)
  {
    NoBreakInAmount(low);
    NoBreakInAmount(high);
    NoBreakIn5(NetPrefix, " de R$ ", Fmt2(low), " a R$ ", Fmt2(high));
  }

  lemma PriceLinesNoBreak(title: string, price: Option<real>)
    requires '\n' !in title
    ensures forall k :: 0 <= k < |PriceLines(title, price)| ==> '\n' !in PriceLines(title, price)[k]
  {
    if Truthy(price) {
      NoBreakInAmount(price.value);
      assert '\n' !in "Preço: R$ " + Fmt2(price.value);
    }
  }

  lemma JoinCons(first: string, rest: seq<string>, sep: char)
    requires |rest| >= 1
    ensures Join([first] + rest, sep) == first + [sep] + Join(rest, sep)
  {
    assert ([first] + rest)[1..] == rest;
  }

  lemma JoinThree(a: string, b: string, c: string)
    ensures Join([a, b, c], '\n') == a + "\n" + b + "\n" + c
  {
    JoinCons(b, [c], '\n');
    assert [b] + [c] == [b, c];
    JoinCons(a, [b, c], '\n');
    assert [a] + [b, c] == [a, b, c];
  }

  /** How the summary's head splits into its lines. */
  lemma JoinHead(title: string, shown: string, tail: seq<string>)
    requires |tail| == 3
    ensures Join(["Título: " + title, "Preço: R$ " + shown] + tail, '\n')
            == "Título: " + title + "\nPreço: R$ " + shown + "\n" + Join(tail, '\n')
  {
    var t, pr := "Título: " + title, "Preço: R$ " + shown;
    JoinCons(pr, tail, '\n');
    JoinCons(t, [pr] + tail, '\n');
    assert [t, pr] + tail == [t] + ([pr] + tail);
    assert "\nPreço: R$ " == "\n" + "Preço: R$ ";
  }

  lemma JoinMissing(tail: seq<string>)
    requires |tail| == 3
    ensures Join(["Preço não encontrado"] + tail, '\n') == "Preço não encontrado" + "\n" + Join(tail, '\n')
  {
    JoinCons("Preço não encontrado", tail, '\n');
  }

  lemma Assemble(head: string, a: string, b: string, c: string, joined: string)
    requires joined == head + "\n" + (a + "\n" + b + "\n" + c)
    ensures joined == head + "\n" + a + "\n" + b + "\n" + c
  {
  }

  /** The summary is its lines joined by line breaks. */
  lemma SummaryJoined(title: string, f: Figures)
    ensures Join(SummaryLines(title, f), '\n') == Summary(title, f)
  {
    var a, b, c := TaxLine(f), PartnerLine(f), NetLine(f);
    JoinThree(a, b, c);
    if Truthy(f.price) {
      var shown := Fmt2(f.price.value);
      JoinHead(title, shown, [a, b, c]);
      Assemble("Título: " + title + "\nPreço: R$ " + shown, a, b, c, Join(SummaryLines(title, f), '\n'));
    } else {
      JoinMissing([a, b, c]);
      Assemble("Preço não encontrado", a, b, c, Join(SummaryLines(title, f), '\n'));
    }
  }

  /** Splitting the summary at line breaks gives back its lines, provided the
      title holds no line break of its own. */
  lemma SplitSummary(title: string, f: Figures)
    requires '\n' !in title
    ensures Split(Summary(title, f), '\n') == SummaryLines(title, f)
  {
    NoBreakInLines(title, f);
    SummaryJoined(title, f);
    SplitJoin(SummaryLines(title, f), '\n');
  }

  // ---------------------------------------------------------------- properties of the figures

  /** The net range exists exactly when a price was read. */
  lemma NetRangeDefined(price: Option<real>, t: ListingType, taxRate: real, partnerRate: real)
    ensures Figure(price, t, taxRate, partnerRate).netMin.Some? <==> price.Some?
    ensures Figure(price, t, taxRate, partnerRate).netMax.Some? <==> price.Some?
  {
  }

  lemma NetDifference(p: real, low: real, high: real, fee: real, tax: real, partner: real)
    ensures Net(p, low, fee, tax, partner) - Net(p, high, fee, tax, partner) == p * (high - low) / 100.0
  {
  }

  /** The low end uses the high commission and the high end the low one, so the
      range is ordered exactly when the price is not negative, and its width is
      the price times the band's width. Neither end is clamped at zero. */
  lemma NetRangeOrder(p: real, t: ListingType, taxRate: real, partnerRate: real)
    ensures var f := Figure(Some(p), t, taxRate, partnerRate);
            && (f.netMin.value <= f.netMax.value <==> p >= 0.0)
            && f.netMax.value - f.netMin.value == p * (f.commissionMax - f.commissionMin) / 100.0
  {
    var f := Figure(Some(p), t, taxRate, partnerRate);
    NetDifference(p, f.commissionMin, f.commissionMax, f.fixedFee, f.tax, f.partnerAmount);
    assert f.commissionMax - f.commissionMin == 2.5;
  }

  /** The amounts are percentages of the price, the fee and band are those of
      the price and the type. */
  lemma AmountsOfFigures(price: Option<real>, t: ListingType, taxRate: real, partnerRate: real)
    ensures var f := Figure(price, t, taxRate, partnerRate);
            && f.tax == (if price.Some? then price.value * taxRate / 100.0 else 0.0)
            && f.partnerAmount == (if price.Some? then price.value * partnerRate / 100.0 else 0.0)
            && f.fixedFee == FixedFee(price)
            && (f.commissionMin, f.commissionMax) == CommissionBand(t)
  {
  }

  /** The band depends on the page text only, never on the price tags. */
  lemma BandIgnoresPrice(titleTag: Option<string>, fraction: Option<string>, cents: Option<string>,
                         fraction': Option<string>, cents': Option<string>, pageText: string,
                         photoUrl: Option<string>, taxRate: real, partnerRate: real)
    ensures var f := Analyse(titleTag, fraction, cents, pageText, photoUrl, taxRate, partnerRate).figures;
            var f' := Analyse(titleTag, fraction', cents', pageText, photoUrl, taxRate, partnerRate).figures;
            f.listingType == f'.listingType && f.commissionMin == f'.commissionMin && f.commissionMax == f'.commissionMax
  {
  }

  /** A classic listing at 100 with 5% tax and 10% partner commission pays the
      fixed fee of 20 and nets between 51 and 53.50. */
  lemma ClassicAtHundred()
    ensures var f := Figure(Some(100.0), Classic, 5.0, 10.0);
            && f.fixedFee == 20.0 && f.tax == 5.0 && f.partnerAmount == 10.0
            && f.netMin == Some(51.0) && f.netMax == Some(53.5)
  {
  }

  /** The same scenario as the summary's net line shows it. */
  lemma ClassicAtHundredText()
    ensures NetLine(Figure(Some(100.0), Classic, 5.0, 10.0)) == NetPrefix + " de R$ 51.00 a R$ 53.50"
  {
    var f := Figure(Some(100.0), Classic, 5.0, 10.0);
    ClassicAtHundred();
    ScenarioAmounts();
    NetLineOf(f, "51.00", "53.50");
  }

  lemma ScenarioAmounts()
    ensures Fmt2(51.0) == "51.00" && Fmt2(53.5) == "53.50"
  {
    Digits51And53();
    ShownOf(51.0, 5100, "51", "00");
    ShownOf(53.5, 5350, "53", "50");
  }

  lemma Digits51And53()
    ensures NatToString(51) == "51" && NatToString(53) == "53"
    ensures TwoDigits(0) == "00" && TwoDigits(50) == "50"
  {
  }

  lemma NetLineOf(f: Figures, low: string, high: string)
    requires f.netMin.Some? && f.netMax.Some?
    requires Fmt2(f.netMin.value) == low && Fmt2(f.netMax.value) == high
    ensures NetLine(f) == NetPrefix + " de R$ " + low + " a R$ " + high
  {
  }

  /** The text of a non-negative amount from its hundredths' digits. */
  lemma ShownOf(x: real, c: nat, whole: string, cents: string)
    requires x >= 0.0 && c as real == x * 100.0
    requires NatToString(c / 100) == whole && TwoDigits(c % 100) == cents
    ensures Fmt2(x) == whole + "." + cents
  {
    assert Hundredths(x) == c;
  }

  /** A price of 0 is a price for the fee and the net range (fee 6.25, a negative
      net value) but not for the summary, which reports no price. */
  lemma ZeroPriceQuirk(title: string, t: ListingType, photoUrl: Option<string>, taxRate: real, partnerRate: real)
    ensures var r := Assess(title, Some(0.0), t, photoUrl, taxRate, partnerRate);
            && r.figures.fixedFee == 6.25 && r.figures.netMin == Some(-6.25) && r.figures.netMax == Some(-6.25)
            && StartsWith(r.summary, "Preço não encontrado")
  {
    var f := Figure(Some(0.0), t, taxRate, partnerRate);
    SummaryJoined(title, f);
    JoinStartsWith(SummaryLines(title, f), '\n');
  }

  lemma JoinStartsWith(parts: seq<string>, sep: char)
    requires |parts| >= 1
    ensures StartsWith(Join(parts, sep), parts[0])
  {
    if |parts| > 1 {
      var rest := [sep] + Join(parts[1..], sep);
      assert Join(parts, sep) == parts[0] + rest;
      assert (parts[0] + rest)[..|parts[0]|] == parts[0];
    }
  }
}
