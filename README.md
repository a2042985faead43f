# Mercado Livre listing analyser, modelled in Dafny

The application reads a Mercado Livre listing and estimates what a seller nets
from it. It then lays the estimates of several listings out in a PDF report,
and it keeps the analysed listings in a session list from which the user can
remove a selection. This project models three parts of `streamlit_app.py`:

- **The fee calculator** (`extrair_dados_anuncio`, module `Fees`). The price is
  read from the scraped "fraction" and "cents" texts: thousands dots are dropped,
  the cents default to `00`, and Python's `float()` is applied (module
  `Decimal`). The listing type is Premium exactly when the lowered page text
  contains "sem juros". From these come the commission band, the fixed fee
  bracket, the tax and partner amounts, the net range and the summary text.
  Python's `str` operations used on the way live in module `Strings`.
- **The PDF layout** (`gerar_pdf_bytes`, modules `Report` and
  `ReportProperties`). ReportLab's canvas is a recording `Canvas` class. Its
  events are texts, lines, rectangles, images, links, page headers and page
  ends. The drawing methods keep the cursor `y` as the source does, and are
  proved to draw exactly the trace that the functions `Cover`, `Head`,
  `LayLines`, `Tail` and `Document` describe. The lemmas about that trace cover:
  - the page count;
  - where texts land;
  - the breaks, and the page header after every page end;
  - the stepping;
  - the headline filter.
- **Removing products** (`remover_produtos`, module `Session`). The session list
  is a class whose method deletes the selected positions, largest first. It is
  proved to leave exactly the survivors in their order.

Money is exact `real` arithmetic. Lengths are exact reals in PostScript points,
with `Cm = 72/2.54`. `:.2f` is `Decimal.Fmt2`, which rounds the exact value
half to even and prints a sign, the whole part and two decimals.

Inputs the model cannot compute are parameters:
- the scraped title, price and photo texts and the page text;
- the photo's height after the thumbnail step (`None` when it cannot be loaded);
- ReportLab's `stringWidth`, as a function `string -> real`.

## Model

| member | source | states |
|---|---|---|
| Strings.ContainsAt | streamlit_app.py:49 | the `in` test on the page text holds exactly when the phrase occurs at some position |
| Strings.StripKeeps | streamlit_app.py:38 | `strip()` removes only whitespace: every other character of the scraped text survives |
| Strings.StripKeepsInside | streamlit_app.py:38 | `strip()` keeps every character between two that are not whitespace, whitespace included |
| Strings.StripWithin | streamlit_app.py:38 | `strip()` only removes characters: everything in the result was in the scraped text |
| Strings.RemoveCharKeeps | streamlit_app.py:38 | `replace('.', '')` keeps every character other than the dot |
| Strings.JoinSplit | streamlit_app.py:210 | splitting the summary at line breaks and joining the parts again gives the summary back |
| Strings.SplitJoin | streamlit_app.py:210 | lines without a line break, joined and split again, are the same lines |
| Strings.NatToString | streamlit_app.py:170 | the numeral written for the product's number has digits only, no leading zero, and reads back as the number |
| Decimal.ParseDigitsDotDigits | streamlit_app.py:41-42 | `float()` of digits, a point and digits is their decimal value |
| Decimal.FloatAlphabet | streamlit_app.py:41-44 | the modelled `float()` accepts only strings of digits, signs, points, exponent letters and the whitespace it drops: space, tab, line feed, vertical tab, form feed and carriage return, or whitespace above U+007F, never the separators U+001C to U+001F; in a string of ASCII characters only the ASCII whitespace |
| Decimal.Rounded2 | streamlit_app.py:82-90 | the value `:.2f` shows is within half a hundredth of the amount |
| Decimal.Fmt2RoundTrip | streamlit_app.py:82-90 | reading back an amount printed with `:.2f` gives the amount rounded to hundredths |
| Decimal.Fmt2Alphabet | streamlit_app.py:82-90 | a printed amount holds only digits, a point and a minus sign |
| Fees.ParsePrice | streamlit_app.py:37-46 | no price without the fraction tag |
| Fees.PriceOfDigits | streamlit_app.py:37-44 | the price of a digits-and-dots fraction and digit cents is the decimal value of the fraction without dots, point, cents |
| Fees.MissingCents | streamlit_app.py:39 | without a cents tag the cents are `00` |
| Fees.ForeignCharInFraction | streamlit_app.py:42-44 | a fraction text holding a character the modelled `float()` never accepts gives no price, whatever the cents |
| Fees.KeptForeignInFraction | streamlit_app.py:38-44 | a character of the fraction that is neither part of a decimal literal nor whitespace `float()` drops (ASCII whitespace, or whitespace above U+007F), sitting between two non-whitespace characters (a separator U+001C to U+001F, say), gives no price whatever the cents: `strip()` keeps it and `float()` rejects it |
| Fees.ForeignRejected | streamlit_app.py:41-44 | a price text holding a character that is neither part of a decimal literal nor whitespace `float()` drops gives no price |
| Fees.SeparatorInFraction | streamlit_app.py:38-44 | the fraction `.<U+001C>5` gives no price |
| Fees.SpacedSeparatorInFraction | streamlit_app.py:38-44 | the fraction `.<U+001C><U+00A0>5` gives no price: the no-break space is dropped but the separator is not |
| Fees.ForeignCharInCents | streamlit_app.py:42-44 | cents holding a character the modelled `float()` never accepts give no price |
| Fees.Classify | streamlit_app.py:48-57 | Premium exactly when "sem juros" occurs in the lowered page text |
| Fees.AnyCasingAnywhere | streamlit_app.py:48-50 | the phrase in any casing, anywhere in the page, makes the listing Premium |
| Fees.NoPhraseIsClassic | streamlit_app.py:55-57 | without the phrase the listing is Clássico with commission 11.5% to 14% |
| Fees.CommissionBand | streamlit_app.py:50-57 | the band's minimum is below its maximum |
| Fees.FixedFee | streamlit_app.py:59-70 | the fee is 0 exactly when there is no price, and otherwise one of 6.25, 6.50, 6.75 and 20 |
| Fees.FeeBrackets | streamlit_app.py:60-68 | each fee value holds exactly on its bracket: below 30, from 30 below 50, from 50 below 79, and from 79 up |
| Fees.FeeMonotone | streamlit_app.py:60-68 | a higher price never has a lower fixed fee |
| Fees.PercentOf | streamlit_app.py:72-73 | no price gives 0, a price gives its percentage |
| Fees.AmountsOfFigures | streamlit_app.py:50-79 | the record's tax, partner amount, fixed fee and commission band are those of the price and the listing type |
| Fees.NetRangeDefined | streamlit_app.py:75-79 | the net range exists exactly when the price does |
| Fees.NetDifference | streamlit_app.py:76-77 | two net values differ by the price times the difference of their commissions |
| Fees.NetRangeOrder | streamlit_app.py:75-79 | the minimum uses the larger commission: it is at most the maximum exactly when the price is not negative, and the range is the price times the band's width |
| Fees.Analyse | streamlit_app.py:25-109 | the record's listing type and price are those of the page text and the price tags |
| Fees.BandIgnoresPrice | streamlit_app.py:48-57 | the listing type and commission band do not depend on the price |
| Fees.ClassicAtHundred | streamlit_app.py:59-79 | price 100, tax 5%, partner 10%, Clássico: fee 20, tax 5, partner 10, net 51 to 53.50 |
| Fees.ClassicAtHundredText | streamlit_app.py:86-88 | the summary shows that range as "de R$ 51.00 a R$ 53.50" |
| Fees.ZeroPriceQuirk | streamlit_app.py:59-82 | a price of 0 gets the 6.25 fee and a net of -6.25, yet the summary starts "Preço não encontrado" |
| Fees.NoBreakInLines | streamlit_app.py:81-92 | no summary line holds a line break when the title holds none |
| Fees.SummaryJoined | streamlit_app.py:81-92 | the summary is its price lines, tax line, partner line and net line joined by line breaks |
| Fees.SplitSummary | streamlit_app.py:81-92 | when the title is one line, splitting the summary at line breaks gives back those lines |
| Report.Canvas.constructor | streamlit_app.py:113-114 | a new canvas has drawn nothing |
| Report.Canvas.Draw | streamlit_app.py:131-141 | drawing appends one event to the trace |
| Report.GeneratePdf | streamlit_app.py:112-271 | the trace drawn is the cover and then every product's block, numbered from 1 |
| Report.DrawProduct | streamlit_app.py:164-267 | one product draws its head, its fee lines from the head's cursor, and its tail |
| Report.DrawHead | streamlit_app.py:164-206 | the header, the caption, the title, the photo or its 1cm gap, the rule, and the cursor below them |
| Report.DropHeadline | streamlit_app.py:210-215 | the two `pop(0)` calls leave the split summary without a leading title line and then without a leading price line |
| Report.DrawLines | streamlit_app.py:217-239 | the line loop draws the fee lines in turn, carrying the cursor from one to the next |
| Report.DrawLine | streamlit_app.py:218-239 | one pass: a page end and header when the cursor is below the floor, then the line, the net line on a highlight |
| Report.DrawTail | streamlit_app.py:241-267 | the note, the link with its underline, and the page end |
| ReportProperties.LayLineFacts | streamlit_app.py:218-239 | one fee line draws its text once, breaks exactly when the cursor is below 5cm, lands at or above 5cm, and moves the cursor by its step; a break is a page end followed at once by the page header |
| ReportProperties.StepSizes | streamlit_app.py:226-239 | the net line steps 1cm and every other line 0.6cm |
| ReportProperties.LinesInOrder | streamlit_app.py:217-239 | the fee lines are drawn exactly once each, in order |
| ReportProperties.LinesOnPage | streamlit_app.py:217-239 | every fee line lands between the break floor and the top of the text area |
| ReportProperties.EndAboveFloor | streamlit_app.py:217-239 | after at least one line the cursor is at most 1cm below the floor |
| ReportProperties.BreaksAtMostLines | streamlit_app.py:217-223 | at most one page break per fee line |
| ReportProperties.NoBreakWhenRoom | streamlit_app.py:217-223 | no page break when the lines fit above the floor at 1cm each |
| ReportProperties.LinesOpen | streamlit_app.py:218-222 | a header inside the fee lines always follows a page end, a page end inside them is followed at once by a header, and they neither start with a header nor end with a page end |
| ReportProperties.FilterIsSuffix | streamlit_app.py:212-215 | the filter drops at most the first two lines and keeps the rest in order |
| ReportProperties.AssessFromCalculator | streamlit_app.py:81-109 | every record the calculator builds from a title of one line carries its own summary |
| ReportProperties.FilterSummaryLines | streamlit_app.py:81-92 | the filter leaves the tax, partner and net lines, after "Preço não encontrado" when the price is not truthy |
| ReportProperties.CalculatorLines | streamlit_app.py:210-215 | the same for the split summary of a calculator record whose title is one line |
| ReportProperties.CalculatorLineCount | streamlit_app.py:210-215 | from a title of one line the calculator leaves three or four fee lines |
| ReportProperties.TwoLineTitleLines | streamlit_app.py:210-215 | with a title of two lines and a price, the title's second line and the "Preço:" line both stay among the fee lines, ahead of the tax, partner and net lines |
| ReportProperties.PhotoFacts | streamlit_app.py:177-200 | the photo step draws exactly one image when the product has a photo URL and the photo loaded, and nothing otherwise; it draws no text, header or page end, and leaves the cursor 0.5cm below the image, or 1cm below its start when there is no photo or it cannot be loaded |
| ReportProperties.HeadFacts | streamlit_app.py:164-206 | the head opens with the header, ends no page, draws its texts in the top 1.2cm, and leaves the cursor 3.2cm plus the photo's height below the top with a photo, 3.7cm below it without one |
| ReportProperties.NoteFacts | streamlit_app.py:241-249 | the note draws its texts within 0.5cm below its start and moves the cursor down 1.5cm; without a note the cursor stays where it was |
| ReportProperties.LinkFacts | streamlit_app.py:251-265 | the link draws its text exactly 0.7cm below its start, neither ends nor opens a page, and moves the cursor down 1.7cm, or 0.5cm when links are off or there is no URL |
| ReportProperties.TailFacts | streamlit_app.py:241-267 | the tail ends exactly one page, with its last event and no earlier one, draws no header, and draws its texts at most 2.2cm below its start |
| ReportProperties.BlockFacts | streamlit_app.py:164-267 | a block starts with a header, ends with a page end, follows each earlier page end at once with a header, and ends one page more than its fee lines break |
| ReportProperties.BlocksFacts | streamlit_app.py:164-267 | the blocks end one page per product plus its breaks |
| ReportProperties.DocumentPages | streamlit_app.py:141-267 | the report has one page for the cover and, per product, one page plus one per break |
| ReportProperties.HeaderAfterPageEnd | streamlit_app.py:141-267 | every page header comes right after a page end, so no two products share a page |
| ReportProperties.HeaderAfterEveryPageEnd | streamlit_app.py:218-221 | every page end but the report's last event is followed at once by a page header, so a page broken inside the fee lines repeats the header |
| ReportProperties.BreaksBound | streamlit_app.py:217-223 | a product breaks at most once per fee line |
| ReportProperties.BlockTextsOnPage | streamlit_app.py:164-265 | with a photo at most 8cm high, every text lands between 1.8cm and the top of the text area |
| ReportProperties.FourLinesFit | streamlit_app.py:217-223 | four lines need no break 3cm above the floor |
| ReportProperties.OnePagePerProduct | streamlit_app.py:164-267 | a calculator product with a title of one line and a photo that fits takes exactly one page |
| ReportProperties.CalculatorTotalPages | streamlit_app.py:141-267 | with calculator products whose titles are one line and whose photos fit, the page total is one more than the products |
| ReportProperties.CalculatorDocumentPages | streamlit_app.py:141-267 | a report of such products has exactly one page per product plus the cover |
| ReportProperties.AssessedDocumentPages | streamlit_app.py:81-267 | a report of products the calculator assessed, with titles of one line and photos that fit, has one page per product plus the cover |
| Session.DeleteBelow | streamlit_app.py:322-323 | deleting a position below all positions already deleted hits the intended element and gives the survivors of both |
| Session.SurvivorsLength | streamlit_app.py:320-323 | removing distinct in-range positions shortens the list by their number |
| Session.SurvivorsMember | streamlit_app.py:320-323 | an element survives exactly when it sits at a position not removed |
| Session.SurvivorsOrder | streamlit_app.py:320-323 | two survivors keep their relative order |
| Session.ProductList.constructor | streamlit_app.py:274-275 | the session starts with no products |
| Session.ProductList.RemoveProducts | streamlit_app.py:313-323 | an empty selection only warns; otherwise the list becomes exactly the survivors, shorter by the number of positions selected |

## Left out

- HTTP requests, BeautifulSoup and the CSS selectors (lines 13-35, 180). The title, photo address, price tags and page text are inputs to `Fees.Analyse`.
- PIL, the thumbnail step, temporary files and `os.remove` (lines 117-128, 147-157, 178-197). The photo's height after the thumbnail step is an input. `ReportProperties.PhotoFits` states the 8cm bound that `thumbnail` gives. A failed download or decode is the `None` case, and both are followed by the 1cm gap.
- The logo on the cover and on every page header, fonts, colours and line widths. The page header is one `Header` event. The PDF byte buffer and `c.save()` are not modelled either.
- ReportLab's `stringWidth` is an uninterpreted `width` parameter, and the image width is not modelled.
- The Streamlit UI: widgets, `adicionar_produto`, `limpar_campos`, the multiselect, `idx_map`, clearing the selection and the messages (lines 273-383). `Session.ProductList.RemoveProducts` takes the selected positions as a set of distinct in-range indices. It reports the warning by its result.
- IEEE floating point. Prices and amounts are exact reals. `:.2f` rounds the exact value half to even, so it can differ from Python where a float's binary value sits just beside a half hundredth.
- Decimal.ParseFloat (and so Decimal.FloatAlphabet, Fees.ForeignCharInFraction, Fees.KeptForeignInFraction and Fees.ForeignCharInCents): does not accept the underscores, `inf`, `nan` or non-ASCII digits that Python's `float()` also reads. The price text always holds a point, which rules out `inf` and `nan`.
- Strings.Lower: lowers ASCII and Latin-1 capitals only, not the rest of Unicode. This does not change whether "sem juros" occurs, since its letters are ASCII.
- Session.ProductList.RemoveProducts: `sorted(..., reverse=True)` is not modelled as a separate sort. The method instead picks the largest remaining position at each step, which visits the positions in the same order.
- ReportProperties.BlockTextsOnPage: the note and the link get no page-break test in the source. So the bound is 1.8cm, 0.2cm inside the 2cm bottom margin, and not the margin itself.
- ReportProperties.CalculatorLines, ReportProperties.CalculatorLineCount, ReportProperties.OnePagePerProduct, ReportProperties.CalculatorTotalPages, ReportProperties.CalculatorDocumentPages, ReportProperties.AssessedDocumentPages and Fees.SplitSummary: these hold only for a title of one line. `get_text(strip=True)` (line 27) keeps a line break inside the title. The filter at lines 212-215 then drops only the title's first line, and the "Preço:" line stays among the fee lines. `ReportProperties.TwoLineTitleLines` states what the report then gets for a title of two lines.
- The exception handlers that only print (lines 129-130, 158-159) have no effect on the trace.
