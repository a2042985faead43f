/** What the report promises about its pages: the fee lines are drawn in order
    and never below the break floor, a page break happens only when the cursor
    is too low, every product starts on a page of its own, and the page count is
    one for the cover plus, per product, one page and its breaks. */
module ReportProperties {
  import opened Wrappers
  import opened Strings
  import opened Decimal
  import opened Fees
  import opened Report

  // ---------------------------------------------------------------- observations of a trace

  /** The number of pages a trace ends. */
  function PageCount(evs: seq<Event>): nat
    decreases |evs|
  {
    if |evs| == 0 then 0 else (if evs[0].ShowPage? then 1 else 0) + PageCount(evs[1..])
  }

  /** The texts a trace draws, in order. */
  function Texts(evs: seq<Event>): seq<string>
    decreases |evs|
  {
    if |evs| == 0 then [] else (if evs[0].Text? then [evs[0].text] else []) + Texts(evs[1..])
  }

  /** Every text of the trace is drawn at a height between `low` and `high`. */
  predicate TextsWithin(evs: seq<Event>, low: real, high: real) {
    forall k :: 0 <= k < |evs| && evs[k].Text? ==> low <= evs[k].y <= high
  }

  lemma {:induction false} PageCountConcat(a: seq<Event>, b: seq<Event>)
    ensures PageCount(a + b) == PageCount(a) + PageCount(b)
    decreases |a|
  {
    if |a| > 0 {
      assert (a + b)[1..] == a[1..] + b;
      PageCountConcat(a[1..], b);
    } else {
      assert a + b == b;
    }
  }

  lemma {:induction false} TextsConcat(a: seq<Event>, b: seq<Event>)
    ensures Texts(a + b) == Texts(a) + Texts(b)
    decreases |a|
  {
    if |a| > 0 {
      assert (a + b)[1..] == a[1..] + b;
      TextsConcat(a[1..], b);
    } else {
      assert a + b == b;
    }
  }

  lemma WithinConcat(a: seq<Event>, b: seq<Event>, low: real, high: real)
    requires TextsWithin(a, low, high) && TextsWithin(b, low, high)
    ensures TextsWithin(a + b, low, high)
  {
    forall k | 0 <= k < |a + b| && (a + b)[k].Text?
      ensures low <= (a + b)[k].y <= high
    {
      if k >= |a| {
        assert (a + b)[k] == b[k - |a|];
      }
    }
  }

  // ---------------------------------------------------------------- one fee line

  /** What a one-event trace draws and how many pages it ends. */
  lemma SingleEvent(e: Event)
    ensures Texts([e]) == (if e.Text? then [e.text] else [])
    ensures PageCount([e]) == (if e.ShowPage? then 1 else 0)
  {
    assert [e][1..] == [];
  }

  /** The texts and pages of a two-event trace. */
  lemma PairOfEvents(a: Event, b: Event)
    ensures Texts([a, b]) == Texts([a]) + Texts([b])
    ensures PageCount([a, b]) == PageCount([a]) + PageCount([b])
  {
    assert [a, b] == [a] + [b];
    TextsConcat([a], [b]);
    PageCountConcat([a], [b]);
  }

  lemma LayLineFacts(y: real, line: string, width: string -> real)
    ensures var l := LayLine(y, line, width);
            && Texts(l.events) == [line]
            && PageCount(l.events) == (if y < BreakFloor then 1 else 0)
            && TextsWithin(l.events, BreakFloor, if y < BreakFloor then Top else y)
            && l.y == Landing(y) - Step(line)
            && (y < BreakFloor ==> |l.events| > 2 && l.events[..2] == [ShowPage, Header])
  {
    var at := Landing(y);
    var brk: seq<Event> := if y < BreakFloor then [ShowPage, Header] else [];
    var drawn := if IsNetLine(line) then [Rect(Margin - 2.0, at - 2.0, width(line) + 4.0, 14.0), Text(at, line)]
                 else [Text(at, line)];
    assert LayLine(y, line, width).events == brk + drawn;
    TextsConcat(brk, drawn);
    PageCountConcat(brk, drawn);
    if IsNetLine(line) {
      PairOfEvents(Rect(Margin - 2.0, at - 2.0, width(line) + 4.0, 14.0), Text(at, line));
      SingleEvent(Rect(Margin - 2.0, at - 2.0, width(line) + 4.0, 14.0));
    }
    SingleEvent(Text(at, line));
    if y < BreakFloor {
      assert (brk + drawn)[..2] == brk;
      PairOfEvents(ShowPage, Header);
      SingleEvent(ShowPage);
      SingleEvent(Header);
    }
  }

  /** The step is 1cm after the net line and 0.6cm after any other line. */
  lemma StepSizes(line: string)
    ensures IsNetLine(line) ==> Step(line) == Cm
    ensures !IsNetLine(line) ==> Step(line) == 0.6 * Cm
    ensures 0.0 < Step(line) <= Cm
  {
  }

  // ---------------------------------------------------------------- the fee lines

  /** The lines are drawn exactly once each, in their order. */
  lemma {:induction false} LinesInOrder(y: real, lines: seq<string>, width: string -> real)
    ensures Texts(LayLines(y, lines, width).events) == lines
    decreases |lines|
  {
    if |lines| > 0 {
      var front := lines[..|lines| - 1];
      var before := LayLines(y, front, width);
      var last := LayLine(before.y, lines[|lines| - 1], width);
      LinesInOrder(y, front, width);
      LayLineFacts(before.y, lines[|lines| - 1], width);
      TextsConcat(before.events, last.events);
      assert lines == front + [lines[|lines| - 1]];
    }
  }

  /** Every fee line lands between the break floor and the top of the text
      area, and the cursor never rises above that top. */
  lemma {:induction false} LinesOnPage(y: real, lines: seq<string>, width: string -> real)
    requires y <= Top
    ensures TextsWithin(LayLines(y, lines, width).events, BreakFloor, Top)
    ensures LayLines(y, lines, width).y <= Top
    decreases |lines|
  {
    if |lines| > 0 {
      var front := lines[..|lines| - 1];
      var before := LayLines(y, front, width);
      var last := LayLine(before.y, lines[|lines| - 1], width);
      LinesOnPage(y, front, width);
      LayLineFacts(before.y, lines[|lines| - 1], width);
      WithinConcat(before.events, last.events, BreakFloor, Top);
    }
  }

  /** At most one page break per line. */
  lemma {:induction false} BreaksAtMostLines(y: real, lines: seq<string>, width: string -> real)
    ensures PageCount(LayLines(y, lines, width).events) <= |lines|
    decreases |lines|
  {
    if |lines| > 0 {
      var front := lines[..|lines| - 1];
      var before := LayLines(y, front, width);
      var last := LayLine(before.y, lines[|lines| - 1], width);
      BreaksAtMostLines(y, front, width);
      LayLineFacts(before.y, lines[|lines| - 1], width);
      PageCountConcat(before.events, last.events);
    }
  }

  /** No page break when the lines fit above the floor, even if every one of
      them took the larger 1cm step. */
  lemma {:induction false} NoBreakWhenRoom(y: real, lines: seq<string>, width: string -> real)
    requires y >= BreakFloor + (|lines| - 1) as real * Cm
    ensures PageCount(LayLines(y, lines, width).events) == 0
    ensures LayLines(y, lines, width).y >= y - |lines| as real * Cm
    decreases |lines|
  {
    if |lines| > 0 {
      var front := lines[..|lines| - 1];
      var before := LayLines(y, front, width);
      var last := LayLine(before.y, lines[|lines| - 1], width);
      NoBreakWhenRoom(y, front, width);
      assert before.y >= BreakFloor;
      LayLineFacts(before.y, lines[|lines| - 1], width);
      StepSizes(lines[|lines| - 1]);
      PageCountConcat(before.events, last.events);
    }
  }

  /** After at least one line the cursor is at most one step below the floor. */
  lemma EndAboveFloor(y: real, lines: seq<string>, width: string -> real)
    ensures |lines| > 0 ==> LayLines(y, lines, width).y >= BreakFloor - Cm
    ensures |lines| == 0 ==> LayLines(y, lines, width).y == y
  {
    if |lines| > 0 {
      var before := LayLines(y, lines[..|lines| - 1], width);
      LayLineFacts(before.y, lines[|lines| - 1], width);
      StepSizes(lines[|lines| - 1]);
    }
  }

  // ---------------------------------------------------------------- the line filter

  /** The filter drops at most the first two lines and keeps the rest in order. */
  lemma FilterIsSuffix(lines: seq<string>)
    ensures |lines| - 2 <= |FilterHeadline(lines)| <= |lines|
    ensures FilterHeadline(lines) == lines[|lines| - |FilterHeadline(lines)|..]
  {
    var rest := if |lines| > 0 && StartsWith(lines[0], "Título:") then lines[1..] else lines;
    if |rest| > 0 && StartsWith(rest[0], "Preço:") {
      assert rest[1..] == lines[|lines| - |rest| + 1..];
    }
  }

  /** A record built by the calculator, whose title holds no line break. */
  predicate FromCalculator(r: FeeRecord) {
    '\n' !in r.title && r.summary == Summary(r.title, r.figures)
  }

  lemma AssessFromCalculator(title: string, price: Option<real>, t: ListingType, photoUrl: Option<string>,
                             taxRate: real, partnerRate: real)
    requires '\n' !in title
    ensures FromCalculator(Assess(title, price, t, photoUrl, taxRate, partnerRate))
  {
  }

  /** A string that starts with `q` starts with every prefix of `q`. */
  lemma StartsWithLonger(q: string, p: string, s: string)
    requires StartsWith(q, p)
    ensures StartsWith(q + s, p)
  {
    assert (q + s)[..|p|] == q[..|p|];
  }

  /** The filter drops a headline of a title line and a price line. */
  lemma FilterDropsHeadline(a: string, b: string, rest: seq<string>)
    requires StartsWith(a, "Título:") && StartsWith(b, "Preço:")
    ensures FilterHeadline([a, b] + rest) == rest
  {
    var lines := [a, b] + rest;
    assert lines[1..] == [b] + rest;
    assert lines[1..][1..] == rest;
  }

  /** The filter keeps a missing-price line. */
  lemma FilterKeepsMissing(rest: seq<string>)
    ensures FilterHeadline(["Preço não encontrado"] + rest) == ["Preço não encontrado"] + rest
  {
    var m := "Preço não encontrado";
    assert !StartsWith(m, "Título:") by { assert m[0] != "Título:"[0]; }
    assert !StartsWith(m, "Preço:") by { assert m[5] != "Preço:"[5]; }
  }

  /** The filter applied to the calculator's summary lines. */
  lemma FilterSummaryLines(title: string, f: Figures)
    ensures FilterHeadline(SummaryLines(title, f))
            == (if Truthy(f.price) then [] else ["Preço não encontrado"]) + [TaxLine(f), PartnerLine(f), NetLine(f)]
  {
    var tail := [TaxLine(f), PartnerLine(f), NetLine(f)];
    if Truthy(f.price) {
      StartsWithLonger("Título: ", "Título:", title);
      StartsWithLonger("Preço: R$ ", "Preço:", Fmt2(f.price.value));
      FilterDropsHeadline("Título: " + title, "Preço: R$ " + Fmt2(f.price.value), tail);
      assert [] + tail == tail;
    } else {
      FilterKeepsMissing(tail);
    }
  }

  /** From a calculator record the report keeps the tax, partner and net lines,
      preceded by "Preço não encontrado" when the price is not truthy. */
  lemma CalculatorLines(p: Product)
    requires FromCalculator(p.record)
    ensures var f := p.record.figures;
            BodyLines(p) == (if Truthy(f.price) then [] else ["Preço não encontrado"])
                            + [TaxLine(f), PartnerLine(f), NetLine(f)]
  {
    SplitSummary(p.record.title, p.record.figures);
    FilterSummaryLines(p.record.title, p.record.figures);
  }

  /** Joining a first part that holds one line break is joining its two
      halves. */
  lemma JoinBrokenFirst(x: string, b: string, rest: seq<string>, sep: char)
    requires |rest| >= 1
    ensures Join([x + [sep] + b] + rest, sep) == Join([x, b] + rest, sep)
  {
    var j := Join(rest, sep);
    var broken, halves := [x + [sep] + b] + rest, [x, b] + rest;
    assert broken[1..] == rest;
    assert halves[1..] == [b] + rest && ([b] + rest)[1..] == rest;
    calc {
      Join(broken, sep);
      (x + [sep] + b) + [sep] + j;
      x + [sep] + (b + [sep] + j);
      { assert Join([b] + rest, sep) == b + [sep] + j; }
      Join(halves, sep);
    }
  }

  lemma BreakAssociates(h: string, a: string, b: string)
    ensures h + (a + "\n" + b) == (h + a) + ['\n'] + b
  {
    assert "\n" == ['\n'];
  }

  lemma NoBreakInParts(x: string, b: string, rest: seq<string>)
    requires '\n' !in x && '\n' !in b
    requires forall k :: 0 <= k < |rest| ==> '\n' !in rest[k]
    ensures forall k :: 0 <= k < |[x, b] + rest| ==> '\n' !in ([x, b] + rest)[k]
  {
    var parts := [x, b] + rest;
    forall k | 2 <= k < |parts| ensures '\n' !in parts[k] {
      assert parts[k] == rest[k - 2];
    }
  }

  /** Splitting lines whose first one was broken in two gives back the two
      halves. */
  lemma SplitBrokenFirst(h: string, a: string, b: string, rest: seq<string>)
    requires |rest| >= 1 && '\n' !in h + a && '\n' !in b
    requires forall k :: 0 <= k < |rest| ==> '\n' !in rest[k]
    ensures Split(Join([h + (a + "\n" + b)] + rest, '\n'), '\n') == [h + a, b] + rest
  {
    BreakAssociates(h, a, b);
    JoinBrokenFirst(h + a, b, rest, '\n');
    NoBreakInParts(h + a, b, rest);
    SplitJoin([h + a, b] + rest, '\n');
  }

  /** The filter drops a title line but keeps a second line that is not a
      price line. */
  lemma FilterKeepsSecond(x: string, b: string, rest: seq<string>)
    requires StartsWith(x, "Título:") && !StartsWith(b, "Preço:")
    ensures FilterHeadline([x, b] + rest) == [b] + rest
  {
    assert ([x, b] + rest)[1..] == [b] + rest;
  }

  lemma TitleLineStarts(a: string)
    ensures StartsWith("Título: " + a, "Título:")
  {
    StartsWithLonger("Título: ", "Título:", a);
  }

  /** The filter on the split lines of a summary whose title was broken in
      two: the title line goes, the title's second line stays. */
  lemma FilterBrokenTitle(a: string, b: string, rest: seq<string>)
    requires |rest| >= 1 && '\n' !in "Título: " + a && '\n' !in b && !StartsWith(b, "Preço:")
    requires forall k :: 0 <= k < |rest| ==> '\n' !in rest[k]
    ensures FilterHeadline(Split(Join(["Título: " + (a + "\n" + b)] + rest, '\n'), '\n')) == [b] + rest
  {
    SplitBrokenFirst("Título: ", a, b, rest);
    TitleLineStarts(a);
    FilterKeepsSecond("Título: " + a, b, rest);
  }

  /** The summary of a title broken in two, read with a price, is the title
      line and then the lines it has for the first half alone. */
  lemma BrokenTitleSummary(a: string, b: string, f: Figures)
    requires Truthy(f.price)
    ensures Summary(a + "\n" + b, f) == Join(["Título: " + (a + "\n" + b)] + SummaryLines(a, f)[1..], '\n')
  {
    assert SummaryLines(a + "\n" + b, f) == ["Título: " + (a + "\n" + b)] + SummaryLines(a, f)[1..];
    SummaryJoined(a + "\n" + b, f);
  }

  /** With a price, the summary's lines after the title line. */
  lemma PricedRest(title: string, f: Figures)
    requires Truthy(f.price)
    ensures SummaryLines(title, f)[1..] == ["Preço: R$ " + Fmt2(f.price.value), TaxLine(f), PartnerLine(f), NetLine(f)]
  {
    var price := "Preço: R$ " + Fmt2(f.price.value);
    assert SummaryLines(title, f) == ["Título: " + title] + [price, TaxLine(f), PartnerLine(f), NetLine(f)];
  }

  /** A title of two lines, read with a price: "Título:" and the title's first
      line are dropped, but its second line and then the "Preço:" line stay
      among the fee lines. */
  lemma TwoLineTitleLines(a: string, b: string, f: Figures)
    requires '\n' !in a && '\n' !in b && Truthy(f.price) && !StartsWith(b, "Preço:")
    ensures var lines := Split(Summary(a + "\n" + b, f), '\n');
            FilterHeadline(lines) == [b] + SummaryLines(a, f)[1..]
    ensures SummaryLines(a, f)[1..] == ["Preço: R$ " + Fmt2(f.price.value), TaxLine(f), PartnerLine(f), NetLine(f)]
  {
    var rest := SummaryLines(a, f)[1..];
    PricedRest(a, f);
    BrokenTitleSummary(a, b, f);
    NoBreakInLines(a, f);
    assert forall k :: 0 <= k < |rest| ==> '\n' !in rest[k] by {
      assert forall k :: 0 <= k < |rest| ==> rest[k] == SummaryLines(a, f)[k + 1];
    }
    assert SummaryLines(a, f)[0] == "Título: " + a;
    FilterBrokenTitle(a, b, rest);
  }

  // ---------------------------------------------------------------- page ends and headers

  /** No page header in the trace. */
  predicate NoHeader(evs: seq<Event>) {
    forall k :: 0 <= k < |evs| ==> !evs[k].Header?
  }

  /** No page end in the trace. */
  predicate NoPageEnd(evs: seq<Event>) {
    forall k :: 0 <= k < |evs| ==> !evs[k].ShowPage?
  }

  /** Every page header of the trace is its first event or comes right after a
      page end. */
  predicate HeadersOpenPages(evs: seq<Event>) {
    forall k :: 0 < k < |evs| && evs[k].Header? ==> evs[k - 1].ShowPage?
  }

  /** Every page end of the trace is its last event or is followed right away
      by a page header. */
  predicate PageEndsOpen(evs: seq<Event>) {
    forall k :: 0 <= k < |evs| - 1 && evs[k].ShowPage? ==> evs[k + 1].Header?
  }

  lemma {:induction false} NoPageEndCount(evs: seq<Event>)
    requires NoPageEnd(evs)
    ensures PageCount(evs) == 0
    decreases |evs|
  {
    if |evs| > 0 {
      NoPageEndCount(evs[1..]);
    }
  }

  lemma OpenConcat(a: seq<Event>, b: seq<Event>)
    requires HeadersOpenPages(a) && HeadersOpenPages(b)
    requires |a| > 0 && |b| > 0 && b[0].Header? ==> a[|a| - 1].ShowPage?
    ensures HeadersOpenPages(a + b)
  {
    forall k | 0 < k < |a + b| && (a + b)[k].Header?
      ensures (a + b)[k - 1].ShowPage?
    {
      if k > |a| {
        assert (a + b)[k] == b[k - |a|] && (a + b)[k - 1] == b[k - 1 - |a|];
      }
    }
  }

  lemma EndsConcat(a: seq<Event>, b: seq<Event>)
    requires PageEndsOpen(a) && PageEndsOpen(b)
    requires |a| > 0 && |b| > 0 && a[|a| - 1].ShowPage? ==> b[0].Header?
    ensures PageEndsOpen(a + b)
  {
    forall k | 0 <= k < |a + b| - 1 && (a + b)[k].ShowPage?
      ensures (a + b)[k + 1].Header?
    {
      if k >= |a| {
        assert (a + b)[k] == b[k - |a|] && (a + b)[k + 1] == b[k + 1 - |a|];
      }
    }
  }

  /** A trace with no page end, or none before its last event, has every page
      end followed by a header. */
  lemma EndsOnlyLast(evs: seq<Event>)
    requires |evs| > 0 && NoPageEnd(evs[..|evs| - 1])
    ensures PageEndsOpen(evs)
  {
    forall k | 0 <= k < |evs| - 1 ensures !evs[k].ShowPage? {
      assert evs[k] == evs[..|evs| - 1][k];
    }
  }

  /** Each fee line opens a page only after ending the previous one, and a
      page it ends is opened again by a header. */
  lemma LayLineOpens(y: real, line: string, width: string -> real)
    ensures var evs := LayLine(y, line, width).events;
            && HeadersOpenPages(evs) && |evs| > 0 && !evs[0].Header?
            && PageEndsOpen(evs) && !evs[|evs| - 1].ShowPage?
  {
    var at := Landing(y);
    var drawn := if IsNetLine(line) then [Rect(Margin - 2.0, at - 2.0, width(line) + 4.0, 14.0), Text(at, line)]
                 else [Text(at, line)];
    if y < BreakFloor {
      assert LayLine(y, line, width).events == [ShowPage, Header] + drawn;
    } else {
      assert LayLine(y, line, width).events == drawn;
    }
  }

  lemma {:induction false} LinesOpen(y: real, lines: seq<string>, width: string -> real)
    ensures var evs := LayLines(y, lines, width).events;
            && HeadersOpenPages(evs) && (|evs| > 0 ==> !evs[0].Header?)
            && PageEndsOpen(evs) && (|evs| > 0 ==> !evs[|evs| - 1].ShowPage?)
    decreases |lines|
  {
    if |lines| > 0 {
      var before := LayLines(y, lines[..|lines| - 1], width);
      var last := LayLine(before.y, lines[|lines| - 1], width);
      LinesOpen(y, lines[..|lines| - 1], width);
      LayLineOpens(before.y, lines[|lines| - 1], width);
      OpenConcat(before.events, last.events);
      EndsConcat(before.events, last.events);
      if |before.events| == 0 {
        assert before.events + last.events == last.events;
      }
    }
  }

  // ---------------------------------------------------------------- a product's block

  /** The photo's height after the thumbnail step, which fits it in 8cm. */
  predicate PhotoFits(p: Product) {
    p.photo.Some? ==> 0.0 <= p.photo.value <= MaxImageHeight
  }

  /** Where the fee lines of `p` start: below the caption (1.2cm), the title
      (1cm), the photo and 0.5cm or a 1cm gap, and the rule (0.5cm). */
  function BodyStart(p: Product): real {
    if HasPhotoUrl(p.record) && p.photo.Some? then Top - 3.2 * Cm - p.photo.value else Top - 3.7 * Cm
  }

  /** The head's trace around whatever the photo step draws: a header, two
      texts at the top of the page, the photo's events and a rule. */
  lemma HeadTrace(caption: string, title: string, photo: seq<Event>, ruleAt: real)
    requires NoHeader(photo) && NoPageEnd(photo)
    requires forall k :: 0 <= k < |photo| ==> !photo[k].Text?
    ensures var evs := [Header, Text(Top, caption), Text(Top - 1.2 * Cm, title)] + photo + [Rule(ruleAt)];
            && evs[0] == Header && NoHeader(evs[1..]) && NoPageEnd(evs)
            && TextsWithin(evs, Top - 1.2 * Cm, Top)
  {
    var rest := [Text(Top, caption), Text(Top - 1.2 * Cm, title)] + photo + [Rule(ruleAt)];
    var evs := [Header, Text(Top, caption), Text(Top - 1.2 * Cm, title)] + photo + [Rule(ruleAt)];
    assert evs == [Header] + rest;
    assert evs[1..] == rest;
    forall k | 0 <= k < |rest|
      ensures !rest[k].Header? && !rest[k].ShowPage?
      ensures rest[k].Text? ==> Top - 1.2 * Cm <= rest[k].y <= Top
    {
      if 2 <= k < 2 + |photo| {
        assert rest[k] == photo[k - 2];
      }
    }
  }

  /** The photo step draws the one image when there is a photo and nothing
      otherwise; it leaves the cursor 0.5cm below the image, or 1cm lower
      when there is none. */
  lemma PhotoFacts(y: real, p: Product)
    ensures var ph := PhotoBlock(y, p);
            && NoHeader(ph.events) && NoPageEnd(ph.events)
            && (forall k :: 0 <= k < |ph.events| ==> !ph.events[k].Text?)
            && ph.y == (if HasPhotoUrl(p.record) && p.photo.Some? then y - p.photo.value - 0.5 * Cm else y - Cm)
            && (if HasPhotoUrl(p.record) && p.photo.Some?
                then |ph.events| == 1 && ph.events[0].Image?
                else ph.events == [])
  {
  }

  /** The head opens the product's page, ends none, and leaves the cursor where
      the fee lines start. */
  lemma HeadFacts(i: nat, n: nat, p: Product)
    ensures var h := Head(i, n, p);
            && |h.events| > 0 && h.events[0] == Header && NoHeader(h.events[1..])
            && NoPageEnd(h.events) && PageCount(h.events) == 0
            && TextsWithin(h.events, Top - 1.2 * Cm, Top)
            && h.y == BodyStart(p)
    ensures PhotoFits(p) ==> Top - 11.2 * Cm <= BodyStart(p) <= Top - 3.2 * Cm
  {
    var h := Head(i, n, p);
    var photo := PhotoBlock(Top - 1.2 * Cm - Cm, p);
    PhotoFacts(Top - 1.2 * Cm - Cm, p);
    HeadTrace(Caption(i, n), p.record.title, photo.events, photo.y);
    assert h.events == [Header, Text(Top, Caption(i, n)), Text(Top - 1.2 * Cm, p.record.title)]
                       + photo.events + [Rule(photo.y)];
    NoPageEndCount(h.events);
  }

  lemma QuietConcat(a: seq<Event>, b: seq<Event>)
    requires NoHeader(a) && NoPageEnd(a) && NoHeader(b) && NoPageEnd(b)
    ensures NoHeader(a + b) && NoPageEnd(a + b)
  {
    forall k | |a| <= k < |a + b|
      ensures !(a + b)[k].Header? && !(a + b)[k].ShowPage?
    {
      assert (a + b)[k] == b[k - |a|];
    }
  }

  /** The note draws its two texts within 0.5cm below where it starts and
      leaves the cursor 1.5cm lower; without a note nothing moves. */
  lemma NoteFacts(y: real, p: Product)
    ensures var note := NoteBlock(y, p);
            && NoHeader(note.events) && NoPageEnd(note.events)
            && TextsWithin(note.events, y - 0.5 * Cm, y)
            && note.y == (if |p.note| > 0 then y - 1.5 * Cm else y)
  {
  }

  /** The link draws its text 0.7cm below where it starts, and nothing else
      that ends or opens a page; it leaves the cursor 1.7cm lower, or 0.5cm
      lower when no link is drawn. */
  lemma LinkFacts(y: real, p: Product, includeLinks: bool, width: string -> real)
    ensures var link := LinkBlock(y, p, includeLinks, width);
            && NoHeader(link.events) && NoPageEnd(link.events)
            && TextsWithin(link.events, y - 0.7 * Cm, y)
            && (forall k :: 0 <= k < |link.events| && link.events[k].Text? ==> link.events[k].y == y - 0.7 * Cm)
            && link.y == (if includeLinks && |p.url| > 0 then y - 1.7 * Cm else y - 0.5 * Cm)
  {
  }

  /** The tail ends the page with its last event and no earlier one, drawing
      its texts no lower than 2.2cm below where it starts. */
  lemma TailFacts(y: real, p: Product, includeLinks: bool, width: string -> real)
    ensures var t := Tail(y, p, includeLinks, width).events;
            && |t| > 0 && t[|t| - 1] == ShowPage && NoHeader(t)
            && NoPageEnd(t[..|t| - 1]) && PageCount(t) == 1
            && TextsWithin(t, y - 2.2 * Cm, y)
  {
    var note := NoteBlock(y, p);
    var link := LinkBlock(note.y, p, includeLinks, width);
    var drawn := note.events + link.events;
    DrawnFacts(y, p, includeLinks, width);
    assert Tail(y, p, includeLinks, width).events == drawn + [ShowPage];
    ClosePage(drawn, y - 2.2 * Cm, y);
  }

  /** The note and the link of a tail stay on the page and within 2.2 cm
      below where the tail starts. */
  lemma DrawnFacts(y: real, p: Product, includeLinks: bool, width: string -> real)
    ensures var note := NoteBlock(y, p);
            var drawn := note.events + LinkBlock(note.y, p, includeLinks, width).events;
            && NoHeader(drawn) && NoPageEnd(drawn)
            && TextsWithin(drawn, y - 2.2 * Cm, y)
  {
    var note := NoteBlock(y, p);
    var link := LinkBlock(note.y, p, includeLinks, width);
    NoteFacts(y, p);
    LinkFacts(note.y, p, includeLinks, width);
    QuietConcat(note.events, link.events);
    Widen(note.events, y - 0.5 * Cm, y, y - 2.2 * Cm, y);
    Widen(link.events, note.y - 0.7 * Cm, note.y, y - 2.2 * Cm, y);
    WithinConcat(note.events, link.events, y - 2.2 * Cm, y);
  }

  /** Ending a page after events that neither open nor end one gives exactly
      one page, ended last. */
  lemma ClosePage(drawn: seq<Event>, low: real, high: real)
    requires NoHeader(drawn) && NoPageEnd(drawn) && TextsWithin(drawn, low, high)
    ensures var t := drawn + [ShowPage];
            && t[|t| - 1] == ShowPage && NoHeader(t)
            && NoPageEnd(t[..|t| - 1]) && PageCount(t) == 1
            && TextsWithin(t, low, high)
  {
    var t := drawn + [ShowPage];
    assert t[..|t| - 1] == drawn;
    assert NoHeader(t) by {
      forall k | 0 <= k < |t| ensures !t[k].Header? {
        if k < |drawn| {
          assert t[k] == drawn[k];
        }
      }
    }
    WithinConcat(drawn, [ShowPage], low, high);
    NoPageEndCount(drawn);
    PageCountConcat(drawn, [ShowPage]);
    SingleEvent(ShowPage);
  }

  /** How many page breaks the fee lines of `p` need. */
  function Breaks(p: Product, width: string -> real): nat {
    PageCount(LayLines(BodyStart(p), BodyLines(p), width).events)
  }

  /** A product's block starts with a page header, ends its last page, and ends
      one page more than its fee lines break. */
  lemma BlockFacts(i: nat, n: nat, p: Product, includeLinks: bool, width: string -> real)
    ensures var b := Block(i, n, p, includeLinks, width);
            && |b| > 0 && b[0] == Header && b[|b| - 1] == ShowPage
            && HeadersOpenPages(b) && PageEndsOpen(b)
            && PageCount(b) == 1 + Breaks(p, width)
  {
    var head := Head(i, n, p);
    var body := LayLines(head.y, BodyLines(p), width);
    var tail := Tail(body.y, p, includeLinks, width);
    HeadFacts(i, n, p);
    LinesOpen(head.y, BodyLines(p), width);
    TailFacts(body.y, p, includeLinks, width);
    assert HeadersOpenPages(head.events) by {
      forall k | 0 < k < |head.events| ensures !head.events[k].Header? {
        assert head.events[k] == head.events[1..][k - 1];
      }
    }
    OpenConcat(head.events, body.events);
    OpenConcat(head.events + body.events, tail.events);
    var front := head.events + body.events;
    assert !front[|front| - 1].ShowPage? by {
      if |body.events| > 0 {
        assert front[|front| - 1] == body.events[|body.events| - 1];
      } else {
        assert front[|front| - 1] == head.events[|head.events| - 1];
      }
    }
    EndsConcat(head.events, body.events);
    EndsOnlyLast(tail.events);
    EndsConcat(front, tail.events);
    PageCountConcat(head.events, body.events);
    PageCountConcat(head.events + body.events, tail.events);
  }

  // ---------------------------------------------------------------- the document

  /** The cover's page plus, per product, one page and its breaks. */
  function TotalPages(ps: seq<Product>, width: string -> real): nat
    decreases |ps|
  {
    if |ps| == 0 then 1 else TotalPages(ps[..|ps| - 1], width) + 1 + Breaks(ps[|ps| - 1], width)
  }

  lemma {:induction false} BlocksFacts(ps: seq<Product>, n: nat, includeLinks: bool, width: string -> real)
    ensures var bs := Blocks(ps, n, includeLinks, width);
            && HeadersOpenPages(bs) && PageEndsOpen(bs)
            && (|ps| > 0 ==> |bs| > 0 && bs[0] == Header && bs[|bs| - 1] == ShowPage)
            && 1 + PageCount(bs) == TotalPages(ps, width)
    decreases |ps|
  {
    if |ps| > 0 {
      var front := Blocks(ps[..|ps| - 1], n, includeLinks, width);
      var last := Block(|ps|, n, ps[|ps| - 1], includeLinks, width);
      BlocksFacts(ps[..|ps| - 1], n, includeLinks, width);
      BlockFacts(|ps|, n, ps[|ps| - 1], includeLinks, width);
      OpenConcat(front, last);
      EndsConcat(front, last);
      PageCountConcat(front, last);
      if |front| == 0 {
        assert front + last == last;
      }
    }
  }

  /** The report ends one page for the cover and, per product, one page and
      one more at each break of its fee lines. */
  lemma DocumentPages(ps: seq<Product>, client: string, includeLinks: bool, width: string -> real)
    ensures PageCount(Document(ps, client, includeLinks, width)) == TotalPages(ps, width)
  {
    var cover := Cover(client);
    BlocksFacts(ps, |ps|, includeLinks, width);
    PageCountConcat(cover, Blocks(ps, |ps|, includeLinks, width));
    assert cover == [Text(PageHeight - 5.0 * Cm, "Análise de Produtos"), Rule(PageHeight - 5.2 * Cm),
                     Text(PageHeight - 7.0 * Cm, "Cliente: " + client)] + [ShowPage];
    NoPageEndCount(cover[..3]);
    PageCountConcat(cover[..3], [ShowPage]);
    SingleEvent(ShowPage);
  }

  /** Every page header of the report comes right after a page end: the cover
      has a page of its own and every product, and every continuation of its
      fee lines, starts on a fresh page. */
  lemma HeaderAfterPageEnd(ps: seq<Product>, client: string, includeLinks: bool, width: string -> real)
    ensures var doc := Document(ps, client, includeLinks, width);
            forall k :: 0 <= k < |doc| && doc[k].Header? ==> k > 0 && doc[k - 1].ShowPage?
  {
    var cover := Cover(client);
    BlocksFacts(ps, |ps|, includeLinks, width);
    OpenConcat(cover, Blocks(ps, |ps|, includeLinks, width));
  }

  /** Every page end of the report but the last is followed right away by a
      page header, so a page broken inside a product's fee lines opens with the
      header again; the report's last event ends its last page. */
  lemma HeaderAfterEveryPageEnd(ps: seq<Product>, client: string, includeLinks: bool, width: string -> real)
    ensures var doc := Document(ps, client, includeLinks, width);
            && |doc| > 0 && doc[|doc| - 1] == ShowPage
            && forall k :: 0 <= k < |doc| - 1 && doc[k].ShowPage? ==> doc[k + 1].Header?
  {
    var cover := Cover(client);
    var bs := Blocks(ps, |ps|, includeLinks, width);
    BlocksFacts(ps, |ps|, includeLinks, width);
    assert cover[..3] == [Text(PageHeight - 5.0 * Cm, "Análise de Produtos"), Rule(PageHeight - 5.2 * Cm),
                          Text(PageHeight - 7.0 * Cm, "Cliente: " + client)];
    EndsOnlyLast(cover);
    EndsConcat(cover, bs);
    if |bs| == 0 {
      assert cover + bs == cover;
    } else {
      assert (cover + bs)[|cover + bs| - 1] == bs[|bs| - 1];
    }
  }

  // ---------------------------------------------------------------- where the texts land

  lemma Widen(evs: seq<Event>, low: real, high: real, low2: real, high2: real)
    requires TextsWithin(evs, low, high) && low2 <= low && high <= high2
    ensures TextsWithin(evs, low2, high2)
  {
  }

  /** With a photo that fits, every text of a product's block lands on the page
      between the top of the text area and 0.2cm below the bottom margin: the
      fee lines stay above the break floor, and the note and the link, drawn
      without a break test, reach at most 2.2cm below the last fee line's
      cursor. */
  lemma BlockTextsOnPage(i: nat, n: nat, p: Product, includeLinks: bool, width: string -> real)
    requires PhotoFits(p)
    ensures TextsWithin(Block(i, n, p, includeLinks, width), Margin - 0.2 * Cm, Top)
  {
    var head := Head(i, n, p);
    var body := LayLines(head.y, BodyLines(p), width);
    var tail := Tail(body.y, p, includeLinks, width);
    HeadFacts(i, n, p);
    LinesOnPage(head.y, BodyLines(p), width);
    EndAboveFloor(head.y, BodyLines(p), width);
    TailFacts(body.y, p, includeLinks, width);
    Widen(head.events, Top - 1.2 * Cm, Top, Margin - 0.2 * Cm, Top);
    Widen(body.events, BreakFloor, Top, Margin - 0.2 * Cm, Top);
    Widen(tail.events, body.y - 2.2 * Cm, body.y, Margin - 0.2 * Cm, Top);
    WithinConcat(head.events, body.events, Margin - 0.2 * Cm, Top);
    WithinConcat(head.events + body.events, tail.events, Margin - 0.2 * Cm, Top);
  }

  /** A product never breaks its fee lines more often than it has lines. */
  lemma BreaksBound(p: Product, width: string -> real)
    ensures Breaks(p, width) <= |BodyLines(p)|
  {
    BreaksAtMostLines(BodyStart(p), BodyLines(p), width);
  }

  /** Up to four lines need no break when the cursor is 3cm above the floor. */
  lemma FourLinesFit(y: real, lines: seq<string>, width: string -> real)
    requires |lines| <= 4 && y >= BreakFloor + 3.0 * Cm
    ensures PageCount(LayLines(y, lines, width).events) == 0
  {
    var m := |lines| as real - 1.0;
    assert m * Cm <= 3.0 * Cm by {
      assert m <= 3.0;
      assert Cm > 0.0;
    }
    NoBreakWhenRoom(y, lines, width);
  }

  /** The calculator leaves the report three or four fee lines. */
  lemma CalculatorLineCount(p: Product)
    requires FromCalculator(p.record)
    ensures 3 <= |BodyLines(p)| <= 4
  {
    CalculatorLines(p);
  }

  /** The calculator's three or four fee lines always fit below a photo that
      fits, so such a product takes exactly one page. */
  lemma OnePagePerProduct(p: Product, width: string -> real)
    requires FromCalculator(p.record) && PhotoFits(p)
    ensures Breaks(p, width) == 0
  {
    CalculatorLineCount(p);
    HeadFacts(1, 1, p);
    FourLinesFit(BodyStart(p), BodyLines(p), width);
  }

  /** A report of calculator products with photos that fit has one page for
      the cover and one per product. */
  lemma {:induction false} CalculatorTotalPages(ps: seq<Product>, width: string -> real)
    requires forall k :: 0 <= k < |ps| ==> FromCalculator(ps[k].record) && PhotoFits(ps[k])
    ensures TotalPages(ps, width) == 1 + |ps|
    decreases |ps|
  {
    if |ps| > 0 {
      CalculatorTotalPages(ps[..|ps| - 1], width);
      OnePagePerProduct(ps[|ps| - 1], width);
    }
  }

  lemma CalculatorDocumentPages(ps: seq<Product>, client: string, includeLinks: bool, width: string -> real)
    requires forall k :: 0 <= k < |ps| ==> FromCalculator(ps[k].record) && PhotoFits(ps[k])
    ensures PageCount(Document(ps, client, includeLinks, width)) == 1 + |ps|
  {
    DocumentPages(ps, client, includeLinks, width);
    CalculatorTotalPages(ps, width);
  }

  /** A record the calculator built from its own title, price, listing type,
      photo address and rates. */
  predicate Assessed(r: FeeRecord) {
    r == Assess(r.title, r.figures.price, r.figures.listingType, r.photoUrl, r.figures.taxRate, r.figures.partnerRate)
  }

  /** A report of products the calculator assessed, with titles of one line
      and photos that fit, has one page for the cover and one per product. */
  lemma AssessedDocumentPages(ps: seq<Product>, client: string, includeLinks: bool, width: string -> real)
    requires forall k :: 0 <= k < |ps| ==> Assessed(ps[k].record) && '\n' !in ps[k].record.title && PhotoFits(ps[k])
    ensures PageCount(Document(ps, client, includeLinks, width)) == 1 + |ps|
  {
    forall k | 0 <= k < |ps|
      ensures FromCalculator(ps[k].record)
    {
      var r := ps[k].record;
      AssessFromCalculator(r.title, r.figures.price, r.figures.listingType, r.photoUrl,
                           r.figures.taxRate, r.figures.partnerRate);
    }
    CalculatorDocumentPages(ps, client, includeLinks, width);
  }
}
