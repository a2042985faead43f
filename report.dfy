/** The PDF report: a cover page, then one block per product whose fee lines
    run down a page with a vertical cursor and continue on a new page when the
    cursor gets too low. ReportLab's canvas is modelled by the sequence of
    drawing events it receives; fonts, colours and the logo are left out. */
module Report {
  import opened Wrappers
  import opened Strings
  import opened Fees

  // ---------------------------------------------------------------- page geometry, in points

  const Cm: real := 72.0 / 2.54
  const PageWidth: real := 21.0 * Cm
  const PageHeight: real := 29.7 * Cm
  const Margin: real := 2.0 * Cm
  /** Where a product's first line, and the first line after a page break, is drawn. */
  const Top: real := PageHeight - 2.5 * Cm
  /** A fee line is never drawn below this cursor position. */
  const BreakFloor: real := Margin + 3.0 * Cm
  /** The largest photo height the thumbnail step lets through. */
  const MaxImageHeight: real := 8.0 * Cm

  const LinkText: string := "Clique para ver o anúncio"

  /** What the canvas is asked to draw. Every text starts at the left margin;
      `Header` is the page header (caption, logo and rule). */
  datatype Event =
    | ShowPage
    | Header
    | Text(y: real, text: string)
    | Line(x1: real, y1: real, x2: real, y2: real)
    | Rect(x: real, y: real, width: real, height: real)
    | Image(y: real, height: real)
    | Link(url: string, x1: real, y1: real, x2: real, y2: real)

  /** A product of the session: its analysis, the note and the listing address
      typed in, and the height of its photo after the thumbnail step (`None`
      when downloading or decoding the photo fails). */
  datatype Product = Product(record: FeeRecord, note: string, url: string, photo: Option<real>)

  /** Events drawn and where the cursor ends. */
  datatype Laid = Laid(events: seq<Event>, y: real)

  /** The recording canvas. */
  class Canvas {
    var events: seq<Event>

    constructor()
      ensures events == []
    {
      events := [];
    }

    method Draw(e: Event)
      modifies this
      ensures events == old(events) + [e]
    {
      events := events + [e];
    }
  }

  // ---------------------------------------------------------------- the cover

  function Rule(y: real): Event {
    Line(Margin, y, PageWidth - Margin, y)
  }

  function Cover(client: string): seq<Event> {
    [Text(PageHeight - 5.0 * Cm, "Análise de Produtos"), Rule(PageHeight - 5.2 * Cm),
     Text(PageHeight - 7.0 * Cm, "Cliente: " + client), ShowPage]
  }

  // ---------------------------------------------------------------- the product head

  predicate HasPhotoUrl(r: FeeRecord) {
    r.photoUrl.Some? && |r.photoUrl.value| > 0
  }

  /** The photo, or the 1cm gap left when there is none or it cannot be loaded. */
  function PhotoBlock(y: real, p: Product): Laid {
    if HasPhotoUrl(p.record) && p.photo.Some? then
      Laid([Image(y - p.photo.value, p.photo.value)], y - p.photo.value - 0.5 * Cm)
    else Laid([], y - Cm)
  }

  function Caption(i: nat, n: nat): string {
    "Produto " + NatToString(i) + " de " + NatToString(n)
  }

  /** Header, "Produto i de n", the title, the photo and a rule. */
  function Head(i: nat, n: nat, p: Product): Laid {
    var photo := PhotoBlock(Top - 1.2 * Cm - Cm, p);
    Laid([Header, Text(Top, Caption(i, n)), Text(Top - 1.2 * Cm, p.record.title)] + photo.events + [Rule(photo.y)],
         photo.y - 0.5 * Cm)
  }

  // ---------------------------------------------------------------- the fee lines

  /** The summary's lines without a leading "Título:" line and then without a
      leading "Preço:" line. */
  function FilterHeadline(lines: seq<string>): seq<string> {
    var rest := if |lines| > 0 && StartsWith(lines[0], "Título:") then lines[1..] else lines;
    if |rest| > 0 && StartsWith(rest[0], "Preço:") then rest[1..] else rest
  }

  function BodyLines(p: Product): seq<string> {
    FilterHeadline(Split(p.record.summary, '\n'))
  }

  predicate IsNetLine(line: string) {
    StartsWith(line, NetPrefix)
  }

  /** How far the cursor moves down after a line. */
  function Step(line: string): real {
    if IsNetLine(line) then Cm else 0.6 * Cm
  }

  /** Where a line lands when the cursor is at `y`. */
  function Landing(y: real): real {
    if y < BreakFloor then Top else y
  }

  /** One fee line: a page break first when the cursor is too low, then the
      line, the net line on a highlight box as wide as its text. */
  function LayLine(y: real, line: string, width: string -> real): Laid {
    var at := Landing(y);
    var brk := if y < BreakFloor then [ShowPage, Header] else [];
    var drawn := if IsNetLine(line) then [Rect(Margin - 2.0, at - 2.0, width(line) + 4.0, 14.0), Text(at, line)]
                 else [Text(at, line)];
    Laid(brk + drawn, at - Step(line))
  }

  /** The fee lines, one after the other. */
  function LayLines(y: real, lines: seq<string>, width: string -> real): Laid
    decreases |lines|
  {
    if |lines| == 0 then Laid([], y)
    else
      var before := LayLines(y, lines[..|lines| - 1], width);
      var last := LayLine(before.y, lines[|lines| - 1], width);
      Laid(before.events + last.events, last.y)
  }

  // ---------------------------------------------------------------- the product tail

  /** The note under "Observação:", when there is one. */
  function NoteBlock(y: real, p: Product): Laid {
    if |p.note| > 0 then Laid([Text(y, "Observação:"), Text(y - 0.5 * Cm, p.note)], y - 1.5 * Cm)
    else Laid([], y)
  }

  /** The clickable link to the listing, underlined as wide as its text, when
      links are wanted and there is a URL. */
  function LinkBlock(y: real, p: Product, includeLinks: bool, width: string -> real): Laid {
    if includeLinks && |p.url| > 0 then
      var at := y - 0.7 * Cm;
      var w := width(LinkText);
      Laid([Text(at, LinkText), Link(p.url, Margin, at - 2.0, Margin + w, at + 12.0),
            Line(Margin, at - 1.0, Margin + w, at - 1.0)], at - Cm)
    else Laid([], y - 0.5 * Cm)
  }

  /** The note, the link and the end of the product's page; no page-break test
      is made here. */
  function Tail(y: real, p: Product, includeLinks: bool, width: string -> real): Laid {
    var note := NoteBlock(y, p);
    var link := LinkBlock(note.y, p, includeLinks, width);
    Laid(note.events + link.events + [ShowPage], link.y)
  }

  /** Everything drawn for the `i`-th of `n` products. */
  function Block(i: nat, n: nat, p: Product, includeLinks: bool, width: string -> real): seq<Event> {
    var head := Head(i, n, p);
    var body := LayLines(head.y, BodyLines(p), width);
    head.events + body.events + Tail(body.y, p, includeLinks, width).events
  }

  /** The blocks of the products `ps`, numbered from 1, out of `n`. */
  function Blocks(ps: seq<Product>, n: nat, includeLinks: bool, width: string -> real): seq<Event>
    decreases |ps|
  {
    if |ps| == 0 then []
    else Blocks(ps[..|ps| - 1], n, includeLinks, width) + Block(|ps|, n, ps[|ps| - 1], includeLinks, width)
  }

  function Document(products: seq<Product>, client: string, includeLinks: bool, width: string -> real): seq<Event> {
    Cover(client) + Blocks(products, |products|, includeLinks, width)
  }

  // ---------------------------------------------------------------- drawing

  /** `gerar_pdf_bytes`: draws the cover and every product on a fresh canvas
      and returns what was drawn. */
  method GeneratePdf(products: seq<Product>, client: string, includeLinks: bool, width: string -> real)
    returns (doc: seq<Event>)
    ensures doc == Document(products, client, includeLinks, width)
  {
    var c := new Canvas();
    c.Draw(Text(PageHeight - 5.0 * Cm, "Análise de Produtos"));
    c.Draw(Rule(PageHeight - 5.2 * Cm));
    c.Draw(Text(PageHeight - 7.0 * Cm, "Cliente: " + client));
    c.Draw(ShowPage);
    for i := 0 to |products|
      invariant c.events == Cover(client) + Blocks(products[..i], |products|, includeLinks, width)
    {
      ghost var done := Blocks(products[..i], |products|, includeLinks, width);
      ghost var next := Block(i + 1, |products|, products[i], includeLinks, width);
      DrawProduct(c, i + 1, |products|, products[i], includeLinks, width);
      assert products[..i + 1][..i] == products[..i];
      assert Blocks(products[..i + 1], |products|, includeLinks, width) == done + next;
      Associate(Cover(client), done, next);
    }
    assert products[..|products|] == products;
    doc := c.events;
  }

  lemma Associate(a: seq<Event>, b: seq<Event>, c: seq<Event>)
    ensures a + b + c == a + (b + c)
  {
  }

  method DrawProduct(c: Canvas, i: nat, n: nat, p: Product, includeLinks: bool, width: string -> real)
    modifies c
    ensures c.events == old(c.events) + Block(i, n, p, includeLinks, width)
  {
    ghost var head := Head(i, n, p);
    ghost var body := LayLines(head.y, BodyLines(p), width);
    ghost var tail := Tail(body.y, p, includeLinks, width);
    ghost var start := c.events;
    var y := DrawHead(c, i, n, p);
    var lines := DropHeadline(Split(p.record.summary, '\n'));
    y := DrawLines(c, y, lines, width);
    DrawTail(c, y, p, includeLinks, width);
    assert c.events == start + head.events + body.events + tail.events;
    Associate(start + head.events, body.events, tail.events);
    Associate(start, head.events, body.events + tail.events);
    assert Block(i, n, p, includeLinks, width) == head.events + body.events + tail.events;
  }

  /** The two `pop(0)` calls on the split summary. */
  method DropHeadline(split: seq<string>) returns (lines: seq<string>)
    ensures lines == FilterHeadline(split)
  {
    lines := split;
    if |lines| > 0 && StartsWith(lines[0], "Título:") {
      lines := lines[1..];
    }
    if |lines| > 0 && StartsWith(lines[0], "Preço:") {
      lines := lines[1..];
    }
  }

  method DrawHead(c: Canvas, i: nat, n: nat, p: Product) returns (y: real)
    modifies c
    ensures c.events == old(c.events) + Head(i, n, p).events && y == Head(i, n, p).y
  {
    c.Draw(Header);
    y := Top;
    c.Draw(Text(y, Caption(i, n)));
    y := y - 1.2 * Cm;
    c.Draw(Text(y, p.record.title));
    y := y - Cm;
    if HasPhotoUrl(p.record) && p.photo.Some? {
      var yImage := y - p.photo.value;
      c.Draw(Image(yImage, p.photo.value));
      y := yImage - 0.5 * Cm;
    } else {
      y := y - Cm;
    }
    c.Draw(Rule(y));
    y := y - 0.5 * Cm;
  }

  method DrawLines(c: Canvas, y0: real, lines: seq<string>, width: string -> real) returns (y: real)
    modifies c
    ensures c.events == old(c.events) + LayLines(y0, lines, width).events
    ensures y == LayLines(y0, lines, width).y
  {
    y := y0;
    for k := 0 to |lines|
      invariant c.events == old(c.events) + LayLines(y0, lines[..k], width).events
      invariant y == LayLines(y0, lines[..k], width).y
    {
      ghost var before := c.events;
      ghost var drawn := LayLines(y0, lines[..k], width).events;
      ghost var next := LayLine(y, lines[k], width);
      y := DrawLine(c, y, lines[k], width);
      assert lines[..k + 1][..k] == lines[..k];
      assert LayLines(y0, lines[..k + 1], width) == Laid(drawn + next.events, next.y);
      Associate(old(c.events), drawn, next.events);
    }
    assert lines[..|lines|] == lines;
  }

  /** One pass of the line loop: the page-break test, then the line. */
  method DrawLine(c: Canvas, y0: real, line: string, width: string -> real) returns (y: real)
    modifies c
    ensures c.events == old(c.events) + LayLine(y0, line, width).events
    ensures y == LayLine(y0, line, width).y
  {
    y := y0;
    if y < BreakFloor {
      c.Draw(ShowPage);
      c.Draw(Header);
      y := Top;
    }
    if StartsWith(line, NetPrefix) {
      var w := width(line);
      c.Draw(Rect(Margin - 2.0, y - 2.0, w + 4.0, 14.0));
      c.Draw(Text(y, line));
      y := y - Cm;
    } else {
      c.Draw(Text(y, line));
      y := y - 0.6 * Cm;
    }
  }

  method DrawTail(c: Canvas, y0: real, p: Product, includeLinks: bool, width: string -> real)
    modifies c
    ensures c.events == old(c.events) + Tail(y0, p, includeLinks, width).events
  {
    var y := y0;
    if |p.note| > 0 {
      c.Draw(Text(y, "Observação:"));
      y := y - 0.5 * Cm;
      c.Draw(Text(y, p.note));
      y := y - Cm;
    }
    if includeLinks && |p.url| > 0 {
      y := y - 0.7 * Cm;
      c.Draw(Text(y, LinkText));
      var w := width(LinkText);
      c.Draw(Link(p.url, Margin, y - 2.0, Margin + w, y + 12.0));
      c.Draw(Line(Margin, y - 1.0, Margin + w, y - 1.0));
      y := y - Cm;
    } else {
      y := y - 0.5 * Cm;
    }
    c.Draw(ShowPage);
  }
}
