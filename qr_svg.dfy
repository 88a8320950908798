/** The generator of src/utils/makeQR.ts as a whole: the pattern of
    `QRLayout` written out as SVG markup, and `MakeQR`, the imperative
    procedure of lines 11-30, proved to produce exactly that markup. */
module QRSvg {
  import opened SeqUtil
  import opened QRBits
  import opened QRLayout

  // ---------------------------------------------------------------------
  // Decimal numerals, as a template literal prints a non-negative integer

  function Digit(d: nat): char
    requires d < 10
  {
    "0123456789"[d]
  }

  function Decimal(n: nat): (s: string)
    ensures |s| > 0
    ensures forall i :: 0 <= i < |s| ==> '0' <= s[i] <= '9'
  {
    if n < 10 then [Digit(n)] else Decimal(n / 10) + [Digit(n % 10)]
  }

  /** The value a decimal numeral denotes. */
  function NumeralValue(s: string): nat
    requires forall i :: 0 <= i < |s| ==> '0' <= s[i] <= '9'
  {
    if s == [] then 0
    else 10 * NumeralValue(s[..|s| - 1]) + (s[|s| - 1] as int - '0' as int)
  }

  /** Printed numbers read back as themselves, and carry no leading zero. */
  lemma {:induction false} DecimalRoundTrip(n: nat)
    ensures NumeralValue(Decimal(n)) == n
    ensures Decimal(n)[0] == '0' ==> n == 0
  {
    if n >= 10 {
      DecimalRoundTrip(n / 10);
      var s := Decimal(n);
      assert s[..|s| - 1] == Decimal(n / 10);
    }
  }

  // ---------------------------------------------------------------------
  // Markup

  /** The `fill` string of a paint: the caller's colours, verbatim. */
  function Fill(p: Paint, fg: string, bg: string): string {
    if p == Fg then fg else bg
  }

  /** One positioned rectangle up to its colour, as lines 16-18, 23 and 27
      write it. */
  function RectOpening(q: Rect): string {
    "<rect x=\"" + Decimal(q.x) + "\" y=\"" + Decimal(q.y)
      + "\" width=\"" + Decimal(q.w) + "\" height=\"" + Decimal(q.h) + "\" fill=\""
  }

  /** One positioned rectangle. */
  function RectMarkup(q: Rect, fg: string, bg: string): string {
    RectOpening(q) + Fill(q.paint, fg, bg) + "\"/>"
  }

  /** The pieces `f(x)` of the elements `x` of `xs`, concatenated in order. */
  function Join<T>(xs: seq<T>, f: T -> string): string {
    if xs == [] then "" else Join(xs[..|xs| - 1], f) + f(xs[|xs| - 1])
  }

  lemma JoinSnoc<T>(xs: seq<T>, x: T, f: T -> string)
    ensures Join(xs + [x], f) == Join(xs, f) + f(x)
  {
    assert (xs + [x])[..|xs|] == xs;
  }

  lemma {:induction false} JoinAppend<T>(xs: seq<T>, ys: seq<T>, f: T -> string)
    ensures Join(xs + ys, f) == Join(xs, f) + Join(ys, f)
    decreases |ys|
  {
    if ys == [] {
      assert xs + ys == xs;
    } else {
      var ys', y := ys[..|ys| - 1], ys[|ys| - 1];
      assert xs + ys == (xs + ys') + [y];
      assert ys == ys' + [y];
      JoinSnoc(xs + ys', y, f);
      JoinAppend(xs, ys', f);
      JoinSnoc(ys', y, f);
    }
  }

  lemma JoinCons<T>(x: T, xs: seq<T>, f: T -> string)
    ensures Join([x] + xs, f) == f(x) + Join(xs, f)
  {
    JoinAppend([x], xs, f);
    JoinSnoc([], x, f);
    assert [] + [x] == [x];
  }

  /** A sequence of rectangles, written one after the other. */
  function Markup(rs: seq<Rect>, fg: string, bg: string): string {
    Join(rs, q => RectMarkup(q, fg, bg))
  }

  /** Writing one more rectangle appends its markup. */
  lemma MarkupSnoc(rs: seq<Rect>, q: Rect, fg: string, bg: string)
    ensures Markup(rs + [q], fg, bg) == Markup(rs, fg, bg) + RectMarkup(q, fg, bg)
  {
    JoinSnoc(rs, q, q => RectMarkup(q, fg, bg));
  }

  /** The first rectangle's markup comes first. */
  lemma MarkupCons(q: Rect, rs: seq<Rect>, fg: string, bg: string)
    ensures Markup([q] + rs, fg, bg) == RectMarkup(q, fg, bg) + Markup(rs, fg, bg)
  {
    JoinCons(q, rs, q => RectMarkup(q, fg, bg));
  }

  /** Writing two sequences one after the other writes their concatenation. */
  lemma MarkupAppend(a: seq<Rect>, b: seq<Rect>, fg: string, bg: string)
    ensures Markup(a + b, fg, bg) == Markup(a, fg, bg) + Markup(b, fg, bg)
  {
    JoinAppend(a, b, q => RectMarkup(q, fg, bg));
  }

  /** The full-canvas background rectangle of line 14 up to its colour;
      it is written without a position. */
  function BackdropOpening(): string {
    "<rect width=\"" + Decimal(Size) + "\" height=\"" + Decimal(Size) + "\" fill=\""
  }

  function BackdropMarkup(bg: string): string {
    BackdropOpening() + bg + "\"/>"
  }

  /** The opening tag of line 29. */
  function SvgOpen(): string {
    "<svg xmlns=\"http://www.w3.org/2000/svg\" viewBox=\"0 0 " + Decimal(Size) + " " + Decimal(Size)
      + "\" shape-rendering=\"crispEdges\">"
  }

  const SvgClose: string := "</svg>"

  /** The colours `makeQR` uses when the caller gives none (line 11). */
  const DefaultFg: string := "#1A0A05"
  const DefaultBg: string := "#FFFFFF"

  /** The state the cell walk starts from: the seed hash as 32 bits. */
  function SeedState(seed: seq<bv16>): bv32 {
    ToBits(SeedHash(seed))
  }

  /** The document `makeQR(seed, fg, bg)` returns: the background, the
      finder squares, then the cell rectangles, inside the `<svg>` element. */
  function Document(seed: seq<bv16>, fg: string, bg: string): string {
    SvgOpen() + (BackdropMarkup(bg) + Markup(Pattern(SeedState(seed)), fg, bg)) + SvgClose
  }

  // ---------------------------------------------------------------------
  // The procedure

  /** Line 13: fold the seed's code units into `h`. */
  method HashSeed(seed: seq<bv16>) returns (h: int)
    ensures h == SeedHash(seed)
  {
    h := 0;
    for i := 0 to |seed|
      invariant h == SeedHash(seed[..i])
    {
      assert seed[..i + 1][..i] == seed[..i];
      h := ToInt32(Imul(31, h) + seed[i] as int);
    }
    assert seed[..|seed|] == seed;
  }

  /** One `d += ...` of lines 16-18, 23 and 27: the markup of `q` is
      appended to a document that so far holds `rs` after `d0`. */
  method WriteRect(d: string, q: Rect, fg: string, bg: string, ghost d0: string, ghost rs: seq<Rect>)
    returns (d': string)
    requires d == d0 + Markup(rs, fg, bg)
    ensures d' == d0 + Markup(rs + [q], fg, bg)
  {
    MarkupSnoc(rs, q, fg, bg);
    ConcatAssoc(d0, Markup(rs, fg, bg), RectMarkup(q, fg, bg));
    d' := d + RectMarkup(q, fg, bg);
  }

  /** Lines 16-18: the three squares of the zone whose origin is (y, x). */
  method WriteFinder(d: string, y: nat, x: nat, fg: string, bg: string, ghost d0: string, ghost drawn: seq<Rect>)
    returns (d': string)
    requires d == d0 + Markup(drawn, fg, bg)
    ensures d' == d0 + Markup(drawn + FinderTriple(y, x), fg, bg)
  {
    var outer, middle, inner := Rect(x, y, 7, 7, Fg), Rect(x + 1, y + 1, 5, 5, Bg), Rect(x + 2, y + 2, 3, 3, Fg);
    d' := WriteRect(d, outer, fg, bg, d0, drawn);
    d' := WriteRect(d', middle, fg, bg, d0, drawn + [outer]);
    d' := WriteRect(d', inner, fg, bg, d0, drawn + [outer] + [middle]);
    FinderTripleSnocs(drawn, y, x);
  }

  /** Lines 15-19: the three zones in the order the source lists them. */
  method DrawFinders(d0: string, fg: string, bg: string) returns (d: string)
    ensures d == d0 + Markup(Finders(), fg, bg)
  {
    d := d0;
    for k := 0 to |FinderOrigins|
      invariant d == d0 + Markup(FinderRects(FinderOrigins[..k]), fg, bg)
    {
      FinderRectsPrefix(FinderOrigins, k);
      d := WriteFinder(d, FinderOrigins[k].0, FinderOrigins[k].1, fg, bg, d0, FinderRects(FinderOrigins[..k]));
    }
    assert FinderOrigins[..|FinderOrigins|] == FinderOrigins;
  }

  /** Line 26: `h ^= h<<13; h ^= h>>7; h ^= h<<17`. */
  method AdvanceState(h: bv32) returns (next: bv32)
    ensures next == Advance(h)
  {
    next := h;
    next := XorShl13(next);
    next := XorAsr7(next);
    next := XorShl17(next);
  }

  /** Lines 21-27 for one cell: skip a finder cell; on row or column 6 draw
      when r + c is even; otherwise advance the state and draw when its low
      bit is set. */
  method VisitCell(r: nat, c: nat, h: bv32) returns (lit: bool, next: bv32)
    ensures lit == DrawsCell(r, c, h) && next == NextState(r, c, h)
  {
    next := h;
    lit := false;
    if (r < 7 && c < 7) || (r < 7 && c >= Size - 7) || (r >= Size - 7 && c < 7) {
      // `continue`: the finder squares already cover this cell
    } else if r == 6 || c == 6 {
      lit := (r + c) % 2 == 0;
    } else {
      next := AdvanceState(next);
      lit := next & 1 == 1;
    }
  }

  /** Lines 20-28: walk the grid row by row from state `h0`, appending a unit
      rectangle to `d` for every cell that is on. */
  method DrawCells(d0: string, h0: bv32, fg: string, bg: string) returns (d: string)
    ensures d == d0 + Markup(CellRects(h0), fg, bg)
  {
    d := d0;
    var h := h0;
    for r := 0 to Size
      invariant h == Scan(r, 0, h0).state
      invariant d == d0 + Markup(Scan(r, 0, h0).rects, fg, bg)
    {
      for c := 0 to Size
        invariant h == Scan(r, c, h0).state
        invariant d == d0 + Markup(Scan(r, c, h0).rects, fg, bg)
      {
        ScanVisit(r, c, h0);
        ghost var before := Scan(r, c, h0).rects;
        var lit;
        lit, h := VisitCell(r, c, h);
        if lit {
          d := WriteRect(d, Unit(r, c), fg, bg, d0, before);
        }
      }
      ScanNextRow(r, h0);
    }
  }

  /** `makeQR(seed, fg, bg)` (lines 11-30). */
  method MakeQR(seed: seq<bv16>, fg: string, bg: string) returns (svg: string)
    ensures svg == Document(seed, fg, bg)
  {
    var h := HashSeed(seed);
    var d := BackdropMarkup(bg);
    d := DrawFinders(d, fg, bg);
    d := DrawCells(d, ToBits(h), fg, bg);
    MarkupAppend(Finders(), CellRects(ToBits(h)), fg, bg);
    ConcatAssoc(BackdropMarkup(bg), Markup(Finders(), fg, bg), Markup(CellRects(ToBits(h)), fg, bg));
    svg := SvgOpen() + d + SvgClose;
  }

  // ---------------------------------------------------------------------
  // Properties of the document

  /** The numerals of the frame: the canvas side prints as "21". */
  lemma SideNumeral()
    ensures Decimal(Size) == "21"
  {
  }

  /** The opening tag declares the 21x21 viewBox and crisp edges. */
  lemma SvgOpenText()
    ensures SvgOpen()
      == "<svg xmlns=\"http://www.w3.org/2000/svg\" viewBox=\"0 0 " + "21" + " " + "21" + "\" shape-rendering=\"crispEdges\">"
  {
    SideNumeral();
  }

  /** The background covers the whole 21x21 canvas in `bg`. */
  lemma BackdropText(bg: string)
    ensures BackdropMarkup(bg) == "<rect width=\"" + "21" + "\" height=\"" + "21" + "\" fill=\"" + bg + "\"/>"
  {
    SideNumeral();
  }

  /** Whatever the seed, the document opens with the `<svg>` tag and the
      background, then the pattern, and closes with `</svg>`. */
  lemma DocumentFrame(seed: seq<bv16>, fg: string, bg: string)
    ensures Document(seed, fg, bg)
      == ("<svg xmlns=\"http://www.w3.org/2000/svg\" viewBox=\"0 0 " + "21" + " " + "21" + "\" shape-rendering=\"crispEdges\">")
      + ("<rect width=\"" + "21" + "\" height=\"" + "21" + "\" fill=\"" + bg + "\"/>"
         + Markup(Pattern(SeedState(seed)), fg, bg))
      + "</svg>"
  {
    SvgOpenText();
    BackdropText(bg);
  }

  /** The first rectangle written after the background is the outer
      foreground square of the top-left zone. */
  lemma MarkupStartsWithFinder(h0: bv32, fg: string, bg: string)
    ensures Markup(Pattern(h0), fg, bg) == RectMarkup(Rect(0, 0, 7, 7, Fg), fg, bg) + Markup(Pattern(h0)[1..], fg, bg)
  {
    FirstFinder();
    var p := Pattern(h0);
    assert p == [p[0]] + p[1..];
    MarkupCons(p[0], p[1..], fg, bg);
  }

  /** Both colours reach the document verbatim: `bg` in the background,
      `fg` in the first finder square. */
  lemma ColoursPassThrough(seed: seq<bv16>, fg: string, bg: string)
    ensures IsInfix(fg, Document(seed, fg, bg))
    ensures IsInfix(bg, Document(seed, fg, bg))
  {
    var body := Markup(Pattern(SeedState(seed)), fg, bg);
    InfixOfConcat(BackdropOpening(), bg, "\"/>");
    InfixAppend(bg, BackdropMarkup(bg), body);
    InfixPrepend(bg, SvgOpen(), BackdropMarkup(bg) + body);
    InfixAppend(bg, SvgOpen() + (BackdropMarkup(bg) + body), SvgClose);

    var first := Rect(0, 0, 7, 7, Fg);
    MarkupStartsWithFinder(SeedState(seed), fg, bg);
    InfixOfConcat(RectOpening(first), fg, "\"/>");
    InfixAppend(fg, RectMarkup(first, fg, bg), Markup(Pattern(SeedState(seed))[1..], fg, bg));
    InfixPrepend(fg, BackdropMarkup(bg), body);
    InfixPrepend(fg, SvgOpen(), BackdropMarkup(bg) + body);
    InfixAppend(fg, SvgOpen() + (BackdropMarkup(bg) + body), SvgClose);
  }

  /** The empty seed starts the walk in state 0, from which no data cell is
      drawn. */
  lemma EmptySeedDrawsNoData()
    ensures SeedState([]) == 0
    ensures forall q :: q in CellRects(SeedState([])) ==> ZoneOf(q.y, q.x) == Timing
  {
    ZeroStateDrawsNoData();
  }

  /** The seeds "A" and "B" start the walk in the states 65 and 66. */
  lemma SingleLetterStates()
    ensures SeedState([65]) == 65 && SeedState([66]) == 66
  {
    assert SeedHash([65]) == 65 && SeedHash([66]) == 66;
  }

  /** Seeds "A" and "B" already differ in the first data cell, (row 0,
      column 7): on for "A", off for "B". */
  lemma SeedsAAndBDiffer()
    ensures Unit(0, 7) in CellRects(SeedState([65]))
    ensures Unit(0, 7) !in CellRects(SeedState([66]))
  {
    SingleLetterStates();
    AdvanceLowBit(65);
    AdvanceLowBit(66);
    assert DataCellsBefore(0, 7) == 0;
    assert CellOn(0, 7, 65) && !CellOn(0, 7, 66);
    CellRectsExactly(65);
    CellRectsExactly(66);
  }

  /** The UTF-16 code units of "Company Website" and "Business Card", the
      labels of two of the dashboard's records. */
  const CompanyWebsite: seq<bv16> := [67, 111, 109, 112, 97, 110, 121, 32, 87, 101, 98, 115, 105, 116, 101]
  const BusinessCard: seq<bv16> := [66, 117, 115, 105, 110, 101, 115, 115, 32, 67, 97, 114, 100]

  /** The hash of "Company Website", five code units at a time. */
  lemma CompanyWebsiteHash()
    ensures SeedHash(CompanyWebsite) == 2113944504
  {
    CompanyWebsiteHash0([]);
    assert [] + [67, 111, 109, 112, 97] == CompanyWebsite[..5];
    CompanyWebsiteHash1(CompanyWebsite[..5]);
    assert CompanyWebsite[..5] + [110, 121, 32, 87, 101] == CompanyWebsite[..10];
    CompanyWebsiteHash2(CompanyWebsite[..10]);
    assert CompanyWebsite[..10] + [98, 115, 105, 116, 101] == CompanyWebsite;
  }

  lemma CompanyWebsiteHash0(s0: seq<bv16>)
    requires SeedHash(s0) == 0
    ensures SeedHash(s0 + [67, 111, 109, 112, 97]) == 65291026
  {
    var s := s0;
    SeedHashExtend(s, 0, 67, 67, 0); s := s + [67];
    SeedHashExtend(s, 67, 111, 2188, 0); s := s + [111];
    SeedHashExtend(s, 2188, 109, 67937, 0); s := s + [109];
    SeedHashExtend(s, 67937, 112, 2106159, 0); s := s + [112];
    SeedHashExtend(s, 2106159, 97, 65291026, 0); s := s + [97];
    assert s == s0 + [67, 111, 109, 112, 97];
  }

  lemma CompanyWebsiteHash1(s0: seq<bv16>)
    requires SeedHash(s0) == 65291026
    ensures SeedHash(s0 + [110, 121, 32, 87, 101]) == 1145730449
  {
    var s := s0;
    SeedHashExtend(s, 65291026, 110, 2024021916, 0); s := s + [110];
    SeedHashExtend(s, 2024021916, 121, -1679829923, 15); s := s + [121];
    SeedHashExtend(s, -1679829923, 32, -535120029, -12); s := s + [32];
    SeedHashExtend(s, -535120029, 87, 591148372, -4); s := s + [87];
    SeedHashExtend(s, 591148372, 101, 1145730449, 4); s := s + [101];
    assert s == s0 + [110, 121, 32, 87, 101];
  }

  lemma CompanyWebsiteHash2(s0: seq<bv16>)
    requires SeedHash(s0) == 1145730449
    ensures SeedHash(s0 + [98, 115, 105, 116, 101]) == 2113944504
  {
    var s := s0;
    SeedHashExtend(s, 1145730449, 98, 1157905649, 8); s := s + [98];
    SeedHashExtend(s, 1157905649, 115, 1535336866, 8); s := s + [115];
    SeedHashExtend(s, 1535336866, 105, 350802695, 11); s := s + [105];
    SeedHashExtend(s, 350802695, 116, -2010018227, 3); s := s + [116];
    SeedHashExtend(s, -2010018227, 101, 2113944504, -15); s := s + [101];
    assert s == s0 + [98, 115, 105, 116, 101];
  }

  /** The hash of "Business Card", five code units at a time. */
  lemma BusinessCardHash()
    ensures SeedHash(BusinessCard) == 1369384816
  {
    BusinessCardHash0([]);
    assert [] + [66, 117, 115, 105, 110] == BusinessCard[..5];
    BusinessCardHash1(BusinessCard[..5]);
    assert BusinessCard[..5] + [101, 115, 115, 32, 67] == BusinessCard[..10];
    BusinessCardHash2(BusinessCard[..10]);
    assert BusinessCard[..10] + [97, 114, 100] == BusinessCard;
  }

  lemma BusinessCardHash0(s0: seq<bv16>)
    requires SeedHash(s0) == 0
    ensures SeedHash(s0 + [66, 117, 115, 105, 110]) == 64551813
  {
    var s := s0;
    SeedHashExtend(s, 0, 66, 66, 0); s := s + [66];
    SeedHashExtend(s, 66, 117, 2163, 0); s := s + [117];
    SeedHashExtend(s, 2163, 115, 67168, 0); s := s + [115];
    SeedHashExtend(s, 67168, 105, 2082313, 0); s := s + [105];
    SeedHashExtend(s, 2082313, 110, 64551813, 0); s := s + [110];
    assert s == s0 + [66, 117, 115, 105, 110];
  }

  lemma BusinessCardHash1(s0: seq<bv16>)
    requires SeedHash(s0) == 64551813
    ensures SeedHash(s0 + [101, 115, 115, 32, 67]) == -599412733
  {
    var s := s0;
    SeedHashExtend(s, 64551813, 101, 2001106304, 0); s := s + [101];
    SeedHashExtend(s, 2001106304, 115, 1904753395, 14); s := s + [115];
    SeedHashExtend(s, 1904753395, 115, -1082186784, 14); s := s + [115];
    SeedHashExtend(s, -1082186784, 32, 811948096, -8); s := s + [32];
    SeedHashExtend(s, 811948096, 67, -599412733, 6); s := s + [67];
    assert s == s0 + [101, 115, 115, 32, 67];
  }

  lemma BusinessCardHash2(s0: seq<bv16>)
    requires SeedHash(s0) == -599412733
    ensures SeedHash(s0 + [97, 114, 100]) == 1369384816
  {
    var s := s0;
    SeedHashExtend(s, -599412733, 97, -1401925442, -4); s := s + [97];
    SeedHashExtend(s, -1401925442, 114, -510015628, -10); s := s + [114];
    SeedHashExtend(s, -510015628, 100, 1369384816, -4); s := s + [100];
    assert s == s0 + [97, 114, 100];
  }

  /** "Company Website" and "Business Card" light different data cells:
      the first data cell, (row 0, column 7), is on for the one and off for
      the other. */
  lemma SampleLabelsDiffer()
    ensures Unit(0, 7) in CellRects(SeedState(CompanyWebsite))
    ensures Unit(0, 7) !in CellRects(SeedState(BusinessCard))
  {
    CompanyWebsiteHash();
    BusinessCardHash();
    var a: bv32 := 2113944504;
    var b: bv32 := 1369384816;
    assert SeedState(CompanyWebsite) == a && SeedState(BusinessCard) == b;
    AdvanceLowBit(a);
    AdvanceLowBit(b);
    assert DataCellsBefore(0, 7) == 0;
    assert CellOn(0, 7, a) && !CellOn(0, 7, b);
    CellRectsExactly(a);
    CellRectsExactly(b);
  }
}
