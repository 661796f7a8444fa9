/**
 * Text tessellation: DrawText walks a string one character at a time, skips
 * characters without a glyph, applies kerning against the previous character,
 * appends one quad per glyph to the batch and advances the pen. Glyph lookup and
 * kerning belong to the font library and are the two functions of a Font.
 */
module TextLayout {
  import opened Wrappers
  import opened Geometry
  import opened SpriteBatch
  import opened PenScan

  /** Glyph metrics and the glyph's box in the font atlas (s0, t0)..(s1, t1). */
  datatype Glyph = Glyph(
    offsetX: real, offsetY: real,
    width: real, height: real,
    advanceX: real,
    s0: real, t0: real, s1: real, t1: real)

  /**
   * `glyphOf` answers texture_font_get_glyph (None for a null glyph), `kerning`
   * answers texture_glyph_get_kerning for a glyph and the character before it.
   */
  datatype Font = Font(glyphOf: char -> Option<Glyph>, kerning: (Glyph, char) -> real)

  predicate HasGlyph(font: Font, c: char)
  {
    font.glyphOf(c).Some?
  }

  /** Kerning of the glyph at position i: zero at the first character, else against text[i-1]. */
  function KerningAt(font: Font, text: string, i: nat, g: Glyph): (k: real)
    requires i < |text|
    ensures i == 0 ==> k == 0.0
    ensures 0 < i ==> k == font.kerning(g, text[i - 1])
  {
    if i == 0 then 0.0 else font.kerning(g, text[i - 1])
  }

  /**
   * The quad of glyph g with the pen (after kerning) at (x, y): the axis-aligned
   * box of the glyph's width and height whose first corner sits at the pen plus
   * the glyph offset, traversed down the left edge and back up the right edge,
   * textured with the glyph's atlas box (s0,t0), (s0,t1), (s1,t1), (s1,t0), every
   * vertex in the call's colour.
   */
  function GlyphQuad(g: Glyph, x: real, y: real, color: Color): (q: seq<Vertex>)
    ensures |q| == 4
    ensures q[0].position == Vec3(x + g.offsetX, y + g.offsetY, 0.0)
    ensures q[1].position.x == q[0].position.x && q[0].position.y - q[1].position.y == g.height
    ensures q[2].position.y == q[1].position.y && q[2].position.x - q[1].position.x == g.width
    ensures q[3].position.x == q[2].position.x && q[3].position.y == q[0].position.y
    ensures forall k :: 0 <= k < 4 ==> q[k].color == color && q[k].position.z == 0.0
    ensures [q[0].tex, q[1].tex, q[2].tex, q[3].tex]
            == [Vec3(g.s0, g.t0, 0.0), Vec3(g.s0, g.t1, 0.0), Vec3(g.s1, g.t1, 0.0), Vec3(g.s1, g.t0, 0.0)]
  {
    var x0 := x + g.offsetX;
    var y0 := y + g.offsetY;
    var x1 := x0 + g.width;
    var y1 := y0 - g.height;
    [ Vertex(Vec3(x0, y0, 0.0), color, Vec3(g.s0, g.t0, 0.0)),
      Vertex(Vec3(x0, y1, 0.0), color, Vec3(g.s0, g.t1, 0.0)),
      Vertex(Vec3(x1, y1, 0.0), color, Vec3(g.s1, g.t1, 0.0)),
      Vertex(Vec3(x1, y0, 0.0), color, Vec3(g.s1, g.t0, 0.0)) ]
  }

  /** Quads one character contributes: one if it has a glyph, none otherwise. */
  function QuadsFor(font: Font, c: char): nat
  {
    if HasGlyph(font, c) then 1 else 0
  }

  /** Pen movement at position i: kerning plus advance for a glyph, nothing otherwise. */
  function Movement(font: Font, text: string, i: nat): (d: real)
    requires i < |text|
    ensures !HasGlyph(font, text[i]) ==> d == 0.0
    ensures HasGlyph(font, text[i]) ==>
              var g := font.glyphOf(text[i]).value;
              d == KerningAt(font, text, i, g) + g.advanceX
  {
    match font.glyphOf(text[i])
    case None => 0.0
    case Some(g) => KerningAt(font, text, i, g) + g.advanceX
  }

  /** Number of characters of text[i..j] that have a glyph. */
  function GlyphsBetween(font: Font, text: string, i: nat, j: nat): nat
    requires i <= j <= |text|
    decreases j - i
  {
    if i == j then 0 else QuadsFor(font, text[i]) + GlyphsBetween(font, text, i + 1, j)
  }

  /** Total pen movement over text[i..j]. */
  function AdvanceBetween(font: Font, text: string, i: nat, j: nat): real
    requires i <= j <= |text|
    decreases j - i
  {
    if i == j then 0.0 else Movement(font, text, i) + AdvanceBetween(font, text, i + 1, j)
  }

  /** The quad the character at position i contributes: none without a glyph. */
  function StepQuad(font: Font, text: string, i: nat, color: Color, pen: Pen): (q: seq<Vertex>)
    requires i < |text|
    ensures |q| == 4 * QuadsFor(font, text[i])
  {
    match font.glyphOf(text[i])
    case None => []
    case Some(g) => GlyphQuad(g, pen.x + KerningAt(font, text, i, g), pen.y, color)
  }

  /**
   * One iteration of the loop at character i: a character without a glyph is
   * skipped; otherwise its quad is appended with the pen moved by the kerning, and
   * the pen then moves on by the advance.
   */
  function GlyphStep(b: Batch, font: Font, text: string, i: nat, color: Color, pen: Pen): (r: (Batch, Pen))
    requires i < |text| && b.mapped && HasRoom(b, QuadsFor(font, text[i]))
    ensures r.0.mapped && r.0.capacity == b.capacity
    ensures r.0.vertices == b.vertices + StepQuad(font, text, i, color, pen)
    ensures r.0.indexCount == b.indexCount + 6 * QuadsFor(font, text[i])
    ensures r.1 == Pen(pen.x + Movement(font, text, i), pen.y)
    ensures Consistent(b) ==> Consistent(r.0)
  {
    match font.glyphOf(text[i])
    case None => (b, pen)
    case Some(g) =>
      var x := pen.x + KerningAt(font, text, i, g);
      (AppendQuad(b, GlyphQuad(g, x, pen.y, color)), Pen(x + g.advanceX, pen.y))
  }

  /** What each position of the text emits at a given pen (nothing past the end). */
  function Emit(font: Font, text: string, color: Color): (nat, Pen) -> seq<Vertex>
  {
    (k: nat, p: Pen) => if k < |text| then StepQuad(font, text, k, color, p) else []
  }

  /** How far the pen moves at each position of the text (nothing past the end). */
  function Moves(font: Font, text: string): nat -> real
  {
    (k: nat) => if k < |text| then Movement(font, text, k) else 0.0
  }

  /**
   * The vertex stream text[i..] should produce with the pen starting at `pen`:
   * each character's quad in order, the pen moving over each character.
   */
  function TextQuads(font: Font, text: string, i: nat, color: Color, pen: Pen): seq<Vertex>
    requires i <= |text|
  {
    Scan(Emit(font, text, color), Moves(font, text), i, |text|, pen)
  }

  /** The stream from character i: that character's quad, then the stream from i + 1 at the moved pen. */
  lemma TextQuadsStep(font: Font, text: string, i: nat, color: Color, pen: Pen)
    requires i < |text|
    ensures TextQuads(font, text, i, color, pen)
            == StepQuad(font, text, i, color, pen) + TextQuads(font, text, i + 1, color, Pen(pen.x + Movement(font, text, i), pen.y))
  {
    ScanStep(Emit(font, text, color), Moves(font, text), i, |text|, pen);
  }

  lemma AppendAssociates(a: seq<Vertex>, b: seq<Vertex>, c: seq<Vertex>)
    ensures (a + b) + c == a + (b + c)
  {
  }

  /** The loop from character i to the end of the string. */
  function DrawTextFrom(b: Batch, font: Font, text: string, i: nat, color: Color, pen: Pen): (r: (Batch, Pen))
    requires i <= |text| && b.mapped && HasRoom(b, GlyphsBetween(font, text, i, |text|))
    ensures r.0.mapped && r.0.capacity == b.capacity
    ensures r.0.vertices == b.vertices + TextQuads(font, text, i, color, pen)
    ensures r.0.indexCount == b.indexCount + 6 * GlyphsBetween(font, text, i, |text|)
    ensures r.1.y == pen.y
    ensures Consistent(b) ==> Consistent(r.0)
    decreases |text| - i
  {
    if i == |text| then (b, pen)
    else
      var step := GlyphStep(b, font, text, i, color, pen);
      var r := DrawTextFrom(step.0, font, text, i + 1, color, step.1);
      TextQuadsStep(font, text, i, color, pen);
      AppendAssociates(b.vertices, StepQuad(font, text, i, color, pen), TextQuads(font, text, i + 1, color, step.1));
      r
  }

  /**
   * DrawText: the batch after the call and the pen the caller reads back. Four
   * vertices and six indices are appended per character that has a glyph, and
   * nothing written before the call changes.
   */
  function DrawText(b: Batch, font: Font, text: string, color: Color, pen: Pen): (r: (Batch, Pen))
    requires b.mapped && HasRoom(b, GlyphsBetween(font, text, 0, |text|))
    ensures r.0.mapped && r.0.capacity == b.capacity
    ensures r.0.vertices == b.vertices + TextQuads(font, text, 0, color, pen)
    ensures r.0.indexCount == b.indexCount + 6 * GlyphsBetween(font, text, 0, |text|)
    ensures r.1.y == pen.y
    ensures Consistent(b) ==> Consistent(r.0)
  {
    DrawTextFrom(b, font, text, 0, color, pen)
  }

  /** The pen ends displaced by the kerning plus advance of every character that has a glyph. */
  lemma {:induction false} PenAdvance(b: Batch, font: Font, text: string, i: nat, color: Color, pen: Pen)
    requires i <= |text| && b.mapped && HasRoom(b, GlyphsBetween(font, text, i, |text|))
    ensures DrawTextFrom(b, font, text, i, color, pen).1
            == Pen(pen.x + AdvanceBetween(font, text, i, |text|), pen.y)
    decreases |text| - i
  {
    if i < |text| {
      var step := GlyphStep(b, font, text, i, color, pen);
      PenAdvance(step.0, font, text, i + 1, color, step.1);
    }
  }

  /** The pen reaching character j has moved by the kerning plus advance of text[i..j]. */
  lemma {:induction false} PenAfterClosedForm(font: Font, text: string, i: nat, j: nat, pen: Pen)
    requires i <= j <= |text|
    ensures PenAfter(Moves(font, text), i, j, pen) == Pen(pen.x + AdvanceBetween(font, text, i, j), pen.y)
    decreases j - i
  {
    if i < j {
      var pen' := Moved(Moves(font, text), i, pen);
      assert pen'.x == pen.x + Movement(font, text, i);
      PenAfterClosedForm(font, text, i + 1, j, pen');
    }
  }

  /** The characters of text[i..j] emit four vertices per glyph. */
  lemma {:induction false} EmittedLength(font: Font, text: string, i: nat, j: nat, color: Color, pen: Pen)
    requires i <= j <= |text|
    ensures |Scan(Emit(font, text, color), Moves(font, text), i, j, pen)| == 4 * GlyphsBetween(font, text, i, j)
    decreases j - i
  {
    if i < j {
      var e := Emit(font, text, color);
      assert |e(i, pen)| == 4 * QuadsFor(font, text[i]);
      EmittedLength(font, text, i + 1, j, color, Moved(Moves(font, text), i, pen));
    }
  }

  /** The quad of a character with a glyph, drawn at the pen the loop has when it gets there. */
  lemma GlyphAtPen(font: Font, text: string, i: nat, j: nat, color: Color, pen: Pen)
    requires i <= j < |text| && HasGlyph(font, text[j])
    ensures var g := font.glyphOf(text[j]).value;
            Emit(font, text, color)(j, PenAfter(Moves(font, text), i, j, pen))
            == GlyphQuad(g, pen.x + AdvanceBetween(font, text, i, j) + KerningAt(font, text, j, g), pen.y, color)
  {
    PenAfterClosedForm(font, text, i, j, pen);
  }

  /**
   * Placement of every glyph quad: the character at position j, if it has a
   * glyph, occupies the four vertices after those of the glyphs before it; its pen
   * x is the start x plus the movement over text[..j] plus its own kerning (taken
   * against text[j-1] whether or not that character has a glyph).
   */
  lemma QuadPlacement(b: Batch, font: Font, text: string, color: Color, pen: Pen, j: nat, m: nat)
    requires b.mapped && HasRoom(b, GlyphsBetween(font, text, 0, |text|))
    requires j < |text| && HasGlyph(font, text[j]) && m < 4
    ensures |b.vertices| + 4 * GlyphsBetween(font, text, 0, j) + m < |DrawText(b, font, text, color, pen).0.vertices|
    ensures var g := font.glyphOf(text[j]).value;
            DrawText(b, font, text, color, pen).0.vertices[|b.vertices| + 4 * GlyphsBetween(font, text, 0, j) + m]
            == GlyphQuad(g, pen.x + AdvanceBetween(font, text, 0, j) + KerningAt(font, text, j, g), pen.y, color)[m]
  {
    var k := 4 * GlyphsBetween(font, text, 0, j) + m;
    GlyphInStream(font, text, color, pen, j, m);
    IndexBehind(b.vertices, TextQuads(font, text, 0, color, pen), |b.vertices| + 4 * GlyphsBetween(font, text, 0, j) + m, k);
  }

  /**
   * The kerning rule as DrawText applies it: the first corner of the quad of
   * character j lies at the start x plus the movement over text[..j] plus the
   * glyph's x offset, plus nothing when j is the first character and otherwise
   * the font's kerning of the glyph against text[j-1], whether or not that
   * character has a glyph.
   */
  lemma KernedAgainstPrevious(b: Batch, font: Font, text: string, color: Color, pen: Pen, j: nat)
    requires b.mapped && HasRoom(b, GlyphsBetween(font, text, 0, |text|))
    requires j < |text| && HasGlyph(font, text[j])
    ensures |b.vertices| + 4 * GlyphsBetween(font, text, 0, j) < |DrawText(b, font, text, color, pen).0.vertices|
    ensures var g := font.glyphOf(text[j]).value;
            DrawText(b, font, text, color, pen).0.vertices[|b.vertices| + 4 * GlyphsBetween(font, text, 0, j)].position
            == Vec3(pen.x + AdvanceBetween(font, text, 0, j) + (if j == 0 then 0.0 else font.kerning(g, text[j - 1])) + g.offsetX,
                    pen.y + g.offsetY, 0.0)
  {
    QuadPlacement(b, font, text, color, pen, j, 0);
  }

  /** The same placement within the stream the whole text produces. */
  lemma GlyphInStream(font: Font, text: string, color: Color, pen: Pen, j: nat, m: nat)
    requires j < |text| && HasGlyph(font, text[j]) && m < 4
    ensures 4 * GlyphsBetween(font, text, 0, j) + m < |TextQuads(font, text, 0, color, pen)|
    ensures var g := font.glyphOf(text[j]).value;
            TextQuads(font, text, 0, color, pen)[4 * GlyphsBetween(font, text, 0, j) + m]
            == GlyphQuad(g, pen.x + AdvanceBetween(font, text, 0, j) + KerningAt(font, text, j, g), pen.y, color)[m]
  {
    StreamSlot(font, text, color, pen, j, m);
    GlyphAtPen(font, text, 0, j, color, pen);
  }

  /** Offset 4 * (glyphs before j) + m of the stream is offset m of what j emits at the pen reached there. */
  lemma StreamSlot(font: Font, text: string, color: Color, pen: Pen, j: nat, m: nat)
    requires j < |text| && HasGlyph(font, text[j]) && m < 4
    ensures 4 * GlyphsBetween(font, text, 0, j) + m < |TextQuads(font, text, 0, color, pen)|
    ensures TextQuads(font, text, 0, color, pen)[4 * GlyphsBetween(font, text, 0, j) + m]
            == Emit(font, text, color)(j, PenAfter(Moves(font, text), 0, j, pen))[m]
  {
    var e := Emit(font, text, color);
    assert TextQuads(font, text, 0, color, pen) == Scan(e, Moves(font, text), 0, |text|, pen);
    assert |e(j, PenAfter(Moves(font, text), 0, j, pen))| == 4;
    EmittedLength(font, text, 0, j, color, pen);
    ScanAt(e, Moves(font, text), 0, j, |text|, pen, m, 4 * GlyphsBetween(font, text, 0, j) + m);
  }

  /** A string none of whose characters has a glyph emits nothing and leaves the pen where it was. */
  lemma {:induction false} NoGlyphsNoOutput(b: Batch, font: Font, text: string, i: nat, color: Color, pen: Pen)
    requires i <= |text| && b.mapped && HasRoom(b, 0)
    requires forall k :: i <= k < |text| ==> !HasGlyph(font, text[k])
    ensures GlyphsBetween(font, text, i, |text|) == 0
    ensures DrawTextFrom(b, font, text, i, color, pen) == (b, pen)
    decreases |text| - i
  {
    if i < |text| {
      NoGlyphsNoOutput(b, font, text, i + 1, color, pen);
    }
  }

  /** A font with glyphs for 'A' (advance 10) and 'B' (advance 8) only; B kerns by -2 after 'A' and by -1 after '?'. */
  function ExampleFont(): Font
  {
    var a := Glyph(0.0, 0.0, 6.0, 9.0, 10.0, 0.0, 0.0, 0.5, 0.5);
    var bGlyph := Glyph(1.0, 0.0, 5.0, 9.0, 8.0, 0.5, 0.0, 1.0, 0.5);
    Font(
      c => if c == 'A' then Some(a) else if c == 'B' then Some(bGlyph) else None,
      (g, prev) => if g == bGlyph && prev == 'A' then -2.0 else if g == bGlyph && prev == '?' then -1.0 else 0.0)
  }

  /** "AB" from x = 0: the pen ends at 0 + 10 + (-2) + 8 = 16, after two quads. */
  lemma KerningExample(b: Batch, color: Color)
    requires b.mapped && HasRoom(b, 2)
    ensures GlyphsBetween(ExampleFont(), "AB", 0, 2) == 2
    ensures DrawText(b, ExampleFont(), "AB", color, Pen(0.0, 0.0)).1 == Pen(16.0, 0.0)
  {
    PenAdvance(b, ExampleFont(), "AB", 0, color, Pen(0.0, 0.0));
  }

  /**
   * "A?B" where '?' has no glyph: two quads, and B is still kerned against '?',
   * so the pen ends at 10 + (-1) + 8 = 17.
   */
  lemma MissingGlyphExample(b: Batch, color: Color)
    requires b.mapped && HasRoom(b, 2)
    ensures GlyphsBetween(ExampleFont(), "A?B", 0, 3) == 2
    ensures |DrawText(b, ExampleFont(), "A?B", color, Pen(0.0, 0.0)).0.vertices| == |b.vertices| + 8
    ensures DrawText(b, ExampleFont(), "A?B", color, Pen(0.0, 0.0)).1 == Pen(17.0, 0.0)
  {
    var font, text := ExampleFont(), "A?B";
    assert GlyphsBetween(font, text, 2, 3) == 1;
    assert GlyphsBetween(font, text, 1, 3) == 1;
    assert AdvanceBetween(font, text, 2, 3) == -1.0 + 8.0;
    assert AdvanceBetween(font, text, 1, 3) == 7.0;
    PenAdvance(b, font, text, 0, color, Pen(0.0, 0.0));
  }
}
