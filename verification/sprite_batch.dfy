/**
 * The vertex batch of the sprite renderer: a write cursor into the mapped vertex
 * buffer and the count of indices pending for the next draw call. Begin maps the
 * buffer (the cursor returns to its start), Draw appends one quad, End submits the
 * pending count and resets it. The GL calls themselves are not modelled; End
 * reports the count it would hand to glDrawElements.
 */
module SpriteBatch {
  import opened Geometry
  import QuadIndices

  /** A sprite's rectangle: four vertices laid out from `bl` onwards. */
  datatype Rect = Rect(bl: Vertex, tl: Vertex, tr: Vertex, br: Vertex)
  {
    /** The vertices in memory order, as Draw walks them starting at `bl`. */
    function Corners(): seq<Vertex>
    {
      [bl, tl, tr, br]
    }
  }

  /** What Draw reads from a renderable: its colour and its rectangle. */
  datatype Sprite = Sprite(color: Color, rect: Rect)

  /**
   * `capacity` is the number of vertex slots of the buffer, `mapped` whether a
   * batch is open (the buffer is mapped for writing), `vertices` what was written
   * since the last Begin (its length is the write cursor), `indexCount` the
   * pending index count.
   */
  datatype Batch = Batch(capacity: nat, mapped: bool, vertices: seq<Vertex>, indexCount: nat)

  /** Room for `quads` more quads behind the write cursor. */
  predicate HasRoom(b: Batch, quads: nat)
  {
    |b.vertices| + 4 * quads <= b.capacity
  }

  /** Whole quads written, six pending indices for each of them. */
  predicate Consistent(b: Batch)
  {
    |b.vertices| % 4 == 0 && b.indexCount == |b.vertices| / 4 * 6
  }

  /** The renderer: the index buffer built at initialisation plus the batch. */
  datatype Renderer = Renderer(indices: seq<int>, batch: Batch)

  /**
   * Construction runs init: the index buffer for `maxQuads` quads, a vertex buffer
   * of four slots per quad, no batch open and nothing pending.
   */
  method NewRenderer(maxQuads: nat) returns (r: Renderer)
    ensures QuadIndices.IsIndexBuffer(r.indices, 6 * maxQuads)
    ensures r.batch.capacity == 4 * maxQuads
    ensures !r.batch.mapped && r.batch.vertices == [] && r.batch.indexCount == 0
    ensures Consistent(r.batch)
  {
    var indices := QuadIndices.GenerateIndices(6 * maxQuads);
    r := Renderer(indices, Batch(4 * maxQuads, false, [], 0));
  }

  /**
   * Begin maps the buffer: writing restarts at its first slot; the pending count
   * is kept. The buffer must not be mapped already (mapping a mapped buffer fails
   * and leaves no write pointer).
   */
  function Begin(b: Batch): (r: Batch)
    requires !b.mapped
    ensures r.mapped && r.vertices == [] && HasRoom(r, b.capacity / 4)
    ensures r.capacity == b.capacity && r.indexCount == b.indexCount
    ensures Consistent(r) <==> b.indexCount == 0
  {
    Batch(b.capacity, true, [], b.indexCount)
  }

  /**
   * Appends four vertices behind the cursor and six pending indices; nothing
   * already written changes.
   */
  function AppendQuad(b: Batch, quad: seq<Vertex>): (r: Batch)
    requires b.mapped && HasRoom(b, 1) && |quad| == 4
    ensures r.mapped && r.capacity == b.capacity
    ensures r.vertices == b.vertices + quad && r.indexCount == b.indexCount + 6
    ensures Consistent(b) ==> Consistent(r)
  {
    Batch(b.capacity, b.mapped, b.vertices + quad, b.indexCount + 6)
  }

  /** A corner with its colour replaced by the sprite's. */
  function Recolor(v: Vertex, color: Color): Vertex
  {
    Vertex(v.position, color, v.tex)
  }

  /** The rectangle's four vertices in memory order, each recoloured with the sprite's colour. */
  function SpriteQuad(s: Sprite): (q: seq<Vertex>)
    ensures |q| == 4
    ensures forall i :: 0 <= i < 4 ==>
              && q[i].position == s.rect.Corners()[i].position
              && q[i].tex == s.rect.Corners()[i].tex
              && q[i].color == s.color
  {
    var c := s.rect.Corners();
    [Recolor(c[0], s.color), Recolor(c[1], s.color), Recolor(c[2], s.color), Recolor(c[3], s.color)]
  }

  /**
   * Draw copies the rectangle's four vertices in memory order from `bl`, keeping
   * position and texture coordinate and replacing the colour, and adds six indices.
   */
  function Draw(b: Batch, s: Sprite): (r: Batch)
    requires b.mapped && HasRoom(b, 1)
    ensures r.mapped && r.capacity == b.capacity
    ensures r.vertices == b.vertices + SpriteQuad(s) && r.indexCount == b.indexCount + 6
    ensures Consistent(b) ==> Consistent(r)
  {
    AppendQuad(b, SpriteQuad(s))
  }

  /**
   * End unmaps the buffer and submits the pending index count as one draw call,
   * then resets the count; the second component is the count submitted.
   */
  function End(b: Batch): (r: (Batch, nat))
    ensures r.1 == b.indexCount && r.0.indexCount == 0 && !r.0.mapped
    ensures r.0.capacity == b.capacity && r.0.vertices == b.vertices
  {
    (Batch(b.capacity, false, b.vertices, 0), b.indexCount)
  }

  /** A new batch after End starts empty, with nothing pending. */
  lemma BeginAfterEnd(b: Batch)
    ensures var n := Begin(End(b).0); n.vertices == [] && n.indexCount == 0 && Consistent(n)
  {
  }

  /** The sprites' quads one after the other: the vertex stream a frame should produce. */
  function QuadStream(sprites: seq<Sprite>): (q: seq<Vertex>)
    ensures |q| == 4 * |sprites|
  {
    if sprites == [] then [] else SpriteQuad(sprites[0]) + QuadStream(sprites[1..])
  }

  /** Sprite n's quad sits at offsets 4n..4n+3 of the stream. */
  lemma {:induction false} QuadStreamAt(sprites: seq<Sprite>, n: nat, i: nat)
    requires n < |sprites| && i < 4
    ensures QuadStream(sprites)[4 * n + i] == SpriteQuad(sprites[n])[i]
    decreases n
  {
    if n > 0 {
      QuadStreamAt(sprites[1..], n - 1, i);
      assert sprites[1..][n - 1] == sprites[n];
    }
  }

  /**
   * The caller's frame loop: draw each sprite in order. The vertices written are
   * the earlier ones followed by the quad stream of the sprites.
   */
  function DrawAll(b: Batch, sprites: seq<Sprite>): (r: Batch)
    requires b.mapped && HasRoom(b, |sprites|)
    ensures r.mapped && r.capacity == b.capacity
    ensures r.vertices == b.vertices + QuadStream(sprites)
    ensures r.indexCount == b.indexCount + 6 * |sprites|
    ensures Consistent(b) ==> Consistent(r)
    decreases |sprites|
  {
    if sprites == [] then b
    else
      var b' := Draw(b, sprites[0]);
      var r := DrawAll(b', sprites[1..]);
      assert r.vertices == b.vertices + (SpriteQuad(sprites[0]) + QuadStream(sprites[1..]));
      r
  }

  /**
   * Sprite n of a batch occupies vertices 4n..4n+3 behind the starting cursor, in
   * append order, each corner recoloured with that sprite's colour.
   */
  lemma DrawAllPlacement(b: Batch, sprites: seq<Sprite>, n: nat, i: nat)
    requires b.mapped && HasRoom(b, |sprites|)
    requires n < |sprites| && i < 4
    ensures |b.vertices| + 4 * n + i < |DrawAll(b, sprites).vertices|
    ensures DrawAll(b, sprites).vertices[|b.vertices| + 4 * n + i]
            == Recolor(sprites[n].rect.Corners()[i], sprites[n].color)
  {
    QuadStreamAt(sprites, n, i);
  }

  /**
   * One frame: Begin after the previous End, draw N sprites, End. The draw call
   * covers exactly 6N indices and the buffer holds 4N vertices.
   */
  lemma FrameSubmitsSixPerSprite(b: Batch, sprites: seq<Sprite>)
    requires 4 * |sprites| <= b.capacity
    ensures var start := Begin(End(b).0);
            var drawn := DrawAll(start, sprites);
            && End(drawn).1 == 6 * |sprites|
            && |End(drawn).0.vertices| == 4 * |sprites|
            && Consistent(drawn)
  {
    BeginAfterEnd(b);
  }

  /**
   * Every index End submits names a vertex written in this batch, provided the
   * index buffer was built for the buffer's capacity and does not wrap.
   */
  lemma SubmittedIndicesNameWrittenVertices(r: Renderer, maxQuads: nat, k: nat)
    requires QuadIndices.IsIndexBuffer(r.indices, 6 * maxQuads) && QuadIndices.FitsUshort(6 * maxQuads)
    requires r.batch.capacity == 4 * maxQuads && HasRoom(r.batch, 0) && Consistent(r.batch)
    requires k < End(r.batch).1
    ensures k < |r.indices| && 0 <= r.indices[k] < |r.batch.vertices|
  {
    var quads := |r.batch.vertices| / 4;
    assert |r.batch.vertices| == 4 * quads;
    assert r.batch.indexCount == 6 * quads;
    assert quads <= maxQuads;
    QuadIndices.IndexInOwnQuad(r.indices, 6 * maxQuads, k);
    assert k / 6 < quads;
  }
}
