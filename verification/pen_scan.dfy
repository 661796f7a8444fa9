/**
 * The shape of DrawText's loop, stated once for any per-character output: walk
 * positions i..j, emit vertices for each position at the current pen, then move
 * the pen along x by that position's movement.
 */
module PenScan {
  import opened Geometry

  /** The pen position the caller passes in and reads back. */
  datatype Pen = Pen(x: real, y: real)

  /** The pen after position i's movement; y never changes. */
  function Moved(move: nat -> real, i: nat, pen: Pen): Pen
  {
    Pen(pen.x + move(i), pen.y)
  }

  /** The pen on reaching position j, having started at position i with `pen`. */
  function PenAfter(move: nat -> real, i: nat, j: nat, pen: Pen): Pen
    requires i <= j
    decreases j - i
  {
    if i == j then pen else PenAfter(move, i + 1, j, Moved(move, i, pen))
  }

  /** The vertices emitted over positions i..j, in order. */
  function Scan(emit: (nat, Pen) -> seq<Vertex>, move: nat -> real, i: nat, j: nat, pen: Pen): seq<Vertex>
    requires i <= j
    decreases j - i
  {
    if i == j then [] else emit(i, pen) + Scan(emit, move, i + 1, j, Moved(move, i, pen))
  }

  /** A scan over i..n is the scan over i..j followed by the scan over j..n from the pen reached at j. */
  lemma {:induction false} ScanSplit(emit: (nat, Pen) -> seq<Vertex>, move: nat -> real, i: nat, j: nat, n: nat, pen: Pen)
    requires i <= j <= n
    ensures Scan(emit, move, i, n, pen)
            == Scan(emit, move, i, j, pen) + Scan(emit, move, j, n, PenAfter(move, i, j, pen))
    decreases j - i
  {
    if i < j {
      var pen' := Moved(move, i, pen);
      ScanSplit(emit, move, i + 1, j, n, pen');
      var head, mid, tail := emit(i, pen), Scan(emit, move, i + 1, j, pen'), Scan(emit, move, j, n, PenAfter(move, i + 1, j, pen'));
      assert (head + mid) + tail == head + (mid + tail);
    }
  }

  /** One step of a scan: position i's output, then the scan from i + 1 at the moved pen. */
  lemma ScanStep(emit: (nat, Pen) -> seq<Vertex>, move: nat -> real, i: nat, n: nat, pen: Pen)
    requires i < n
    ensures Scan(emit, move, i, n, pen) == emit(i, pen) + Scan(emit, move, i + 1, n, Moved(move, i, pen))
  {
  }

  /**
   * What position j emits sits in the scan over i..n right behind everything
   * emitted over i..j, drawn at the pen reached at j: offset k of the scan is
   * offset m of position j's output.
   */
  lemma ScanAt(emit: (nat, Pen) -> seq<Vertex>, move: nat -> real, i: nat, j: nat, n: nat, pen: Pen, m: nat, k: nat)
    requires i <= j < n && m < |emit(j, PenAfter(move, i, j, pen))|
    requires k == |Scan(emit, move, i, j, pen)| + m
    ensures k < |Scan(emit, move, i, n, pen)|
    ensures Scan(emit, move, i, n, pen)[k] == emit(j, PenAfter(move, i, j, pen))[m]
  {
    ScanSplit(emit, move, i, j, n, pen);
    var p := PenAfter(move, i, j, pen);
    ScanStep(emit, move, j, n, p);
  }

  /** Offset k of what follows a sequence `a` is offset |a| + k of the whole. */
  lemma IndexBehind(a: seq<Vertex>, t: seq<Vertex>, i: nat, k: nat)
    requires k < |t| && i == |a| + k
    ensures i < |a + t| && (a + t)[i] == t[k]
  {
  }
}
