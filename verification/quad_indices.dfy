/**
 * The fixed index buffer the sprite renderer builds once at initialisation.
 * Quad q owns vertices 4q..4q+3 and is drawn as the two triangles
 * (4q, 4q+1, 4q+2) and (4q+2, 4q+3, 4q). Indices are stored as 16-bit
 * unsigned shorts, so every value is reduced modulo 2^16 when it is stored.
 */
module QuadIndices {

  /** Corner offsets of the two triangles of one quad, in buffer order. */
  const Pattern: seq<nat> := [0, 1, 2, 2, 3, 0]


  /** Number of distinct values of a 16-bit unsigned short. */
  const UshortRange: nat := 0x1_0000

  /** Storing an int into an unsigned short keeps its low 16 bits. */
  function Ushort(x: int): (r: int)
    ensures 0 <= r < UshortRange
    ensures 0 <= x < UshortRange ==> r == x
  {
    x % UshortRange
  }

  /** The vertex index the pattern prescribes for slot k of the buffer, before storage. */
  function QuadIndex(k: nat): nat
  {
    4 * (k / 6) + Pattern[k % 6]
  }

  /** Slot j (0..5) of quad q. */
  function Slot(indices: seq<int>, q: nat, j: nat): int
    requires j < 6 && 6 * q + j < |indices|
  {
    indices[6 * q + j]
  }

  /** The first `quads` quads of `indices` hold 4q+{0,1,2,2,3,0}, stored as unsigned shorts. */
  ghost predicate FilledQuads(indices: seq<int>, quads: nat)
  {
    && 6 * quads <= |indices|
    && forall q: nat, j: nat | q < quads && j < 6 :: Slot(indices, q, j) == Ushort(4 * q + Pattern[j])
  }

  /** `indices` holds what the initialisation loop writes into a buffer of `total` slots. */
  ghost predicate IsIndexBuffer(indices: seq<int>, total: nat)
  {
    && |indices| == total
    && total % 6 == 0
    && FilledQuads(indices, total / 6)
  }

  /** No vertex index of a buffer of `total` slots exceeds the unsigned-short range. */
  predicate FitsUshort(total: nat)
  {
    4 * (total / 6) <= UshortRange
  }

  /** One iteration of the initialisation loop: slots i..i+5 receive offset+{0,1,2,2,3,0}. */
  method WriteQuad(a: array<int>, i: nat, offset: nat, ghost q: nat)
    requires i == 6 * q && offset == 4 * q && i + 6 <= a.Length
    requires FilledQuads(a[..], q)
    modifies a
    ensures FilledQuads(a[..], q + 1)
  {
    ghost var before := a[..];
    a[i + 0] := Ushort(offset + 0);
    a[i + 1] := Ushort(offset + 1);
    a[i + 2] := Ushort(offset + 2);
    a[i + 3] := Ushort(offset + 2);
    a[i + 4] := Ushort(offset + 3);
    a[i + 5] := Ushort(offset + 0);
    ghost var after := a[..];
    forall q': nat, j: nat | q' < q + 1 && j < 6
      ensures Slot(after, q', j) == Ushort(4 * q' + Pattern[j])
    {
      if q' < q {
        assert 6 * q' + j < i;
        assert Slot(after, q', j) == Slot(before, q', j);
      } else {
        assert Slot(after, q', j) == a[i + j];
      }
    }
  }

  /**
   * The initialisation loop: for i = 0, 6, 12, ... it writes offset+{0,1,2,2,3,0}
   * into slots i..i+5 and then advances offset by 4.
   */
  method GenerateIndices(total: nat) returns (indices: seq<int>)
    requires total % 6 == 0
    ensures IsIndexBuffer(indices, total)
  {
    var a := new int[total];
    var i := 0;
    var offset := 0;
    ghost var q: nat := 0;
    ghost var n: nat := total / 6;
    assert total == 6 * n;
    while i < total
      invariant 0 <= i <= total && i == 6 * q && q <= n
      invariant offset == 4 * q
      invariant FilledQuads(a[..], q)
    {
      WriteQuad(a, i, offset, q);
      offset := offset + 4;
      i := i + 6;
      q := q + 1;
    }
    indices := a[..];
  }

  /** Slot k of a generated buffer holds the closed form 4·(k/6) + Pattern[k mod 6], stored in 16 bits. */
  lemma IndexAtSlot(indices: seq<int>, total: nat, k: nat)
    requires IsIndexBuffer(indices, total)
    requires k < total
    ensures indices[k] == Ushort(QuadIndex(k))
  {
    var q := k / 6;
    var j := k % 6;
    assert k == 6 * q + j;
    assert q < total / 6;
    assert Slot(indices, q, j) == Ushort(4 * q + Pattern[j]);
  }

  /** The six slots of quad q, as a sequence. */
  function Block(indices: seq<int>, q: nat): seq<int>
    requires 6 * q + 6 <= |indices|
  {
    indices[6 * q .. 6 * q + 6]
  }

  /** Without 16-bit wrap-around, quad q's slots are exactly 4q+{0,1,2,2,3,0}. */
  lemma BlockPattern(indices: seq<int>, total: nat, q: nat)
    requires IsIndexBuffer(indices, total) && FitsUshort(total)
    requires q < total / 6
    ensures 6 * q + 6 <= |indices|
    ensures Block(indices, q) == [4 * q + 0, 4 * q + 1, 4 * q + 2, 4 * q + 2, 4 * q + 3, 4 * q + 0]
  {
    var n := total / 6;
    assert total == 6 * n && 4 * n <= UshortRange;
    var b := Block(indices, q);
    assert b[0] == Slot(indices, q, 0) == 4 * q;
    assert b[1] == Slot(indices, q, 1) == 4 * q + 1;
    assert b[2] == Slot(indices, q, 2) == 4 * q + 2;
    assert b[3] == Slot(indices, q, 3) == 4 * q + 2;
    assert b[4] == Slot(indices, q, 4) == 4 * q + 3;
    assert b[5] == Slot(indices, q, 5) == 4 * q;
  }

  /**
   * Without wrap-around every index names a vertex of its own quad:
   * slot k refers to vertex 4(k/6) + c with c < 4, below 4·(total/6).
   */
  lemma IndexInOwnQuad(indices: seq<int>, total: nat, k: nat)
    requires IsIndexBuffer(indices, total) && FitsUshort(total)
    requires k < total
    ensures indices[k] / 4 == k / 6
    ensures 0 <= indices[k] < 4 * (total / 6)
  {
    var q := k / 6;
    var j := k % 6;
    assert k == 6 * q + j;
    assert q < total / 6;
    assert 4 * q + 3 < 4 * (total / 6);
    assert indices[k] == Slot(indices, q, j) == 4 * q + Pattern[j];
  }

  /** Without wrap-around each quad's six slots name exactly four distinct vertices. */
  lemma BlockNamesFourVertices(indices: seq<int>, total: nat, q: nat)
    requires IsIndexBuffer(indices, total) && FitsUshort(total)
    requires q < total / 6
    ensures 6 * q + 6 <= |indices|
    ensures (set v | v in Block(indices, q)) == {4 * q, 4 * q + 1, 4 * q + 2, 4 * q + 3}
    ensures |set v | v in Block(indices, q)| == 4
  {
    BlockPattern(indices, total, q);
    var b := Block(indices, q);
    var s := {4 * q, 4 * q + 1, 4 * q + 2, 4 * q + 3};
    assert b[0] == 4 * q && b[1] == 4 * q + 1 && b[2] == 4 * q + 2 && b[4] == 4 * q + 3;
    assert (set v | v in b) == s;
    assert |{4 * q}| == 1;
    assert |{4 * q, 4 * q + 1}| == 2;
    assert |{4 * q, 4 * q + 1, 4 * q + 2}| == 3;
  }

  /**
   * Past 16384 quads the 16-bit storage wraps: the first slot of quad 16384
   * names vertex 0, the first vertex of quad 0.
   */
  lemma WrapAliasesFirstQuad(indices: seq<int>, total: nat)
    requires IsIndexBuffer(indices, total)
    requires 6 * 16384 < total
    ensures indices[6 * 16384] == indices[0] == 0
  {
    assert 16384 < total / 6;
    assert indices[6 * 16384] == Slot(indices, 16384, 0);
    assert indices[0] == Slot(indices, 0, 0);
  }
}
