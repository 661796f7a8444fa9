/**
 * The interleaved vertex record of the sprite renderer: a position, a colour and
 * a texture coordinate. Floats are modelled as reals; IEEE rounding is not modelled.
 */
module Geometry {

  datatype Vec3 = Vec3(x: real, y: real, z: real)

  /** An RGBA colour, one real per channel. */
  datatype Color = Color(r: real, g: real, b: real, a: real)

  /** One vertex of the shared vertex buffer (VertexData: vertex, color, tex). */
  datatype Vertex = Vertex(position: Vec3, color: Color, tex: Vec3)
}
