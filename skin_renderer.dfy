/** The buffer bookkeeping of the skin preview renderer (SkinRenderer): quads become four
    vertices and six indices, boxes six quads, and regenerateGeometry rebuilds both
    buffers for a player model. Positions and texture scaling are floating point and
    left abstract: a vertex position is a named corner of a named box, and texture
    coordinates are kept in pixel units. */
module SkinRenderer {
  import opened Common
  import opened Skins

  /** How a box is textured: its six face regions, the texture it samples and whether
      it is drawn with transparency. */
  datatype TextureMapping = TextureMapping(
    left: Rectangle, right: Rectangle, top: Rectangle, bottom: Rectangle,
    front: Rectangle, back: Rectangle, material: Texture, transparent: bool)

  /** The boxes of the player model, one per texture mapping table entry: the two cape
      layouts, and the body parts with their variants. A part stands for the box's
      dimensions and transform as well as its mapping. */
  datatype Part =
    | Cape(layout: int)
    | Head | Torso | HeadCover | TorsoCover
    | LeftLeg | LeftLegOld | RightLeg | LeftLegCover | RightLegCover
    | LeftArmClassic | RightArmClassic | LeftArmOldClassic | RightArmOldClassic
    | LeftArmCoverClassic | RightArmCoverClassic
    | LeftArmSlim | RightArmSlim | LeftArmOldSlim | RightArmOldSlim
    | LeftArmCoverSlim | RightArmCoverSlim

  /** A vertex position: corner `k` (0 to 7) of the box drawn for `part`. */
  datatype Corner = Corner(part: Part, k: int)

  /** One vertex: position, texture coordinates in pixels, texture and transparency. */
  datatype Vertex = Vertex(position: Corner, u: int, v: int, texture: Texture, transparent: bool)

  /** The texture edges of a quad. */
  datatype Edges = Edges(left: int, right: int, bottom: int, top: int)

  /** The edges RenderQuad takes from a region: left is the low x edge and bottom the
      high y edge, each axis swapped when that axis is mirrored. */
  function QuadEdges(r: Rectangle): Edges {
    Edges(
      if r.flipX then r.x + r.w else r.x,
      if r.flipX then r.x else r.x + r.w,
      if r.flipY then r.y else r.y + r.h,
      if r.flipY then r.y + r.h else r.y)
  }

  /** Mirroring the x axis swaps the left and right edges and nothing else. */
  lemma FlipXSwapsLeftRight(r: Rectangle)
    ensures var e, f := QuadEdges(r), QuadEdges(r.(flipX := !r.flipX));
      f == Edges(e.right, e.left, e.bottom, e.top)
  {
  }

  /** Mirroring the y axis swaps the bottom and top edges and nothing else. */
  lemma FlipYSwapsBottomTop(r: Rectangle)
    ensures var e, f := QuadEdges(r), QuadEdges(r.(flipY := !r.flipY));
      f == Edges(e.left, e.right, e.top, e.bottom)
  {
  }

  /** Whatever the flags, the edges are the region's two x bounds and two y bounds. */
  lemma EdgesSpanRegion(r: Rectangle)
    ensures var e := QuadEdges(r);
      {e.left, e.right} == {r.x, r.x + r.w} && {e.bottom, e.top} == {r.y, r.y + r.h}
  {
  }

  /** The four vertices of a quad over the corners p0..p3, in that order, going around
      the region from its bottom left. */
  function QuadVertices(p0: Corner, p1: Corner, p2: Corner, p3: Corner, r: Rectangle, t: Texture, transparent: bool): seq<Vertex> {
    var e := QuadEdges(r);
    [Vertex(p0, e.left, e.bottom, t, transparent), Vertex(p1, e.right, e.bottom, t, transparent),
     Vertex(p2, e.right, e.top, t, transparent), Vertex(p3, e.left, e.top, t, transparent)]
  }

  /** The six indices of a quad whose first vertex is `start`: the triangles (0, 1, 3)
      and (1, 2, 3). */
  function QuadElements(start: int): seq<int> {
    [start + 0, start + 1, start + 3, start + 1, start + 2, start + 3]
  }

  /** The two triangles of a quad use exactly its four vertices and share the diagonal
      from its second to its fourth vertex. */
  lemma QuadElementsCoverQuad(start: int)
    ensures var q := QuadElements(start);
      |q| == 6 && (forall i :: 0 <= i < 6 ==> start <= q[i] < start + 4) &&
      (forall k :: start <= k < start + 4 ==> k in q) &&
      {q[0], q[1], q[2]} * {q[3], q[4], q[5]} == {start + 1, start + 3}
  {
    var q := QuadElements(start);
    assert q[0] == start && q[1] == start + 1 && q[4] == start + 2 && q[2] == start + 3;
  }

  /** The corners of the six faces in the order RenderBox draws them: front, left, back,
      right, bottom, top. Corners 0 to 3 are the front face, 4 to 7 the back face. */
  const FaceCorners: seq<seq<int>> :=
    [[0, 1, 2, 3], [1, 5, 6, 2], [5, 4, 7, 6], [4, 0, 3, 7], [4, 5, 1, 0], [3, 2, 6, 7]]

  /** The faces close the box: each face has four different corners, and the front and
      back, left and right, bottom and top faces each split the eight corners between
      them. */
  lemma FacesCloseTheBox()
    ensures forall f, i, j :: 0 <= f < 6 && 0 <= i < j < 4 ==> FaceCorners[f][i] != FaceCorners[f][j]
    ensures forall k :: 0 <= k < 8 ==> (k in FaceCorners[0] <==> k !in FaceCorners[2])
    ensures forall k :: 0 <= k < 8 ==> (k in FaceCorners[1] <==> k !in FaceCorners[3])
    ensures forall k :: 0 <= k < 8 ==> (k in FaceCorners[4] <==> k !in FaceCorners[5])
  {
    forall f, i, j | 0 <= f < 6 && 0 <= i < j < 4
      ensures FaceCorners[f][i] != FaceCorners[f][j]
    {
    }
  }

  /** The vertices of face `f` of the box for `part`. */
  function FaceVertices(part: Part, m: TextureMapping, f: int): seq<Vertex>
    requires 0 <= f < 6
  {
    var c := FaceCorners[f];
    var r := [m.front, m.left, m.back, m.right, m.bottom, m.top][f];
    QuadVertices(Corner(part, c[0]), Corner(part, c[1]), Corner(part, c[2]), Corner(part, c[3]), r, m.material, m.transparent)
  }

  /** The faces in RenderBox's order, each over its corners and its region. */
  lemma FaceVerticesAre(part: Part, m: TextureMapping)
    ensures FaceVertices(part, m, 0) == QuadVertices(Corner(part, 0), Corner(part, 1), Corner(part, 2), Corner(part, 3), m.front, m.material, m.transparent)
    ensures FaceVertices(part, m, 1) == QuadVertices(Corner(part, 1), Corner(part, 5), Corner(part, 6), Corner(part, 2), m.left, m.material, m.transparent)
    ensures FaceVertices(part, m, 2) == QuadVertices(Corner(part, 5), Corner(part, 4), Corner(part, 7), Corner(part, 6), m.back, m.material, m.transparent)
    ensures FaceVertices(part, m, 3) == QuadVertices(Corner(part, 4), Corner(part, 0), Corner(part, 3), Corner(part, 7), m.right, m.material, m.transparent)
    ensures FaceVertices(part, m, 4) == QuadVertices(Corner(part, 4), Corner(part, 5), Corner(part, 1), Corner(part, 0), m.bottom, m.material, m.transparent)
    ensures FaceVertices(part, m, 5) == QuadVertices(Corner(part, 3), Corner(part, 2), Corner(part, 6), Corner(part, 7), m.top, m.material, m.transparent)
  {
  }

  /** The number of faces of a box. */
  const BoxFaces: nat := 6

  /** `v` followed by the first `n` faces of the box, in RenderBox's order. */
  function Faces(v: seq<Vertex>, part: Part, m: TextureMapping, n: nat): seq<Vertex>
    requires n <= 6
  {
    if n == 0 then v else Faces(v, part, m, n - 1) + FaceVertices(part, m, n - 1)
  }

  /** Each face adds four vertices. */
  lemma {:induction false} FacesLength(v: seq<Vertex>, part: Part, m: TextureMapping, n: nat)
    requires n <= 6
    ensures |Faces(v, part, m, n)| == |v| + 4 * n
  {
    if n > 0 {
      FacesLength(v, part, m, n - 1);
    }
  }

  /** The vertex buffer after RenderBox: `v` followed by the six faces. */
  function AfterBox(v: seq<Vertex>, part: Part, m: TextureMapping): seq<Vertex> {
    Faces(v, part, m, BoxFaces)
  }

  /** `e` followed by the indices of `n` quads, the first starting at vertex `s`. */
  function Quads(e: seq<int>, s: int, n: nat): seq<int> {
    if n == 0 then e else Quads(e, s, n - 1) + QuadElements(s + 4 * (n - 1))
  }

  /** The element buffer after RenderBox with the start index at `s`. */
  function AfterBoxElements(e: seq<int>, s: int): seq<int> {
    Quads(e, s, BoxFaces)
  }

  /** The boxes RenderSkin draws: the cape first when there is a cape texture (layout 0
      for one at least 34 pixels high, else layout 1), then the body. */
  function RenderedParts(capeHeight: Option<int>, version: int, model: Model): seq<Part> {
    CapeParts(capeHeight) + BodyParts(version, model)
  }

  /** The cape box, present only when there is a cape texture. */
  function CapeParts(capeHeight: Option<int>): seq<Part> {
    if capeHeight.Some? then [Cape(if capeHeight.value >= 34 then 0 else 1)] else []
  }

  /** Boxes drawn in two runs after `drawn`. */
  lemma AppendedParts(drawn: seq<Part>, first: seq<Part>, second: seq<Part>)
    ensures drawn + first + second == drawn + (first + second)
  {
  }

  /** The body boxes: head, torso, legs and arms for the model and skin format, the
      head's overlay, and for version 1 the overlays of the torso, arms and legs. */
  function BodyParts(version: int, model: Model): seq<Part> {
    [Head, Torso] + Legs(version) + Arms(version, model) + [HeadCover] +
    (if version == 1 then Overlays(model) else [])
  }

  /** The legs: older skin formats texture the left leg from their own mapping. */
  function Legs(version: int): seq<Part> {
    if version == 1 then [LeftLeg, RightLeg] else [LeftLegOld, RightLeg]
  }

  /** The arms: slim models have narrower arms. */
  function Arms(version: int, model: Model): seq<Part> {
    match model
    case Classic =>
      if version == 1 then [LeftArmClassic, RightArmClassic] else [LeftArmOldClassic, RightArmOldClassic]
    case Slim =>
      if version == 1 then [LeftArmSlim, RightArmSlim] else [LeftArmOldSlim, RightArmOldSlim]
  }

  /** The overlays of the torso, arms and legs, drawn only for version 1 skins. */
  function Overlays(model: Model): seq<Part> {
    [TorsoCover] + ArmCovers(model) + [LeftLegCover, RightLegCover]
  }

  /** The arm overlays: slim models have narrower ones. */
  function ArmCovers(model: Model): seq<Part> {
    match model
    case Classic => [LeftArmCoverClassic, RightArmCoverClassic]
    case Slim => [LeftArmCoverSlim, RightArmCoverSlim]
  }


  /** Twelve body boxes for version 1 and seven otherwise, for both models, after the
      cape box when there is a cape texture; the cape is the only cape part. */
  lemma RenderedPartsCount(capeHeight: Option<int>, version: int, model: Model)
    ensures var ps := RenderedParts(capeHeight, version, model);
      |ps| == (if capeHeight.Some? then 1 else 0) + (if version == 1 then 12 else 7) &&
      (forall i :: 0 <= i < |ps| ==> (ps[i].Cape? <==> capeHeight.Some? && i == 0)) &&
      (capeHeight.Some? ==> ps[0] == Cape(if capeHeight.value >= 34 then 0 else 1))
  {
    var legs, arms := Legs(version), Arms(version, model);
    var overlays := if version == 1 then Overlays(model) else [];
    var body := BodyParts(version, model);
    assert |legs| == 2 && |arms| == 2 && |overlays| == (if version == 1 then 5 else 0);
    assert NoCape(body) by {
      assert NoCape(legs) && NoCape(arms) && NoCape(overlays);
      assert body == [Head, Torso] + legs + arms + [HeadCover] + overlays;
    }
  }

  /** No box of `parts` is a cape. */
  predicate NoCape(parts: seq<Part>) {
    forall i :: 0 <= i < |parts| ==> !parts[i].Cape?
  }

  /** The vertex buffer RenderBox calls with the given boxes, each under its mapping,
      build from empty. */
  function Geometry(boxes: seq<Part>, mappings: Part -> TextureMapping): seq<Vertex>
    decreases |boxes|
  {
    if boxes == [] then []
    else AfterBox(Geometry(boxes[..|boxes| - 1], mappings), boxes[|boxes| - 1], mappings(boxes[|boxes| - 1]))
  }

  /** The element buffer the same calls build from empty. */
  function Elements(n: nat): seq<int>
    decreases n
  {
    if n == 0 then [] else AfterBoxElements(Elements(n - 1), 24 * (n - 1))
  }

  /** A quad appended after indices all below `s` leaves every index below `s + 4`. */
  lemma QuadKeepsInRange(e: seq<int>, s: int)
    requires 0 <= s && forall i :: 0 <= i < |e| ==> 0 <= e[i] < s
    ensures var e' := e + QuadElements(s);
      |e'| == |e| + 6 && forall i :: 0 <= i < |e'| ==> 0 <= e'[i] < s + 4
  {
    var e' := e + QuadElements(s);
    forall i | |e| <= i < |e'| ensures 0 <= e'[i] < s + 4 {
      assert e'[i] == QuadElements(s)[i - |e|];
    }
  }

  /** Quads appended after indices all below `s` leave every index naming one of the
      vertices they add or one before. */
  lemma {:induction false} QuadsInRange(e: seq<int>, s: int, n: nat)
    requires 0 <= s && forall i :: 0 <= i < |e| ==> 0 <= e[i] < s
    ensures var e' := Quads(e, s, n);
      |e'| == |e| + 6 * n && forall i :: 0 <= i < |e'| ==> 0 <= e'[i] < s + 4 * n
  {
    if n > 0 {
      QuadsInRange(e, s, n - 1);
      QuadKeepsInRange(Quads(e, s, n - 1), s + 4 * (n - 1));
    }
  }

  /** The buffers of n boxes: 24 vertices and 36 indices per box, every index naming one
      of the vertices; so the start index equals the vertex count and there are three
      indices for every two vertices. */
  lemma {:induction false} GeometryShape(boxes: seq<Part>, mappings: Part -> TextureMapping)
    ensures var v, e := Geometry(boxes, mappings), Elements(|boxes|);
      |v| == 24 * |boxes| && |e| == 36 * |boxes| && 2 * |e| == 3 * |v| &&
      forall i :: 0 <= i < |e| ==> 0 <= e[i] < |v|
    decreases |boxes|
  {
    if boxes != [] {
      var n := |boxes|;
      GeometryShape(boxes[..n - 1], mappings);
      FacesLength(Geometry(boxes[..n - 1], mappings), boxes[n - 1], mappings(boxes[n - 1]), 6);
      QuadsInRange(Elements(n - 1), 24 * (n - 1), 6);
    }
  }

  /** Adding one box extends the geometry of the boxes before it. */
  lemma GeometryNext(boxes: seq<Part>, part: Part, mappings: Part -> TextureMapping)
    ensures Geometry(boxes + [part], mappings) == AfterBox(Geometry(boxes, mappings), part, mappings(part))
    ensures Elements(|boxes| + 1) == AfterBoxElements(Elements(|boxes|), 24 * |boxes|)
  {
    assert (boxes + [part])[..|boxes|] == boxes;
  }

  /** The render context's buffers (m_vertexBuffer, m_elementBuffer,
      m_elementStartIndex) and the height of its cape texture, if it has one. The
      texture mapping tables are given at construction; `boxes` records the boxes drawn
      since the buffers were last cleared. */
  class RenderContext {
    var vertexBuffer: seq<Vertex>
    var elementBuffer: seq<int>
    var elementStartIndex: int
    var capeHeight: Option<int>
    const mappings: Part -> TextureMapping
    ghost var boxes: seq<Part>

    /** The buffers hold exactly the boxes drawn, and the start index is the next
        vertex. */
    ghost predicate Valid()
      reads this
    {
      vertexBuffer == Geometry(boxes, mappings) && elementBuffer == Elements(|boxes|) &&
      elementStartIndex == |vertexBuffer|
    }

    constructor (tables: Part -> TextureMapping, cape: Option<int>)
      ensures Valid() && boxes == [] && capeHeight == cape && mappings == tables
    {
      vertexBuffer, elementBuffer, elementStartIndex := [], [], 0;
      capeHeight := cape;
      mappings := tables;
      boxes := [];
    }

    /** RenderQuad: four vertices over the corners with the region's edges, and the two
        triangles over them; the start index moves past them. */
    method RenderQuad(p0: Corner, p1: Corner, p2: Corner, p3: Corner, mapping: Rectangle, texture: Texture, transparency: bool)
      modifies this`vertexBuffer, this`elementBuffer, this`elementStartIndex
      ensures vertexBuffer == old(vertexBuffer) + QuadVertices(p0, p1, p2, p3, mapping, texture, transparency)
      ensures elementBuffer == old(elementBuffer) + QuadElements(old(elementStartIndex))
      ensures elementStartIndex == old(elementStartIndex) + 4
    {
      var left, right, bottom, top;
      if mapping.flipX {
        right := mapping.x;
        left := mapping.x + mapping.w;
      } else {
        left := mapping.x;
        right := mapping.x + mapping.w;
      }
      if mapping.flipY {
        bottom := mapping.y;
        top := mapping.y + mapping.h;
      } else {
        top := mapping.y;
        bottom := mapping.y + mapping.h;
      }
      vertexBuffer := vertexBuffer + [Vertex(p0, left, bottom, texture, transparency)];
      vertexBuffer := vertexBuffer + [Vertex(p1, right, bottom, texture, transparency)];
      vertexBuffer := vertexBuffer + [Vertex(p2, right, top, texture, transparency)];
      vertexBuffer := vertexBuffer + [Vertex(p3, left, top, texture, transparency)];
      elementBuffer := elementBuffer + [elementStartIndex + 0, elementStartIndex + 1, elementStartIndex + 3];
      elementBuffer := elementBuffer + [elementStartIndex + 1, elementStartIndex + 2, elementStartIndex + 3];
      elementStartIndex := elementStartIndex + 4;
    }

    /** RenderBox: the six faces of the box for `part`, front, left, back, right,
        bottom and top, each a quad over its corners under the part's mapping. */
    method RenderBox(part: Part)
      modifies this`vertexBuffer, this`elementBuffer, this`elementStartIndex, this`boxes
      requires Valid()
      ensures Valid() && boxes == old(boxes) + [part]
    {
      GeometryShape(boxes, mappings);
      FacesLength(vertexBuffer, part, mappings(part), 6);
      DrawFaces(part, mappings(part));
      GeometryNext(boxes, part, mappings);
      boxes := boxes + [part];
    }

    /** The six RenderQuad calls of RenderBox: front, left, back, right, bottom and top,
        each over its corners and its region of `m`. */
    method DrawFaces(part: Part, m: TextureMapping)
      modifies this`vertexBuffer, this`elementBuffer, this`elementStartIndex
      ensures vertexBuffer == AfterBox(old(vertexBuffer), part, m)
      ensures elementBuffer == AfterBoxElements(old(elementBuffer), old(elementStartIndex))
      ensures elementStartIndex == old(elementStartIndex) + 24
    {
      ghost var v0, e0, s0 := vertexBuffer, elementBuffer, elementStartIndex;
      FaceVerticesAre(part, m);
      RenderQuad(Corner(part, 0), Corner(part, 1), Corner(part, 2), Corner(part, 3), m.front, m.material, m.transparent);
      assert Quads(e0, s0, 1) == Quads(e0, s0, 0) + QuadElements(s0);
      assert vertexBuffer == Faces(v0, part, m, 1) && elementBuffer == Quads(e0, s0, 1);
      RenderQuad(Corner(part, 1), Corner(part, 5), Corner(part, 6), Corner(part, 2), m.left, m.material, m.transparent);
      assert vertexBuffer == Faces(v0, part, m, 2) && elementBuffer == Quads(e0, s0, 2);
      RenderQuad(Corner(part, 5), Corner(part, 4), Corner(part, 7), Corner(part, 6), m.back, m.material, m.transparent);
      assert vertexBuffer == Faces(v0, part, m, 3) && elementBuffer == Quads(e0, s0, 3);
      RenderQuad(Corner(part, 4), Corner(part, 0), Corner(part, 3), Corner(part, 7), m.right, m.material, m.transparent);
      assert vertexBuffer == Faces(v0, part, m, 4) && elementBuffer == Quads(e0, s0, 4);
      RenderQuad(Corner(part, 4), Corner(part, 5), Corner(part, 1), Corner(part, 0), m.bottom, m.material, m.transparent);
      assert vertexBuffer == Faces(v0, part, m, 5) && elementBuffer == Quads(e0, s0, 5);
      RenderQuad(Corner(part, 3), Corner(part, 2), Corner(part, 6), Corner(part, 7), m.top, m.material, m.transparent);
    }

    /** RenderSkin: the cape box when there is a cape texture, then the body boxes of
        the model and skin format. */
    method RenderSkin(version: int, model: Model)
      modifies this`vertexBuffer, this`elementBuffer, this`elementStartIndex, this`boxes
      requires Valid()
      ensures Valid() && boxes == old(boxes) + RenderedParts(capeHeight, version, model)
    {
      ghost var b0 := boxes;
      if capeHeight.Some? {
        var capeScale := if capeHeight.value >= 34 then 0 else 1;
        RenderBox(Cape(capeScale));
      }
      assert boxes == b0 + CapeParts(capeHeight);
      RenderBody(version, model);
      AppendedParts(b0, CapeParts(capeHeight), BodyParts(version, model));
    }

    /** The body part of RenderSkin, the same for both models but for the arms. */
    method RenderBody(version: int, model: Model)
      modifies this`vertexBuffer, this`elementBuffer, this`elementStartIndex, this`boxes
      requires Valid()
      ensures Valid() && boxes == old(boxes) + BodyParts(version, model)
    {
      ghost var b0 := boxes;
      RenderBox(Head);
      RenderBox(Torso);
      assert boxes == b0 + [Head, Torso];
      RenderLegs(version);
      AppendedParts(b0, [Head, Torso], Legs(version));
      RenderArms(version, model);
      AppendedParts(b0, [Head, Torso] + Legs(version), Arms(version, model));
      RenderBox(HeadCover);
      AppendedParts(b0, [Head, Torso] + Legs(version) + Arms(version, model), [HeadCover]);
      ghost var b1 := boxes;
      if version == 1 {
        RenderOverlays(model);
      }
      assert boxes == b1 + (if version == 1 then Overlays(model) else []);
      AppendedParts(b0, [Head, Torso] + Legs(version) + Arms(version, model) + [HeadCover], if version == 1 then Overlays(model) else []);
    }

    /** The legs RenderSkin draws after the torso. */
    method RenderLegs(version: int)
      modifies this`vertexBuffer, this`elementBuffer, this`elementStartIndex, this`boxes
      requires Valid()
      ensures Valid() && boxes == old(boxes) + Legs(version)
    {
      if version == 1 {
        RenderBox(LeftLeg);
        RenderBox(RightLeg);
      } else {
        RenderBox(LeftLegOld);
        RenderBox(RightLeg);
      }
    }

    /** The arms RenderSkin draws after the legs. */
    method RenderArms(version: int, model: Model)
      modifies this`vertexBuffer, this`elementBuffer, this`elementStartIndex, this`boxes
      requires Valid()
      ensures Valid() && boxes == old(boxes) + Arms(version, model)
    {
      if model == Classic {
        if version == 1 {
          RenderBox(LeftArmClassic);
          RenderBox(RightArmClassic);
        } else {
          RenderBox(LeftArmOldClassic);
          RenderBox(RightArmOldClassic);
        }
      } else {
        if version == 1 {
          RenderBox(LeftArmSlim);
          RenderBox(RightArmSlim);
        } else {
          RenderBox(LeftArmOldSlim);
          RenderBox(RightArmOldSlim);
        }
      }
    }

    /** The overlays RenderSkin draws for version 1 skins. */
    method RenderOverlays(model: Model)
      modifies this`vertexBuffer, this`elementBuffer, this`elementStartIndex, this`boxes
      requires Valid()
      ensures Valid() && boxes == old(boxes) + Overlays(model)
    {
      ghost var b0 := boxes;
      RenderBox(TorsoCover);
      RenderArmCovers(model);
      AppendedParts(b0, [TorsoCover], ArmCovers(model));
      ghost var b1 := boxes;
      RenderBox(LeftLegCover);
      RenderBox(RightLegCover);
      assert boxes == b1 + [LeftLegCover, RightLegCover];
      AppendedParts(b0, [TorsoCover] + ArmCovers(model), [LeftLegCover, RightLegCover]);
    }

    /** The arm overlays, narrower for slim models. */
    method RenderArmCovers(model: Model)
      modifies this`vertexBuffer, this`elementBuffer, this`elementStartIndex, this`boxes
      requires Valid()
      ensures Valid() && boxes == old(boxes) + ArmCovers(model)
    {
      if model == Classic {
        RenderBox(LeftArmCoverClassic);
        RenderBox(RightArmCoverClassic);
      } else {
        RenderBox(LeftArmCoverSlim);
        RenderBox(RightArmCoverSlim);
      }
    }

    /** regenerateGeometry: both buffers cleared and the start index zeroed, then the
        skin drawn. Afterwards the buffers hold exactly the rendered boxes, the start
        index equals the vertex count, there are three indices for every two vertices
        and every index names a vertex. */
    method RegenerateGeometry(skinVersion: int, skinModel: Model)
      modifies this`vertexBuffer, this`elementBuffer, this`elementStartIndex, this`boxes
      ensures Valid() && boxes == RenderedParts(capeHeight, skinVersion, skinModel)
      ensures elementStartIndex == |vertexBuffer| == 24 * |boxes|
      ensures 2 * |elementBuffer| == 3 * |vertexBuffer|
      ensures forall i :: 0 <= i < |elementBuffer| ==> 0 <= elementBuffer[i] < |vertexBuffer|
    {
      vertexBuffer := [];
      elementBuffer := [];
      elementStartIndex := 0;
      boxes := [];
      RenderSkin(skinVersion, skinModel);
      GeometryShape(boxes, mappings);
    }
  }
}
