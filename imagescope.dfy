/** The Aperio ImageScope converter: every item of the Graphic Annotation Sequence
    with at least one non-empty graphic becomes an `Annotation` numbered by one
    counter, and each of its graphics a `Region` numbered by a second counter that
    runs on across annotations; each point of a graphic becomes a `Vertex`.

    The numbering is specified first as a plan (which annotation gets which id and
    which regions), then the plan is rendered as the element tree; the builder is
    proved to produce the rendering of the plan. */
module ImageScope {
  import opened Options
  import opened Dicom
  import opened Coordinates
  import opened Xml
  import Text
  import Numbers
  import Paths
  import GeoJson

  // ---- coordinates ----

  /** `_parse_float`: `float(val)`, or 0.0 when that raises, with no second attempt
      after `strip()`. It reads a value as the GeoJSON converter's
      `parse_float_from_coordinate` does exactly where that second attempt does not
      rescue it, which needs text holding one of U+001C to U+001F. */
  function ParseFloat(c: Component): (r: real)
    ensures ToFloat(c).Some? ==> r == ToFloat(c).value
    ensures ToFloat(c).None? ==> r == 0.0
    ensures r == GeoJson.ParseFloatFromCoordinate(c) <==> ToFloat(c).Some? || GeoJson.ParseFloatFromCoordinate(c) == 0.0
    ensures c.Num? || Numbers.NoSeparators(c.s) ==> r == GeoJson.ParseFloatFromCoordinate(c)
  {
    match ToFloat(c)
    case Some(x) => x
    case None => 0.0
  }

  /** The parts `_extract_coordinates` pairs: a list's items, or the pieces of the
      value's printed form split at backslashes, empty pieces kept. A lone number
      prints as a single piece. */
  function Parts(v: Value): seq<Component> {
    match v
    case List(items) => items
    case Text(s) => StrParts(Text.Split(s, '\\'))
    case Number(r) => [Num(r)]
  }

  /** `_extract_coordinates`: no point without GraphicData; otherwise the parts
      paired in order, each read with `_parse_float`, a trailing odd part dropped. */
  function CoordinatesOf(data: Option<Value>): (ps: seq<Point>)
    ensures data.None? ==> ps == []
    ensures data.Some? ==> |ps| == |Parts(data.value)| / 2
    ensures data.Some? ==> forall k :: 0 <= k < |ps| ==>
      ps[k] == Point(ParseFloat(Parts(data.value)[2 * k]), ParseFloat(Parts(data.value)[2 * k + 1]))
  {
    match data
    case None => []
    case Some(v) => Pairs(FloatsOrZero(Parts(v)))
  }

  /** `_extract_coordinates`, loop by loop. */
  method ExtractCoordinates(data: Option<Value>) returns (coords: seq<Point>)
    ensures coords == CoordinatesOf(data)
  {
    if data.None? {
      return [];
    }
    coords := PairParts(Parts(data.value));
  }

  /** The pairing loop of `_extract_coordinates`. */
  method PairParts(parts: seq<Component>) returns (coords: seq<Point>)
    ensures coords == Pairs(FloatsOrZero(parts))
  {
    coords := [];
    var i := 0;
    while i < |parts|
      invariant 0 <= i <= |parts| + 1 && i % 2 == 0
      invariant |coords| == (if i < |parts| then i else |parts|) / 2
      invariant forall k :: 0 <= k < |coords| ==> coords[k] == Point(ParseFloat(parts[2 * k]), ParseFloat(parts[2 * k + 1]))
    {
      if i + 1 < |parts| {
        var x := ParseFloat(parts[i]);
        var y := ParseFloat(parts[i + 1]);
        coords := coords + [Point(x, y)];
      }
      i := i + 2;
    }
    PairsOfParsed(parts, coords);
  }

  lemma PairsOfParsed(parts: seq<Component>, coords: seq<Point>)
    requires |coords| == |parts| / 2
    requires forall k :: 0 <= k < |coords| ==> coords[k] == Point(ParseFloat(parts[2 * k]), ParseFloat(parts[2 * k + 1]))
    ensures coords == Pairs(FloatsOrZero(parts))
  {
  }

  /** `_extract_graphics`: the coordinate lists of the graphic objects, in order,
      without the empty ones. */
  function Graphics(gs: seq<GraphicObject>): (polys: seq<seq<Point>>)
    ensures |polys| <= |gs|
    ensures forall k :: 0 <= k < |polys| ==> polys[k] != []
  {
    if gs == [] then []
    else
      var rest := Graphics(gs[..|gs| - 1]);
      var coords := CoordinatesOf(gs[|gs| - 1].graphicData);
      if coords == [] then rest else rest + [coords]
  }

  /** One graphic object yields its coordinate list, unless that list is empty. */
  lemma GraphicsOne(g: GraphicObject)
    ensures Graphics([g]) == (if CoordinatesOf(g.graphicData) == [] then [] else [CoordinatesOf(g.graphicData)])
  {
    assert [g][..0] == [];
  }

  /** `_extract_graphics` yields object after object: the graphics of two runs of
      graphic objects are the graphics of the first followed by those of the
      second. With `GraphicsOne` this fixes the content and the order of the
      result. */
  lemma {:induction false} GraphicsAppend(gs: seq<GraphicObject>, hs: seq<GraphicObject>)
    ensures Graphics(gs + hs) == Graphics(gs) + Graphics(hs)
    decreases |hs|
  {
    if hs == [] {
      assert gs + hs == gs;
    } else {
      var init := hs[..|hs| - 1];
      assert (gs + hs)[..|gs + hs| - 1] == gs + init;
      assert (gs + hs)[|gs + hs| - 1] == hs[|hs| - 1];
      GraphicsAppend(gs, init);
    }
  }

  /** The graphics of one item of the Graphic Annotation Sequence. */
  function ItemGraphics(item: AnnotationItem): seq<seq<Point>> {
    Graphics(GraphicObjectsOf(item))
  }

  /** `list(_extract_graphics(seq))`, loop by loop. */
  method ExtractGraphics(gs: seq<GraphicObject>) returns (polys: seq<seq<Point>>)
    ensures polys == Graphics(gs)
  {
    polys := [];
    var i := 0;
    while i < |gs|
      invariant 0 <= i <= |gs|
      invariant polys == Graphics(gs[..i])
    {
      var coords := ExtractCoordinates(gs[i].graphicData);
      assert gs[..i + 1][..i] == gs[..i] && gs[..i + 1][i] == gs[i];
      if coords != [] {
        polys := polys + [coords];
      }
      i := i + 1;
    }
    assert gs[..i] == gs;
  }

  /** The graphics of every item of the Graphic Annotation Sequence, item by item. */
  function AllGraphics(items: seq<AnnotationItem>): (gss: seq<seq<seq<Point>>>)
    ensures |gss| == |items|
    ensures forall k :: 0 <= k < |items| ==> gss[k] == ItemGraphics(items[k])
  {
    seq(|items|, k requires 0 <= k < |items| => ItemGraphics(items[k]))
  }

  /** On values without information separators, both annotation converters read a
      point the same way and pair the same values: where the GeoJSON converter's
      robust reader finds points, so does this one. */
  lemma AgreesWithGeoJson(v: Value)
    ensures GeoJson.PlainComponents(Parts(v)) ==> CoordinatesOf(Some(v)) == GeoJson.RobustCoordinates(v)
  {
    if GeoJson.PlainComponents(Parts(v)) {
      GeoJson.RetriedIsPlain(Parts(v));
      match v
      case List(items) =>
      case Text(s) =>
        if '\\' !in s {
          Text.SplitPiece(s, '\\');
        }
      case Number(r) =>
    }
  }

  /** With an information separator the readers part: only the GeoJSON converter
      retries after `strip()`, so it reads U+001C before 1 as 1.0 where this
      converter reads 0.0. */
  lemma ReadersDisagree()
    ensures CoordinatesOf(Some(Text("\U{1C}1\\2"))) == [Point(0.0, 2.0)]
    ensures GeoJson.RobustCoordinates(Text("\U{1C}1\\2")) == [Point(1.0, 2.0)]
  {
    var v := Text("\U{1C}1\\2");
    var a, b := Str("\U{1C}1"), Str("2");
    SeparatedParts();
    assert Parts(v) == [a, b];
    assert GeoJson.Components(v) == [a, b];
    Numbers.StripRetryMatters();
    assert ToFloat(b) == Some(2.0) by {
      Numbers.ParseDigits("2");
      assert Numbers.DigitsValue("2") == 2 by {
        assert "2"[..0] == [];
      }
    }
    var ps, qs := CoordinatesOf(Some(v)), GeoJson.RobustCoordinates(v);
    assert |ps| == 1 && ps[0] == Point(ParseFloat(a), ParseFloat(b));
    assert |qs| == 1 && qs[0] == Point(GeoJson.ParseFloatFromCoordinate(a), GeoJson.ParseFloatFromCoordinate(b));
  }

  lemma SeparatedParts()
    ensures Text.Split("\U{1C}1\\2", '\\') == ["\U{1C}1", "2"]
  {
    assert "\U{1C}1\\2" == "\U{1C}1" + (['\\'] + "2");
    Text.SplitPieceThen("\U{1C}1", "2", '\\');
    Text.SplitPiece("2", '\\');
  }

  // ---- the numbering plan ----

  /** A region: its id and its points. */
  datatype RegionPlan = RegionPlan(id: nat, vertices: seq<Point>)

  /** An annotation: its id and its regions. */
  datatype AnnotationPlan = AnnotationPlan(id: nat, regions: seq<RegionPlan>)

  /** The regions of consecutive graphics, numbered after `regionId`. */
  function RegionsFrom(polys: seq<seq<Point>>, regionId: nat): (rs: seq<RegionPlan>)
    ensures |rs| == |polys|
    ensures forall k :: 0 <= k < |polys| ==> rs[k] == RegionPlan(regionId + k + 1, polys[k])
  {
    seq(|polys|, k requires 0 <= k < |polys| => RegionPlan(regionId + k + 1, polys[k]))
  }

  /** The numbering of `dicom_to_imagescope_xml`, for items with the graphics
      `gss`, continuing from the counters `annId` and `regionId`: an item without
      graphics is skipped and takes no id. */
  function Numbering(gss: seq<seq<seq<Point>>>, annId: nat, regionId: nat): seq<AnnotationPlan>
    decreases |gss|
  {
    if gss == [] then []
    else if gss[0] == [] then Numbering(gss[1..], annId, regionId)
    else [AnnotationPlan(annId + 1, RegionsFrom(gss[0], regionId))] + Numbering(gss[1..], annId + 1, regionId + |gss[0]|)
  }

  /** The graphics of the items that have some, in order. */
  function Used(gss: seq<seq<seq<Point>>>): seq<seq<seq<Point>>> {
    if gss == [] then []
    else if gss[0] == [] then Used(gss[1..])
    else [gss[0]] + Used(gss[1..])
  }

  /** All regions of a plan, annotation after annotation. */
  function AllRegions(plan: seq<AnnotationPlan>): seq<RegionPlan> {
    if plan == [] then [] else plan[0].regions + AllRegions(plan[1..])
  }

  /** One annotation per item with graphics, numbered on from `annId` without gaps,
      each holding one region per graphic of its item, in order, and at least one. */
  lemma {:induction false} NumberingAnnotations(gss: seq<seq<seq<Point>>>, annId: nat, regionId: nat)
    ensures var plan, used := Numbering(gss, annId, regionId), Used(gss);
      |plan| == |used|
      && forall k :: 0 <= k < |plan| ==>
        plan[k].id == annId + k + 1
        && |plan[k].regions| == |used[k]| >= 1
        && forall j :: 0 <= j < |used[k]| ==> plan[k].regions[j].vertices == used[k][j]
    decreases |gss|
  {
    if gss != [] {
      if gss[0] == [] {
        NumberingAnnotations(gss[1..], annId, regionId);
      } else {
        NumberingAnnotations(gss[1..], annId + 1, regionId + |gss[0]|);
      }
    }
  }

  /** Region ids run on across annotations: taken together, the regions are
      numbered on from `regionId` without gaps, so no two share an id. */
  lemma {:induction false} NumberingRegions(gss: seq<seq<seq<Point>>>, annId: nat, regionId: nat)
    ensures forall k :: 0 <= k < |AllRegions(Numbering(gss, annId, regionId))| ==>
      AllRegions(Numbering(gss, annId, regionId))[k].id == regionId + k + 1
    decreases |gss|
  {
    if gss != [] {
      if gss[0] == [] {
        NumberingRegions(gss[1..], annId, regionId);
        assert Numbering(gss, annId, regionId) == Numbering(gss[1..], annId, regionId);
      } else {
        var polys := gss[0];
        NumberingRegions(gss[1..], annId + 1, regionId + |polys|);
        var plan := Numbering(gss, annId, regionId);
        assert plan[1..] == Numbering(gss[1..], annId + 1, regionId + |polys|);
        var rs := AllRegions(plan);
        assert rs == RegionsFrom(polys, regionId) + AllRegions(plan[1..]);
      }
    }
  }

  // ---- rendering ----

  function VertexXml(p: Point, show: real -> string): Element {
    Element("Vertex", [Attribute("X", show(p.x)), Attribute("Y", show(p.y))], [], None)
  }

  function VerticesXml(poly: seq<Point>, show: real -> string): (vs: seq<Element>)
    ensures |vs| == |poly|
    ensures forall k :: 0 <= k < |poly| ==> vs[k] == VertexXml(poly[k], show)
  {
    seq(|poly|, k requires 0 <= k < |poly| => VertexXml(poly[k], show))
  }

  /** A `Region` with its fixed type and colour and one `Vertex` per point. */
  function RegionXml(r: RegionPlan, show: real -> string): Element {
    Element("Region",
      [Attribute("Id", Numbers.NatToString(r.id)), Attribute("Type", "0"), Attribute("LineColor", "65280")],
      [Element("Vertices", [], VerticesXml(r.vertices, show), None)],
      None)
  }

  function RegionsXml(rs: seq<RegionPlan>, show: real -> string): (es: seq<Element>)
    ensures |es| == |rs|
    ensures forall k :: 0 <= k < |rs| ==> es[k] == RegionXml(rs[k], show)
  {
    seq(|rs|, k requires 0 <= k < |rs| => RegionXml(rs[k], show))
  }

  /** An `Annotation` named after its id, holding its regions. */
  function AnnotationXml(a: AnnotationPlan, show: real -> string): Element {
    var id := Numbers.NatToString(a.id);
    Element("Annotation",
      [Attribute("Id", id), Attribute("Name", "Annotation " + id), Attribute("ReadOnly", "0")],
      [Element("Regions", [], RegionsXml(a.regions, show), None)],
      None)
  }

  function AnnotationsXml(plan: seq<AnnotationPlan>, show: real -> string): (es: seq<Element>)
    ensures |es| == |plan|
    ensures forall k :: 0 <= k < |plan| ==> es[k] == AnnotationXml(plan[k], show)
  {
    if plan == [] then [] else [AnnotationXml(plan[0], show)] + AnnotationsXml(plan[1..], show)
  }

  /** The document `dicom_to_imagescope_xml` returns, for a way `show` of printing
      a coordinate. */
  function ImageScopeXml(ds: PresentationState, show: real -> string): Element {
    Element("Annotations", [], AnnotationsXml(Numbering(AllGraphics(AnnotationItems(ds)), 0, 0), show), None)
  }

  /** The regions an `Annotation` element holds. */
  function RegionsOf(ann: Element): seq<Element> {
    if ann.children == [] then [] else ann.children[0].children
  }

  /** The vertices a `Region` element holds. */
  function VerticesOf(region: Element): seq<Element> {
    if region.children == [] then [] else region.children[0].children
  }

  /** The `Region` elements of a document, annotation after annotation. */
  function AllRegionElements(anns: seq<Element>): seq<Element> {
    if anns == [] then [] else RegionsOf(anns[0]) + AllRegionElements(anns[1..])
  }

  lemma {:induction false} RenderedRegions(plan: seq<AnnotationPlan>, show: real -> string)
    ensures AllRegionElements(AnnotationsXml(plan, show)) == RegionsXml(AllRegions(plan), show)
  {
    if plan != [] {
      RenderedRegions(plan[1..], show);
      var es := AnnotationsXml(plan, show);
      assert es[1..] == AnnotationsXml(plan[1..], show);
      var a, b := plan[0].regions, AllRegions(plan[1..]);
      assert RegionsOf(es[0]) == RegionsXml(a, show);
      RegionsXmlAppend(a, b, show);
    }
  }

  lemma RegionsXmlAppend(a: seq<RegionPlan>, b: seq<RegionPlan>, show: real -> string)
    ensures RegionsXml(a + b, show) == RegionsXml(a, show) + RegionsXml(b, show)
  {
    var l, r := RegionsXml(a + b, show), RegionsXml(a, show) + RegionsXml(b, show);
    forall k | 0 <= k < |l|
      ensures l[k] == r[k]
    {
      if k < |a| {
        assert (a + b)[k] == a[k];
      } else {
        assert (a + b)[k] == b[k - |a|];
      }
    }
  }

  /** The annotations of the document: one per item with graphics, in order, with
      ids 1, 2, ... and the name `Annotation <id>`, not read-only; each holds one
      region per graphic of its item, at least one, and each region one `Vertex`
      per point, in order. */
  lemma DocumentAnnotations(ds: PresentationState, show: real -> string)
    ensures var anns, used := ImageScopeXml(ds, show).children, Used(AllGraphics(AnnotationItems(ds)));
      |anns| == |used|
      && forall k :: 0 <= k < |anns| ==>
        var id := Numbers.NatToString(k + 1);
        && anns[k].attributes == [Attribute("Id", id), Attribute("Name", "Annotation " + id), Attribute("ReadOnly", "0")]
        && |RegionsOf(anns[k])| == |used[k]| >= 1
        && forall j :: 0 <= j < |used[k]| ==> VerticesOf(RegionsOf(anns[k])[j]) == VerticesXml(used[k][j], show)
  {
    AnnotationsRendered(AllGraphics(AnnotationItems(ds)), show);
  }

  lemma AnnotationsRendered(gss: seq<seq<seq<Point>>>, show: real -> string)
    ensures var anns, used := AnnotationsXml(Numbering(gss, 0, 0), show), Used(gss);
      |anns| == |used|
      && forall k :: 0 <= k < |anns| ==>
        var id := Numbers.NatToString(k + 1);
        && anns[k].attributes == [Attribute("Id", id), Attribute("Name", "Annotation " + id), Attribute("ReadOnly", "0")]
        && |RegionsOf(anns[k])| == |used[k]| >= 1
        && forall j :: 0 <= j < |used[k]| ==> VerticesOf(RegionsOf(anns[k])[j]) == VerticesXml(used[k][j], show)
  {
    var plan, used := Numbering(gss, 0, 0), Used(gss);
    NumberingAnnotations(gss, 0, 0);
    var anns := AnnotationsXml(plan, show);
    forall k | 0 <= k < |anns|
      ensures var id := Numbers.NatToString(k + 1);
        && anns[k].attributes == [Attribute("Id", id), Attribute("Name", "Annotation " + id), Attribute("ReadOnly", "0")]
        && |RegionsOf(anns[k])| == |used[k]| >= 1
        && forall j :: 0 <= j < |used[k]| ==> VerticesOf(RegionsOf(anns[k])[j]) == VerticesXml(used[k][j], show)
    {
      assert anns[k] == AnnotationXml(plan[k], show);
      assert RegionsOf(anns[k]) == RegionsXml(plan[k].regions, show);
    }
  }

  /** Regions carrying the ids 1, 2, ... in order, type `0` and line colour `65280`. */
  predicate NumberedRegions(rs: seq<Element>) {
    forall j :: 0 <= j < |rs| ==>
      rs[j].attributes == [Attribute("Id", Numbers.NatToString(j + 1)), Attribute("Type", "0"), Attribute("LineColor", "65280")]
  }

  /** The regions of the document, taken together, carry the ids 1, 2, ... without
      gap (the counter is not reset per annotation), type `0` and line colour
      `65280`. */
  lemma DocumentRegions(ds: PresentationState, show: real -> string)
    ensures NumberedRegions(AllRegionElements(ImageScopeXml(ds, show).children))
  {
    var gss := AllGraphics(AnnotationItems(ds));
    RegionsRendered(gss, show);
    assert ImageScopeXml(ds, show).children == AnnotationsXml(Numbering(gss, 0, 0), show);
  }

  lemma RegionsRendered(gss: seq<seq<seq<Point>>>, show: real -> string)
    ensures NumberedRegions(AllRegionElements(AnnotationsXml(Numbering(gss, 0, 0), show)))
  {
    var plan := Numbering(gss, 0, 0);
    NumberingRegions(gss, 0, 0);
    RenderedRegions(plan, show);
    var all := AllRegions(plan);
    var rs := AllRegionElements(AnnotationsXml(plan, show));
    forall j | 0 <= j < |rs|
      ensures rs[j].attributes == [Attribute("Id", Numbers.NatToString(j + 1)), Attribute("Type", "0"), Attribute("LineColor", "65280")]
    {
      assert rs[j] == RegionXml(all[j], show);
    }
  }

  /** No two of the elements carry the same `Id`. */
  predicate UniqueIds(es: seq<Element>) {
    forall i, j :: 0 <= i < j < |es| ==> Get(es[i], "Id") != Get(es[j], "Id")
  }

  /** No two regions of the document share an id. */
  lemma DocumentRegionIdsUnique(ds: PresentationState, show: real -> string)
    ensures UniqueIds(AllRegionElements(ImageScopeXml(ds, show).children))
  {
    DocumentRegions(ds, show);
    RegionIdsUnique(AllRegionElements(ImageScopeXml(ds, show).children));
  }

  lemma RegionIdsUnique(rs: seq<Element>)
    requires NumberedRegions(rs)
    ensures UniqueIds(rs)
  {
    forall i, j | 0 <= i < j < |rs|
      ensures Get(rs[i], "Id") != Get(rs[j], "Id")
    {
      RegionId(rs[i], i + 1);
      RegionId(rs[j], j + 1);
      Numbers.NatToStringDistinct(i + 1, j + 1);
    }
  }

  lemma RegionId(region: Element, id: nat)
    requires region.attributes == [Attribute("Id", Numbers.NatToString(id)), Attribute("Type", "0"), Attribute("LineColor", "65280")]
    ensures Get(region, "Id") == Some(Numbers.NatToString(id))
  {
  }

  // ---- the builder ----

  /** `dicom_to_imagescope_xml`: both counters start at 0; each item with graphics
      takes the next annotation id, and each of its graphics the next region id. */
  method DicomToImageScopeXml(ds: PresentationState, show: real -> string) returns (root: Element)
    ensures root == ImageScopeXml(ds, show)
  {
    var items := AnnotationItems(ds);
    ghost var gss := AllGraphics(items);
    ghost var whole := AnnotationsXml(Numbering(gss, 0, 0), show);
    var annotations: seq<Element> := [];
    var annId: nat := 0;
    var regionId: nat := 0;
    var i := 0;
    while i < |items|
      invariant 0 <= i <= |items|
      invariant annotations + AnnotationsXml(Numbering(gss[i..], annId, regionId), show) == whole
    {
      var polygons := ExtractGraphics(GraphicObjectsOf(items[i]));
      assert polygons == gss[i];
      var rest := gss[i..];
      assert rest[0] == polygons && rest[1..] == gss[i + 1..];
      var annotations', annId', regionId' := AddAnnotation(annotations, polygons, annId, regionId, show);
      NumberingStep(rest, annotations, annotations', annId, regionId, annId', regionId', show);
      annotations, annId, regionId := annotations', annId', regionId';
      i := i + 1;
    }
    root := Element("Annotations", [], annotations, None);
  }

  /** The rendering of a numbering, one item at a time: what one turn of the
      annotation loop appends is the rendering of the first item's annotation. */
  lemma NumberingStep(gss: seq<seq<seq<Point>>>, before: seq<Element>, after: seq<Element>,
                      annId: nat, regionId: nat, annId': nat, regionId': nat, show: real -> string)
    requires gss != []
    requires gss[0] == [] ==> after == before && annId' == annId && regionId' == regionId
    requires gss[0] != [] ==>
      && after == before + [AnnotationXml(AnnotationPlan(annId + 1, RegionsFrom(gss[0], regionId)), show)]
      && annId' == annId + 1 && regionId' == regionId + |gss[0]|
    ensures after + AnnotationsXml(Numbering(gss[1..], annId', regionId'), show)
      == before + AnnotationsXml(Numbering(gss, annId, regionId), show)
  {
    if gss[0] == [] {
      assert Numbering(gss, annId, regionId) == Numbering(gss[1..], annId, regionId);
    } else {
      var p := AnnotationPlan(annId + 1, RegionsFrom(gss[0], regionId));
      var tail := Numbering(gss[1..], annId', regionId');
      assert Numbering(gss, annId, regionId) == [p] + tail;
      AppendAnnotation(before, p, tail, show);
    }
  }

  lemma AppendAnnotation(before: seq<Element>, p: AnnotationPlan, tail: seq<AnnotationPlan>, show: real -> string)
    ensures (before + [AnnotationXml(p, show)]) + AnnotationsXml(tail, show) == before + AnnotationsXml([p] + tail, show)
  {
    AnnotationsXmlCons(p, tail, show);
    var x, rest := AnnotationXml(p, show), AnnotationsXml(tail, show);
    assert (before + [x]) + rest == before + ([x] + rest);
  }

  lemma AnnotationsXmlCons(p: AnnotationPlan, tail: seq<AnnotationPlan>, show: real -> string)
    ensures AnnotationsXml([p] + tail, show) == [AnnotationXml(p, show)] + AnnotationsXml(tail, show)
  {
    assert ([p] + tail)[1..] == tail;
  }

  /** One turn of the annotation loop: an item with graphics takes the next
      annotation id and its `Annotation` is appended; an item without is skipped. */
  method AddAnnotation(annotations: seq<Element>, polygons: seq<seq<Point>>, annId: nat, regionId: nat, show: real -> string)
    returns (out: seq<Element>, annId': nat, regionId': nat)
    ensures polygons == [] ==> out == annotations && annId' == annId && regionId' == regionId
    ensures polygons != [] ==>
      && out == annotations + [AnnotationXml(AnnotationPlan(annId + 1, RegionsFrom(polygons, regionId)), show)]
      && annId' == annId + 1 && regionId' == regionId + |polygons|
  {
    out, annId', regionId' := annotations, annId, regionId;
    if polygons == [] {
      return;
    }
    annId' := annId + 1;
    var regions;
    regions, regionId' := BuildRegions(polygons, regionId, show);
    var id := Numbers.NatToString(annId');
    var ann := Element("Annotation",
      [Attribute("Id", id), Attribute("Name", "Annotation " + id), Attribute("ReadOnly", "0")],
      [Element("Regions", [], regions, None)],
      None);
    out := annotations + [ann];
  }

  /** The region loop: one `Region` per graphic, each taking the next region id. */
  method BuildRegions(polys: seq<seq<Point>>, regionId: nat, show: real -> string)
    returns (regions: seq<Element>, next: nat)
    ensures next == regionId + |polys|
    ensures regions == RegionsXml(RegionsFrom(polys, regionId), show)
  {
    regions := [];
    next := regionId;
    var j := 0;
    while j < |polys|
      invariant 0 <= j <= |polys| && next == regionId + j
      invariant |regions| == j
      invariant forall k :: 0 <= k < j ==> regions[k] == RegionXml(RegionPlan(regionId + k + 1, polys[k]), show)
    {
      next := next + 1;
      var vertices := BuildVertices(polys[j], show);
      var reg := Element("Region",
        [Attribute("Id", Numbers.NatToString(next)), Attribute("Type", "0"), Attribute("LineColor", "65280")],
        [Element("Vertices", [], vertices, None)],
        None);
      regions := regions + [reg];
      j := j + 1;
    }
  }

  /** The vertex loop: one `Vertex` per point, in order. */
  method BuildVertices(poly: seq<Point>, show: real -> string) returns (vertices: seq<Element>)
    ensures vertices == VerticesXml(poly, show)
  {
    vertices := [];
    var k := 0;
    while k < |poly|
      invariant 0 <= k <= |poly| && |vertices| == k
      invariant forall m :: 0 <= m < k ==> vertices[m] == VertexXml(poly[m], show)
    {
      vertices := vertices + [Element("Vertex", [Attribute("X", show(poly[k].x)), Attribute("Y", show(poly[k].y))], [], None)];
      k := k + 1;
    }
  }

  // ---- output path ----

  /** The default output path: the input without its extension, then `_aperio.xml`. */
  function DefaultOutputPath(input: string): string {
    Paths.Root(input) + "_aperio.xml"
  }

  /** The default output path keeps the input's stem, adds `_aperio` and takes the
      extension `.xml`. */
  lemma DefaultOutputPathSplits(input: string)
    requires Paths.HasStem(input)
    ensures Paths.SplitExt(DefaultOutputPath(input)) == (Paths.Root(input) + "_aperio", ".xml")
  {
    Paths.SplitDefaultPath(input, "_aperio", ".xml");
    assert Paths.Root(input) + "_aperio" + ".xml" == DefaultOutputPath(input);
  }
}
