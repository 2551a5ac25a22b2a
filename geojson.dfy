/** The GeoJSON converter for QuPath: every graphic object of every Graphic
    Annotation Sequence item (section C.10.5 of DICOM PS3.3) becomes a record with a
    type, a filled flag, its points and the item's label; the records whose type has
    a GeoJSON shape become features, each carrying the measurement its label
    announces. */
module GeoJson {
  import opened Options
  import opened Dicom
  import opened Coordinates
  import Text
  import Numbers
  import Paths
  import Measurement

  // ---- reading coordinates ----

  /** `parse_float_from_coordinate`: a number as it is; text through `float`, then
      through `float` once more after `strip()`, and 0.0 when both raise. The second
      attempt can only succeed on text that holds one of the information separators
      U+001C to U+001F, which `strip()` removes and `float` does not. */
  function ParseFloatFromCoordinate(c: Component): (r: real)
    ensures ToFloat(c).Some? ==> r == ToFloat(c).value
    ensures c.Str? && ToFloat(c).None? ==> r == Numbers.ParseReal(Text.Strip(c.s)).GetOr(0.0)
    ensures c.Str? && ToFloat(c).None? && Numbers.NoSeparators(c.s) ==> r == 0.0
  {
    match c
    case Num(x) => x
    case Str(s) =>
      match Numbers.ParseReal(s)
      case Some(x) => x
      case None =>
        Numbers.ParseStripped(s);
        Numbers.ParseReal(Text.Strip(s)).GetOr(0.0)
  }

  /** The parts `if part` keeps: the non-empty ones, in order. */
  function NonEmpty(parts: seq<string>): (kept: seq<string>)
    ensures forall k :: 0 <= k < |kept| ==> kept[k] != []
    ensures forall p :: p in kept <==> p in parts && p != []
  {
    if parts == [] then []
    else
      assert parts == [parts[0]] + parts[1..];
      if parts[0] == [] then NonEmpty(parts[1..]) else [parts[0]] + NonEmpty(parts[1..])
  }

  /** The parts of two runs are kept run by run, so the filter keeps order and
      repetitions. */
  lemma {:induction false} NonEmptyAppend(a: seq<string>, b: seq<string>)
    ensures NonEmpty(a + b) == NonEmpty(a) + NonEmpty(b)
  {
    if a == [] {
      assert a + b == b;
    } else {
      assert (a + b)[0] == a[0] && (a + b)[1..] == a[1..] + b;
      NonEmptyAppend(a[1..], b);
    }
  }

  /** One part is kept exactly when it is not empty. */
  lemma NonEmptyOne(p: string)
    ensures NonEmpty([p]) == (if p == [] then [] else [p])
  {
    assert [p][1..] == [];
  }

  /** What the strict reader converts with `float`: a list's items, the non-empty
      backslash-separated parts of a string, or a lone number (whose printed form
      holds no backslash). */
  function StrictComponents(v: Value): seq<Component> {
    match v
    case List(items) => items
    case Text(s) => StrParts(NonEmpty(Text.Split(s, '\\')))
    case Number(r) => [Num(r)]
  }

  /** `[float(c) for c in cs]`: every value, or `None` as soon as one raises. */
  function ParseAll(cs: seq<Component>): (r: Option<seq<real>>)
    ensures r.Some? <==> forall k :: 0 <= k < |cs| ==> ToFloat(cs[k]).Some?
    ensures r.Some? ==> |r.value| == |cs| && forall k :: 0 <= k < |cs| ==> ToFloat(cs[k]) == Some(r.value[k])
  {
    if cs == [] then Some([])
    else
      var init := cs[..|cs| - 1];
      assert forall k :: 0 <= k < |init| ==> init[k] == cs[k];
      match ParseAll(init)
      case None => None
      case Some(xs) =>
        match ToFloat(cs[|cs| - 1])
        case None => None
        case Some(x) => Some(xs + [x])
  }

  /** Each component read with `parse_float_from_coordinate`. */
  function RetriedFloats(cs: seq<Component>): (xs: seq<real>)
    ensures |xs| == |cs|
    ensures forall k :: 0 <= k < |cs| ==> xs[k] == ParseFloatFromCoordinate(cs[k])
  {
    seq(|cs|, k requires 0 <= k < |cs| => ParseFloatFromCoordinate(cs[k]))
  }

  /** Where the strict reader succeeds, neither the retry nor the 0.0 fallback
      applies, so all readers convert the same values; where it fails, some
      component is refused and the plain fallback reads it as 0.0. */
  lemma ParseAllOrZero(cs: seq<Component>)
    ensures ParseAll(cs).Some? ==> FloatsOrZero(cs) == ParseAll(cs).value
    ensures ParseAll(cs).Some? ==> RetriedFloats(cs) == ParseAll(cs).value
    ensures ParseAll(cs).None? ==> exists k :: 0 <= k < |cs| && ToFloat(cs[k]).None? && FloatsOrZero(cs)[k] == 0.0
  {
    if ParseAll(cs).Some? {
      assert forall k :: 0 <= k < |cs| ==> FloatsOrZero(cs)[k] == ParseAll(cs).value[k];
      assert forall k :: 0 <= k < |cs| ==> RetriedFloats(cs)[k] == ParseAll(cs).value[k];
    }
  }

  /** Text without information separators. */
  predicate PlainComponents(cs: seq<Component>) {
    forall k :: 0 <= k < |cs| ==> cs[k].Num? || Numbers.NoSeparators(cs[k].s)
  }

  /** On text without information separators the retry after `strip()` never
      helps: reading with the retry is reading with `float` and 0.0 for a refusal. */
  lemma RetriedIsPlain(cs: seq<Component>)
    requires PlainComponents(cs)
    ensures RetriedFloats(cs) == FloatsOrZero(cs)
  {
    forall k | 0 <= k < |cs|
      ensures RetriedFloats(cs)[k] == FloatsOrZero(cs)[k]
    {
      if cs[k].Str? {
        Numbers.ParseStripped(cs[k].s);
      }
    }
  }

  /** `extract_coordinates`: all values read with `float` and paired, or no point at
      all when one of them raises. */
  function StrictCoordinates(v: Value): (ps: seq<Point>)
    ensures var cs := StrictComponents(v);
      (exists k :: 0 <= k < |cs| && ToFloat(cs[k]).None?) ==> ps == []
    ensures var cs := StrictComponents(v);
      (forall k :: 0 <= k < |cs| ==> ToFloat(cs[k]).Some?) ==>
        |ps| == |cs| / 2
        && forall k :: 0 <= k < |ps| ==> ToFloat(cs[2 * k]) == Some(ps[k].x) && ToFloat(cs[2 * k + 1]) == Some(ps[k].y)
  {
    match ParseAll(StrictComponents(v))
    case Some(xs) => Pairs(xs)
    case None => []
  }

  /** The pairing loop of `extract_coordinates`. */
  method PairUp(xs: seq<real>) returns (ps: seq<Point>)
    ensures ps == Pairs(xs)
  {
    ps := [];
    var i := 0;
    while i < |xs|
      invariant 0 <= i <= |xs| + 1 && i % 2 == 0
      invariant |ps| == (if i < |xs| then i else |xs|) / 2
      invariant forall k :: 0 <= k < |ps| ==> ps[k] == Point(xs[2 * k], xs[2 * k + 1])
    {
      if i + 1 < |xs| {
        ps := ps + [Point(xs[i], xs[i + 1])];
      }
      i := i + 2;
    }
  }

  /** The comprehension of `extract_coordinates`, which stops at the first value
      `float` refuses. */
  method ParseEach(cs: seq<Component>) returns (data: Option<seq<real>>)
    ensures data == ParseAll(cs)
  {
    var xs: seq<real> := [];
    var i := 0;
    while i < |cs|
      invariant 0 <= i <= |cs|
      invariant ParseAll(cs[..i]) == Some(xs)
    {
      var x := ToFloat(cs[i]);
      if x.None? {
        return None;
      }
      assert cs[..i + 1][..i] == cs[..i];
      xs := xs + [x.value];
      i := i + 1;
    }
    assert cs[..i] == cs;
    return Some(xs);
  }

  /** `extract_coordinates`. */
  method ExtractCoordinates(v: Value) returns (coords: seq<Point>)
    ensures coords == StrictCoordinates(v)
  {
    var data := ParseEach(StrictComponents(v));
    if data.None? {
      return [];
    }
    coords := PairUp(data.value);
  }

  /** A backslash-separated string reads like the list of its non-empty parts: the
      strict reader drops empty parts before converting. */
  lemma StrictSkipsEmptyParts(parts: seq<string>)
    requires |parts| >= 1
    requires forall k :: 0 <= k < |parts| ==> '\\' !in parts[k]
    ensures StrictCoordinates(Text(Text.Join(parts, '\\'))) == StrictCoordinates(List(StrParts(NonEmpty(parts))))
  {
    Text.SplitJoin(parts, '\\');
  }

  /** The components a value splits into when a list is taken as it is and a string
      is split at its backslashes, empty parts kept; a string without a backslash
      and a lone number give none. */
  function Components(v: Value): seq<Component> {
    match v
    case List(items) => items
    case Text(s) => if '\\' in s then StrParts(Text.Split(s, '\\')) else []
    case Number(_) => []
  }

  /** `extract_coordinates_robust`: every component is read, 0.0 standing in for
      one that does not parse, and the values are paired; it never fails. */
  function RobustCoordinates(v: Value): (ps: seq<Point>)
    ensures |ps| == |Components(v)| / 2
    ensures forall k :: 0 <= k < |ps| ==>
      ps[k] == Point(ParseFloatFromCoordinate(Components(v)[2 * k]), ParseFloatFromCoordinate(Components(v)[2 * k + 1]))
    ensures v.Number? || (v.Text? && '\\' !in v.s) ==> ps == []
  {
    Pairs(RetriedFloats(Components(v)))
  }

  /** The pairing loop of `extract_coordinates_robust`, which reads each value of a
      pair with `parse_float_from_coordinate`. */
  method PairUpOrZero(cs: seq<Component>) returns (coords: seq<Point>)
    ensures coords == Pairs(RetriedFloats(cs))
  {
    coords := [];
    var i := 0;
    while i < |cs|
      invariant 0 <= i <= |cs| + 1 && i % 2 == 0
      invariant |coords| == (if i < |cs| then i else |cs|) / 2
      invariant forall k :: 0 <= k < |coords| ==>
        coords[k] == Point(ParseFloatFromCoordinate(cs[2 * k]), ParseFloatFromCoordinate(cs[2 * k + 1]))
    {
      if i + 1 < |cs| {
        var x := ParseFloatFromCoordinate(cs[i]);
        var y := ParseFloatFromCoordinate(cs[i + 1]);
        coords := coords + [Point(x, y)];
      }
      i := i + 2;
    }
    PairsOrZero(cs, coords);
  }

  lemma PairsOrZero(cs: seq<Component>, coords: seq<Point>)
    requires |coords| == |cs| / 2
    requires forall k :: 0 <= k < |coords| ==>
      coords[k] == Point(ParseFloatFromCoordinate(cs[2 * k]), ParseFloatFromCoordinate(cs[2 * k + 1]))
    ensures coords == Pairs(RetriedFloats(cs))
  {
  }

  /** `extract_coordinates_robust`. */
  method ExtractCoordinatesRobust(v: Value) returns (coords: seq<Point>)
    ensures coords == RobustCoordinates(v)
  {
    coords := PairUpOrZero(Components(v));
  }

  /** Where every value of a list parses, the strict and the robust reader agree. */
  lemma StrictAgreesWithRobust(items: seq<Component>)
    requires forall k :: 0 <= k < |items| ==> ToFloat(items[k]).Some?
    ensures StrictCoordinates(List(items)) == RobustCoordinates(List(items))
  {
    var ps, qs := StrictCoordinates(List(items)), RobustCoordinates(List(items));
    forall k | 0 <= k < |ps|
      ensures ps[k] == qs[k]
    {
      assert ToFloat(items[2 * k]) == Some(ps[k].x);
    }
  }

  // ---- the text object ----

  /** What `extract_text_object` returns: the stripped label and the anchor point. */
  datatype TextInfo = TextInfo(labelText: string, anchor: Option<Point>)

  /** The first item of the Text Object Sequence, when there is one. */
  function FirstTextObject(item: AnnotationItem): Option<TextObject> {
    match item.textObjects
    case Some(ts) => if |ts| > 0 then Some(ts[0]) else None
    case None => None
  }

  /** `[float(a), float(b)]`, or `None` when either raises. */
  function BothFloats(a: Component, b: Component): Option<Point> {
    if ToFloat(a).Some? && ToFloat(b).Some? then Some(Point(ToFloat(a).value, ToFloat(b).value)) else None
  }

  /** The anchor point as `extract_text_object` reads it: the first two items of a
      list of at least two; otherwise the first two backslash-separated parts of the
      value's printed form. A shorter list prints in brackets, so its first part
      never parses; a lone number prints without a backslash. The anchor exists
      exactly when the value has at least two components and the first two parse. */
  function AnchorOf(a: Value): (pt: Option<Point>)
    ensures pt.Some? <==> |Components(a)| >= 2 && ToFloat(Components(a)[0]).Some? && ToFloat(Components(a)[1]).Some?
    ensures pt.Some? ==> ToFloat(Components(a)[0]) == Some(pt.value.x) && ToFloat(Components(a)[1]) == Some(pt.value.y)
  {
    match a
    case List(items) =>
      if |items| >= 2 then BothFloats(items[0], items[1]) else None
    case Text(s) =>
      if '\\' in s then
        var parts := Text.Split(s, '\\');
        Text.CountPositive(s, '\\');
        if |parts| >= 2 then BothFloats(Str(parts[0]), Str(parts[1])) else None
      else None
    case Number(_) => None
  }

  /** `extract_text_object`: the label is the first text object's unformatted text,
      stripped, or empty when there is none; so is the anchor point. */
  function ExtractTextObject(item: AnnotationItem): (info: TextInfo)
    ensures Text.IsStripped(info.labelText)
    ensures FirstTextObject(item).None? ==> info == TextInfo("", None)
    ensures FirstTextObject(item).Some? ==>
      info.labelText == Text.Strip(FirstTextObject(item).value.unformattedTextValue.GetOr(""))
    ensures info.anchor.Some? ==>
      FirstTextObject(item).Some? && FirstTextObject(item).value.anchorPoint.Some?
      && var cs := Components(FirstTextObject(item).value.anchorPoint.value);
        |cs| >= 2 && ToFloat(cs[0]) == Some(info.anchor.value.x) && ToFloat(cs[1]) == Some(info.anchor.value.y)
  {
    match FirstTextObject(item)
    case None => TextInfo("", None)
    case Some(t) =>
      var anchor := match t.anchorPoint case Some(a) => AnchorOf(a) case None => None;
      Text.StripShape(t.unformattedTextValue.GetOr(""));
      TextInfo(Text.Strip(t.unformattedTextValue.GetOr("")), anchor)
  }

  // ---- graphic records ----

  /** A circle as the converter keeps it: the centre and the point on the rim given
      by the second coordinate pair; the radius is their distance. */
  datatype Circle = Circle(center: Point, rim: Point)

  /** One object of `extract_graphic_objects`'s result. */
  datatype GraphicRecord = GraphicRecord(
    graphicType: string,
    filled: bool,
    coordinates: seq<Point>,
    labelText: string,
    circle: Option<Circle>)

  /** The points of an object, read robustly; none when it has no GraphicData. */
  function CoordinatesOf(data: Option<Value>): seq<Point> {
    match data
    case Some(v) => RobustCoordinates(v)
    case None => []
  }

  /** The record of one item of the Graphic Object Sequence. */
  function PlainRecord(g: GraphicObject, labelText: string): GraphicRecord {
    var t := g.graphicType.GetOr("UNKNOWN");
    var coords := CoordinatesOf(g.graphicData);
    GraphicRecord(t, g.graphicFilled == Some("Y"), coords, labelText,
      if t == "CIRCLE" && |coords| == 2 then Some(Circle(coords[0], coords[1])) else None)
  }

  /** The records of the Graphic Object Sequence, one per item, in order. */
  function PlainRecords(gs: seq<GraphicObject>, labelText: string): (rs: seq<GraphicRecord>)
    ensures |rs| == |gs|
    ensures forall k :: 0 <= k < |gs| ==> rs[k] == PlainRecord(gs[k], labelText)
  {
    seq(|gs|, k requires 0 <= k < |gs| => PlainRecord(gs[k], labelText))
  }

  /** The record of one item of the Compound Graphic Sequence that has a type. */
  function CompoundRecord(t: string, c: CompoundGraphic, labelText: string): GraphicRecord {
    GraphicRecord(t, false, CoordinatesOf(c.graphicData), labelText, None)
  }

  /** The records of the Compound Graphic Sequence: items without a type are
      skipped, the others kept in order. */
  function CompoundRecords(cs: seq<CompoundGraphic>, labelText: string): (rs: seq<GraphicRecord>)
    ensures |rs| == Typed(cs) <= |cs|
    ensures forall r :: r in rs ==> r.labelText == labelText && !r.filled && r.circle.None?
  {
    if cs == [] then []
    else
      var rest := CompoundRecords(cs[..|cs| - 1], labelText);
      var c := cs[|cs| - 1];
      match c.compoundGraphicType
      case None => rest
      case Some(t) => rest + [CompoundRecord(t, c, labelText)]
  }

  /** How many items of the Compound Graphic Sequence have a type. */
  function Typed(cs: seq<CompoundGraphic>): nat {
    if cs == [] then 0
    else Typed(cs[..|cs| - 1]) + (if cs[|cs| - 1].compoundGraphicType.Some? then 1 else 0)
  }

  /** One item of the Compound Graphic Sequence gives no record without a type, and
      otherwise one unfilled record with its type, its coordinates and the label.
      With `CompoundRecordsAppend` this fixes every compound record. */
  lemma CompoundRecordsOne(c: CompoundGraphic, labelText: string)
    ensures c.compoundGraphicType.None? ==> CompoundRecords([c], labelText) == []
    ensures c.compoundGraphicType.Some? ==>
      CompoundRecords([c], labelText) == [GraphicRecord(c.compoundGraphicType.value, false, CoordinatesOf(c.graphicData), labelText, None)]
  {
    assert [c][..0] == [];
  }

  /** Every compound record comes from an item of the Compound Graphic Sequence and
      carries that item's type and coordinates. */
  lemma {:induction false} CompoundRecordsFrom(cs: seq<CompoundGraphic>, labelText: string)
    ensures forall r :: r in CompoundRecords(cs, labelText) ==>
      exists c :: c in cs && c.compoundGraphicType == Some(r.graphicType) && r.coordinates == CoordinatesOf(c.graphicData)
  {
    if cs != [] {
      var init := cs[..|cs| - 1];
      CompoundRecordsFrom(init, labelText);
      forall c | c in init
        ensures c in cs
      {
      }
    }
  }

  /** `extract_graphic_objects`: the plain records, then the compound ones, all with
      the label of the item's text object. */
  function GraphicRecords(item: AnnotationItem): seq<GraphicRecord> {
    var labelText := ExtractTextObject(item).labelText;
    PlainRecords(GraphicObjectsOf(item), labelText) + CompoundRecords(CompoundGraphicsOf(item), labelText)
  }

  /** The attribute rules of `extract_graphic_objects`: every record carries the
      item's label; a record is filled exactly when it comes from a graphic object
      whose GraphicFilled is `Y`, so compound records never are; a graphic object
      without a type is `UNKNOWN`; and a record has a circle exactly when it comes
      from a `CIRCLE` graphic object with exactly two points. */
  lemma GraphicRecordsAttributes(item: AnnotationItem)
    ensures var rs, gs := GraphicRecords(item), GraphicObjectsOf(item);
      && |gs| <= |rs| <= |gs| + |CompoundGraphicsOf(item)|
      && (forall r :: r in rs ==> r.labelText == ExtractTextObject(item).labelText)
      && (forall k :: 0 <= k < |gs| ==> rs[k].graphicType == gs[k].graphicType.GetOr("UNKNOWN"))
      && (forall k :: 0 <= k < |rs| ==> (rs[k].filled <==> k < |gs| && gs[k].graphicFilled == Some("Y")))
      && (forall k :: 0 <= k < |rs| ==>
            (rs[k].circle.Some? <==> k < |gs| && rs[k].graphicType == "CIRCLE" && |rs[k].coordinates| == 2))
  {
    RecordsAttributes(GraphicObjectsOf(item), CompoundGraphicsOf(item), ExtractTextObject(item).labelText);
  }

  lemma RecordsAttributes(gs: seq<GraphicObject>, cs: seq<CompoundGraphic>, labelText: string)
    ensures var rs := PlainRecords(gs, labelText) + CompoundRecords(cs, labelText);
      && |gs| <= |rs| <= |gs| + |cs|
      && (forall r :: r in rs ==> r.labelText == labelText)
      && (forall k :: 0 <= k < |gs| ==> rs[k].graphicType == gs[k].graphicType.GetOr("UNKNOWN"))
      && (forall k :: 0 <= k < |rs| ==> (rs[k].filled <==> k < |gs| && gs[k].graphicFilled == Some("Y")))
      && (forall k :: 0 <= k < |rs| ==>
            (rs[k].circle.Some? <==> k < |gs| && rs[k].graphicType == "CIRCLE" && |rs[k].coordinates| == 2))
  {
    var ps, qs := PlainRecords(gs, labelText), CompoundRecords(cs, labelText);
    var rs := ps + qs;
    forall k | 0 <= k < |gs|
      ensures rs[k] == PlainRecord(gs[k], labelText)
    {
      assert rs[k] == ps[k];
    }
    forall k | |gs| <= k < |rs|
      ensures rs[k].labelText == labelText && !rs[k].filled && rs[k].circle.None?
    {
      assert rs[k] == qs[k - |gs|];
      assert qs[k - |gs|] in qs;
    }
  }

  /** The compound records keep the order of the sequence: the records of two
      stretches of items are the records of the first, then those of the second. */
  lemma {:induction false} CompoundRecordsAppend(cs: seq<CompoundGraphic>, ds: seq<CompoundGraphic>, labelText: string)
    ensures CompoundRecords(cs + ds, labelText) == CompoundRecords(cs, labelText) + CompoundRecords(ds, labelText)
  {
    if ds == [] {
      assert cs + ds == cs;
    } else {
      var ds' := ds[..|ds| - 1];
      CompoundRecordsAppend(cs, ds', labelText);
      assert (cs + ds)[..|cs + ds| - 1] == cs + ds';
      assert (cs + ds)[|cs + ds| - 1] == ds[|ds| - 1];
    }
  }

  /** The record of one graphic object, as the first loop of
      `extract_graphic_objects` builds it. */
  method MakePlainRecord(g: GraphicObject, labelText: string) returns (r: GraphicRecord)
    ensures r == PlainRecord(g, labelText)
  {
    var t := if g.graphicType.Some? then g.graphicType.value else "UNKNOWN";
    var coords := [];
    if g.graphicData.Some? {
      coords := ExtractCoordinatesRobust(g.graphicData.value);
    }
    var circle := None;
    if t == "CIRCLE" && |coords| == 2 {
      circle := Some(Circle(coords[0], coords[1]));
    }
    r := GraphicRecord(t, g.graphicFilled == Some("Y"), coords, labelText, circle);
  }

  /** The first loop of `extract_graphic_objects`: one record per graphic object. */
  method AppendPlainRecords(records: seq<GraphicRecord>, gs: seq<GraphicObject>, labelText: string)
    returns (out: seq<GraphicRecord>)
    ensures out == records + PlainRecords(gs, labelText)
  {
    out := records;
    var i := 0;
    while i < |gs|
      invariant 0 <= i <= |gs|
      invariant out == records + PlainRecords(gs[..i], labelText)
    {
      var r := MakePlainRecord(gs[i], labelText);
      PlainRecordsNext(gs, i, labelText);
      out := out + [r];
      i := i + 1;
    }
    assert gs[..i] == gs;
  }

  lemma PlainRecordsNext(gs: seq<GraphicObject>, i: nat, labelText: string)
    requires i < |gs|
    ensures PlainRecords(gs[..i + 1], labelText) == PlainRecords(gs[..i], labelText) + [PlainRecord(gs[i], labelText)]
  {
    var a, b := gs[..i + 1], gs[..i];
    assert a == b + [gs[i]];
    assert forall k :: 0 <= k < i ==> a[k] == b[k];
  }

  /** The second loop of `extract_graphic_objects`: one record per compound graphic
      that has a type. */
  method AppendCompoundRecords(records: seq<GraphicRecord>, cs: seq<CompoundGraphic>, labelText: string)
    returns (out: seq<GraphicRecord>)
    ensures out == records + CompoundRecords(cs, labelText)
  {
    out := records;
    var j := 0;
    while j < |cs|
      invariant 0 <= j <= |cs|
      invariant out == records + CompoundRecords(cs[..j], labelText)
    {
      var c := cs[j];
      assert cs[..j + 1][..j] == cs[..j];
      if c.compoundGraphicType.Some? {
        var coords := [];
        if c.graphicData.Some? {
          coords := ExtractCoordinatesRobust(c.graphicData.value);
        }
        out := out + [GraphicRecord(c.compoundGraphicType.value, false, coords, labelText, None)];
      }
      j := j + 1;
    }
    assert cs[..j] == cs;
  }

  /** `extract_graphic_objects`. */
  method ExtractGraphicObjects(item: AnnotationItem) returns (records: seq<GraphicRecord>)
    ensures records == GraphicRecords(item)
  {
    var labelText := ExtractTextObject(item).labelText;
    ghost var plain := PlainRecords(GraphicObjectsOf(item), labelText);
    records := AppendPlainRecords([], GraphicObjectsOf(item), labelText);
    assert records == plain;
    records := AppendCompoundRecords(records, CompoundGraphicsOf(item), labelText);
  }

  // ---- features ----

  /** The image size the converter scales by; either side may be unknown. */
  datatype ImageSize = ImageSize(width: Option<real>, height: Option<real>)

  /** `scale_coordinates`: every point multiplied by the image size, or the points
      unchanged when a side of the image is unknown. */
  function Scaled(coords: seq<Point>, size: ImageSize): (r: seq<Point>)
    ensures |r| == |coords|
  {
    if size.width.None? || size.height.None? then coords
    else
      var w, h := size.width.value, size.height.value;
      seq(|coords|, k requires 0 <= k < |coords| => Point(coords[k].x * w, coords[k].y * h))
  }

  /** `scale_coordinates`, loop by loop. */
  method ScaleCoordinates(coords: seq<Point>, size: ImageSize) returns (r: seq<Point>)
    ensures r == Scaled(coords, size)
  {
    if size.width.None? || size.height.None? {
      return coords;
    }
    var w, h := size.width.value, size.height.value;
    r := [];
    var i := 0;
    while i < |coords|
      invariant 0 <= i <= |coords|
      invariant |r| == i
      invariant forall k :: 0 <= k < i ==> r[k] == Point(coords[k].x * w, coords[k].y * h)
    {
      r := r + [Point(coords[i].x * w, coords[i].y * h)];
      i := i + 1;
    }
    assert forall k :: 0 <= k < |r| ==> r[k] == Scaled(coords, size)[k];
  }

  /** Scaling by the reciprocal size undoes scaling: normalised coordinates are
      recovered from the pixel coordinates of an image of known, non-zero size. */
  lemma ScaledInverse(coords: seq<Point>, w: real, h: real)
    requires w != 0.0 && h != 0.0
    ensures Scaled(Scaled(coords, ImageSize(Some(w), Some(h))), ImageSize(Some(1.0 / w), Some(1.0 / h))) == coords
  {
    var once := Scaled(coords, ImageSize(Some(w), Some(h)));
    var back := Scaled(once, ImageSize(Some(1.0 / w), Some(1.0 / h)));
    forall k | 0 <= k < |coords|
      ensures back[k] == coords[k]
    {
      calc {
        back[k].x;
        once[k].x * (1.0 / w);
        (coords[k].x * w) * (1.0 / w);
        { assert w * (1.0 / w) == 1.0; }
        coords[k].x;
      }
      calc {
        back[k].y;
        (coords[k].y * h) * (1.0 / h);
        { assert h * (1.0 / h) == 1.0; }
        coords[k].y;
      }
    }
  }

  /** The measurement properties of a feature. */
  datatype MeasurementProp = MeasurementProp(value: real, unit: string)

  /** The outcome of the measurement step: no measurement, one, or a number that
      `float` refuses (which would make the whole feature fail). */
  datatype Measuring = NotMeasured | Measured(prop: MeasurementProp) | Unreadable

  /** The measurement step of `create_geojson_feature`: labels containing `mm` are
      searched, the first match's number read with its comma as a decimal point. */
  function MeasureLabel(labelText: string): Measuring {
    if Text.Contains(labelText, "mm") then
      match Measurement.Find(labelText)
      case None => NotMeasured
      case Some(m) =>
        match Numbers.ParseReal(Text.Replace(m.value, ',', '.'))
        case Some(x) => Measured(MeasurementProp(x, Measurement.UnitText(m.unit)))
        case None => Unreadable
    else NotMeasured
  }

  /** A label yields a measurement exactly when the pattern occurs in it, whether or
      not the `mm` test is made first; its number never fails to read; and it is the
      number and the unit of the leftmost occurrence. */
  lemma MeasureLabelMeaning(labelText: string)
    ensures !MeasureLabel(labelText).Unreadable?
    ensures MeasureLabel(labelText).Measured? <==> exists p, v, w, u :: Measurement.PatternAt(labelText, p, v, w, u)
    ensures MeasureLabel(labelText).Measured? ==>
      var m := Measurement.Find(labelText).value;
      MeasureLabel(labelText).prop.unit == Measurement.UnitText(m.unit)
      && Numbers.ParseReal(Text.Replace(m.value, ',', '.')) == Some(MeasureLabel(labelText).prop.value)
  {
    Measurement.FindIff(labelText);
    if Measurement.Find(labelText).Some? {
      Measurement.MmGuardIsRedundant(labelText);
      Measurement.FindParses(labelText);
    }
  }

  /** The circle properties: the circle the radius is measured on, and its centre
      scaled like the coordinates. */
  datatype CircleProps = CircleProps(circle: Circle, center: Point)

  datatype Properties = Properties(
    graphicType: string,
    filled: bool,
    labelText: string,
    measurement: Option<MeasurementProp>,
    circle: Option<CircleProps>)

  /** A line through the scaled points, or the polygon `circle_to_polygon`
      approximates a circle with, scaled by the image size. */
  datatype Geometry = LineString(points: seq<Point>) | CirclePolygon(circle: Circle, size: ImageSize)

  datatype Feature = Feature(geometry: Geometry, properties: Properties)

  /** `create_geojson_feature`: the properties, then the geometry the type calls for;
      `None` for every other type, for a line of fewer than two points and for a
      circle without the polygon a two-point `CIRCLE` object gets. */
  function FeatureOf(r: GraphicRecord, size: ImageSize): Option<Feature> {
    var props := Properties(r.graphicType, r.filled, Text.Strip(r.labelText), None, None);
    match MeasureLabel(r.labelText)
    case Unreadable => None
    case NotMeasured => ShapeFeature(r, props, size)
    case Measured(m) => ShapeFeature(r, props.(measurement := Some(m)), size)
  }

  function ShapeFeature(r: GraphicRecord, props: Properties, size: ImageSize): Option<Feature> {
    if r.graphicType == "POLYLINE" then
      if |r.coordinates| > 1 then Some(Feature(LineString(Scaled(r.coordinates, size)), props)) else None
    else if r.graphicType == "CIRCLE" then
      match r.circle
      case None => None
      case Some(c) =>
        Some(Feature(CirclePolygon(c, size), props.(circle := Some(CircleProps(c, Scaled([c.center], size)[0])))))
    else if r.graphicType == "ARROW" then
      if |r.coordinates| > 1 then Some(Feature(LineString(Scaled(r.coordinates, size)), props)) else None
    else None
  }

  /** The dispatch of `create_geojson_feature`: a `POLYLINE` or `ARROW` with at
      least two points gives a line through the scaled points, a `CIRCLE` with its
      polygon gives that polygon, and nothing else gives a feature. A feature keeps
      the record's type and filled flag, its stripped label, and the label's
      measurement. */
  lemma FeatureDispatch(r: GraphicRecord, size: ImageSize)
    ensures var f := FeatureOf(r, size);
      && (f.Some? <==>
            ((r.graphicType == "POLYLINE" || r.graphicType == "ARROW") && |r.coordinates| >= 2)
            || (r.graphicType == "CIRCLE" && r.circle.Some?))
      && (f.Some? ==>
            && f.value.properties.graphicType == r.graphicType
            && f.value.properties.filled == r.filled
            && f.value.properties.labelText == Text.Strip(r.labelText)
            && (f.value.properties.measurement.Some? <==> MeasureLabel(r.labelText).Measured?)
            && (f.value.geometry.LineString? <==> r.graphicType != "CIRCLE")
            && (f.value.geometry.LineString? ==> f.value.geometry.points == Scaled(r.coordinates, size)))
  {
    MeasureLabelMeaning(r.labelText);
  }

  /** `create_geojson_feature`, with the properties filled in step by step. */
  method CreateGeoJsonFeature(r: GraphicRecord, size: ImageSize) returns (f: Option<Feature>)
    ensures f == FeatureOf(r, size)
  {
    var props := Properties(r.graphicType, r.filled, Text.Strip(r.labelText), None, None);
    if Text.Contains(r.labelText, "mm") {
      var found := Measurement.Find(r.labelText);
      if found.Some? {
        var value := Numbers.ParseReal(Text.Replace(found.value.value, ',', '.'));
        if value.None? {
          return None;
        }
        props := props.(measurement := Some(MeasurementProp(value.value, Measurement.UnitText(found.value.unit))));
      }
    }
    if r.graphicType == "POLYLINE" {
      if |r.coordinates| > 1 {
        var coords := ScaleCoordinates(r.coordinates, size);
        return Some(Feature(LineString(coords), props));
      }
    } else if r.graphicType == "CIRCLE" {
      if r.circle.None? {
        return None;
      }
      var c := r.circle.value;
      var center := ScaleCoordinates([c.center], size);
      props := props.(circle := Some(CircleProps(c, center[0])));
      return Some(Feature(CirclePolygon(c, size), props));
    } else if r.graphicType == "ARROW" {
      if |r.coordinates| > 1 {
        var coords := ScaleCoordinates(r.coordinates, size);
        return Some(Feature(LineString(coords), props));
      }
    }
    return None;
  }

  // ---- the feature collection ----

  /** The features of a list of records, in order, skipping those that give none. */
  function RecordFeatures(rs: seq<GraphicRecord>, size: ImageSize): (fs: seq<Feature>)
    ensures |fs| <= |rs|
  {
    if rs == [] then []
    else
      RecordFeatures(rs[..|rs| - 1], size)
      + match FeatureOf(rs[|rs| - 1], size) case Some(f) => [f] case None => []
  }

  /** The features of two runs of records are those of the first run followed by
      those of the second: records contribute in order. */
  lemma {:induction false} RecordFeaturesAppend(rs: seq<GraphicRecord>, ss: seq<GraphicRecord>, size: ImageSize)
    ensures RecordFeatures(rs + ss, size) == RecordFeatures(rs, size) + RecordFeatures(ss, size)
    decreases |ss|
  {
    if ss == [] {
      assert rs + ss == rs;
    } else {
      var init := ss[..|ss| - 1];
      assert (rs + ss)[..|rs + ss| - 1] == rs + init;
      assert (rs + ss)[|rs + ss| - 1] == ss[|ss| - 1];
      RecordFeaturesAppend(rs, init, size);
    }
  }

  /** One record contributes its feature when it has one, and nothing otherwise. */
  lemma RecordFeaturesOne(r: GraphicRecord, size: ImageSize)
    ensures RecordFeatures([r], size) == (if FeatureOf(r, size).Some? then [FeatureOf(r, size).value] else [])
  {
    assert [r][..0] == [];
  }

  /** No feature is lost: every record with a feature contributes it. */
  lemma RecordFeaturesComplete(rs: seq<GraphicRecord>, k: nat, size: ImageSize)
    requires k < |rs| && FeatureOf(rs[k], size).Some?
    ensures FeatureOf(rs[k], size).value in RecordFeatures(rs, size)
  {
    assert rs == rs[..k] + [rs[k]] + rs[k + 1..];
    RecordFeaturesAppend(rs[..k] + [rs[k]], rs[k + 1..], size);
    RecordFeaturesAppend(rs[..k], [rs[k]], size);
    RecordFeaturesOne(rs[k], size);
  }

  /** The features of the whole Graphic Annotation Sequence, item after item. */
  function Features(items: seq<AnnotationItem>, size: ImageSize): seq<Feature> {
    if items == [] then []
    else Features(items[..|items| - 1], size) + RecordFeatures(GraphicRecords(items[|items| - 1]), size)
  }

  /** Every feature of a list of records is the feature of one of them, so each has a
      `POLYLINE`, `CIRCLE` or `ARROW` type, and a line has at least two points. */
  lemma {:induction false} RecordFeaturesKinds(rs: seq<GraphicRecord>, size: ImageSize)
    ensures forall f :: f in RecordFeatures(rs, size) ==>
      (exists r :: r in rs && FeatureOf(r, size) == Some(f))
      && f.properties.graphicType in {"POLYLINE", "CIRCLE", "ARROW"}
      && (f.geometry.LineString? ==> |f.geometry.points| >= 2)
  {
    if rs != [] {
      var init, last := rs[..|rs| - 1], rs[|rs| - 1];
      RecordFeaturesKinds(init, size);
      FeatureDispatch(last, size);
      forall r | r in init
        ensures r in rs
      {
      }
    }
  }

  /** Every feature of the collection has a `POLYLINE`, `CIRCLE` or `ARROW` type, and
      every line in it has at least two points. */
  lemma {:induction false} FeaturesKinds(items: seq<AnnotationItem>, size: ImageSize)
    ensures forall f :: f in Features(items, size) ==>
      f.properties.graphicType in {"POLYLINE", "CIRCLE", "ARROW"}
      && (f.geometry.LineString? ==> |f.geometry.points| >= 2)
  {
    if items != [] {
      FeaturesKinds(items[..|items| - 1], size);
      RecordFeaturesKinds(GraphicRecords(items[|items| - 1]), size);
    }
  }

  /** The collection loop of `dicom_to_geojson`: for every item, its records, and
      for every record, its feature when it has one. */
  method DicomToGeoJson(ds: PresentationState, size: ImageSize) returns (features: seq<Feature>)
    ensures features == Features(AnnotationItems(ds), size)
  {
    var items := AnnotationItems(ds);
    features := [];
    var i := 0;
    while i < |items|
      invariant 0 <= i <= |items|
      invariant features == Features(items[..i], size)
    {
      FeaturesStep(items, i, size);
      features := AppendItemFeatures(features, items[i], size);
      i := i + 1;
    }
    assert items[..i] == items;
  }

  lemma FeaturesStep(items: seq<AnnotationItem>, i: nat, size: ImageSize)
    requires i < |items|
    ensures Features(items[..i + 1], size) == Features(items[..i], size) + RecordFeatures(GraphicRecords(items[i]), size)
  {
    assert items[..i + 1][..i] == items[..i];
  }

  /** One turn of the outer loop of `dicom_to_geojson`. */
  method AppendItemFeatures(features: seq<Feature>, item: AnnotationItem, size: ImageSize)
    returns (out: seq<Feature>)
    ensures out == features + RecordFeatures(GraphicRecords(item), size)
  {
    var records := ExtractGraphicObjects(item);
    out := AppendFeatures(features, records, size);
  }

  /** The inner loop of `dicom_to_geojson`. */
  method AppendFeatures(features: seq<Feature>, records: seq<GraphicRecord>, size: ImageSize)
    returns (out: seq<Feature>)
    ensures out == features + RecordFeatures(records, size)
  {
    out := features;
    var j := 0;
    while j < |records|
      invariant 0 <= j <= |records|
      invariant out == features + RecordFeatures(records[..j], size)
    {
      var f := CreateGeoJsonFeature(records[j], size);
      assert records[..j + 1][..j] == records[..j] && records[..j + 1][j] == records[j];
      if f.Some? {
        out := out + [f.value];
      }
      j := j + 1;
    }
    assert records[..j] == records;
  }

  // ---- output path ----

  /** The default output path of the command line: the input without its extension,
      then `.geojson`. */
  function DefaultOutputPath(input: string): string {
    Paths.Root(input) + ".geojson"
  }

  /** The default output path has the input's stem and the extension `.geojson`. */
  lemma DefaultOutputPathSplits(input: string)
    requires Paths.HasStem(input)
    ensures Paths.SplitExt(DefaultOutputPath(input)) == (Paths.Root(input), ".geojson")
  {
    var root := Paths.Root(input);
    assert root + "" == root;
    assert Paths.IsExtension(".geojson") by {
      assert ".geojson"[1..] == "geojson";
    }
    Paths.SplitDefaultPath(input, "", ".geojson");
  }
}
