/** The parts of a DICOM dataset the three converters read.

    The GeoJSON and ImageScope converters probe a Grayscale Softcopy Presentation
    State's Graphic Annotation Sequence (section C.10.5 of DICOM PS3.3) with
    `hasattr`; here every attribute they probe is an `Option`. The XML mirror walks
    any dataset element by element; for it a dataset is the list of its data elements,
    each with its tag (section 7.1 of DICOM PS3.5), value representation, keyword and
    value, where a sequence (`SQ`) holds nested datasets (section 7.5 of DICOM PS3.5). */
module Dicom {
  import opened Options
  import Numbers

  /** One component of a multi-valued attribute as the Python code receives it:
      a number the DICOM library already decoded, or text. */
  datatype Component = Num(r: real) | Str(s: string)

  /** The value of an attribute such as GraphicData or AnchorPoint, in the three
      shapes the converters test for: a list (or tuple) of components, a string
      (whose components are separated by backslashes, section 6.4 of DICOM PS3.5),
      or a single number. */
  datatype Value = List(items: seq<Component>) | Text(s: string) | Number(r: real)

  /** An item of the Graphic Object Sequence (0070,0009). */
  datatype GraphicObject = GraphicObject(
    graphicType: Option<string>,
    graphicData: Option<Value>,
    graphicFilled: Option<string>)

  /** An item of the Compound Graphic Sequence (0070,0209). */
  datatype CompoundGraphic = CompoundGraphic(
    compoundGraphicType: Option<string>,
    graphicData: Option<Value>)

  /** An item of the Text Object Sequence (0070,0008). */
  datatype TextObject = TextObject(
    unformattedTextValue: Option<string>,
    anchorPoint: Option<Value>)

  /** An item of the Graphic Annotation Sequence (0070,0001). */
  datatype AnnotationItem = AnnotationItem(
    textObjects: Option<seq<TextObject>>,
    graphicObjects: Option<seq<GraphicObject>>,
    compoundGraphics: Option<seq<CompoundGraphic>>)

  /** The presentation state the annotation converters read. */
  datatype PresentationState = PresentationState(graphicAnnotations: Option<seq<AnnotationItem>>)

  /** `getattr(ds, "GraphicAnnotationSequence", [])`. */
  function AnnotationItems(ds: PresentationState): seq<AnnotationItem> {
    ds.graphicAnnotations.GetOr([])
  }

  /** `getattr(seq, "GraphicObjectSequence", [])`. */
  function GraphicObjectsOf(item: AnnotationItem): seq<GraphicObject> {
    item.graphicObjects.GetOr([])
  }

  /** `getattr(seq, "CompoundGraphicSequence", [])`. */
  function CompoundGraphicsOf(item: AnnotationItem): seq<CompoundGraphic> {
    item.compoundGraphics.GetOr([])
  }

  // ---- the generic dataset the XML mirror walks ----

  /** A data element tag: a 16-bit group number and a 16-bit element number. */
  datatype Tag = Tag(group: Numbers.uint16, element: Numbers.uint16)

  /** A data element's value: the items of a sequence, or, for every other value
      representation, the value's string form (Python's `str(element.value)`). */
  datatype ElementValue = Items(items: seq<Dataset>) | Printed(text: string)

  datatype DataElement = DataElement(tag: Tag, vr: string, keyword: string, value: ElementValue)

  /** A dataset as iterated: its data elements in order. */
  datatype Dataset = Dataset(elements: seq<DataElement>)

  /** The DICOM library's guarantee: an element holds sequence items exactly when its
      value representation is `SQ`, and so does every nested dataset. */
  predicate WellFormed(ds: Dataset)
    decreases ds
  {
    forall k :: 0 <= k < |ds.elements| ==> WellFormedElement(ds.elements[k])
  }

  predicate WellFormedElement(e: DataElement)
    decreases e
  {
    (e.vr == "SQ" <==> e.value.Items?)
    && (e.value.Items? ==> forall j :: 0 <= j < |e.value.items| ==> WellFormed(e.value.items[j]))
  }
}
