/** The DICOM-to-XML mirror: every data element of a dataset becomes an `Element`
    child carrying its tag, value representation and name; the items of a sequence
    become nested `Item` children, mirrored in turn; every other element carries the
    string form of its value as text. */
module XmlMirror {
  import opened Options
  import opened Dicom
  import opened Xml
  import Numbers
  import Paths

  // ---- tag and name ----

  /** `f"({group:04X},{element:04X})"`: the tag as two groups of four upper-case
      hexadecimal digits (section 7.1 of DICOM PS3.5). */
  function FormatTag(t: Tag): (s: string)
    ensures |s| == 11 && s[0] == '(' && s[5] == ',' && s[10] == ')'
    ensures forall k :: 1 <= k < 5 || 6 <= k < 10 ==> Numbers.IsHexDigit(s[k])
  {
    "(" + Numbers.Hex4(t.group) + "," + Numbers.Hex4(t.element) + ")"
  }

  /** Reads a tag back from its printed form; `None` for any other text. */
  function ParseTag(s: string): Option<Tag> {
    if |s| == 11 && s[0] == '(' && s[5] == ',' && s[10] == ')'
       && (forall k :: 1 <= k < 5 ==> Numbers.IsHexDigit(s[k]))
       && (forall k :: 6 <= k < 10 ==> Numbers.IsHexDigit(s[k]))
    then
      assert forall k :: 0 <= k < 4 ==> s[1..5][k] == s[k + 1] && s[6..10][k] == s[k + 6];
      Some(Tag(Numbers.ParseHex4(s[1..5]), Numbers.ParseHex4(s[6..10])))
    else None
  }

  /** The printed tag determines the tag. */
  lemma FormatTagRoundTrip(t: Tag)
    ensures ParseTag(FormatTag(t)) == Some(t)
  {
    var s := FormatTag(t);
    assert s[1..5] == Numbers.Hex4(t.group);
    assert s[6..10] == Numbers.Hex4(t.element);
    Numbers.Hex4RoundTrip(t.group);
    Numbers.Hex4RoundTrip(t.element);
  }

  /** Distinct tags print differently. */
  lemma FormatTagInjective(t: Tag, u: Tag)
    requires FormatTag(t) == FormatTag(u)
    ensures t == u
  {
    FormatTagRoundTrip(t);
    FormatTagRoundTrip(u);
  }

  /** `element.keyword or tag`: the keyword, or the printed tag for an element the
      data dictionary does not name; never empty. */
  function NameOf(e: DataElement): (name: string)
    ensures e.keyword != [] ==> name == e.keyword
    ensures e.keyword == [] ==> name == FormatTag(e.tag)
    ensures name != []
  {
    if e.keyword != [] then e.keyword else FormatTag(e.tag)
  }

  // ---- the mirror as a function of the dataset ----

  /** The items a sequence element iterates over (none for a value that is not a
      sequence, which a well-formed `SQ` element never has). */
  function SequenceItems(v: ElementValue): seq<Dataset> {
    match v
    case Items(items) => items
    case Printed(_) => []
  }

  /** `str(element.value)` (empty for sequence items, which a well-formed non-`SQ`
      element never has). */
  function PrintedText(v: ElementValue): string {
    match v
    case Items(_) => ""
    case Printed(text) => text
  }

  /** The children `_add_dataset_to_element` appends for a dataset: one `Element`
      per data element, in order. */
  function MirrorDataset(ds: Dataset): (es: seq<Element>)
    ensures |es| == |ds.elements|
    decreases ds, 1
  {
    seq(|ds.elements|, k requires 0 <= k < |ds.elements| => MirrorElement(ds.elements[k]))
  }

  /** The `Element` for one data element: attributes `tag`, `vr` and `name`; for a
      sequence one `Item` per item and no text, otherwise the printed value and no
      children. */
  function MirrorElement(e: DataElement): (m: Element)
    ensures m.tag == "Element" && |m.attributes| == 3
    ensures e.vr == "SQ" ==>
      && m.text == None
      && |m.children| == |SequenceItems(e.value)|
      && (forall j :: 0 <= j < |m.children| ==> m.children[j].tag == "Item")
    ensures e.vr != "SQ" ==> m.children == [] && m.text == Some(PrintedText(e.value))
    decreases e, 2
  {
    var attributes := [Attribute("tag", FormatTag(e.tag)), Attribute("vr", e.vr), Attribute("name", NameOf(e))];
    if e.vr == "SQ" then
      Element("Element", attributes, MirrorItems(e), None)
    else
      Element("Element", attributes, [], Some(PrintedText(e.value)))
  }

  /** One `Item` per sequence item, each filled with the item's own mirror. */
  function MirrorItems(e: DataElement): (es: seq<Element>)
    ensures |es| == |SequenceItems(e.value)|
    ensures forall j :: 0 <= j < |es| ==> es[j].tag == "Item"
    decreases e, 1
  {
    var items := SequenceItems(e.value);
    seq(|items|, j requires 0 <= j < |items| => MirrorItem(e, items[j]))
  }

  function MirrorItem(e: DataElement, item: Dataset): Element
    requires item in SequenceItems(e.value)
    decreases e, 0
  {
    assert item < e;
    Element("Item", [], MirrorDataset(item), None)
  }

  /** `dataset_to_xml`: the root `DicomDataset` whose children mirror the dataset. */
  function DatasetXml(ds: Dataset): Element {
    Element("DicomDataset", [], MirrorDataset(ds), None)
  }

  // ---- the builder ----

  /** `_add_dataset_to_element`: appends to `parent` one `Element` per data element
      of `dataset`, in order, filling the items of a sequence recursively. */
  method AddDatasetToElement(dataset: Dataset, parent: Element) returns (filled: Element)
    ensures filled == parent.(children := parent.children + MirrorDataset(dataset))
    decreases dataset, 1
  {
    filled := parent;
    var i := 0;
    while i < |dataset.elements|
      invariant 0 <= i <= |dataset.elements|
      invariant filled == parent.(children := parent.children + MirrorDataset(dataset)[..i])
    {
      var child := MakeElement(dataset.elements[i]);
      ghost var mirrored := MirrorDataset(dataset);
      assert child == mirrored[i];
      PrefixStep(mirrored, i);
      filled := filled.(children := filled.children + [child]);
      i := i + 1;
    }
    assert MirrorDataset(dataset)[..i] == MirrorDataset(dataset);
  }

  /** The `Element` child for one data element, before it is appended. */
  method MakeElement(element: DataElement) returns (child: Element)
    ensures child == MirrorElement(element)
    decreases element, 1
  {
    var tag := FormatTag(element.tag);
    var keyword := if element.keyword != [] then element.keyword else tag;
    child := Element("Element", [Attribute("tag", tag), Attribute("vr", element.vr), Attribute("name", keyword)], [], None);
    if element.vr == "SQ" {
      child := AddItems(element, child);
    } else {
      child := child.(text := Some(PrintedText(element.value)));
    }
  }

  /** The loop over a sequence's items: one `Item` child per item, filled in turn. */
  method AddItems(element: DataElement, child: Element) returns (filled: Element)
    ensures filled == child.(children := child.children + MirrorItems(element))
    decreases element, 0
  {
    filled := child;
    var items := SequenceItems(element.value);
    var j := 0;
    while j < |items|
      invariant 0 <= j <= |items|
      invariant filled == child.(children := child.children + MirrorItems(element)[..j])
    {
      assert items[j] in SequenceItems(element.value);
      assert items[j] < element;
      var itemElem := AddDatasetToElement(items[j], Element("Item", [], [], None));
      ghost var mirrored := MirrorItems(element);
      assert itemElem == mirrored[j];
      PrefixStep(mirrored, j);
      filled := filled.(children := filled.children + [itemElem]);
      j := j + 1;
    }
    assert MirrorItems(element)[..j] == MirrorItems(element);
  }

  lemma PrefixStep(s: seq<Element>, i: nat)
    requires i < |s|
    ensures s[..i + 1] == s[..i] + [s[i]]
  {
  }

  /** `dataset_to_xml`. */
  method DatasetToXml(dataset: Dataset) returns (root: Element)
    ensures root == DatasetXml(dataset)
  {
    root := Element("DicomDataset", [], [], None);
    root := AddDatasetToElement(dataset, root);
  }

  /** `os.path.splitext(dicom_file)[0] + ".xml"`. */
  function DefaultOutputPath(input: string): string {
    Paths.Root(input) + ".xml"
  }

  /** The default output path keeps the input's stem and takes the extension `.xml`. */
  lemma DefaultOutputPathSplits(input: string)
    requires Paths.HasStem(input)
    ensures Paths.SplitExt(DefaultOutputPath(input)) == (Paths.Root(input), ".xml")
  {
    Paths.SplitDefaultPath(input, "", ".xml");
    assert Paths.Root(input) + "" + ".xml" == DefaultOutputPath(input);
    assert Paths.Root(input) + "" == Paths.Root(input);
  }

  // ---- reading the mirror back ----

  /** Reads the data elements back from the children of a `DicomDataset` or `Item`
      element. */
  function UnmirrorDataset(parent: Element): (ds: Dataset)
    ensures |ds.elements| == |parent.children|
    decreases parent, 1
  {
    Dataset(seq(|parent.children|, k requires 0 <= k < |parent.children| => UnmirrorElement(parent.children[k])))
  }

  /** Reads one data element back from its `Element`: the tag from `tag`, the keyword
      from `name` unless that is the printed tag, and the items or the text. */
  function UnmirrorElement(m: Element): DataElement
    decreases m, 1
  {
    var tagText := Get(m, "tag").GetOr("");
    var vr := Get(m, "vr").GetOr("");
    var name := Get(m, "name").GetOr("");
    var value :=
      if vr == "SQ" then Items(UnmirrorItems(m))
      else Printed(m.text.GetOr(""));
    DataElement(ParseTag(tagText).GetOr(Tag(0, 0)), vr, if name == tagText then "" else name, value)
  }

  /** Reads the items of a sequence back from the `Item` children. */
  function UnmirrorItems(m: Element): (items: seq<Dataset>)
    ensures |items| == |m.children|
    decreases m, 0
  {
    seq(|m.children|, j requires 0 <= j < |m.children| => UnmirrorDataset(m.children[j]))
  }

  /** No keyword reads like a printed tag, here or in any nested item; DICOM keywords
      are names made of letters and digits, so this always holds. */
  predicate PlainKeywords(ds: Dataset)
    decreases ds
  {
    forall k :: 0 <= k < |ds.elements| ==> PlainKeyword(ds.elements[k])
  }

  predicate PlainKeyword(e: DataElement)
    decreases e
  {
    e.keyword != FormatTag(e.tag)
    && (e.value.Items? ==> forall j :: 0 <= j < |e.value.items| ==> PlainKeywords(e.value.items[j]))
  }

  /** The mirror loses nothing: every element's tag, value representation, keyword
      and value, nested items included, can be read back from it. */
  lemma DatasetXmlRoundTrip(ds: Dataset)
    requires WellFormed(ds) && PlainKeywords(ds)
    ensures UnmirrorDataset(DatasetXml(ds)) == ds
  {
    ChildrenRoundTrip(ds, DatasetXml(ds));
  }

  lemma {:induction false} ChildrenRoundTrip(ds: Dataset, parent: Element)
    requires WellFormed(ds) && PlainKeywords(ds)
    requires parent.children == MirrorDataset(ds)
    ensures UnmirrorDataset(parent) == ds
    decreases ds, 1
  {
    var back := UnmirrorDataset(parent);
    forall k | 0 <= k < |ds.elements|
      ensures back.elements[k] == ds.elements[k]
    {
      ElementRoundTrip(ds.elements[k]);
    }
  }

  lemma {:induction false} ElementRoundTrip(e: DataElement)
    requires WellFormedElement(e) && PlainKeyword(e)
    ensures UnmirrorElement(MirrorElement(e)) == e
    decreases e, 1
  {
    var m := MirrorElement(e);
    MirrorAttributes(e);
    FormatTagRoundTrip(e.tag);
    var back := UnmirrorElement(m);
    assert back.tag == e.tag && back.vr == e.vr && back.keyword == e.keyword;
    if e.vr == "SQ" {
      ItemsRoundTrip(e);
      assert back.value == Items(UnmirrorItems(m));
    } else {
      assert m.text == Some(e.value.text);
      assert back.value == Printed(e.value.text);
    }
    assert back.value == e.value;
  }

  lemma {:induction false} ItemsRoundTrip(e: DataElement)
    requires WellFormedElement(e) && PlainKeyword(e) && e.vr == "SQ"
    ensures UnmirrorItems(MirrorElement(e)) == e.value.items
    decreases e, 0
  {
    var m := MirrorElement(e);
    var items := e.value.items;
    var back := UnmirrorItems(m);
    assert m.children == MirrorItems(e);
    forall j | 0 <= j < |items|
      ensures back[j] == items[j]
    {
      assert items[j] in SequenceItems(e.value);
      assert m.children[j] == MirrorItem(e, items[j]);
      assert WellFormed(items[j]) && PlainKeywords(items[j]);
      ChildrenRoundTrip(items[j], m.children[j]);
    }
  }

  /** The attributes of an element's mirror, as `get` reads them. */
  lemma MirrorAttributes(e: DataElement)
    ensures var m := MirrorElement(e);
      Get(m, "tag") == Some(FormatTag(e.tag)) && Get(m, "vr") == Some(e.vr) && Get(m, "name") == Some(NameOf(e))
  {
    var attrs := MirrorElement(e).attributes;
    assert attrs == [Attribute("tag", FormatTag(e.tag)), Attribute("vr", e.vr), Attribute("name", NameOf(e))];
    assert "vr" != "tag" by { assert "vr"[0] != "tag"[0]; }
    assert "name" != "tag" by { assert "name"[0] != "tag"[0]; }
    assert "name" != "vr" by { assert "name"[0] != "vr"[0]; }
    assert attrs[1..][1..] == [Attribute("name", NameOf(e))];
    assert Lookup(attrs, "vr") == Lookup(attrs[1..], "vr");
    assert Lookup(attrs, "name") == Lookup(attrs[1..][1..], "name");
  }
}
