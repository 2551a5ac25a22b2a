/** The element trees the two XML converters build with `xml.etree.ElementTree`,
    as values: a tag, the attributes in insertion order, the children in order and
    the text, if any. */
module Xml {
  import opened Options

  datatype Attribute = Attribute(name: string, value: string)

  datatype Element = Element(tag: string, attributes: seq<Attribute>, children: seq<Element>, text: Option<string>)

  /** `element.get(name)`: the value of the first attribute with that name. */
  function Get(e: Element, name: string): (v: Option<string>)
    ensures v.Some? <==> exists k :: 0 <= k < |e.attributes| && e.attributes[k].name == name
    ensures v.Some? ==> Attribute(name, v.value) in e.attributes
  {
    Lookup(e.attributes, name)
  }

  function Lookup(attrs: seq<Attribute>, name: string): (v: Option<string>)
    ensures v.Some? <==> exists k :: 0 <= k < |attrs| && attrs[k].name == name
    ensures v.Some? ==> Attribute(name, v.value) in attrs
  {
    if attrs == [] then None
    else if attrs[0].name == name then Some(attrs[0].value)
    else
      var v := Lookup(attrs[1..], name);
      assert forall k :: 0 < k < |attrs| ==> attrs[k] == attrs[1..][k - 1];
      v
  }
}
