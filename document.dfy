/** The decoded build document, as `xml.etree.ElementTree` presents it. */
module Document {
  import opened Outcomes

  /** An element: its tag, its attributes, its text (`None` when it has none) and its children. */
  datatype Element = Element(tag: string, attrib: map<string, string>, text: Option<string>, children: seq<Element>)

  /** The index of the first element of `cs` tagged `tag`, or `|cs|` when there is none. */
  function FirstTagged(cs: seq<Element>, tag: string): (k: nat)
    ensures k <= |cs|
    ensures forall j :: 0 <= j < k ==> cs[j].tag != tag
    ensures k < |cs| ==> cs[k].tag == tag
    decreases |cs|
  {
    if cs == [] then 0
    else if cs[0].tag == tag then 0
    else 1 + FirstTagged(cs[1..], tag)
  }

  /** `el.find(tag)`: the first direct child of `el` tagged `tag`, if any. */
  function Find(el: Element, tag: string): (r: Option<Element>)
    ensures r.None? <==> forall j :: 0 <= j < |el.children| ==> el.children[j].tag != tag
    ensures r.Some? ==> exists k :: 0 <= k < |el.children| && el.children[k] == r.value
    ensures r.Some? ==> r.value.tag == tag
    ensures r.Some? ==> r.value == el.children[FirstTagged(el.children, tag)]
  {
    var k := FirstTagged(el.children, tag);
    if k < |el.children| then Some(el.children[k]) else None
  }

  /**
   * `bool(x)` for what `find` returned: `None` is false, and so is an element with no
   * children (an element's truth value is its number of children).
   */
  predicate Truthy(e: Option<Element>)
  {
    e.Some? && |e.value.children| > 0
  }
}
