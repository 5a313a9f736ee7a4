/**
  The Prom.ua export tree built by `build_prom_xml`: a root `offers`
  element holding one `offer` element per collected record, each with the
  six record fields as leaf children in a fixed order.
 */
module PromXml {
  import opened Wrappers
  import opened Offers

  /**
    An XML element as a value: its tag, its text (`None` when never set, as
    for a fresh `ET.Element`) and its children in document order.
    Attributes are always empty in the export tree and are not represented.
   */
  datatype Element = Element(tag: string, text: Option<string>, children: seq<Element>)

  /** The tags of an `offer` element's children, in the order they are added. */
  const FieldTags: seq<string> := ["id", "name", "price", "quantity", "categoryId", "image"]

  /** The record's fields, in the order of `FieldTags`. */
  function FieldValues(it: Item): (vs: seq<string>)
    ensures |vs| == |FieldTags|
  {
    [it.id, it.name, it.price, it.quantity, it.categoryId, it.image]
  }

  /** A childless element whose text has been set. */
  function Leaf(tag: string, text: string): Element {
    Element(tag, Some(text), [])
  }

  /** The `offer` element for one record. */
  function OfferElement(it: Item): (e: Element)
    ensures e.tag == "offer" && e.text.None?
    ensures |e.children| == |FieldTags|
    ensures forall k | 0 <= k < |FieldTags| :: e.children[k] == Leaf(FieldTags[k], FieldValues(it)[k])
  {
    Element("offer", None, [
      Leaf("id", it.id),
      Leaf("name", it.name),
      Leaf("price", it.price),
      Leaf("quantity", it.quantity),
      Leaf("categoryId", it.categoryId),
      Leaf("image", it.image)])
  }

  /** The `offer` elements of the records, appended one by one. */
  function OfferElements(items: seq<Item>): seq<Element> {
    if items == [] then []
    else OfferElements(items[..|items| - 1]) + [OfferElement(items[|items| - 1])]
  }

  /** The whole export tree for a list of records. */
  function PromTree(items: seq<Item>): Element {
    Element("offers", None, OfferElements(items))
  }

  /**
    One `offer` child per record, in the records' order, and nothing else
    under the root.
   */
  lemma {:induction false} PromTreeShape(items: seq<Item>)
    ensures PromTree(items).tag == "offers" && PromTree(items).text.None?
    ensures |PromTree(items).children| == |items|
    ensures forall i | 0 <= i < |items| :: PromTree(items).children[i] == OfferElement(items[i])
  {
    if items != [] {
      PromTreeShape(items[..|items| - 1]);
    }
  }

  /**
    `build_prom_xml`: start from an empty `offers` root and add one `offer`
    sub-element per record.
   */
  method BuildPromXml(items: seq<Item>) returns (tree: Element)
    ensures tree == PromTree(items)
    ensures |tree.children| == |items|
    ensures forall i | 0 <= i < |items| :: tree.children[i] == OfferElement(items[i])
  {
    var offers: seq<Element> := [];
    for i := 0 to |items|
      invariant offers == OfferElements(items[..i])
    {
      assert items[..i + 1][..i] == items[..i];
      offers := offers + [OfferElement(items[i])];
    }
    assert items[..|items|] == items;
    tree := Element("offers", None, offers);
    PromTreeShape(items);
  }

  /** Whether `e` is a childless element with the given tag and some text. */
  predicate IsLeaf(e: Element, tag: string) {
    e.tag == tag && e.text.Some? && e.children == []
  }

  /**
    Reads a record back from an `offer` element; `None` unless the element
    has exactly the shape `OfferElement` produces.
   */
  function ReadItem(e: Element): (r: Option<Item>)
    ensures r.Some? <==> e.tag == "offer" && e.text.None? && |e.children| == |FieldTags|
                         && forall k | 0 <= k < |FieldTags| :: IsLeaf(e.children[k], FieldTags[k])
    ensures r.Some? ==> forall k | 0 <= k < |FieldTags| :: Some(FieldValues(r.value)[k]) == e.children[k].text
  {
    if e.tag == "offer" && e.text.None? && |e.children| == |FieldTags|
       && forall k | 0 <= k < |FieldTags| :: IsLeaf(e.children[k], FieldTags[k])
    then
      var cs := e.children;
      Some(Item(cs[0].text.value, cs[1].text.value, cs[2].text.value,
                cs[3].text.value, cs[4].text.value, cs[5].text.value))
    else None
  }

  /** Reads the records of a sequence of `offer` elements, failing on the first malformed one. */
  function ReadAll(es: seq<Element>): (r: Option<seq<Item>>)
    ensures r.Some? ==> |r.value| == |es|
  {
    if es == [] then Some([])
    else
      match (ReadAll(es[..|es| - 1]), ReadItem(es[|es| - 1]))
      case (Some(front), Some(last)) => Some(front + [last])
      case _ => None
  }

  /** Reads the records of an export tree. */
  function ReadOffers(t: Element): Option<seq<Item>> {
    if t.tag == "offers" && t.text.None? then ReadAll(t.children) else None
  }

  /** The record survives being written as an `offer` element. */
  lemma ReadOfferElement(it: Item)
    ensures ReadItem(OfferElement(it)) == Some(it)
  {
  }

  /** An `offer` element that reads back as a record is that record's element. */
  lemma OfferElementOfRead(e: Element)
    requires ReadItem(e).Some?
    ensures OfferElement(ReadItem(e).value) == e
  {
    var it := ReadItem(e).value;
    var o := OfferElement(it);
    forall k | 0 <= k < |FieldTags|
      ensures o.children[k] == e.children[k]
    {
      assert e.children[k].text == Some(FieldValues(it)[k]);
    }
    assert o.children == e.children;
  }

  lemma {:induction false} ReadAllOfferElements(items: seq<Item>)
    ensures ReadAll(OfferElements(items)) == Some(items)
  {
    if items != [] {
      var front := items[..|items| - 1];
      ReadAllOfferElements(front);
      ReadOfferElement(items[|items| - 1]);
      var es := OfferElements(items);
      assert es[..|es| - 1] == OfferElements(front);
      assert front + [items[|items| - 1]] == items;
    }
  }

  lemma {:induction false} OfferElementsOfReadAll(es: seq<Element>, items: seq<Item>)
    requires ReadAll(es) == Some(items)
    ensures OfferElements(items) == es
  {
    if es != [] {
      var front := es[..|es| - 1];
      var last := es[|es| - 1];
      var fs := ReadAll(front).value;
      OfferElementsOfReadAll(front, fs);
      OfferElementOfRead(last);
      assert items == fs + [ReadItem(last).value];
      assert items[..|items| - 1] == fs;
      assert es == front + [last];
    }
  }

  /** The export tree holds exactly the records it was built from, in order. */
  lemma ReadPromTree(items: seq<Item>)
    ensures ReadOffers(PromTree(items)) == Some(items)
  {
    ReadAllOfferElements(items);
  }

  /** Every tree that reads back as a list of records is the export tree of that list. */
  lemma PromTreeOfRead(t: Element, items: seq<Item>)
    requires ReadOffers(t) == Some(items)
    ensures PromTree(items) == t
  {
    OfferElementsOfReadAll(t.children, items);
  }
}
