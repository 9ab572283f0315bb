/** An already-parsed XML element tree, as ElementTree presents it. */
module Xml {
  import opened Wrappers

  /** An element: its tag, its attributes, its text (absent for an empty element) and its child elements. */
  datatype Element = Element(tag: string, attrib: map<string, string>, text: Option<string>, children: seq<Element>)

  /** `element.text or ''`. */
  function TextOrEmpty(e: Element): string
  {
    match e.text
    case Some(t) => t
    case None => ""
  }
}
