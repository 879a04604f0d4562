/** An abstract parsed product page. The HTML parser and CSS selector engine are not modelled:
    the page simply answers, for each selector string the extractors use, the matched elements
    in document order. */
module Document {
  import opened Wrappers

  /** An element: its text content and its attributes. */
  datatype Element = Element(text: string, attrs: map<string, string>)

  /** The matches of each selector (a selector absent from `matches` matches nothing) and the
      text content of `body`. */
  datatype Page = Page(matches: map<string, seq<Element>>, bodyText: string)

  /** A fetched response: whether it is `ok`, its status, its status text, and its body parsed as a
      page. */
  datatype Response = Response(ok: bool, status: int, statusText: string, page: Page)

  /** `$(selector)`. */
  function Select(page: Page, selector: string): (es: seq<Element>)
    ensures selector !in page.matches ==> es == []
  {
    if selector in page.matches then page.matches[selector] else []
  }

  /** `element.attr(name)`: `undefined` when the attribute is absent. */
  function Attr(e: Element, name: string): (r: Option<string>)
    ensures r.Some? <==> name in e.attrs
    ensures r.Some? ==> r.value == e.attrs[name]
  {
    if name in e.attrs then Some(e.attrs[name]) else None
  }

  /** `selection.text()`: the texts of all selected elements, concatenated in order. */
  function TextOf(es: seq<Element>): string {
    if es == [] then "" else TextOf(es[..|es| - 1]) + es[|es| - 1].text
  }

  /** The page in which one selector matches `es` and every other selector is unchanged. */
  function WithMatches(page: Page, selector: string, es: seq<Element>): (p: Page)
    ensures Select(p, selector) == es
    ensures forall other | other != selector :: Select(p, other) == Select(page, other)
    ensures p.bodyText == page.bodyText
  {
    page.(matches := page.matches[selector := es])
  }
}
