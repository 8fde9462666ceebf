/**
 * An abstract web page: its location, the text the extension reads through
 * selectors, and the form controls it writes to.  CSS selector matching is
 * abstracted into maps from selector to the text of the matching nodes and
 * from selector to the first matching control.
 */
module Dom {
  import opened Wrappers

  type Selector = string

  /** Identity of a form control on the page. */
  type ElemId = nat

  /** `window.location`. */
  datatype Location = Location(href: string, hostname: string)

  /** The text views of the page: `document.querySelector(sel).textContent`
      for each selector that matches, and the `textContent` of every node
      `document.querySelectorAll(sel)` returns, in document order. */
  datatype PageText = PageText(first: map<Selector, string>, all: map<Selector, seq<string>>)

  /** `document.querySelector(sel)?.textContent`. */
  function FirstText(page: PageText, sel: Selector): Option<string> {
    if sel in page.first then Some(page.first[sel]) else None
  }

  /** The `textContent`s of `document.querySelectorAll(sel)`. */
  function AllText(page: PageText, sel: Selector): seq<string> {
    if sel in page.all then page.all[sel] else []
  }

  /** A node inserted by the script, with its text and colour. */
  datatype Hint = Hint(text: string, color: string)

  /** What the model tracks of a form control: its `value`, its `style.border`,
      and the nodes inserted directly after it, nearest first. */
  datatype Elem = Elem(value: string, border: string, following: seq<Hint>)

  datatype EventKind = Change | Input

  /** A dispatched DOM event. */
  datatype Event = Event(kind: EventKind, target: ElemId, bubbles: bool)

  /** The live document: fixed location, text and selector resolution; form
      controls whose state scripts change in place; the log of dispatched events. */
  class Document {
    const location: Location
    const text: PageText
    /** The control `document.querySelector(sel)` returns, for each selector that matches one. */
    const resolve: map<Selector, ElemId>
    var elems: map<ElemId, Elem>
    var events: seq<Event>

    /** Every selector resolves to a control of this page. */
    ghost predicate Valid()
      reads this
    {
      resolve.Values <= elems.Keys
    }

    constructor (location: Location, text: PageText, resolve: map<Selector, ElemId>, elems: map<ElemId, Elem>)
      requires resolve.Values <= elems.Keys
      ensures Valid()
      ensures this.location == location && this.text == text && this.resolve == resolve
      ensures this.elems == elems && events == []
    {
      this.location := location;
      this.text := text;
      this.resolve := resolve;
      this.elems := elems;
      this.events := [];
    }

    /** `document.querySelector(sel)` for a form control. */
    function QuerySelector(sel: Selector): (r: Option<ElemId>)
      ensures r.Some? <==> sel in resolve
      ensures r.Some? ==> r.value == resolve[sel]
    {
      if sel in resolve then Some(resolve[sel]) else None
    }

    /** `element.value = v`. */
    method SetValue(id: ElemId, v: string)
      requires Valid() && id in elems
      modifies this
      ensures Valid() && events == old(events)
      ensures elems == old(elems)[id := old(elems)[id].(value := v)]
    {
      elems := elems[id := elems[id].(value := v)];
    }

    /** `element.dispatchEvent(new Event(kind, { bubbles: true }))`. */
    method DispatchEvent(id: ElemId, kind: EventKind)
      requires Valid()
      modifies this
      ensures Valid() && elems == old(elems)
      ensures events == old(events) + [Event(kind, id, true)]
    {
      events := events + [Event(kind, id, true)];
    }

    /** `element.style.border = border`. */
    method SetBorder(id: ElemId, border: string)
      requires Valid() && id in elems
      modifies this
      ensures Valid() && events == old(events)
      ensures elems == old(elems)[id := old(elems)[id].(border := border)]
    {
      elems := elems[id := elems[id].(border := border)];
    }

    /** `element.parentNode.insertBefore(hint, element.nextSibling)`: the hint
        becomes the node directly after the element. */
    method InsertAfter(id: ElemId, hint: Hint)
      requires Valid() && id in elems
      modifies this
      ensures Valid() && events == old(events)
      ensures elems == old(elems)[id := old(elems)[id].(following := [hint] + old(elems)[id].following)]
    {
      elems := elems[id := elems[id].(following := [hint] + elems[id].following)];
    }
  }
}
