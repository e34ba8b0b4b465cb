/**
 * The cite item handed to the citation engine: a key and the optional
 * prefix, suffix, locator, label and suppress-author flag of one
 * reference inside a citation marker. An absent JavaScript property is
 * `None`.
 */
module CiteItems {
  import opened Base

  datatype CiteItem = CiteItem(
    id: string,
    prefix: Option<string>,
    suffix: Option<string>,
    locator: Option<string>,
    locatorLabel: Option<string>,
    suppressAuthor: Option<bool>)

  /** An item that carries only its key, as the in-text form of the older parser produces. */
  function KeyOnly(id: string): (c: CiteItem)
    ensures c.id == id && c.prefix.None? && c.suffix.None? && c.locator.None?
    ensures c.locatorLabel.None? && c.suppressAuthor.None?
  {
    CiteItem(id, None, None, None, None, None)
  }

  /** The keys of a list of cite items, in order. */
  function Ids(items: seq<CiteItem>): (r: seq<string>)
    ensures |r| == |items| && forall i :: 0 <= i < |items| ==> r[i] == items[i].id
  {
    if items == [] then [] else [items[0].id] + Ids(items[1..])
  }
}
