/** The artifact selector: from a textbook's metadata document, the title (or a fixed default)
    and the first storage URL of the first item whose format is "pdf". */
module Selector {
  import opened Optional
  import opened JsValues

  /** The title used when the metadata's own title is falsy ("untitled textbook"). */
  const DefaultTitle := "未命名课本"

  /** The format tag of the artifact that is downloaded. */
  const TargetFormat := "pdf"

  /** What the selection step ends in. `Threw` is an exception inside the selection, which the
      script reports as unparsable textbook data. */
  datatype Selection =
    | Selected(title: JsValue, storage: JsValue)
    | NoPdf
    | Threw

  /** Reading `item.ti_format` throws: the item is null or undefined. */
  predicate FormatThrows(item: JsValue) { Get(item, "ti_format").None? }

  /** `item.ti_format === 'pdf'`. */
  predicate IsPdf(item: JsValue) { Get(item, "ti_format") == Some(Str(TargetFormat)) }

  /** Array.prototype.find passes over `item` and moves on to the next one. */
  predicate PassedOver(item: JsValue) { !IsPdf(item) && !FormatThrows(item) }

  /** Where `items.find(item => item.ti_format === 'pdf')` stops. */
  datatype Find = Match(at: nat) | NoMatch | FindThrew(at: nat)

  function FindPdf(items: seq<JsValue>): (r: Find)
    ensures r.Match? ==> r.at < |items| && IsPdf(items[r.at])
    ensures r.FindThrew? ==> r.at < |items| && FormatThrows(items[r.at])
    ensures r.Match? || r.FindThrew? ==> forall j :: 0 <= j < r.at ==> PassedOver(items[j])
    ensures r.NoMatch? <==> forall j :: 0 <= j < |items| ==> PassedOver(items[j])
  {
    if |items| == 0 then NoMatch
    else if FormatThrows(items[0]) then FindThrew(0)
    else if IsPdf(items[0]) then Match(0)
    else match FindPdf(items[1..])
      case Match(k) => Match(k + 1)
      case FindThrew(k) => FindThrew(k + 1)
      case NoMatch => NoMatch
  }

  /** `s && s.length > 0 ? s[0] : none` for the values JSON can hold: an array yields its first
      element and a string its first character. */
  function FirstStorage(storages: JsValue): (r: Option<JsValue>)
    ensures r.Some? <==> (storages.Arr? && |storages.items| > 0) || (storages.Str? && |storages.s| > 0)
    ensures r.Some? && storages.Arr? ==> r.value == storages.items[0]
    ensures r.Some? && storages.Str? ==> r.value == Str(storages.s[..1])
  {
    match storages
    case Arr(xs) => if |xs| > 0 then Some(xs[0]) else None
    case Str(s) => if |s| > 0 then Some(Str(s[..1])) else None
    case _ => None
  }

  /** The selection the script makes from the metadata document `data` once it is truthy. */
  function Select(data: JsValue): (r: Selection)
    requires Truthy(data)
    ensures r.Selected? ==> Truthy(r.title)
    ensures r.Selected? ==> r.title == Or(Get(data, "title").value, Str(DefaultTitle))
    ensures r.Selected? && Truthy(Get(data, "title").value) ==> r.title == Get(data, "title").value
    ensures r.Selected? && !Truthy(Get(data, "title").value) ==> r.title == Str(DefaultTitle)
    ensures !Truthy(Get(data, "ti_items").value) ==> r.NoPdf?
    ensures r.Selected? ==>
              exists items, k ::
                && Or(Get(data, "ti_items").value, Arr([])) == Arr(items)
                && FindPdf(items) == Match(k)
                && FirstStorage(Get(items[k], "ti_storages").value) == Some(r.storage)
    ensures var items := Or(Get(data, "ti_items").value, Arr([]));
            r.Threw? <==> !items.Arr? || FindPdf(items.items).FindThrew?
    ensures var items := Or(Get(data, "ti_items").value, Arr([]));
            items.Arr? && FindPdf(items.items).NoMatch? ==> r.NoPdf?
    ensures var items := Or(Get(data, "ti_items").value, Arr([]));
            items.Arr? && FindPdf(items.items).Match? ==>
              (r.Selected? <==>
                 FirstStorage(Get(items.items[FindPdf(items.items).at], "ti_storages").value).Some?)
  {
    var title := Or(Get(data, "title").value, Str(DefaultTitle));
    var items := Or(Get(data, "ti_items").value, Arr([]));
    if !items.Arr? then Threw
    else match FindPdf(items.items)
      case FindThrew(_) => Threw
      case NoMatch => NoPdf
      case Match(k) =>
        var storages := Get(items.items[k], "ti_storages").value;
        match FirstStorage(storages)
        case None => NoPdf
        case Some(url) => Selected(title, url)
  }

  /** Only the first pdf item matters: with storages its first one is chosen, without them the
      answer is "no PDF", whatever the items after it hold. */
  lemma FirstPdfDecides(data: JsValue, items: seq<JsValue>, k: nat)
    requires Truthy(data)
    requires Get(data, "ti_items") == Some(Arr(items))
    requires k < |items| && IsPdf(items[k])
    requires forall j :: 0 <= j < k ==> PassedOver(items[j])
    ensures Select(data) != Threw
    ensures Select(data).Selected? <==> FirstStorage(Get(items[k], "ti_storages").value).Some?
    ensures Select(data).Selected? ==>
              Select(data).storage == FirstStorage(Get(items[k], "ti_storages").value).value
  {
  }

  lemma FindPdfFirst(items: seq<JsValue>, k: nat)
    requires k < |items| && IsPdf(items[k])
    requires forall j :: 0 <= j < k ==> PassedOver(items[j])
    ensures FindPdf(items) == Match(k)
  {
  }

  /** Items after the first pdf item are never consulted: appending any items leaves the
      selection unchanged. */
  lemma {:induction false} FindPdfIgnoresTail(items: seq<JsValue>, more: seq<JsValue>)
    requires FindPdf(items).Match?
    ensures FindPdf(items + more) == FindPdf(items)
  {
    var k := FindPdf(items).at;
    assert (items + more)[k] == items[k];
    FindPdfFirst(items + more, k);
  }

  /** An item list that holds no pdf item, the empty list included, yields "no PDF". */
  lemma NoPdfItemIsNoPdf(data: JsValue, items: seq<JsValue>)
    requires Truthy(data)
    requires Get(data, "ti_items") == Some(Arr(items))
    requires forall j :: 0 <= j < |items| ==> PassedOver(items[j])
    ensures Select(data) == NoPdf
  {
  }

  /** Metadata whose only item is an epub yields "no PDF". */
  lemma EpubOnlyIsNoPdf(title: string, url: string)
    ensures Select(Obj([("title", Str(title)),
                        ("ti_items", Arr([Obj([("ti_format", Str("epub")),
                                               ("ti_storages", Arr([Str(url)]))])]))])) == NoPdf
  {
  }
}
