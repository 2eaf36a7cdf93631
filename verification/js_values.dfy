/** The JavaScript values the userscript reads out of parsed JSON, with the three pieces of
    JavaScript semantics its decisions depend on: truthiness (`if (x)`, `a || b`), property
    reads that throw on null and undefined, and conversion to a string (template literals,
    `+` with a string). */
module JsValues {
  import opened Optional

  /** A value produced by JSON.parse, or read from such a value. */
  datatype JsValue =
    | Undefined
    | Null
    | Bool(b: bool)
    | Num(text: string)                    // the number's JavaScript string form, e.g. "12" or "0"
    | Str(s: string)
    | Arr(items: seq<JsValue>)
    | Obj(members: seq<(string, JsValue)>) // in source order; duplicates kept as parsed

  /** JavaScript truthiness: undefined, null, false, 0, NaN and "" are falsy. (-0 prints as "0".) */
  predicate Truthy(v: JsValue)
  {
    match v
    case Undefined => false
    case Null => false
    case Bool(b) => b
    case Num(t) => t != "0" && t != "NaN"
    case Str(s) => s != ""
    case _ => true
  }

  /** `a || b`: the left operand when it is truthy, otherwise the right one. */
  function Or(a: JsValue, b: JsValue): (r: JsValue)
    ensures Truthy(b) ==> Truthy(r)
    ensures r == a || r == b
    ensures Truthy(a) ==> r == a
    ensures !Truthy(a) ==> r == b
  {
    if Truthy(a) then a else b
  }

  /** Index `i` holds the last member of `ms` called `name` (JSON.parse keeps the last duplicate). */
  predicate LastMemberAt(ms: seq<(string, JsValue)>, name: string, i: int)
  {
    0 <= i < |ms| && ms[i].0 == name && forall j :: i < j < |ms| ==> ms[j].0 != name
  }

  /** The value of an object's own member `name`, or Undefined when there is none. */
  function Lookup(ms: seq<(string, JsValue)>, name: string): (r: JsValue)
    ensures (exists i :: LastMemberAt(ms, name, i) && r == ms[i].1)
         || (r == Undefined && forall j :: 0 <= j < |ms| ==> ms[j].0 != name)
  {
    if |ms| == 0 then Undefined
    else if ms[|ms| - 1].0 == name then
      assert LastMemberAt(ms, name, |ms| - 1);
      ms[|ms| - 1].1
    else
      var r := Lookup(ms[..|ms| - 1], name);
      assert forall i :: LastMemberAt(ms[..|ms| - 1], name, i) ==> LastMemberAt(ms, name, i);
      r
  }

  /** The property read `v.name`; None stands for the TypeError thrown when `v` is null or
      undefined. Only own members of an object are found: none of the names the script reads
      (`value`, `title`, `ti_items`, ...) is an inherited property of a JSON value. */
  function Get(v: JsValue, name: string): (r: Option<JsValue>)
    ensures r.None? <==> v.Undefined? || v.Null?
    ensures r.Some? && !v.Obj? ==> r.value == Undefined
  {
    match v
    case Undefined => None
    case Null => None
    case Obj(ms) => Some(Lookup(ms, name))
    case _ => Some(Undefined)
  }

  /** JavaScript's ToString of a value, as a template literal or `+ ".pdf"` applies it. */
  function JsToString(v: JsValue): string
    decreases v
  {
    match v
    case Undefined => "undefined"
    case Null => "null"
    case Bool(b) => if b then "true" else "false"
    case Num(t) => t
    case Str(s) => s
    case Arr(items) => JoinItems(items)
    case Obj(_) => "[object Object]"
  }

  /** Array.prototype.join(","): null and undefined elements become empty text. */
  function JoinItems(items: seq<JsValue>): string
    decreases items
  {
    if |items| == 0 then ""
    else
      var head := if items[0].Undefined? || items[0].Null? then "" else JsToString(items[0]);
      if |items| == 1 then head else head + "," + JoinItems(items[1..])
  }
}
