/**
 * The JavaScript values the extension passes around: message payloads,
 * `chrome.storage` entries, the user profile and the parsed model output.
 */
module Js {
  import opened Wrappers
  import opened Strings

  /** A JSON-like JavaScript value; numbers are integers here. */
  datatype Value =
    | Undefined
    | Null
    | Bool(b: bool)
    | Num(n: int)
    | Str(s: string)
    | Arr(items: seq<Value>)
    | Obj(fields: map<string, Value>)

  /** JavaScript truthiness: `undefined`, `null`, `false`, `0` and `''` are falsy. */
  predicate Truthy(v: Value) {
    match v
    case Undefined => false
    case Null => false
    case Bool(b) => b
    case Num(n) => n != 0
    case Str(s) => s != ""
    case Arr(_) => true
    case Obj(_) => true
  }

  /** `v.key` on a value that is neither `null` nor `undefined`: an own field of an
      object, `undefined` for anything else. */
  function Get(v: Value, key: string): (r: Value)
    ensures v.Obj? && key in v.fields ==> r == v.fields[key]
    ensures !(v.Obj? && key in v.fields) ==> r == Undefined
  {
    if v.Obj? && key in v.fields then v.fields[key] else Undefined
  }

  /** `v?.key`. */
  function OptionalGet(v: Value, key: string): (r: Value)
    ensures v.Undefined? || v.Null? ==> r == Undefined
    ensures !(v.Undefined? || v.Null?) ==> r == Get(v, key)
  {
    if v.Undefined? || v.Null? then Undefined else Get(v, key)
  }

  /** The TypeError V8 raises for `v.key` when `v` is `null` or `undefined`. */
  function PropertyReadError(v: Value, key: string): string {
    "Cannot read properties of " + (if v.Null? then "null" else "undefined")
    + " (reading '" + key + "')"
  }

  /** `v.key` where `v` may be `null` or `undefined`, which throws. */
  function Read(v: Value, key: string): (r: Result<Value, string>)
    ensures r.Err? <==> v.Undefined? || v.Null?
    ensures r.Ok? ==> r.value == Get(v, key)
    ensures r.Err? ==> r.error == PropertyReadError(v, key)
  {
    if v.Undefined? || v.Null? then Err(PropertyReadError(v, key)) else Ok(Get(v, key))
  }

  /** `String(v)`, as used by template literals; arrays print as their
      elements joined by commas, with `null` and `undefined` as empty. */
  function ToString(v: Value): string
    decreases v
  {
    match v
    case Undefined => "undefined"
    case Null => "null"
    case Bool(b) => if b then "true" else "false"
    case Num(n) => IntToString(n)
    case Str(s) => s
    case Arr(items) =>
      Join(seq(|items|, i requires 0 <= i < |items| =>
             if items[i].Undefined? || items[i].Null? then "" else ToString(items[i])), ",")
    case Obj(_) => "[object Object]"
  }

  /** `Array.prototype.join(sep)` over the given elements. */
  function JoinValues(items: seq<Value>, sep: string): string {
    Join(seq(|items|, i requires 0 <= i < |items| =>
           if items[i].Undefined? || items[i].Null? then "" else ToString(items[i])), sep)
  }

  /** Joining strings as values is joining the strings themselves. */
  lemma JoinStrings(ws: seq<string>, sep: string)
    ensures JoinValues(seq(|ws|, i requires 0 <= i < |ws| => Str(ws[i])), sep) == Join(ws, sep)
  {
    var vs := seq(|ws|, i requires 0 <= i < |ws| => Str(ws[i]));
    var strs := seq(|vs|, i requires 0 <= i < |vs| =>
                  if vs[i].Undefined? || vs[i].Null? then "" else ToString(vs[i]));
    assert strs == ws;
  }
}
