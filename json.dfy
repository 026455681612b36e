/** Parsed JSON values, as `json.loads` returns them. */
module Json {
  import opened Wrappers

  datatype Json =
    | JNull
    | JBool(b: bool)
      /** A number, carried as the text Python's `str()` gives it. */
    | JNum(text: string)
    | JStr(s: string)
    | JArr(items: seq<Json>)
    | JObj(fields: map<string, Json>)

  /** `obj.get(key)` on a dict; `None` for a missing key and for anything that is not a dict. */
  function Get(j: Json, key: string): Option<Json>
  {
    if j.JObj? && key in j.fields then Some(j.fields[key]) else None
  }

  /** `isinstance(obj, dict) and obj.get("@type") == t` */
  predicate HasType(j: Json, t: string)
  {
    j.JObj? && "@type" in j.fields && j.fields["@type"] == JStr(t)
  }

  /** A schema.org Product object. */
  predicate IsProduct(j: Json)
  {
    HasType(j, "Product")
  }

  /** Python truthiness of a parsed value. */
  predicate Truthy(j: Json)
  {
    match j
    case JNull => false
    case JBool(b) => b
    case JNum(t) => t !in {"0", "0.0", "-0.0"}
    case JStr(s) => s != ""
    case JArr(xs) => xs != []
    case JObj(m) => m != map[]
  }

  /** The first element of `items` that is a Product, scanning in order. */
  function FirstProduct(items: seq<Json>): (r: Option<Json>)
    ensures r.Some? ==> IsProduct(r.value) && r.value in items
    ensures r.None? <==> forall k :: 0 <= k < |items| ==> !IsProduct(items[k])
    ensures r.Some? ==> exists k :: 0 <= k < |items| && items[k] == r.value
                           && forall j :: 0 <= j < k ==> !IsProduct(items[j])
  {
    if |items| == 0 then None
    else if IsProduct(items[0]) then Some(items[0])
    else
      var r := FirstProduct(items[1..]);
      assert r.Some? ==> exists k :: 0 <= k < |items[1..]| && items[1..][k] == r.value
                           && forall j :: 0 <= j < k ==> !IsProduct(items[1..][j]);
      assert r.Some? ==> exists k :: 1 <= k < |items| && items[k] == r.value
                           && forall j :: 0 <= j < k ==> !IsProduct(items[j]) by {
        if r.Some? {
          var k :| 0 <= k < |items[1..]| && items[1..][k] == r.value
                   && forall j :: 0 <= j < k ==> !IsProduct(items[1..][j]);
          assert items[k + 1] == r.value;
          assert forall j :: 0 <= j < k + 1 ==> !IsProduct(items[j]) by {
            forall j | 0 <= j < k + 1 ensures !IsProduct(items[j]) {
              if j > 0 { assert items[j] == items[1..][j - 1]; }
            }
          }
        }
      }
      r
  }

  /**
   * `str(v)` of a scalar, as Python prints it. Lists and dicts give
   * `None`: their printed form is not modelled.
   */
  function PyStr(j: Json): Option<string>
  {
    match j
    case JNull => Some("None")
    case JBool(b) => Some(if b then "True" else "False")
    case JNum(t) => Some(t)
    case JStr(s) => Some(s)
    case _ => None
  }

  /** `str(obj.get(key) or "")`: a missing or falsy value reads as "". */
  function GetText(j: Json, key: string): Option<string>
  {
    match Get(j, key)
    case None => Some("")
    case Some(v) => if Truthy(v) then PyStr(v) else Some("")
  }

  /**
   * `obj.get(key) or ""` where the script then uses a string method on it:
   * a falsy or missing value reads as "", a string as itself, and any
   * other truthy value is `None` (the script would fail on it).
   */
  function StrOrEmpty(j: Json, key: string): (r: Option<string>)
    ensures Get(j, key).Some? && Get(j, key).value.JStr? ==> r == Some(Get(j, key).value.s)
    ensures Get(j, key).None? ==> r == Some("")
  {
    match Get(j, key)
    case None => Some("")
    case Some(v) => if !Truthy(v) then Some("") else if v.JStr? then Some(v.s) else None
  }
}
