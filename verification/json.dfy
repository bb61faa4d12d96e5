/** Parsed JSON values and the few JavaScript operations the services
    apply to them: property access (with `undefined` as `None`), truthiness
    and the `||` default. Parsing and serialising are not modelled: parsed
    values are inputs, and the serialiser and the conversions the engine
    performs are passed in as an `Engine`. */
module Json {
  import opened Wrappers

  datatype Json =
    | JNull
    | JBool(b: bool)
    | JNum(n: real)
    | JStr(s: string)
    | JArr(items: seq<Json>)
    /** Members in source order; a repeated key keeps its last value, as
        `JSON.parse` does. */
    | JObj(members: seq<(string, Json)>)

  /** What the JavaScript engine supplies: `JSON.stringify`, compact and
      with two-space indentation (`JSON.stringify(v, null, 2)`),
      `Object.keys`, string conversion inside a template literal, and the
      message of the TypeError thrown when a property of `null` is read. */
  datatype Engine = Engine(
    stringify: Json -> string,
    stringifyIndented: Json -> string,
    keys: Json -> seq<string>,
    display: Json -> string,
    nullAccessMessage: string -> string)

  /** The value of the last member named `key`, if any. */
  function Lookup(members: seq<(string, Json)>, key: string): (r: Option<Json>)
    ensures r.Some? ==> exists i :: 0 <= i < |members| && members[i] == (key, r.value)
                                  && (forall j :: i < j < |members| ==> members[j].0 != key)
    ensures r.None? <==> forall i :: 0 <= i < |members| ==> members[i].0 != key
  {
    if |members| == 0 then None
    else
      var last := |members| - 1;
      if members[last].0 == key then Some(members[last].1)
      else
        var init := members[..last];
        assert forall i :: 0 <= i < last ==> members[i] == init[i];
        Lookup(init, key)
  }

  /** `v.key` for a non-null value: an object's member, and `undefined`
      for every other kind of value. */
  function Get(v: Json, key: string): (r: Option<Json>)
    requires v != JNull
    ensures !v.JObj? ==> r.None?
  {
    if v.JObj? then Lookup(v.members, key) else None
  }

  /** JavaScript truthiness of a value that may be `undefined`. */
  predicate Truthy(v: Option<Json>) {
    match v
    case None => false
    case Some(JNull) => false
    case Some(JBool(b)) => b
    case Some(JNum(n)) => n != 0.0
    case Some(JStr(s)) => s != ""
    case Some(JArr(_)) => true
    case Some(JObj(_)) => true
  }

  /** `a || b`: the first operand when it is truthy, the second otherwise.
      The result is one of the two, and truthy exactly when either is. */
  function Or(a: Option<Json>, b: Option<Json>): (r: Option<Json>)
    ensures Truthy(a) ==> r == a
    ensures !Truthy(a) ==> r == b
    ensures r == a || r == b
    ensures Truthy(r) <==> Truthy(a) || Truthy(b)
  {
    if Truthy(a) then a else b
  }

  /** `a || "text"`: never `undefined` nor `null`, and truthy exactly when
      the operand is or the fallback text is non-empty. */
  function OrText(a: Option<Json>, text: string): (r: Json)
    ensures Truthy(a) ==> Some(r) == a
    ensures !Truthy(a) ==> r == JStr(text)
    ensures r != JNull
    ensures Truthy(Some(r)) <==> Truthy(a) || text != ""
  {
    if Truthy(a) then a.value else JStr(text)
  }
}
