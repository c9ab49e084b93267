/**
 * The values `json.load` hands to the tools (floating-point numbers aside),
 * and the Python built-ins the tools apply to them.
 */
module Json {
  import opened Common
  import PyNumbers

  /** A JSON value; an object keeps its keys in document order, as a Python dict does. */
  datatype Json =
    | JNull
    | JBool(b: bool)
    | JInt(i: int)
    | JStr(s: string)
    | JArr(items: seq<Json>)
    | JObj(fields: seq<(string, Json)>)

  /**
   * `key in obj` / `obj.get(key)`: the value stored under `key`, if any. When a
   * document repeats a key, `json.load` keeps the value of its LAST occurrence.
   */
  function Get(fields: seq<(string, Json)>, key: string): Option<Json>
  {
    if fields == [] then None
    else if fields[|fields| - 1].0 == key then Some(fields[|fields| - 1].1)
    else Get(fields[..|fields| - 1], key)
  }

  /** A lookup finds the key iff some field carries it, and then returns the value of the LAST such field. */
  lemma {:induction false} GetMeaning(fields: seq<(string, Json)>, key: string)
    ensures Get(fields, key).Some? <==> exists k :: 0 <= k < |fields| && fields[k].0 == key
    ensures Get(fields, key).Some? ==>
      exists k :: 0 <= k < |fields| && fields[k] == (key, Get(fields, key).value) &&
        forall j | k < j < |fields| :: fields[j].0 != key
  {
    var n := |fields|;
    if n > 0 && fields[n - 1].0 != key {
      var init := fields[..n - 1];
      GetMeaning(init, key);
      if Get(fields, key).Some? {
        var k :| 0 <= k < |init| && init[k] == (key, Get(fields, key).value) &&
          forall j | k < j < |init| :: init[j].0 != key;
        assert fields[k] == init[k];
        forall j | k < j < n ensures fields[j].0 != key {
          if j < n - 1 {
            assert fields[j] == init[j];
          }
        }
      }
      if exists k :: 0 <= k < n && fields[k].0 == key {
        var k :| 0 <= k < n && fields[k].0 == key;
        assert init[k].0 == key;
      }
    }
  }

  /**
   * `list(obj)` / `for k in obj`: the distinct keys in the order they first
   * appear (a repeated key keeps the place of its first occurrence).
   */
  function Keys(fields: seq<(string, Json)>): seq<string>
  {
    if fields == [] then []
    else
      var prev := Keys(fields[..|fields| - 1]);
      var k := fields[|fields| - 1].0;
      if k in prev then prev else prev + [k]
  }

  /** The keys of an object as text values: what `for k in obj` hands to its loop body. */
  function KeyTexts(fields: seq<(string, Json)>): seq<Json>
  {
    seq(|Keys(fields)|, i requires 0 <= i < |Keys(fields)| => JStr(Keys(fields)[i]))
  }

  /**
   * The keys are exactly the keys of the fields, each listed once; a document
   * without repeated keys lists them in document order.
   */
  lemma {:induction false} KeysMeaning(fields: seq<(string, Json)>)
    ensures forall key :: key in Keys(fields) <==> exists i :: 0 <= i < |fields| && fields[i].0 == key
    ensures forall i, j | 0 <= i < j < |Keys(fields)| :: Keys(fields)[i] != Keys(fields)[j]
    ensures (forall i, j | 0 <= i < j < |fields| :: fields[i].0 != fields[j].0) ==>
      Keys(fields) == seq(|fields|, i requires 0 <= i < |fields| => fields[i].0)
  {
    var n := |fields|;
    if n > 0 {
      var init := fields[..n - 1];
      KeysMeaning(init);
      forall key ensures key in Keys(fields) <==> exists i :: 0 <= i < n && fields[i].0 == key {
        if exists i :: 0 <= i < n - 1 && init[i].0 == key {
          var i :| 0 <= i < n - 1 && init[i].0 == key;
          assert fields[i].0 == key;
        }
        if exists i :: 0 <= i < n && fields[i].0 == key {
          var i :| 0 <= i < n && fields[i].0 == key;
          if i < n - 1 {
            assert init[i].0 == key;
          }
        }
      }
      if forall i, j | 0 <= i < j < n :: fields[i].0 != fields[j].0 {
        assert forall i, j | 0 <= i < j < n - 1 :: init[i].0 != init[j].0 by {
          forall i, j | 0 <= i < j < n - 1 ensures init[i].0 != init[j].0 {
            assert init[i] == fields[i] && init[j] == fields[j];
          }
        }
        forall i | 0 <= i < n - 1 ensures init[i].0 != fields[n - 1].0 {
          assert init[i] == fields[i];
        }
      }
    }
  }

  /** `obj.get(key, default)`. */
  function GetOr(fields: seq<(string, Json)>, key: string, default: Json): Json
  {
    match Get(fields, key)
    case Some(v) => v
    case None => default
  }

  /** `obj[key]`: a KeyError when the key is absent. */
  function Index(fields: seq<(string, Json)>, key: string): (r: Result<Json>)
    ensures r.Err? <==> Get(fields, key).None?
    ensures r.Err? ==> r.error == MissingKey(key)
  {
    match Get(fields, key)
    case Some(v) => Ok(v)
    case None => Err(MissingKey(key))
  }

  /** Python truthiness of a JSON value. */
  predicate Truthy(j: Json)
  {
    match j
    case JNull => false
    case JBool(b) => b
    case JInt(i) => i != 0
    case JStr(s) => s != []
    case JArr(a) => a != []
    case JObj(f) => f != []
  }

  /** `int(x)` on a JSON value: booleans are integers, strings are read as decimal. */
  function PyIntOf(j: Json): (r: Result<int>)
    ensures j.JInt? ==> r == Ok(j.i)
    ensures (j.JNull? || j.JArr? || j.JObj?) ==> r == Err(NotANumber)
  {
    match j
    case JInt(i) => Ok(i)
    case JBool(b) => Ok(if b then 1 else 0)
    case JStr(s) => PyNumbers.PyInt(s, 10)
    case _ => Err(NotANumber)
  }

  /**
   * `parse_hex_or_int(x)`: an integer (or boolean) is returned as it is; anything
   * else is turned into text with `str()`, which for null, a list or an object
   * is never a number.
   */
  function ParseHexOrIntValue(j: Json): (r: Result<int>)
    ensures j.JInt? ==> r == Ok(j.i)
    ensures j.JStr? ==> r == PyNumbers.ParseHexOrInt(j.s)
    ensures (j.JNull? || j.JArr? || j.JObj?) ==> r.Err?
  {
    match j
    case JInt(i) => Ok(i)
    case JBool(b) => Ok(if b then 1 else 0)
    case JStr(s) => PyNumbers.ParseHexOrInt(s)
    case _ => Err(InvalidLiteral("str() of a JSON null, list or object"))
  }
}
