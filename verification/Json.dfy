/** JSON values as Python's `json` module returns them. */
module Json {
  import opened Wrappers

  datatype Value =
    | Null
    | Bool(b: bool)
    | Int(i: int)
    | Float(x: real)
    | Text(s: string)
    | Array(items: seq<Value>)
    | Object(fields: seq<(string, Value)>)

  /** Python's `bool(value)`. */
  predicate Truthy(v: Value) {
    match v
    case Null => false
    case Bool(b) => b
    case Int(i) => i != 0
    case Float(x) => x != 0.0
    case Text(s) => s != ""
    case Array(items) => items != []
    case Object(fields) => fields != []
  }

  /** `dict.get(key)`; a decoded object has each key once. */
  function Get(fields: seq<(string, Value)>, key: string): Option<Value> {
    if fields == [] then None
    else if fields[0].0 == key then Some(fields[0].1)
    else Get(fields[1..], key)
  }

  predicate TruthyField(fields: seq<(string, Value)>, key: string) {
    Get(fields, key).Some? && Truthy(Get(fields, key).value)
  }

  /** Python's falsy values: None, False, the zeros, and whatever is empty. */
  lemma FalsyValues(v: Value)
    ensures !Truthy(v) <==> v in {Null, Bool(false), Int(0), Float(0.0), Text(""), Array([]), Object([])}
  {
  }

  /** Field `i` is the first with this key. */
  predicate FirstField(fields: seq<(string, Value)>, key: string, i: int) {
    0 <= i < |fields| && fields[i].0 == key && forall j | 0 <= j < i :: fields[j].0 != key
  }

  /** The object has this value under this key. */
  predicate Holds(fields: seq<(string, Value)>, key: string, v: Value) {
    exists i :: 0 <= i < |fields| && FirstField(fields, key, i) && fields[i].1 == v
  }

  lemma {:induction false} GetAt(fields: seq<(string, Value)>, key: string, i: nat)
    requires FirstField(fields, key, i)
    ensures Get(fields, key) == Some(fields[i].1)
  {
    if i > 0 {
      assert fields[0].0 != key;
      assert forall j | 0 <= j < i - 1 :: fields[1..][j].0 == fields[j + 1].0;
      GetAt(fields[1..], key, i - 1);
    }
  }

  lemma {:induction false} GetFinds(fields: seq<(string, Value)>, key: string) returns (i: nat)
    requires Get(fields, key).Some?
    ensures FirstField(fields, key, i)
  {
    if fields[0].0 == key {
      i := 0;
    } else {
      var k := GetFinds(fields[1..], key);
      i := k + 1;
      assert forall j | 1 <= j < i :: fields[j] == fields[1..][j - 1];
    }
  }

  /** Looking a key up gives the value the object has under it, and nothing if it has none. */
  lemma GetIsField(fields: seq<(string, Value)>, key: string, v: Value)
    ensures Get(fields, key) == Some(v) <==> Holds(fields, key, v)
    ensures Get(fields, key) == None <==> forall i | 0 <= i < |fields| :: fields[i].0 != key
  {
    if Get(fields, key).Some? {
      var i := GetFinds(fields, key);
      GetAt(fields, key, i);
    }
    if Holds(fields, key, v) {
      var i :| 0 <= i < |fields| && FirstField(fields, key, i) && fields[i].1 == v;
      GetAt(fields, key, i);
    }
    if exists k :: 0 <= k < |fields| && fields[k].0 == key {
      var k :| 0 <= k < |fields| && fields[k].0 == key;
      HasFirst(fields, key, k);
    }
  }

  lemma {:induction false} HasFirst(fields: seq<(string, Value)>, key: string, k: nat)
    requires k < |fields| && fields[k].0 == key
    ensures Get(fields, key).Some?
  {
    if fields[0].0 != key {
      HasFirst(fields[1..], key, k - 1);
    }
  }
}
