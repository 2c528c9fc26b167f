/** The JavaScript values the extension reads from the manifest and keeps in
    its configuration records, JavaScript truthiness, and objects as ordered
    lists of properties with the language's property-assignment semantics. */
module JsValues {

  /** A JavaScript value as far as the extension distinguishes them. Numbers
      are integers. `Compound` stands for a non-empty array or an object whose
      contents are never inspected. */
  datatype JsValue =
    | Undefined
    | Null
    | Bool(b: bool)
    | Number(n: int)
    | Str(s: string)
    | EmptyArray
    | Compound

  /** JavaScript truthiness: the value makes `if (v)` take its branch. */
  predicate Truthy(v: JsValue)
  {
    match v
    case Undefined => false
    case Null => false
    case Bool(b) => b
    case Number(n) => n != 0
    case Str(s) => s != ""
    case EmptyArray => true
    case Compound => true
  }

  /** One own property of an object. */
  datatype Property = Property(key: string, value: JsValue)

  /** An object: its properties in insertion order, each key at most once. */
  type JsObject = seq<Property>

  /** The keys of an object in property order. */
  function Keys(o: JsObject): (ks: seq<string>)
    ensures |ks| == |o|
    ensures forall i :: 0 <= i < |o| ==> ks[i] == o[i].key
  {
    if |o| == 0 then [] else [o[0].key] + Keys(o[1..])
  }

  /** No key appears twice. */
  predicate UniqueKeys(o: JsObject)
  {
    forall i, j :: 0 <= i < j < |o| ==> o[i].key != o[j].key
  }

  /** `o[key]`: the value of the property named `key`, `undefined` when there
      is none. */
  function Get(o: JsObject, key: string): (v: JsValue)
    ensures key !in Keys(o) ==> v == Undefined
    ensures key in Keys(o) ==> Property(key, v) in o
  {
    if |o| == 0 then Undefined
    else if o[0].key == key then
      assert o[0] == Property(key, o[0].value) && o[0] in o;
      o[0].value
    else
      var v := Get(o[1..], key);
      assert key in Keys(o[1..]) ==> Property(key, v) in o[1..];
      v
  }

  /** `o[key] = v` for a key that is not an array index: an existing property
      keeps its place and takes the new value; a new one is added after all
      others. No other property changes. */
  function Put(o: JsObject, key: string, v: JsValue): (r: JsObject)
    ensures Keys(r) == if key in Keys(o) then Keys(o) else Keys(o) + [key]
    ensures forall i :: 0 <= i < |r| ==> r[i] == Property(key, v) || r[i] in o
  {
    if |o| == 0 then [Property(key, v)]
    else if o[0].key == key then
      assert ([Property(key, v)] + o[1..])[1..] == o[1..];
      [Property(key, v)] + o[1..]
    else
      var rest := Put(o[1..], key, v);
      assert ([o[0]] + rest)[1..] == rest;
      [o[0]] + rest
  }

  /** Assigning a key the object does not have appends it. */
  lemma {:induction false} PutNewKeyAppends(o: JsObject, key: string, v: JsValue)
    requires key !in Keys(o)
    ensures Put(o, key, v) == o + [Property(key, v)]
  {
    if |o| > 0 {
      assert Keys(o) == [o[0].key] + Keys(o[1..]);
      assert o[0].key != key && key !in Keys(o[1..]);
      PutNewKeyAppends(o[1..], key, v);
      assert Put(o, key, v) == [o[0]] + Put(o[1..], key, v);
      assert o == [o[0]] + o[1..];
    }
  }

  /** After `o[key] = v`, reading `key` gives `v` and every other key reads
      as before. */
  lemma {:induction false} GetPut(o: JsObject, key: string, v: JsValue, k: string)
    ensures Get(Put(o, key, v), k) == if k == key then v else Get(o, k)
  {
    if |o| > 0 && o[0].key != key {
      GetPut(o[1..], key, v, k);
      assert Put(o, key, v) == [o[0]] + Put(o[1..], key, v);
      assert ([o[0]] + Put(o[1..], key, v))[1..] == Put(o[1..], key, v);
    }
  }

  /** Any key-wise view of an object is unchanged by keeping its keys unique:
      assignment never introduces a second property with the same name. */
  lemma {:induction false} PutKeepsKeysUnique(o: JsObject, key: string, v: JsValue)
    requires UniqueKeys(o)
    ensures UniqueKeys(Put(o, key, v))
  {
    var r := Put(o, key, v);
    var ks := Keys(r);
    forall i, j | 0 <= i < j < |r| ensures r[i].key != r[j].key {
      assert ks[i] == r[i].key && ks[j] == r[j].key;
      if key in Keys(o) {
        assert Keys(o)[i] == o[i].key && Keys(o)[j] == o[j].key;
      } else {
        assert ks == Keys(o) + [key];
        if j < |o| {
          assert Keys(o)[i] == o[i].key && Keys(o)[j] == o[j].key;
        } else {
          assert ks[j] == key;
          assert Keys(o)[i] == o[i].key;
        }
      }
    }
  }

  /** Assigning the same value twice is assigning it once. */
  lemma {:induction false} PutIdempotent(o: JsObject, key: string, v: JsValue)
    ensures Put(Put(o, key, v), key, v) == Put(o, key, v)
  {
    if |o| > 0 && o[0].key != key {
      PutIdempotent(o[1..], key, v);
      assert Put(o, key, v)[1..] == Put(o[1..], key, v);
    }
  }

  /** Overwriting a property that already exists commutes with any assignment
      to a different key, including one that adds a new property at the end. */
  lemma {:induction false} PutExistingCommutes(o: JsObject, k1: string, v1: JsValue, k2: string, v2: JsValue)
    requires k1 != k2 && k1 in Keys(o)
    ensures Put(Put(o, k1, v1), k2, v2) == Put(Put(o, k2, v2), k1, v1)
  {
    if o[0].key == k1 {
      var p2 := Put(o[1..], k2, v2);
      assert Put(o, k2, v2) == [o[0]] + p2;
      assert Put(Put(o, k2, v2), k1, v1) == [Property(k1, v1)] + p2;
      assert Put(o, k1, v1) == [Property(k1, v1)] + o[1..];
      assert Put(Put(o, k1, v1), k2, v2) == [Property(k1, v1)] + p2;
    } else if o[0].key == k2 {
      var p1 := Put(o[1..], k1, v1);
      assert Put(Put(o, k1, v1), k2, v2) == [Property(k2, v2)] + p1;
      assert Put(Put(o, k2, v2), k1, v1) == [Property(k2, v2)] + p1;
    } else {
      PutExistingCommutes(o[1..], k1, v1, k2, v2);
      var p1 := Put(o[1..], k1, v1);
      var p2 := Put(o[1..], k2, v2);
      assert Put(Put(o, k1, v1), k2, v2) == [o[0]] + Put(p1, k2, v2);
      assert Put(Put(o, k2, v2), k1, v1) == [o[0]] + Put(p2, k1, v1);
    }
  }
}
