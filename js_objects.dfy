/**
 * A plain JavaScript object whose values are booleans, such as the sign-up
 * form's `integrations` or a profile's `connectedApps`. Its properties are
 * kept in insertion order, which is the order `Object.keys` returns for keys
 * that are not array indices (such as "Fitbit" or "Apple Health"): that order
 * is what the connected-apps text lists.
 */
module JsObjects {

  datatype Property = Property(key: string, value: bool)

  type BoolObject = seq<Property>

  /** `Object.keys(o)`. */
  function Keys(o: BoolObject): (ks: seq<string>)
    ensures |ks| == |o|
    ensures forall i :: 0 <= i < |o| ==> ks[i] == o[i].key
  {
    if o == [] then [] else [o[0].key] + Keys(o[1..])
  }

  /** No key occurs twice, as in every object JavaScript builds. */
  predicate WellFormed(o: BoolObject)
  {
    forall i, j :: 0 <= i < j < |o| ==> o[i].key != o[j].key
  }

  /** `o[k]` read as a condition: a missing key reads `undefined`, which is falsy. */
  function Get(o: BoolObject, k: string): bool
  {
    if o == [] then false
    else if o[0].key == k then o[0].value
    else Get(o[1..], k)
  }

  lemma {:induction false} GetFound(o: BoolObject, i: nat)
    requires WellFormed(o) && i < |o|
    ensures Get(o, o[i].key) == o[i].value
  {
    if i > 0 {
      GetFound(o[1..], i - 1);
    }
  }

  lemma {:induction false} GetMissing(o: BoolObject, k: string)
    requires k !in Keys(o)
    ensures !Get(o, k)
  {
    if o != [] {
      GetMissing(o[1..], k);
    }
  }

  /** `{...o, [k]: v}`: an existing key keeps its place, a new key goes last. */
  function Put(o: BoolObject, k: string, v: bool): (r: BoolObject)
    ensures Keys(r) == if k in Keys(o) then Keys(o) else Keys(o) + [k]
  {
    if o == [] then [Property(k, v)]
    else if o[0].key == k then [Property(k, v)] + o[1..]
    else
      var rest := Put(o[1..], k, v);
      assert ([o[0]] + rest)[1..] == rest;
      [o[0]] + rest
  }

  /** After the spread, `k` reads `v` and every other key reads what it read before. */
  lemma {:induction false} PutGet(o: BoolObject, k: string, v: bool, k': string)
    ensures Get(Put(o, k, v), k') == if k' == k then v else Get(o, k')
  {
    if o != [] && o[0].key != k {
      PutGet(o[1..], k, v, k');
    }
  }

  /** The spread never gives a key twice. */
  lemma PutWellFormed(o: BoolObject, k: string, v: bool)
    ensures WellFormed(o) ==> WellFormed(Put(o, k, v))
  {
    if WellFormed(o) {
      var r := Put(o, k, v);
      var ks, rs := Keys(o), Keys(r);
      forall i, j | 0 <= i < j < |r| ensures r[i].key != r[j].key {
        assert r[i].key == rs[i] && r[j].key == rs[j];
        if j < |o| {
          assert rs[i] == ks[i] && rs[j] == ks[j];
        } else {
          assert rs[i] == ks[i] && rs[j] == k;
        }
      }
    }
  }

  /** PutGet for every key at once. */
  lemma PutGetAll(o: BoolObject, k: string, v: bool)
    ensures forall k' :: Get(Put(o, k, v), k') == if k' == k then v else Get(o, k')
  {
    forall k' ensures Get(Put(o, k, v), k') == if k' == k then v else Get(o, k') {
      PutGet(o, k, v, k');
    }
  }
}
