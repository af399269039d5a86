/** The value `json.loads` hands back, as Python sees it. */
module Json {

  datatype JsonValue =
    | JNull
    | JBool(b: bool)
    | JNumber(n: real)
    | JString(s: string)
    | JArray(items: seq<JsonValue>)
      /** An object, its members as the JSON text lists them. A key may be
          listed more than once; the dict `json.loads` builds keeps it once,
          at its first position, with its last value (`DictKeys`,
          `ObjectMap`). */
    | JObject(members: seq<(string, JsonValue)>)

  /** A parsed top-level JSON object (`Dict[str, Any]`). */
  type JsonMap = map<string, JsonValue>

  predicate HasKey(members: seq<(string, JsonValue)>, k: string) {
    exists i :: 0 <= i < |members| && members[i].0 == k
  }

  /** The position of the first member with key `k`. */
  function FirstIndex(members: seq<(string, JsonValue)>, k: string): (p: nat)
    requires HasKey(members, k)
    ensures p < |members| && members[p].0 == k
    ensures forall q :: 0 <= q < p ==> members[q].0 != k
  {
    if members[0].0 == k then 0
    else
      var i :| 0 <= i < |members| && members[i].0 == k;
      assert members[1..][i - 1].0 == k;
      1 + FirstIndex(members[1..], k)
  }

  /** Two positions that are each the first with key `k` are the same one. */
  lemma FirstIndexUnique(members: seq<(string, JsonValue)>, k: string, p: nat)
    requires p < |members| && members[p].0 == k
    requires forall q :: 0 <= q < p ==> members[q].0 != k
    ensures FirstIndex(members, k) == p
  {
  }

  /** The keys of all members but the last, and how they sit in the whole. */
  lemma HasKeyPrefix(members: seq<(string, JsonValue)>, k: string)
    requires members != []
    ensures HasKey(members[..|members| - 1], k) ==> HasKey(members, k)
    ensures HasKey(members, k) ==> HasKey(members[..|members| - 1], k) || members[|members| - 1].0 == k
  {
    var init := members[..|members| - 1];
    if HasKey(init, k) {
      var i :| 0 <= i < |init| && init[i].0 == k;
      assert members[i].0 == k;
    }
    if HasKey(members, k) {
      var i :| 0 <= i < |members| && members[i].0 == k;
      if i < |init| { assert init[i].0 == k; }
    }
  }

  /** A key the earlier members list is first found where they list it first. */
  lemma FirstIndexPrefix(members: seq<(string, JsonValue)>, k: string)
    requires members != [] && HasKey(members[..|members| - 1], k)
    ensures HasKey(members, k)
    ensures FirstIndex(members, k) == FirstIndex(members[..|members| - 1], k)
  {
    var init := members[..|members| - 1];
    HasKeyPrefix(members, k);
    var p := FirstIndex(init, k);
    assert members[p] == init[p];
    assert forall q :: 0 <= q < p ==> members[q] == init[q];
    FirstIndexUnique(members, k, p);
  }

  /** A key only the last member lists is first found there. */
  lemma FirstIndexLast(members: seq<(string, JsonValue)>)
    requires members != [] && !HasKey(members[..|members| - 1], members[|members| - 1].0)
    ensures HasKey(members, members[|members| - 1].0)
    ensures FirstIndex(members, members[|members| - 1].0) == |members| - 1
  {
    var init := members[..|members| - 1];
    var k := members[|members| - 1].0;
    forall q | 0 <= q < |members| - 1 ensures members[q].0 != k {
      assert init[q] == members[q];
    }
    FirstIndexUnique(members, k, |members| - 1);
  }

  /** The keys of the dict `json.loads` builds from an object, in the order
      iterating over it yields them: each key once, at its first position. */
  function DictKeys(members: seq<(string, JsonValue)>): (r: seq<string>)
    ensures forall i, j :: 0 <= i < j < |r| ==> r[i] != r[j]
    ensures forall k :: k in r <==> HasKey(members, k)
    ensures forall i, j :: 0 <= i < j < |r| ==>
      FirstIndex(members, r[i]) < FirstIndex(members, r[j])
  {
    if members == [] then []
    else
      var init := members[..|members| - 1];
      var last := members[|members| - 1];
      var ks := DictKeys(init);
      assert forall k :: HasKey(members, k) <==> HasKey(init, k) || k == last.0 by {
        forall k { HasKeyPrefix(members, k); }
      }
      assert forall k :: k in ks ==> FirstIndex(members, k) == FirstIndex(init, k) by {
        forall k | k in ks { FirstIndexPrefix(members, k); }
      }
      if last.0 in ks then ks
      else
        FirstIndexLast(members);
        ks + [last.0]
  }

  /** The dict of an object's members, looked up by key: every key it lists
      is present, nothing else is, and a key listed twice keeps its last
      value. */
  function ObjectMap(members: seq<(string, JsonValue)>): (m: JsonMap)
    ensures forall k :: k in m <==> HasKey(members, k)
    ensures forall i :: 0 <= i < |members| ==> members[i].0 in m
    ensures forall i :: 0 <= i < |members| ==>
      (forall j :: i < j < |members| ==> members[j].0 != members[i].0) ==>
        m[members[i].0] == members[i].1
  {
    if members == [] then map[]
    else
      var init := members[..|members| - 1];
      var last := members[|members| - 1];
      assert forall i :: 0 <= i < |init| ==> init[i] == members[i];
      ObjectMap(init)[last.0 := last.1]
  }
}
