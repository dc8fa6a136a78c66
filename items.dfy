/**
  InterMine items as the converters see them: a class name, string
  attributes and references to other items. An item is identified by the
  id the writer gave it when it was created; changing an item in place is
  replacing the record stored at its id.
 */
module Items {
  import opened JavaText

  type ItemId = nat

  datatype Item = Item(className: string, attrs: map<string, string>, refs: map<string, ItemId>)

  /** A fresh item of the given class, with no attributes and no references. */
  function NewItem(className: string): Item {
    Item(className, map[], map[])
  }

  /** `item.setAttributeIfNotNull(name, value)` on an attribute map. */
  function SetIfNotNull(attrs: map<string, string>, name: string, value: Option<string>): map<string, string> {
    if value.Some? then attrs[name := value.value] else attrs
  }

  /** A run of `setAttributeIfNotNull` calls, in order. */
  function SetAll(attrs: map<string, string>, pairs: seq<(string, Option<string>)>): (r: map<string, string>)
    ensures r.Keys == attrs.Keys + (set i | 0 <= i < |pairs| && pairs[i].1.Some? :: pairs[i].0)
    decreases |pairs|
  {
    if pairs == [] then attrs
    else
      var rest := SetAll(SetIfNotNull(attrs, pairs[0].0, pairs[0].1), pairs[1..]);
      assert forall i :: 1 <= i < |pairs| ==> pairs[i] == pairs[1..][i - 1];
      assert forall i :: 0 <= i < |pairs| - 1 ==> pairs[1..][i] == pairs[i + 1];
      rest
  }

  /** The names a run of calls writes, in order. */
  function Names(pairs: seq<(string, Option<string>)>): seq<string> {
    seq(|pairs|, i requires 0 <= i < |pairs| => pairs[i].0)
  }

  /** A non-null value wins unless a later call writes the same name. */
  lemma {:induction false} SetAllHit(attrs: map<string, string>, pairs: seq<(string, Option<string>)>, i: nat)
    requires i < |pairs| && pairs[i].1.Some?
    requires forall j :: i < j < |pairs| && pairs[j].0 == pairs[i].0 ==> pairs[j].1.None?
    ensures pairs[i].0 in SetAll(attrs, pairs)
    ensures SetAll(attrs, pairs)[pairs[i].0] == pairs[i].1.value
    decreases |pairs|
  {
    var next := SetIfNotNull(attrs, pairs[0].0, pairs[0].1);
    if i == 0 {
      SetAllMiss(next, pairs[1..], pairs[0].0);
    } else {
      SetAllHit(next, pairs[1..], i - 1);
    }
  }

  /** A name that no call writes with a non-null value keeps its old entry, or its absence. */
  lemma {:induction false} SetAllMiss(attrs: map<string, string>, pairs: seq<(string, Option<string>)>, name: string)
    requires forall j :: 0 <= j < |pairs| && pairs[j].0 == name ==> pairs[j].1.None?
    ensures name in SetAll(attrs, pairs) <==> name in attrs
    ensures name in attrs ==> SetAll(attrs, pairs)[name] == attrs[name]
    decreases |pairs|
  {
    if pairs != [] {
      var next := SetIfNotNull(attrs, pairs[0].0, pairs[0].1);
      assert name in next <==> name in attrs;
      assert name in attrs ==> next[name] == attrs[name];
      SetAllMiss(next, pairs[1..], name);
    }
  }

  /** Replaying the same calls changes nothing more: `setAttributeIfNotNull` runs are idempotent. */
  lemma {:induction false} SetAllIdempotent(attrs: map<string, string>, pairs: seq<(string, Option<string>)>)
    ensures SetAll(SetAll(attrs, pairs), pairs) == SetAll(attrs, pairs)
  {
    var once := SetAll(attrs, pairs);
    var twice := SetAll(once, pairs);
    forall name | name in twice
      ensures name in once && twice[name] == once[name]
    {
      LastWrite(attrs, pairs, name);
      LastWrite(once, pairs, name);
    }
  }

  /** The entry of a name after a run is the value of its last non-null write, if any. */
  lemma LastWrite(attrs: map<string, string>, pairs: seq<(string, Option<string>)>, name: string)
    ensures name in SetAll(attrs, pairs) ==>
              (exists i :: 0 <= i < |pairs| && pairs[i].0 == name && pairs[i].1.Some?
                 && SetAll(attrs, pairs)[name] == pairs[i].1.value
                 && forall j :: i < j < |pairs| && pairs[j].0 == name ==> pairs[j].1.None?)
              || (name in attrs && SetAll(attrs, pairs)[name] == attrs[name]
                 && forall j :: 0 <= j < |pairs| && pairs[j].0 == name ==> pairs[j].1.None?)
  {
    if exists i :: 0 <= i < |pairs| && pairs[i].0 == name && pairs[i].1.Some? {
      var i := LastSome(pairs, name);
      SetAllHit(attrs, pairs, i);
    } else {
      SetAllMiss(attrs, pairs, name);
    }
  }

  /** The index of the last non-null write of a name. */
  lemma LastSome(pairs: seq<(string, Option<string>)>, name: string) returns (i: nat)
    requires exists i :: 0 <= i < |pairs| && pairs[i].0 == name && pairs[i].1.Some?
    ensures i < |pairs| && pairs[i].0 == name && pairs[i].1.Some?
    ensures forall j :: i < j < |pairs| && pairs[j].0 == name ==> pairs[j].1.None?
  {
    var k :| 0 <= k < |pairs| && pairs[k].0 == name && pairs[k].1.Some?;
    i := k;
    while i + 1 < |pairs| && exists j :: i < j < |pairs| && pairs[j].0 == name && pairs[j].1.Some?
      invariant i < |pairs| && pairs[i].0 == name && pairs[i].1.Some?
      decreases |pairs| - i
    {
      var j :| i < j < |pairs| && pairs[j].0 == name && pairs[j].1.Some?;
      i := j;
    }
  }

  /** No name is written twice in a run of calls. */
  predicate DistinctNames(pairs: seq<(string, Option<string>)>) {
    forall i, j :: 0 <= i < j < |pairs| ==> pairs[i].0 != pairs[j].0
  }

  /** The attributes of the item cached under `key` after a run of in-place
      fills, fill `j` writing the calls `fills[j].1` into the item under
      `fills[j].0`. */
  function Refill(attrs: map<string, string>, fills: seq<(string, seq<(string, Option<string>)>)>, key: string)
    : map<string, string>
    decreases |fills|
  {
    if fills == [] then attrs
    else
      var before := Refill(attrs, fills[..|fills| - 1], key);
      var last := fills[|fills| - 1];
      if last.0 == key then SetAll(before, last.1) else before
  }

  /** The last fill of a key decides every name it writes with a value. */
  lemma {:induction false} RefillLastWins(attrs: map<string, string>,
                                         fills: seq<(string, seq<(string, Option<string>)>)>, key: string, i: nat)
    requires i < |fills| && fills[i].0 == key && DistinctNames(fills[i].1)
    requires forall j :: i < j < |fills| ==> fills[j].0 != key
    ensures forall k :: 0 <= k < |fills[i].1| && fills[i].1[k].1.Some? ==>
              fills[i].1[k].0 in Refill(attrs, fills, key)
              && Refill(attrs, fills, key)[fills[i].1[k].0] == fills[i].1[k].1.value
    decreases |fills|
  {
    var init := fills[..|fills| - 1];
    if i < |fills| - 1 {
      assert init[i] == fills[i];
      RefillLastWins(attrs, init, key, i);
    } else {
      var pairs := fills[i].1;
      forall k | 0 <= k < |pairs| && pairs[k].1.Some?
        ensures pairs[k].0 in SetAll(Refill(attrs, init, key), pairs)
                && SetAll(Refill(attrs, init, key), pairs)[pairs[k].0] == pairs[k].1.value
      {
        SetAllHit(Refill(attrs, init, key), pairs, k);
      }
    }
  }

  /** A name no fill of the key writes keeps its entry, or its absence. */
  lemma {:induction false} RefillMiss(attrs: map<string, string>,
                                     fills: seq<(string, seq<(string, Option<string>)>)>, key: string, name: string)
    requires forall j, k :: 0 <= j < |fills| && fills[j].0 == key && 0 <= k < |fills[j].1| ==> fills[j].1[k].0 != name
    ensures name in Refill(attrs, fills, key) <==> name in attrs
    ensures name in attrs ==> Refill(attrs, fills, key)[name] == attrs[name]
    decreases |fills|
  {
    if fills != [] {
      var init := fills[..|fills| - 1];
      assert forall j :: 0 <= j < |init| ==> init[j] == fills[j];
      RefillMiss(attrs, init, key, name);
      var last := fills[|fills| - 1];
      if last.0 == key {
        SetAllMiss(Refill(attrs, init, key), last.1, name);
      }
    }
  }

  /** The references an item gets from two optional targets. */
  function LinkRefs(patient: Option<ItemId>, referral: Option<ItemId>): (r: map<string, ItemId>)
    ensures "patient" in r <==> patient.Some?
    ensures "referral" in r <==> referral.Some?
    ensures patient.Some? ==> r["patient"] == patient.value
    ensures referral.Some? ==> r["referral"] == referral.value
    ensures forall n :: n in r ==> n == "patient" || n == "referral"
  {
    var p: map<string, ItemId> := if patient.Some? then map["patient" := patient.value] else map[];
    if referral.Some? then p["referral" := referral.value] else p
  }

  /** The key of a referral or contact in the caches: `patientId + "-" + referralId`,
      where a null id prints as `null`. */
  function PatRefId(patientId: Option<string>, referralId: Option<string>): string {
    Show(patientId) + "-" + Show(referralId)
  }

  /** For ids without a dash, the key determines both ids as printed. */
  lemma PatRefIdSplits(p1: Option<string>, r1: Option<string>, p2: Option<string>, r2: Option<string>)
    requires '-' !in Show(p1) && '-' !in Show(p2)
    requires PatRefId(p1, r1) == PatRefId(p2, r2)
    ensures Show(p1) == Show(p2) && Show(r1) == Show(r2)
  {
    var k := PatRefId(p1, r1);
    assert k[..|Show(p1)|] == Show(p1) && k[|Show(p1)|] == '-';
    assert k[..|Show(p2)|] == Show(p2) && k[|Show(p2)|] == '-';
    IndexOfFirst(k, '-', |Show(p1)|);
    IndexOfFirst(k, '-', |Show(p2)|);
    assert k[|Show(p1)| + 1..] == Show(r1);
    assert k[|Show(p2)| + 1..] == Show(r2);
  }

  /** The key is not injective: a dash inside an id, or a patient id spelled
      `null`, makes two different pairs share a key. */
  lemma PatRefIdCollisions(a: string, b: string, c: string, d: string)
    requires a == "1-2" && b == "3" && c == "1" && d == "2-3"
    ensures (Some(a), Some(b)) != (Some(c), Some(d))
    ensures PatRefId(Some(a), Some(b)) == PatRefId(Some(c), Some(d))
    ensures PatRefId(None, Some(b)) == PatRefId(Some("null"), Some(b))
  {
    assert a != c;
  }

  /** The data source both converters name their datasets under. */
  const DataSourceName := "NHS"

  function DataSourceItem(): Item {
    Item("DataSource", map["name" := DataSourceName], map[])
  }

  function DataSetItem(name: Option<string>, siteType: Option<string>, dataSource: ItemId): Item {
    Item("DataSet", SetAll(map[], [("name", name), ("type", siteType)]), map["dataSource" := dataSource])
  }
}
