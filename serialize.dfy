/** `model_to_dict` of flux_orm/models/utils.py: turns a row into a
    JSON-serializable dictionary, one entry per table column. A row is seen
    as the sequence of its columns with the value `getattr` reads for each;
    the string form of a UUID and the ISO form of a datetime are supplied by
    the caller as functions, since they come from the Python library. */
module Serialize {
  import opened Common

  /** The values a column of either schema can hold. */
  datatype Value =
    | VNone
    | VBool(b: bool)
    | VInt(i: int)
    | VStr(s: string)
    | VUuid(id: Id)
    | VDateTime(t: DateTime)
    | VJson(j: Json)

  /** A value `json.dumps` accepts as it is: neither a UUID nor a datetime. */
  predicate JsonReady(v: Value)
  {
    !v.VUuid? && !v.VDateTime?
  }

  /** One column value as the dictionary holds it: a UUID becomes its string
      form, a datetime its ISO form, and anything else is kept. */
  function Convert(v: Value, uuidStr: Id -> string, iso: DateTime -> string): Value
  {
    match v
    case VUuid(id) => VStr(uuidStr(id))
    case VDateTime(t) => VStr(iso(t))
    case _ => v
  }

  /** Every converted value is JSON-ready, and converting it again changes nothing. */
  lemma ConvertIsJsonReady(v: Value, uuidStr: Id -> string, iso: DateTime -> string)
    ensures JsonReady(Convert(v, uuidStr, iso))
    ensures Convert(Convert(v, uuidStr, iso), uuidStr, iso) == Convert(v, uuidStr, iso)
    ensures JsonReady(v) ==> Convert(v, uuidStr, iso) == v
  {
  }

  /** The column names of a row. */
  function Names(cols: seq<(string, Value)>): set<string>
  {
    set i | 0 <= i < |cols| :: cols[i].0
  }

  /** No later column of `cols` has the name of column `i`. */
  predicate LastWithName(cols: seq<(string, Value)>, i: int)
    requires 0 <= i < |cols|
  {
    forall j :: i < j < |cols| ==> cols[j].0 != cols[i].0
  }

  /** The dictionary the columns give, entered in column order; a later
      column with the same name overwrites an earlier one, as a dict
      assignment does. */
  function ToDict(cols: seq<(string, Value)>, uuidStr: Id -> string, iso: DateTime -> string): map<string, Value>
    decreases |cols|
  {
    if cols == [] then map[]
    else
      var last := cols[|cols| - 1];
      ToDict(cols[..|cols| - 1], uuidStr, iso)[last.0 := Convert(last.1, uuidStr, iso)]
  }

  /** One key per column name, and no other. */
  lemma {:induction false} ToDictKeys(cols: seq<(string, Value)>, uuidStr: Id -> string, iso: DateTime -> string)
    ensures ToDict(cols, uuidStr, iso).Keys == Names(cols)
    decreases |cols|
  {
    if cols != [] {
      var init := cols[..|cols| - 1];
      ToDictKeys(init, uuidStr, iso);
      assert forall i :: 0 <= i < |init| ==> init[i] == cols[i];
      assert Names(cols) == Names(init) + {cols[|cols| - 1].0};
    }
  }

  /** The entry of a name holds the converted value of the last column with that name. */
  lemma {:induction false} ToDictValue(cols: seq<(string, Value)>, uuidStr: Id -> string, iso: DateTime -> string, i: int)
    requires 0 <= i < |cols| && LastWithName(cols, i)
    ensures cols[i].0 in ToDict(cols, uuidStr, iso)
    ensures ToDict(cols, uuidStr, iso)[cols[i].0] == Convert(cols[i].1, uuidStr, iso)
    decreases |cols|
  {
    if i < |cols| - 1 {
      var init := cols[..|cols| - 1];
      assert init[i] == cols[i];
      assert LastWithName(init, i) by {
        forall j | i < j < |init|
          ensures init[j].0 != init[i].0
        {
          assert init[j] == cols[j];
        }
      }
      ToDictValue(init, uuidStr, iso, i);
    }
  }

  /** Every value of the dictionary is JSON-ready. */
  lemma {:induction false} ToDictJsonReady(cols: seq<(string, Value)>, uuidStr: Id -> string, iso: DateTime -> string)
    ensures forall n :: n in ToDict(cols, uuidStr, iso) ==> JsonReady(ToDict(cols, uuidStr, iso)[n])
    decreases |cols|
  {
    if cols != [] {
      ToDictJsonReady(cols[..|cols| - 1], uuidStr, iso);
      ConvertIsJsonReady(cols[|cols| - 1].1, uuidStr, iso);
    }
  }

  /** Fills the dictionary one column at a time, in column order. */
  method ModelToDict(cols: seq<(string, Value)>, uuidStr: Id -> string, iso: DateTime -> string)
    returns (r: map<string, Value>)
    ensures r == ToDict(cols, uuidStr, iso)
    ensures r.Keys == Names(cols)
    ensures forall i :: 0 <= i < |cols| && LastWithName(cols, i) ==> r[cols[i].0] == Convert(cols[i].1, uuidStr, iso)
    ensures forall n :: n in r ==> JsonReady(r[n])
  {
    r := map[];
    var k := 0;
    while k < |cols|
      invariant 0 <= k <= |cols|
      invariant r == ToDict(cols[..k], uuidStr, iso)
    {
      var (name, value) := cols[k];
      var converted: Value;
      if value.VUuid? {
        converted := VStr(uuidStr(value.id));
      } else if value.VDateTime? {
        converted := VStr(iso(value.t));
      } else {
        converted := value;
      }
      assert cols[..k + 1][..k] == cols[..k];
      r := r[name := converted];
      k := k + 1;
    }
    assert cols[..k] == cols;
    ToDictKeys(cols, uuidStr, iso);
    ToDictJsonReady(cols, uuidStr, iso);
    forall i | 0 <= i < |cols| && LastWithName(cols, i)
      ensures r[cols[i].0] == Convert(cols[i].1, uuidStr, iso)
    {
      ToDictValue(cols, uuidStr, iso, i);
    }
  }

  /** When the column names are distinct, as the columns of one table are,
      every column gives its own converted value. */
  lemma DistinctNamesEachKept(cols: seq<(string, Value)>, uuidStr: Id -> string, iso: DateTime -> string, i: int)
    requires forall a, b :: 0 <= a < b < |cols| ==> cols[a].0 != cols[b].0
    requires 0 <= i < |cols|
    ensures cols[i].0 in ToDict(cols, uuidStr, iso)
    ensures ToDict(cols, uuidStr, iso)[cols[i].0] == Convert(cols[i].1, uuidStr, iso)
  {
    ToDictValue(cols, uuidStr, iso, i);
  }
}
