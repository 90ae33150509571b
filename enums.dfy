/** The case-insensitive lookup of `CustomStrEnum` (flux_orm/models/enums.py)
    and its two enumerations. */
module Enums {
  import opened Common

  /** A member of a string enumeration: its Python name and its value. */
  datatype Member = Member(name: string, value: string)

  /** The argument of an enum lookup: a string, or any other object given by
      the text its `str()` produces. */
  datatype PyValue = PyStr(s: string) | PyObject(text: string)

  /** `str(value)`. */
  function Str(v: PyValue): string
  {
    match v
    case PyStr(s) => s
    case PyObject(t) => t
  }

  function LowerChar(c: char): char
  {
    if 'A' <= c <= 'Z' then (c as int + 32) as char else c
  }

  /** `str.lower()`, on the ASCII letters. */
  function Lower(s: string): string
  {
    seq(|s|, i requires 0 <= i < |s| => LowerChar(s[i]))
  }

  predicate IsLower(s: string)
  {
    forall i :: 0 <= i < |s| ==> !('A' <= s[i] <= 'Z')
  }

  lemma LowerIsLower(s: string)
    ensures IsLower(Lower(s))
    ensures IsLower(s) ==> Lower(s) == s
  {
  }

  /** The enum's value table: the first member, in declaration order, whose
      value is exactly `s`. */
  function FindExact(members: seq<Member>, s: string): (r: Option<Member>)
    ensures r.Some? <==> exists i :: 0 <= i < |members| && members[i].value == s
    ensures r.Some? ==> exists i :: (0 <= i < |members| && members[i] == r.value && members[i].value == s
      && forall j :: 0 <= j < i ==> members[j].value != s)
  {
    if members == [] then None
    else if members[0].value == s then Some(members[0])
    else
      var r := FindExact(members[1..], s);
      assert r.Some? ==> exists i :: (1 <= i < |members| && members[i] == r.value && members[i].value == s
        && forall j :: 0 <= j < i ==> members[j].value != s) by {
        if r.Some? {
          var i :| 0 <= i < |members[1..]| && members[1..][i] == r.value && members[1..][i].value == s
            && forall j :: 0 <= j < i ==> members[1..][j].value != s;
          assert members[i + 1] == r.value;
          assert forall j :: 1 <= j < i + 1 ==> members[j].value != s by {
            forall j | 1 <= j < i + 1 ensures members[j].value != s {
              assert members[j] == members[1..][j - 1];
            }
          }
        }
      }
      assert (exists i :: 0 <= i < |members| && members[i].value == s) ==> r.Some? by {
        if i :| 0 <= i < |members| && members[i].value == s {
          assert i > 0 && members[1..][i - 1].value == s;
        }
      }
      r
  }

  /** The loop of `_missing_`: the first member, in declaration order, whose
      lower-cased value equals `v`. */
  function FindLower(members: seq<Member>, v: string): (r: Option<Member>)
    ensures r.Some? <==> exists i :: 0 <= i < |members| && Lower(members[i].value) == v
    ensures r.Some? ==> exists i :: (0 <= i < |members| && members[i] == r.value && Lower(members[i].value) == v
      && forall j :: 0 <= j < i ==> Lower(members[j].value) != v)
  {
    if members == [] then None
    else if Lower(members[0].value) == v then Some(members[0])
    else
      var r := FindLower(members[1..], v);
      assert r.Some? ==> exists i :: (1 <= i < |members| && members[i] == r.value && Lower(members[i].value) == v
        && forall j :: 0 <= j < i ==> Lower(members[j].value) != v) by {
        if r.Some? {
          var i :| 0 <= i < |members[1..]| && members[1..][i] == r.value && Lower(members[1..][i].value) == v
            && forall j :: 0 <= j < i ==> Lower(members[1..][j].value) != v;
          assert members[i + 1] == r.value;
          assert forall j :: 1 <= j < i + 1 ==> Lower(members[j].value) != v by {
            forall j | 1 <= j < i + 1 ensures Lower(members[j].value) != v {
              assert members[j] == members[1..][j - 1];
            }
          }
        }
      }
      assert (exists i :: 0 <= i < |members| && Lower(members[i].value) == v) ==> r.Some? by {
        if i :| 0 <= i < |members| && Lower(members[i].value) == v {
          assert i > 0 && Lower(members[1..][i - 1].value) == v;
        }
      }
      r
  }

  /** `CustomStrEnum._missing_`: `None` when no member matches. (Every member
      of a `StrEnum` has a string value, so the `hasattr` and `isinstance`
      guards of the source always hold.) */
  function Missing(members: seq<Member>, value: PyValue): (r: Option<Member>)
    ensures r.Some? <==> exists i :: 0 <= i < |members| && Lower(members[i].value) == Lower(Str(value))
    ensures r.Some? ==> r.value in members && Lower(r.value.value) == Lower(Str(value))
  {
    FindLower(members, Lower(Str(value)))
  }

  /** Calling the enumeration, `E(value)`: the exact value first, then
      `_missing_`; `None` stands for the `ValueError` Python raises. */
  function Lookup(members: seq<Member>, value: PyValue): (r: Option<Member>)
    ensures value.PyStr? && (exists i :: 0 <= i < |members| && members[i].value == value.s) ==>
      r.Some? && r.value.value == value.s
    ensures r.None? <==> forall i :: 0 <= i < |members| ==> Lower(members[i].value) != Lower(Str(value))
    ensures r.Some? ==> r.value in members && Lower(r.value.value) == Lower(Str(value))
  {
    var exact := if value.PyStr? then FindExact(members, value.s) else None;
    if exact.Some? then exact else Missing(members, value)
  }

  /** What `@enum.unique` guarantees, and what these enumerations also keep:
      every value is lower case, so the lower-cased values are distinct too. */
  predicate WellFormed(members: seq<Member>)
  {
    && (forall i :: 0 <= i < |members| ==> IsLower(members[i].value))
    && (forall i, j :: 0 <= i < j < |members| ==> members[i].value != members[j].value)
  }

  const PipelineStatus: seq<Member> := [
    Member("NEW", "new"),
    Member("SENT", "sent"),
    Member("PROCESSED", "processed"),
    Member("ERROR", "error")
  ]

  /** A value of a column typed `Enum(PipelineStatus)`: one of its members. */
  type PipelineStatusMember = m: Member | m in PipelineStatus witness Member("NEW", "new")

  const MatchStatusEnum: seq<Member> := [
    Member("SCHEDULED", "scheduled"),
    Member("LIVE", "live"),
    Member("FINISHED", "finished"),
    Member("CANCELLED", "cancelled"),
    Member("POSTPONED", "postponed")
  ]

  function Values(members: seq<Member>): set<string>
  {
    set i | 0 <= i < |members| :: members[i].value
  }

  /** Values that are lower case and start with distinct letters are well formed. */
  lemma {:induction false} DistinctInitials(members: seq<Member>)
    requires forall i :: 0 <= i < |members| ==> |members[i].value| > 0 && IsLower(members[i].value)
    requires forall i, j :: 0 <= i < j < |members| ==> members[i].value[0] != members[j].value[0]
    ensures WellFormed(members)
  {
    forall i, j | 0 <= i < j < |members|
      ensures members[i].value != members[j].value
    {
      assert members[i].value[0] != members[j].value[0];
    }
  }

  lemma PipelineStatusValues()
    ensures Values(PipelineStatus) == {"new", "sent", "processed", "error"}
    ensures WellFormed(PipelineStatus)
  {
    assert PipelineStatus[0].value == "new";
    assert PipelineStatus[1].value == "sent";
    assert PipelineStatus[2].value == "processed";
    assert PipelineStatus[3].value == "error";
    DistinctInitials(PipelineStatus);
  }

  lemma MatchStatusEnumValues()
    ensures Values(MatchStatusEnum) == {"scheduled", "live", "finished", "cancelled", "postponed"}
    ensures WellFormed(MatchStatusEnum)
  {
    assert MatchStatusEnum[0].value == "scheduled";
    assert MatchStatusEnum[1].value == "live";
    assert MatchStatusEnum[2].value == "finished";
    assert MatchStatusEnum[3].value == "cancelled";
    assert MatchStatusEnum[4].value == "postponed";
    DistinctInitials(MatchStatusEnum);
  }

  /** In a well-formed enumeration the lookup finds a member exactly when
      the lower-cased `str` of the argument is that member's value. */
  lemma {:induction false} LookupMatchesLowerValue(members: seq<Member>, value: PyValue, i: nat)
    requires WellFormed(members)
    requires i < |members|
    ensures Lookup(members, value) == Some(members[i]) <==> Lower(Str(value)) == members[i].value
  {
    var v := Lower(Str(value));
    LowerIsLower(members[i].value);
    if value.PyStr? && FindExact(members, value.s).Some? {
      var k :| 0 <= k < |members| && members[k] == FindExact(members, value.s).value && members[k].value == value.s;
      LowerIsLower(value.s);
      assert Lower(Str(value)) == members[k].value;
      if k != i {
        assert members[k].value != members[i].value;
        assert members[k] != members[i];
      }
    } else {
      if v == members[i].value {
        assert Lower(members[i].value) == v;
        var r := FindLower(members, v);
        var k :| 0 <= k < |members| && members[k] == r.value && Lower(members[k].value) == v;
        LowerIsLower(members[k].value);
      }
    }
  }

  /** No member's lower-cased value matches: the lookup fails. */
  lemma LookupNone(members: seq<Member>, value: PyValue)
    requires WellFormed(members)
    ensures Lookup(members, value).None? <==> forall i :: 0 <= i < |members| ==> Lower(members[i].value) != Lower(Str(value))
  {
    if value.PyStr? && FindExact(members, value.s).Some? {
      var k :| 0 <= k < |members| && members[k].value == value.s;
      LowerIsLower(members[k].value);
    }
  }

  /** Every member is found by its exact value. */
  lemma LookupExactValue(members: seq<Member>, i: nat)
    requires WellFormed(members)
    requires i < |members|
    ensures Lookup(members, PyStr(members[i].value)) == Some(members[i])
  {
    LowerIsLower(members[i].value);
    LookupMatchesLowerValue(members, PyStr(members[i].value), i);
  }

  /** Looking up the value of a member the lookup returned gives that member again. */
  lemma LookupIdempotent(members: seq<Member>, value: PyValue)
    requires WellFormed(members)
    ensures Lookup(members, value).Some? ==>
      Lookup(members, PyStr(Lookup(members, value).value.value)) == Lookup(members, value)
  {
    var r := Lookup(members, value);
    if r.Some? {
      var i: nat;
      if value.PyStr? && FindExact(members, value.s).Some? {
        i :| 0 <= i < |members| && members[i] == FindExact(members, value.s).value;
      } else {
        i :| 0 <= i < |members| && members[i] == FindLower(members, Lower(Str(value))).value;
      }
      LookupExactValue(members, i);
    }
  }
}
