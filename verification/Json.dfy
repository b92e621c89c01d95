/**
  JSON values as the suite holds them: an object is a list of members in insertion
  order. `Meaning` forgets that order, so two values have one meaning exactly when
  they are the same JSON.
 */
module Json {
  import opened Wrappers

  datatype Json =
    | Null
    | Bool(truth: bool)
    | Num(number: real)
    | Str(text: string)
    | Arr(items: seq<Json>)
    | Obj(members: seq<Member>)

  datatype Member = Member(key: string, value: Json)

  /** No object has two members of one name, at any depth. Every JavaScript object is so. */
  predicate WellFormed(j: Json) {
    match j
    case Arr(items) => forall i | 0 <= i < |items| :: WellFormed(items[i])
    case Obj(ms) => DistinctKeys(ms) && forall i | 0 <= i < |ms| :: WellFormed(ms[i].value)
    case _ => true
  }

  predicate DistinctKeys(ms: seq<Member>) {
    forall i, k | 0 <= i < k < |ms| :: ms[i].key != ms[k].key
  }

  function Keys(ms: seq<Member>): set<string> {
    set i | 0 <= i < |ms| :: ms[i].key
  }

  /** Where the member named `k` is. */
  function Find(ms: seq<Member>, k: string): (i: nat)
    requires k in Keys(ms)
    ensures i < |ms| && ms[i].key == k
  {
    if ms[0].key == k then 0 else
    assert exists i :: 0 <= i < |ms[1..]| && ms[1..][i].key == k by {
      var i :| 0 <= i < |ms| && ms[i].key == k;
      assert ms[1..][i - 1].key == k;
    }
    1 + Find(ms[1..], k)
  }

  /** `j[k]`, for a name no prototype carries. */
  function Field(j: Json, k: string): Option<Json> {
    if j.Obj? && k in Keys(j.members) then Some(j.members[Find(j.members, k)].value) else None
  }

  /** `j?.[k]` */
  function FieldOf(j: Option<Json>, k: string): Option<Json> {
    if j.Some? then Field(j.value, k) else None
  }

  /** A member that is a string. */
  function Text(j: Json, k: string): Option<string> {
    if j.Obj? && k in Keys(j.members) && j.members[Find(j.members, k)].value.Str?
    then Some(j.members[Find(j.members, k)].value.text) else None
  }

  lemma FindIsUnique(ms: seq<Member>, i: nat)
    requires DistinctKeys(ms) && i < |ms|
    ensures ms[i].key in Keys(ms) && Find(ms, ms[i].key) == i
  {
  }

  lemma {:induction false} KeyCount(ms: seq<Member>)
    requires DistinctKeys(ms)
    ensures |Keys(ms)| == |ms|
  {
    if ms == [] {
    } else {
      var rest := ms[..|ms| - 1];
      KeyCount(rest);
      assert Keys(ms) == Keys(rest) + {ms[|rest|].key};
    }
  }

  /** A JSON value without member order. */
  datatype Value =
    | VNull
    | VBool(truth: bool)
    | VNum(number: real)
    | VStr(text: string)
    | VArr(items: seq<Value>)
    | VObj(members: map<string, Value>)

  function Meaning(j: Json): Value {
    match j
    case Null => VNull
    case Bool(b) => VBool(b)
    case Num(n) => VNum(n)
    case Str(s) => VStr(s)
    case Arr(items) => VArr(seq(|items|, i requires 0 <= i < |items| => Meaning(items[i])))
    case Obj(ms) => VObj(map k | k in Keys(ms) :: Meaning(ms[Find(ms, k)].value))
  }

  /** What `Meaning` says of an object, member by member. */
  lemma MeaningOfMember(ms: seq<Member>, i: nat)
    requires DistinctKeys(ms) && i < |ms|
    ensures ms[i].key in Meaning(Obj(ms)).members
    ensures Meaning(Obj(ms)).members[ms[i].key] == Meaning(ms[i].value)
  {
    FindIsUnique(ms, i);
  }
}
