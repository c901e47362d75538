/** The DL struct tree (DLStruct) as a value: an optional own value, a
    field table, and per type name an insertion-ordered queue of child
    structs. */
module Structs {
  import opened Basics
  import opened Numbers
  import opened Values

  datatype Struct = Struct(value: Option<Value>, fields: map<string, Value>, groups: seq<Group>)

  /** The queue of children filed under one type name. */
  datatype Group = Group(typeName: string, queue: seq<Struct>)

  /** `new DLStruct()`. */
  const Empty := Struct(None, map[], [])

  /** Position of the group for type `t`, if any. */
  function GroupIndex(groups: seq<Group>, t: string): (r: Option<nat>)
    ensures r.Some? ==> r.value < |groups| && groups[r.value].typeName == t
    ensures r.None? ==> forall j :: 0 <= j < |groups| ==> groups[j].typeName != t
    ensures r.Some? ==> forall j :: 0 <= j < r.value ==> groups[j].typeName != t
  {
    if groups == [] then None
    else if groups[0].typeName == t then Some(0)
    else match GroupIndex(groups[1..], t)
      case None => None
      case Some(i) => Some(i + 1)
  }

  predicate DistinctNames(groups: seq<Group>)
  {
    forall i, j :: 0 <= i < j < |groups| ==> groups[i].typeName != groups[j].typeName
  }

  /** The shape the queue map has: one queue per type, never empty, and
      every child well formed in turn. */
  predicate WF(s: Struct)
  {
    DistinctNames(s.groups) &&
    forall i :: 0 <= i < |s.groups| ==>
      |s.groups[i].queue| > 0 &&
      forall k :: 0 <= k < |s.groups[i].queue| ==> WF(s.groups[i].queue[k])
  }

  /** containsField(name). */
  predicate ContainsField(s: Struct, name: string)
  {
    name in s.fields
  }

  /** set(value) and the own-value put overloads; None is Java's null. */
  function SetValue(s: Struct, v: Option<Value>): (r: Struct)
    ensures r.value == v && r.fields == s.fields && r.groups == s.groups
  {
    s.(value := v)
  }

  /** put(name, value): a null value removes the field. */
  function PutField(s: Struct, name: string, v: Option<Value>): (r: Struct)
    ensures ContainsField(r, name) <==> v.Some?
    ensures v.Some? ==> r.fields[name] == v.value
    ensures forall k :: k != name ==> (k in r.fields <==> k in s.fields)
    ensures forall k :: k != name && k in s.fields ==> r.fields[k] == s.fields[k]
    ensures r.value == s.value && r.groups == s.groups
  {
    match v
    case Some(x) => s.(fields := s.fields[name := x])
    case None => s.(fields := s.fields - {name})
  }

  /** The value a put overload stores for an array argument. */
  function Fresh(a: Addition): Value
  {
    match a
    case Numbers(d) => NumArr(d)
    case Strings(ss) => StrArr(ss)
  }

  /** append(name, x): a null argument (None) does nothing, an absent
      field is put, a present one is appended to in place. */
  function AppendField(s: Struct, name: string, a: Option<Addition>): (r: Struct)
    ensures a.None? ==> r == s
    ensures a.Some? && !ContainsField(s, name) ==> r == PutField(s, name, Some(Fresh(a.value)))
    ensures a.Some? && ContainsField(s, name) ==>
      r == PutField(s, name, Some(Apply(s.fields[name], a.value)))
  {
    if a.None? then s
    else if name in s.fields then s.(fields := s.fields[name := Apply(s.fields[name], a.value)])
    else s.(fields := s.fields[name := Fresh(a.value)])
  }

  /** append(x) on the struct's own value: a null argument does nothing;
      otherwise a struct without a value throws NullPointerException. */
  function AppendValue(s: Struct, a: Option<Addition>): (r: Result<Struct>)
    ensures r.Thrown? <==> a.Some? && s.value.None?
    ensures r.Thrown? ==> r.error == NullPointer
    ensures a.None? ==> r == Ok(s)
    ensures r.Ok? && a.Some? ==> r.value == SetValue(s, Some(Apply(s.value.value, a.value)))
  {
    if a.None? then Ok(s)
    else if s.value.None? then Thrown(NullPointer)
    else Ok(s.(value := Some(Apply(s.value.value, a.value))))
  }

  /** Outcome of getValue(name). */
  datatype Lookup = Missing | Found(v: Value) | Diverges

  /** The reference chase of getValue(name): an identifier value is
      replaced by the value of the field it names, until a non-identifier
      value or an absent name is reached. `visited` holds the names
      already passed through; reaching one again means the loop runs
      forever. */
  function Chase(fields: map<string, Value>, name: string, visited: set<string>): (r: Lookup)
    ensures name !in fields ==> r == Missing
    ensures r.Found? ==> !r.v.Ref? && r.v in fields.Values
    decreases fields.Keys - visited
  {
    if name !in fields then Missing
    else if name in visited then Diverges
    else match fields[name]
      case Ref(n) => Chase(fields, n, visited + {name})
      case v => Found(v)
  }

  function GetValue(s: Struct, name: string): (r: Lookup)
    ensures name !in s.fields ==> r == Missing
    ensures name in s.fields && !s.fields[name].Ref? ==> r == Found(s.fields[name])
    ensures r.Found? ==> !r.v.Ref? && r.v in s.fields.Values
  {
    Chase(s.fields, name, {})
  }

  /** Fewer names passed through can only postpone the detection of a
      cycle: a chase that terminates gives the same answer from any
      smaller visited set. */
  lemma {:induction false} ChaseVisited(fields: map<string, Value>, name: string, small: set<string>, big: set<string>)
    requires small <= big
    requires Chase(fields, name, big) != Diverges
    ensures Chase(fields, name, small) == Chase(fields, name, big)
    decreases fields.Keys - small
  {
    if name in fields && name !in big && fields[name].Ref? {
      ChaseVisited(fields, fields[name].name, small + {name}, big + {name});
    }
  }

  /** Following a reference is transparent: a field holding the
      identifier `n` reads as field `n` does. A non-identifier field reads
      as itself. */
  lemma {:induction false} ChaseStep(fields: map<string, Value>, name: string)
    requires name in fields && Chase(fields, name, {}) != Diverges
    ensures !fields[name].Ref? ==> Chase(fields, name, {}) == Found(fields[name])
    ensures fields[name].Ref? ==> Chase(fields, name, {}) == Chase(fields, fields[name].name, {})
  {
    if fields[name].Ref? {
      assert {} + {name} == {name};
      assert Chase(fields, name, {}) == Chase(fields, fields[name].name, {name});
      ChaseVisited(fields, fields[name].name, {}, {name});
    }
  }

  /** A field naming itself sends getValue into an endless loop. */
  lemma {:induction false} SelfReferenceDiverges(fields: map<string, Value>, name: string)
    requires name in fields && fields[name] == Ref(name)
    ensures Chase(fields, name, {}) == Diverges
  {
    assert Chase(fields, name, {name}) == Diverges;
  }

  /** getString(name): null for no value, else the value's first string. */
  function GetStringField(s: Struct, name: string): (r: Result<Option<string>>)
    requires GetValue(s, name) != Diverges
    ensures GetValue(s, name).Missing? ==> r == Ok(None)
    ensures GetValue(s, name).Found? ==> r.Ok? == GetString(GetValue(s, name).v).Ok?
    ensures r.Ok? && r.value.Some? ==> r.value.value == GetString(GetValue(s, name).v).value
  {
    match GetValue(s, name)
    case Missing => Ok(None)
    case Found(v) =>
      (match GetString(v)
       case Ok(t) => Ok(Some(t))
       case Thrown(e) => Thrown(e))
  }

  /** getString(name, default). */
  function GetStringOr(s: Struct, name: string, default: string): (r: Result<string>)
    requires GetValue(s, name) != Diverges
    ensures GetValue(s, name).Missing? ==> r == Ok(default)
    ensures GetValue(s, name).Found? ==> r == GetString(GetValue(s, name).v)
  {
    match GetStringField(s, name)
    case Ok(o) => Ok(if o.Some? then o.value else default)
    case Thrown(e) => Thrown(e)
  }

  /** getLong(name): 0 when there is no value; otherwise the value's own
      getLong, whose string parsing is outside this model and is given as
      `valueLong`. */
  function GetLong(s: Struct, name: string, valueLong: Value -> Result<int>): (r: Result<int>)
    requires GetValue(s, name) != Diverges
    ensures GetValue(s, name).Missing? ==> r == Ok(0)
    ensures GetValue(s, name).Found? ==> r == valueLong(GetValue(s, name).v)
  {
    match GetValue(s, name)
    case Missing => Ok(0)
    case Found(v) => valueLong(v)
  }

  /** Float.isNaN applied to a long: the widened value is never NaN. */
  predicate FloatIsNaN(x: int)
  {
    false
  }

  /** getLong(name, default): keeps getLong's result unless it is NaN,
      which a long never is, so the default is never returned: a missing
      field reads as 0 whatever default is passed. */
  function GetLongOr(s: Struct, name: string, default: int, valueLong: Value -> Result<int>): (r: Result<int>)
    requires GetValue(s, name) != Diverges
    ensures r == GetLong(s, name, valueLong)
    ensures GetValue(s, name).Missing? ==> r == Ok(0)
  {
    match GetLong(s, name, valueLong)
    case Ok(x) => Ok(if !FloatIsNaN(x) then x else default)
    case Thrown(e) => Thrown(e)
  }

  /** getStructs(type): the queue in insertion order, empty when the type
      is unknown. */
  function GetStructs(s: Struct, t: string): (r: seq<Struct>)
    ensures GroupIndex(s.groups, t).None? ==> r == []
    ensures GroupIndex(s.groups, t).Some? ==> r == s.groups[GroupIndex(s.groups, t).value].queue
  {
    match GroupIndex(s.groups, t)
    case Some(i) => s.groups[i].queue
    case None => []
  }

  /** containsType(type). */
  predicate ContainsType(s: Struct, t: string)
  {
    GroupIndex(s.groups, t).Some?
  }

  /** containsType(type) in a well-formed struct: a known type has at
      least one struct, an unknown one none. */
  lemma {:induction false} ContainsTypeQueue(s: Struct, t: string)
    requires WF(s)
    ensures ContainsType(s, t) <==> GetStructs(s, t) != []
  {
  }

  /** containsField(name) and getValue(name): an absent field reads as
      null, a present non-identifier field as itself. */
  lemma {:induction false} ContainsFieldLookup(s: Struct, name: string)
    ensures !ContainsField(s, name) ==> GetValue(s, name) == Missing
    ensures ContainsField(s, name) && !s.fields[name].Ref? ==> GetValue(s, name) == Found(s.fields[name])
  {
  }

  /** putStruct(type, child): enqueue at the end of the type's queue,
      creating the queue (after all existing ones) on first use. */
  function PutStruct(s: Struct, t: string, c: Struct): (r: Struct)
    ensures r.value == s.value && r.fields == s.fields
    ensures |r.groups| == |s.groups| + (if ContainsType(s, t) then 0 else 1)
    ensures ContainsType(r, t)
  {
    match GroupIndex(s.groups, t)
    case Some(i) =>
      GroupIndexSameNamesAt(s.groups, i, Group(t, s.groups[i].queue + [c]));
      s.(groups := s.groups[i := Group(t, s.groups[i].queue + [c])])
    case None =>
      GroupIndexSnoc(s.groups, Group(t, [c]), t);
      s.(groups := s.groups + [Group(t, [c])])
  }

  /** The child putStruct adds is found at the end of its type's queue. */
  lemma {:induction false} PutStructChild(s: Struct, t: string, c: Struct)
    ensures Child(PutStruct(s, t, c), Step(t, |GetStructs(s, t)|)) == Some(c)
  {
    PutStructQueues(s, t, c, t);
  }

  /** Replacing the child putStruct has just added is adding the
      replacement in its place. */
  lemma {:induction false} ReplaceNewChild(s: Struct, t: string, c: Struct, x: Struct)
    ensures ReplaceChild(PutStruct(s, t, c), Step(t, |GetStructs(s, t)|), x) == PutStruct(s, t, x)
  {
    var gi := GroupIndex(s.groups, t);
    var st := Step(t, |GetStructs(s, t)|);
    if gi.Some? {
      var i := gi.value;
      var q := s.groups[i].queue;
      GroupIndexSameNamesAt(s.groups, i, Group(t, q + [c]));
      GroupIndexSameNamesAt(s.groups[i := Group(t, q + [c])], i, Group(t, q + [x]));
      assert (q + [c])[|q| := x] == q + [x];
      assert s.groups[i := Group(t, q + [c])][i := Group(t, q + [x])] == s.groups[i := Group(t, q + [x])];
    } else {
      GroupIndexSnoc(s.groups, Group(t, [c]), t);
      assert [c][0 := x] == [x];
      assert (s.groups + [Group(t, [c])])[|s.groups| := Group(t, [x])] == s.groups + [Group(t, [x])];
    }
  }

  /** putStruct's effect on every queue: the child lands last in its
      type's queue, and no other type's queue changes. */
  lemma {:induction false} PutStructQueues(s: Struct, t: string, c: Struct, u: string)
    ensures GetStructs(PutStruct(s, t, c), u) ==
      if u == t then GetStructs(s, t) + [c] else GetStructs(s, u)
  {
    var gi := GroupIndex(s.groups, t);
    var r := PutStruct(s, t, c);
    if gi.Some? {
      var i := gi.value;
      assert forall j :: 0 <= j < |r.groups| ==> r.groups[j].typeName == s.groups[j].typeName;
      GroupIndexSameNames(s.groups, r.groups, u);
    } else {
      assert r.groups[..|s.groups|] == s.groups;
      GroupIndexSnoc(s.groups, Group(t, [c]), u);
    }
  }

  /** Queues found by name depend only on the names. */
  lemma {:induction false} GroupIndexSameNames(a: seq<Group>, b: seq<Group>, u: string)
    requires |a| == |b| && forall j :: 0 <= j < |a| ==> a[j].typeName == b[j].typeName
    ensures GroupIndex(a, u) == GroupIndex(b, u)
  {
    if a != [] {
      GroupIndexSameNames(a[1..], b[1..], u);
    }
  }

  lemma {:induction false} GroupIndexSnoc(a: seq<Group>, g: Group, u: string)
    requires forall j :: 0 <= j < |a| ==> a[j].typeName != g.typeName
    ensures GroupIndex(a + [g], u) == if u == g.typeName then Some(|a|) else GroupIndex(a, u)
  {
    if a != [] {
      assert (a + [g])[1..] == a[1..] + [g];
      GroupIndexSnoc(a[1..], g, u);
    } else {
      assert a + [g] == [g];
    }
  }

  /** putStruct keeps a struct well formed. */
  lemma {:induction false} PutStructWF(s: Struct, t: string, c: Struct)
    requires WF(s) && WF(c)
    ensures WF(PutStruct(s, t, c))
  {
    var r := PutStruct(s, t, c);
    var gi := GroupIndex(s.groups, t);
    if gi.Some? {
      assert forall j :: 0 <= j < |r.groups| ==> r.groups[j].typeName == s.groups[j].typeName;
      forall i | 0 <= i < |r.groups|
        ensures |r.groups[i].queue| > 0
        ensures forall k :: 0 <= k < |r.groups[i].queue| ==> WF(r.groups[i].queue[k])
      {
        if i == gi.value {
          assert r.groups[i].queue == s.groups[i].queue + [c];
        }
      }
    } else {
      assert forall j :: 0 <= j < |s.groups| ==> r.groups[j] == s.groups[j];
    }
  }

  /** putStruct for each child of `cs` in order. */
  function PutStructs(s: Struct, t: string, cs: seq<Struct>): Struct
    decreases |cs|
  {
    if cs == [] then s else PutStruct(PutStructs(s, t, cs[..|cs| - 1]), t, cs[|cs| - 1])
  }

  /** A struct with the own value and fields of copyInto applied, before
      any children are copied: the source's value replaces the target's
      only when present; source fields overwrite, other fields stay. */
  function CopyOwn(src: Struct, dst: Struct): (r: Struct)
    ensures r.value == if src.value.Some? then src.value else dst.value
    ensures forall k :: k in r.fields <==> k in src.fields || k in dst.fields
    ensures forall k :: k in src.fields ==> r.fields[k] == src.fields[k]
    ensures forall k :: k in dst.fields && k !in src.fields ==> r.fields[k] == dst.fields[k]
    ensures r.groups == dst.groups
  {
    Struct(if src.value.Some? then src.value else dst.value, dst.fields + src.fields, dst.groups)
  }

  /** copy(): copyInto a new, empty struct. */
  function Copy(s: Struct): (r: Struct)
    ensures r.value == s.value && r.fields == s.fields
    decreases s, 3
  {
    CopyInto(s, Empty)
  }

  /** copyInto(dst): own value and fields, then a copy of every child
      appended, type by type and in queue order. */
  function CopyInto(src: Struct, dst: Struct): (r: Struct)
    ensures r.value == if src.value.Some? then src.value else dst.value
    ensures r.fields == dst.fields + src.fields
    decreases src, 2
  {
    CopyGroupsKeepsOwn(src, CopyOwn(src, dst), |src.groups|);
    CopyGroups(src, CopyOwn(src, dst), |src.groups|)
  }

  /** Copies of the children of the first `n` groups of `src`. */
  function CopyGroups(src: Struct, d: Struct, n: nat): Struct
    requires n <= |src.groups|
    decreases src, 1, n, 0
  {
    if n == 0 then d
    else CopyQueue(src, n - 1, CopyGroups(src, d, n - 1), |src.groups[n - 1].queue|)
  }

  /** putStruct(type, child.copy()) for the first `k` children of group `i`. */
  function CopyQueue(src: Struct, i: nat, d: Struct, k: nat): Struct
    requires i < |src.groups| && k <= |src.groups[i].queue|
    decreases src, 0, k, 0
  {
    if k == 0 then d
    else PutStruct(CopyQueue(src, i, d, k - 1), src.groups[i].typeName, Copy(src.groups[i].queue[k - 1]))
  }

  /** Copying children never touches the own value or the fields. */
  lemma {:induction false} CopyGroupsKeepsOwn(src: Struct, d: Struct, n: nat)
    requires n <= |src.groups|
    ensures CopyGroups(src, d, n).value == d.value && CopyGroups(src, d, n).fields == d.fields
    decreases src, 1, n, 1
  {
    if n > 0 {
      CopyGroupsKeepsOwn(src, d, n - 1);
      CopyQueueKeepsOwn(src, n - 1, CopyGroups(src, d, n - 1), |src.groups[n - 1].queue|);
    }
  }

  lemma {:induction false} CopyQueueKeepsOwn(src: Struct, i: nat, d: Struct, k: nat)
    requires i < |src.groups| && k <= |src.groups[i].queue|
    ensures CopyQueue(src, i, d, k).value == d.value && CopyQueue(src, i, d, k).fields == d.fields
    decreases src, 0, k, 1
  {
    if k > 0 {
      CopyQueueKeepsOwn(src, i, d, k - 1);
    }
  }

  /** Copying the first `k` children of a group into a struct that has the
      group's predecessors extends the group sequence by exactly those
      children (copies of well-formed structs are equal to them). */
  lemma {:induction false} CopyQueueShape(src: Struct, i: nat, d: Struct, k: nat)
    requires WF(src) && i < |src.groups| && k <= |src.groups[i].queue|
    requires d.groups == src.groups[..i]
    ensures CopyQueue(src, i, d, k).value == d.value && CopyQueue(src, i, d, k).fields == d.fields
    ensures k > 0 ==> CopyQueue(src, i, d, k).groups ==
                      src.groups[..i] + [Group(src.groups[i].typeName, src.groups[i].queue[..k])]
    ensures k == 0 ==> CopyQueue(src, i, d, k) == d
    decreases src, 0, k, 1
  {
    if k > 0 {
      var prev := CopyQueue(src, i, d, k - 1);
      CopyQueueShape(src, i, d, k - 1);
      CopyQueueLast(src, i, d, k, prev);
    }
  }

  /** The step of CopyQueueShape: copying the `k`-th child onto the
      first `k - 1`. */
  lemma {:induction false} CopyQueueLast(src: Struct, i: nat, d: Struct, k: nat, prev: Struct)
    requires WF(src) && i < |src.groups| && 0 < k <= |src.groups[i].queue|
    requires d.groups == src.groups[..i] && prev == CopyQueue(src, i, d, k - 1)
    requires prev.value == d.value && prev.fields == d.fields
    requires k > 1 ==> prev.groups == src.groups[..i] + [Group(src.groups[i].typeName, src.groups[i].queue[..k - 1])]
    requires k == 1 ==> prev == d
    ensures CopyQueue(src, i, d, k).value == d.value && CopyQueue(src, i, d, k).fields == d.fields
    ensures CopyQueue(src, i, d, k).groups == src.groups[..i] + [Group(src.groups[i].typeName, src.groups[i].queue[..k])]
    decreases src, 0, k, 0
  {
    var g := src.groups[i];
    var c := g.queue[k - 1];
    assert c < g;
    ChildWF(src, i, k - 1);
    CopyIdentity(c);
    CopyQueueStep(src, i, d, k, prev, c);
    WFDistinct(src);
    if k == 1 {
      FirstCopied(src.groups, i, prev, c);
    } else {
      NextCopied(src.groups, i, prev, c, k);
    }
  }

  lemma {:induction false} CopyQueueStep(src: Struct, i: nat, d: Struct, k: nat, prev: Struct, c: Struct)
    requires i < |src.groups| && 0 < k <= |src.groups[i].queue|
    requires prev == CopyQueue(src, i, d, k - 1) && c == src.groups[i].queue[k - 1] && Copy(c) == c
    ensures CopyQueue(src, i, d, k) == PutStruct(prev, src.groups[i].typeName, c)
  {
  }

  lemma {:induction false} WFDistinct(s: Struct)
    requires WF(s)
    ensures DistinctNames(s.groups)
  {
  }

  lemma {:induction false} FirstCopied(groups: seq<Group>, i: nat, prev: Struct, c: Struct)
    requires DistinctNames(groups) && i < |groups| && |groups[i].queue| > 0
    requires prev.groups == groups[..i] && c == groups[i].queue[0]
    ensures PutStruct(prev, groups[i].typeName, c).groups == groups[..i] + [Group(groups[i].typeName, groups[i].queue[..1])]
    ensures PutStruct(prev, groups[i].typeName, c).value == prev.value
    ensures PutStruct(prev, groups[i].typeName, c).fields == prev.fields
  {
    NewGroupAppended(groups, i, prev, c);
    assert groups[i].queue[..1] == [c];
  }

  lemma {:induction false} NextCopied(groups: seq<Group>, i: nat, prev: Struct, c: Struct, k: nat)
    requires DistinctNames(groups) && i < |groups| && 1 < k <= |groups[i].queue|
    requires prev.groups == groups[..i] + [Group(groups[i].typeName, groups[i].queue[..k - 1])]
    requires c == groups[i].queue[k - 1]
    ensures PutStruct(prev, groups[i].typeName, c).groups == groups[..i] + [Group(groups[i].typeName, groups[i].queue[..k])]
    ensures PutStruct(prev, groups[i].typeName, c).value == prev.value
    ensures PutStruct(prev, groups[i].typeName, c).fields == prev.fields
  {
    ExistingGroupExtended(groups, i, prev, groups[i].queue[..k - 1], c);
    assert groups[i].queue[..k] == groups[i].queue[..k - 1] + [c];
  }

  lemma {:induction false} NewGroupAppended(groups: seq<Group>, i: nat, prev: Struct, c: Struct)
    requires DistinctNames(groups) && i < |groups| && prev.groups == groups[..i]
    ensures PutStruct(prev, groups[i].typeName, c).groups == groups[..i] + [Group(groups[i].typeName, [c])]
    ensures PutStruct(prev, groups[i].typeName, c).value == prev.value
    ensures PutStruct(prev, groups[i].typeName, c).fields == prev.fields
  {
    assert GroupIndex(prev.groups, groups[i].typeName).None?;
  }

  lemma {:induction false} ExistingGroupExtended(groups: seq<Group>, i: nat, prev: Struct, q: seq<Struct>, c: Struct)
    requires DistinctNames(groups) && i < |groups| && prev.groups == groups[..i] + [Group(groups[i].typeName, q)]
    ensures PutStruct(prev, groups[i].typeName, c).groups == groups[..i] + [Group(groups[i].typeName, q + [c])]
    ensures PutStruct(prev, groups[i].typeName, c).value == prev.value
    ensures PutStruct(prev, groups[i].typeName, c).fields == prev.fields
  {
    assert DistinctNames(prev.groups) by {
      assert forall j :: 0 <= j < |prev.groups| ==> prev.groups[j].typeName == groups[j].typeName;
    }
    GroupIndexDistinct(prev.groups, i);
  }

  lemma {:induction false} ChildWF(s: Struct, i: nat, k: nat)
    requires WF(s) && i < |s.groups| && k < |s.groups[i].queue|
    ensures WF(s.groups[i].queue[k])
  {
  }

  /** In a group sequence with distinct names the group at position i is
      the one found under its name. */
  lemma {:induction false} GroupIndexDistinct(groups: seq<Group>, i: nat)
    requires DistinctNames(groups) && i < |groups|
    ensures GroupIndex(groups, groups[i].typeName) == Some(i)
  {
  }

  lemma {:induction false} CopyGroupsShape(src: Struct, d: Struct, n: nat)
    requires WF(src) && n <= |src.groups| && d.groups == []
    ensures CopyGroups(src, d, n) == Struct(d.value, d.fields, src.groups[..n])
    decreases src, 1, n
  {
    if n > 0 {
      var prev := CopyGroups(src, d, n - 1);
      CopyGroupsShape(src, d, n - 1);
      CopyQueueShape(src, n - 1, prev, |src.groups[n - 1].queue|);
      GroupsSnoc(src.groups, n);
    } else {
      assert src.groups[..0] == [];
    }
  }

  /** The first n groups are the first n - 1 and then the whole n-th. */
  lemma {:induction false} GroupsSnoc(groups: seq<Group>, n: nat)
    requires 0 < n <= |groups|
    ensures groups[..n - 1] + [Group(groups[n - 1].typeName, groups[n - 1].queue[..|groups[n - 1].queue|])] == groups[..n]
  {
    var g := groups[n - 1];
    assert g.queue[..|g.queue|] == g.queue;
    assert groups[..n] == groups[..n - 1] + [g];
  }

  /** copy() of a well-formed struct has equal own value, fields and
      children: a deep copy. */
  lemma {:induction false} CopyIdentity(s: Struct)
    requires WF(s)
    ensures Copy(s) == s
    decreases s, 3
  {
    CopyGroupsShape(s, CopyOwn(s, Empty), |s.groups|);
    assert s.groups[..|s.groups|] == s.groups;
    assert CopyOwn(s, Empty).fields == s.fields;
  }

  /** copyInto appends, for every type, copies of the source's children
      after the target's existing children of that type. */
  lemma {:induction false} CopyIntoQueues(src: Struct, dst: Struct, u: string)
    requires WF(src)
    ensures GetStructs(CopyInto(src, dst), u) == GetStructs(dst, u) + GetStructs(src, u)
  {
    CopyGroupsQueues(src, CopyOwn(src, dst), |src.groups|, u);
    assert src.groups[..|src.groups|] == src.groups;
    assert GetStructs(src, u) == QueueIn(src.groups, u);
  }

  /** The queue filed under `u` in a group sequence. */
  function QueueIn(groups: seq<Group>, u: string): seq<Struct>
  {
    match GroupIndex(groups, u)
    case Some(j) => groups[j].queue
    case None => []
  }

  lemma {:induction false} QueueInSnoc(pre: seq<Group>, g: Group, u: string)
    requires forall j :: 0 <= j < |pre| ==> pre[j].typeName != g.typeName
    ensures QueueIn(pre + [g], u) == if u == g.typeName then g.queue else QueueIn(pre, u)
  {
    GroupIndexSnoc(pre, g, u);
  }

  lemma {:induction false} QueueInPrefix(groups: seq<Group>, n: nat, u: string)
    requires DistinctNames(groups) && 0 < n <= |groups|
    ensures QueueIn(groups[..n], u) ==
      if u == groups[n - 1].typeName then groups[n - 1].queue else QueueIn(groups[..n - 1], u)
    ensures QueueIn(groups[..n - 1], groups[n - 1].typeName) == []
  {
    var pre := groups[..n - 1];
    assert groups[..n] == pre + [groups[n - 1]];
    assert forall j :: 0 <= j < |pre| ==> pre[j].typeName != groups[n - 1].typeName;
    QueueInSnoc(pre, groups[n - 1], u);
  }

  /** The sequence algebra of one step of CopyGroupsQueues. */
  lemma {:induction false} QueuesCombine(x: seq<Struct>, p: seq<Struct>, dq: seq<Struct>, pq: seq<Struct>,
                      q: seq<Struct>, nq: seq<Struct>, same: bool)
    requires x == p + (if same then q else []) && p == dq + pq
    requires same ==> pq == [] && nq == q
    requires !same ==> nq == pq
    ensures x == dq + nq
  {
    if same {
      assert p == dq;
    } else {
      assert x == p;
    }
  }

  lemma {:induction false} CopyGroupsQueues(src: Struct, d: Struct, n: nat, u: string)
    requires WF(src) && n <= |src.groups|
    ensures GetStructs(CopyGroups(src, d, n), u) == GetStructs(d, u) + QueueIn(src.groups[..n], u)
    decreases n
  {
    if n > 0 {
      var g := src.groups[n - 1];
      var pre := src.groups[..n - 1];
      var prev := CopyGroups(src, d, n - 1);
      CopyGroupsQueues(src, d, n - 1, u);
      CopyQueueQueues(src, n - 1, prev, |g.queue|, u);
      assert g.queue[..|g.queue|] == g.queue;
      QueueInPrefix(src.groups, n, u);
      QueuesCombine(GetStructs(CopyGroups(src, d, n), u), GetStructs(prev, u), GetStructs(d, u),
                    QueueIn(pre, u), g.queue, QueueIn(src.groups[..n], u), u == g.typeName);
    } else {
      assert src.groups[..0] == [];
    }
  }

  /** The sequence algebra of one step of CopyQueueQueues. */
  lemma {:induction false} QueueStep(x: seq<Struct>, p: seq<Struct>, dq: seq<Struct>, q: seq<Struct>, c: Struct, same: bool)
    requires x == if same then p + [c] else p
    requires p == dq + if same then q else []
    ensures x == dq + if same then q + [c] else []
  {
    if !same {
      assert x == p;
    }
  }

  lemma {:induction false} CopyQueueQueues(src: Struct, i: nat, d: Struct, k: nat, u: string)
    requires WF(src) && i < |src.groups| && k <= |src.groups[i].queue|
    ensures GetStructs(CopyQueue(src, i, d, k), u) ==
      GetStructs(d, u) + if u == src.groups[i].typeName then src.groups[i].queue[..k] else []
    decreases k
  {
    if k > 0 {
      var g := src.groups[i];
      var c := g.queue[k - 1];
      var prev := CopyQueue(src, i, d, k - 1);
      CopyQueueQueues(src, i, d, k - 1, u);
      ChildWF(src, i, k - 1);
      CopyIdentity(c);
      PutStructQueues(prev, g.typeName, c, u);
      assert g.queue[..k] == g.queue[..k - 1] + [c];
      QueueStep(GetStructs(CopyQueue(src, i, d, k), u), GetStructs(prev, u), GetStructs(d, u),
                g.queue[..k - 1], c, u == g.typeName);
    } else {
      assert src.groups[i].queue[..0] == [];
    }
  }

  // ----- Paths into the tree: how the parser names the struct it fills -----

  /** The `index`-th child of type `typeName`. */
  datatype Step = Step(typeName: string, index: nat)

  type Path = seq<Step>

  function Child(s: Struct, st: Step): Option<Struct>
  {
    match GroupIndex(s.groups, st.typeName)
    case Some(i) => if st.index < |s.groups[i].queue| then Some(s.groups[i].queue[st.index]) else None
    case None => None
  }

  predicate ValidPath(s: Struct, p: Path)
    decreases |p|
  {
    p == [] || (Child(s, p[0]).Some? && ValidPath(Child(s, p[0]).value, p[1..]))
  }

  /** The struct a path leads to; a path that leads nowhere gives an empty
      struct. */
  function NodeAt(s: Struct, p: Path): Struct
    decreases |p|
  {
    if p == [] then s
    else match Child(s, p[0])
      case Some(c) => NodeAt(c, p[1..])
      case None => Empty
  }

  /** Replaces one child; nothing changes when there is no such child. */
  function ReplaceChild(s: Struct, st: Step, x: Struct): (r: Struct)
    ensures Child(s, st).Some? ==> Child(r, st) == Some(x)
    ensures r.value == s.value && r.fields == s.fields
  {
    match GroupIndex(s.groups, st.typeName)
    case Some(i) =>
      if st.index < |s.groups[i].queue| then
        var r := s.(groups := s.groups[i := Group(st.typeName, s.groups[i].queue[st.index := x])]);
        GroupIndexSameNamesAt(s.groups, i, Group(st.typeName, s.groups[i].queue[st.index := x]));
        r
      else s
    case None => s
  }

  lemma {:induction false} GroupIndexSameNamesAt(groups: seq<Group>, i: nat, g: Group)
    requires i < |groups| && g.typeName == groups[i].typeName
    ensures GroupIndex(groups[i := g], g.typeName) == GroupIndex(groups, g.typeName)
  {
    GroupIndexSameNames(groups, groups[i := g], g.typeName);
  }

  /** Replaces the struct a path leads to; nothing changes when the path
      leads nowhere. */
  function ReplaceAt(s: Struct, p: Path, x: Struct): Struct
    decreases |p|
  {
    if p == [] then x
    else match Child(s, p[0])
      case Some(c) => ReplaceChild(s, p[0], ReplaceAt(c, p[1..], x))
      case None => s
  }

  /** Reading back what was just written at a path. */
  lemma {:induction false} NodeAtReplaceAt(s: Struct, p: Path, x: Struct)
    requires ValidPath(s, p)
    ensures ValidPath(ReplaceAt(s, p, x), p)
    ensures NodeAt(ReplaceAt(s, p, x), p) == x
    decreases |p|
  {
    if p != [] {
      NodeAtReplaceAt(Child(s, p[0]).value, p[1..], x);
    }
  }

  /** Writing a path's own struct back changes nothing. */
  lemma {:induction false} ReplaceAtNodeAt(s: Struct, p: Path)
    requires ValidPath(s, p)
    ensures ReplaceAt(s, p, NodeAt(s, p)) == s
    decreases |p|
  {
    if p != [] {
      var c := Child(s, p[0]).value;
      ReplaceAtNodeAt(c, p[1..]);
      ReplaceChildSame(s, p[0]);
    }
  }

  lemma {:induction false} ReplaceChildSame(s: Struct, st: Step)
    requires Child(s, st).Some?
    ensures ReplaceChild(s, st, Child(s, st).value) == s
  {
    var i := GroupIndex(s.groups, st.typeName).value;
    assert s.groups[i].queue[st.index := Child(s, st).value] == s.groups[i].queue;
    assert s.groups[i := Group(st.typeName, s.groups[i].queue)] == s.groups;
  }

  /** The second of two writes at the same path wins. */
  lemma {:induction false} ReplaceAtTwice(s: Struct, p: Path, x: Struct, y: Struct)
    requires ValidPath(s, p)
    ensures ReplaceAt(ReplaceAt(s, p, x), p, y) == ReplaceAt(s, p, y)
    decreases |p|
  {
    if p != [] {
      var c := Child(s, p[0]).value;
      ReplaceAtTwice(c, p[1..], x, y);
      ReplaceChildTwice(s, p[0], ReplaceAt(c, p[1..], x), ReplaceAt(c, p[1..], y));
    }
  }

  lemma {:induction false} ReplaceChildTwice(s: Struct, st: Step, x: Struct, y: Struct)
    requires Child(s, st).Some?
    ensures ReplaceChild(ReplaceChild(s, st, x), st, y) == ReplaceChild(s, st, y)
  {
    var i := GroupIndex(s.groups, st.typeName).value;
    var q := s.groups[i].queue;
    GroupIndexSameNamesAt(s.groups, i, Group(st.typeName, q[st.index := x]));
    assert q[st.index := x][st.index := y] == q[st.index := y];
  }

  /** Extending a path by one step: writing below it is writing the
      path's struct with one child replaced. */
  lemma {:induction false} ReplaceAtSnoc(s: Struct, p: Path, st: Step, x: Struct)
    requires ValidPath(s, p)
    ensures ValidPath(s, p + [st]) <==> Child(NodeAt(s, p), st).Some?
    ensures ValidPath(s, p + [st]) ==>
      ReplaceAt(s, p + [st], x) == ReplaceAt(s, p, ReplaceChild(NodeAt(s, p), st, x))
    ensures NodeAt(s, p + [st]) == (if Child(NodeAt(s, p), st).Some? then Child(NodeAt(s, p), st).value else Empty)
    decreases |p|
  {
    if p == [] {
      assert [st][1..] == [];
    } else {
      assert (p + [st])[0] == p[0] && (p + [st])[1..] == p[1..] + [st];
      ReplaceAtSnoc(Child(s, p[0]).value, p[1..], st, x);
    }
  }

  /** Writing at a path leaves every prefix of it a valid path. */
  lemma {:induction false} ReplaceAtKeepsPrefix(s: Struct, q: Path, p: Path, x: Struct)
    requires ValidPath(s, q) && p <= q
    ensures ValidPath(ReplaceAt(s, q, x), p)
    decreases |q|
  {
    if p != [] {
      var c := Child(s, q[0]).value;
      assert p[0] == q[0] && p[1..] <= q[1..];
      ReplaceAtKeepsPrefix(c, q[1..], p[1..], x);
    }
  }

  lemma {:induction false} PrefixValid(s: Struct, q: Path, p: Path)
    requires ValidPath(s, q) && p <= q
    ensures ValidPath(s, p)
    decreases |q|
  {
    if p != [] {
      assert p[0] == q[0] && p[1..] <= q[1..];
      PrefixValid(Child(s, q[0]).value, q[1..], p[1..]);
    }
  }
}
