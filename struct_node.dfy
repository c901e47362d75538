/** DLStruct as an object whose field table, own value and child queues
    are updated in place. Children are held as values (see Structs). */
module StructNodes {
  import opened Basics
  import opened Values
  import opened Structs

  class StructNode {
    var value: Option<Value>
    var fields: map<string, Value>
    var groups: seq<Group>
    /** Incremented by every putStruct; never read. */
    var numStructs: int
    /** Declared, returned by getNumberOfFields, and never updated. */
    var numFields: int

    function Snapshot(): Struct
      reads this
    {
      Struct(value, fields, groups)
    }

    predicate Valid()
      reads this
    {
      numFields == 0 && WF(Snapshot())
    }

    /** new DLStruct(). */
    constructor ()
      ensures Valid() && Snapshot() == Empty && numStructs == 0
    {
      value := None;
      fields := map[];
      groups := [];
      numStructs := 0;
      numFields := 0;
    }

    /** set(value), and put(value) for the struct's own value. */
    method Set(v: Option<Value>)
      requires Valid()
      modifies this
      ensures Valid() && Snapshot() == SetValue(old(Snapshot()), v)
      ensures numStructs == old(numStructs)
    {
      value := v;
    }

    /** put(name, value); null removes the field. */
    method Put(name: string, v: Option<Value>)
      requires Valid()
      modifies this
      ensures Valid() && Snapshot() == PutField(old(Snapshot()), name, v)
      ensures numStructs == old(numStructs)
    {
      if v.None? {
        fields := fields - {name};
      } else {
        fields := fields[name := v.value];
      }
    }

    /** append(name, x): delegate to the stored value, or put when absent. */
    method Append(name: string, a: Option<Addition>)
      requires Valid()
      modifies this
      ensures Valid() && Snapshot() == AppendField(old(Snapshot()), name, a)
      ensures numStructs == old(numStructs)
    {
      if a.None? {
        return;
      }
      if name in fields {
        fields := fields[name := Apply(fields[name], a.value)];
      } else {
        Put(name, Some(Fresh(a.value)));
      }
    }

    /** append(x) on the own value; `npe` reports the NullPointerException
        thrown when there is no own value, in which case nothing changes. */
    method AppendValue(a: Option<Addition>) returns (npe: bool)
      requires Valid()
      modifies this
      ensures Valid() && numStructs == old(numStructs)
      ensures npe ==> Structs.AppendValue(old(Snapshot()), a) == Thrown(NullPointer) && Snapshot() == old(Snapshot())
      ensures !npe ==> Structs.AppendValue(old(Snapshot()), a) == Ok(Snapshot())
    {
      npe := false;
      if a.None? {
        return;
      }
      if value.None? {
        npe := true;
        return;
      }
      value := Some(Apply(value.value, a.value));
    }

    /** getValue(name): the while loop that follows identifier values. */
    method GetValue(name: string) returns (r: Option<Value>)
      requires Structs.GetValue(Snapshot(), name) != Diverges
      ensures r.None? <==> Structs.GetValue(Snapshot(), name).Missing?
      ensures r.Some? ==> Structs.GetValue(Snapshot(), name) == Found(r.value)
    {
      if name !in fields {
        return None;
      }
      var v := fields[name];
      ghost var cur := name;
      ghost var visited: set<string> := {};
      while v.Ref?
        invariant cur in fields && v == fields[cur] && cur !in visited
        invariant Chase(fields, name, {}) == Chase(fields, cur, visited)
        decreases fields.Keys - visited
      {
        var next := v.name;
        visited := visited + {cur};
        if next !in fields {
          return None;
        }
        cur := next;
        v := fields[next];
      }
      return Some(v);
    }

    /** getString(name, default). */
    method GetStringOr(name: string, default: string) returns (r: Result<string>)
      requires Structs.GetValue(Snapshot(), name) != Diverges
      ensures r == Structs.GetStringOr(Snapshot(), name, default)
    {
      var v := GetValue(name);
      if v.None? {
        return Ok(default);
      }
      r := GetString(v.value);
    }

    /** getNumberOfFields(): numFields is never updated. */
    method GetNumberOfFields() returns (n: int)
      requires Valid()
      ensures n == 0
    {
      n := numFields;
    }

    /** putStruct(type, child). */
    method PutStruct(t: string, c: Struct)
      requires Valid() && WF(c)
      modifies this
      ensures Valid() && Snapshot() == Structs.PutStruct(old(Snapshot()), t, c)
      ensures numStructs == old(numStructs) + 1
    {
      PutStructWF(Snapshot(), t, c);
      var gi := GroupIndex(groups, t);
      if gi.Some? {
        groups := groups[gi.value := Group(t, groups[gi.value].queue + [c])];
      } else {
        groups := groups + [Group(t, [c])];
      }
      numStructs := numStructs + 1;
    }

    /** putStruct(type): a new, empty child. */
    method PutNewStruct(t: string)
      requires Valid()
      modifies this
      ensures Valid() && Snapshot() == Structs.PutStruct(old(Snapshot()), t, Empty)
      ensures numStructs == old(numStructs) + 1
    {
      PutStruct(t, Empty);
    }

    /** copyInto(dst): the own value if present, every field, then a copy
        of every child, type by type in queue order. The source is read
        once at the start. */
    method CopyInto(dst: StructNode)
      requires Valid() && dst.Valid()
      modifies dst
      ensures dst.Valid() && dst.Snapshot() == Structs.CopyInto(old(Snapshot()), old(dst.Snapshot()))
    {
      var src := Snapshot();
      CopyOwnInto(src, dst);
      var i := 0;
      ghost var base := dst.Snapshot();
      while i < |src.groups|
        invariant 0 <= i <= |src.groups|
        invariant dst.Valid() && dst.Snapshot() == CopyGroups(src, base, i)
      {
        CopyQueueInto(src, i, dst);
        i := i + 1;
      }
    }

    /** copy(): a new struct filled by copyInto. */
    method Copy() returns (out: StructNode)
      requires Valid()
      ensures fresh(out) && out.Valid() && out.Snapshot() == Structs.Copy(Snapshot())
    {
      out := new StructNode();
      CopyInto(out);
    }
  }

  /** The value and field part of copyInto: `dls.set(getValue().copy())`
      when there is a value, then `dls.put(key, value.copy())` for every
      field, in the table's iteration order. */
  method CopyOwnInto(src: Struct, dst: StructNode)
    requires dst.Valid()
    modifies dst
    ensures dst.Valid() && dst.Snapshot() == CopyOwn(src, old(dst.Snapshot()))
  {
    ghost var target := dst.Snapshot();
    if src.value.Some? {
      dst.Set(Some(Values.Copy(src.value.value)));
    }
    var keys := src.fields.Keys;
    while keys != {}
      invariant keys <= src.fields.Keys
      invariant dst.Valid()
      invariant dst.value == CopyOwn(src, target).value && dst.groups == target.groups
      invariant forall k :: k in dst.fields <==> k in target.fields || (k in src.fields && k !in keys)
      invariant forall k :: k in dst.fields ==>
        dst.fields[k] == if k in src.fields && k !in keys then src.fields[k] else target.fields[k]
      decreases keys
    {
      var k :| k in keys;
      dst.Put(k, Some(Values.Copy(src.fields[k])));
      keys := keys - {k};
    }
    ghost var merged := CopyOwn(src, target);
    assert forall k :: k in dst.fields <==> k in merged.fields;
    assert forall k :: k in dst.fields ==> dst.fields[k] == merged.fields[k];
    assert dst.fields == merged.fields;
  }

  /** `for (DLStruct str : queue) dls.putStruct(type, str.copy())` for the
      `i`-th group of the source. */
  method CopyQueueInto(src: Struct, i: nat, dst: StructNode)
    requires WF(src) && i < |src.groups| && dst.Valid()
    modifies dst
    ensures dst.Valid() && dst.Snapshot() == CopyQueue(src, i, old(dst.Snapshot()), |src.groups[i].queue|)
  {
    ghost var before := dst.Snapshot();
    var g := src.groups[i];
    var j := 0;
    while j < |g.queue|
      invariant 0 <= j <= |g.queue|
      invariant dst.Valid() && dst.Snapshot() == CopyQueue(src, i, before, j)
    {
      ChildWF(src, i, j);
      CopyIdentity(g.queue[j]);
      dst.PutStruct(g.typeName, Structs.Copy(g.queue[j]));
      j := j + 1;
    }
  }
}
