/** DLValue as Java keeps it: a type tag and one backing array, replaced
    by a longer copy on every append. */
module ValueCells {
  import opened Basics
  import opened Numbers
  import opened Values

  class Cell {
    var kind: Kind
    /** `val` when the tag is NumberArray. */
    var nums: array<Num>
    /** `val` when the tag is StringArray or Id. */
    var strs: array<string>

    /** An identifier cell holds its name as a one-element array. */
    predicate Valid()
      reads this, strs
    {
      kind == Id ==> strs.Length == 1
    }

    /** The value the cell currently holds. */
    function Contents(): Value
      requires Valid()
      reads this, nums, strs
    {
      match kind
      case NumberArray => NumArr(nums[..])
      case StringArray => StrArr(strs[..])
      case Id => Ref(strs[0])
    }

    /** DLValue(double[]) and DLValue(double). */
    constructor OfNumbers(d: seq<Num>)
      ensures Valid() && Contents() == NumArr(d)
    {
      kind := NumberArray;
      nums := new Num[|d|](i requires 0 <= i < |d| => d[i]);
      strs := new string[0];
    }

    /** DLValue(String[]) and DLValue(String). */
    constructor OfStrings(s: seq<string>)
      ensures Valid() && Contents() == StrArr(s)
    {
      kind := StringArray;
      nums := new Num[0];
      strs := new string[|s|](i requires 0 <= i < |s| => s[i]);
    }

    /** DLValue(s, true): an identifier. */
    constructor OfId(name: string)
      ensures Valid() && Contents() == Ref(name)
    {
      kind := Id;
      nums := new Num[0];
      strs := new string[1](_ => name);
    }

    /** append(double[]): copies the old array into a longer one and adds
        the numbers, or their raw renderings after strings. */
    method AppendNumbers(d: seq<Num>)
      requires Valid()
      modifies this
      ensures Valid() && Contents() == Values.AppendNumbers(old(Contents()), d)
    {
      if kind == NumberArray {
        nums := Extend(nums, d);
      } else if kind == StringArray {
        strs := Extend(strs, RawAll(d));
      }
    }

    /** append(String[]): a number array is turned into the raw renderings
        of its numbers and the cell becomes a string array. */
    method AppendStrings(s: seq<string>)
      requires Valid()
      modifies this
      ensures Valid() && Contents() == Values.AppendStrings(old(Contents()), s)
    {
      if kind == NumberArray {
        var rendered := RenderRaw(nums);
        strs := Extend(rendered, s);
        kind := StringArray;
      } else if kind == StringArray {
        strs := Extend(strs, s);
      }
    }

    /** copy(): a new cell with the same tag; an array-valued copy shares
        the backing array, which is safe because appends never write into
        an existing array. */
    method Copy() returns (c: Cell)
      requires Valid()
      ensures fresh(c) && c.Valid() && c.Contents() == Values.Copy(Contents())
      ensures kind == NumberArray ==> c.nums == nums
      ensures kind == StringArray ==> c.strs == strs
    {
      c := new Cell.Share(kind, nums, strs);
      if kind == Id {
        c := new Cell.OfId(strs[0]);
      }
    }

    /** The package-private DLValue(Object) use in copy(): wraps the given
        arrays without copying them. */
    constructor Share(k: Kind, ns: array<Num>, ss: array<string>)
      requires k == Id ==> ss.Length == 1
      ensures kind == k && nums == ns && strs == ss && Valid()
    {
      kind := k;
      nums := ns;
      strs := ss;
    }

    /** getStringArray(): a new array of the elements, numbers rendered by
        the integer-trimming rule. */
    method Strings() returns (out: array<string>)
      requires Valid()
      ensures fresh(out) && out[..] == GetStringArray(Contents())
    {
      if kind == NumberArray {
        out := RenderCanon(nums);
      } else if kind == StringArray {
        out := Extend(strs, []);
        assert out[..] == strs[..];
      } else {
        var name := strs[0];
        out := new string[1](_ => IdentityText(name));
      }
    }

    /** getStringArray(length): a `length`-entry array whose entries past
        the cell's elements stay null (None). */
    method StringsOfLength(length: int) returns (r: Result<seq<Option<string>>>)
      requires Valid()
      ensures r == GetStringArrayN(Contents(), length)
    {
      if kind == Id {
        return Ok([Some(IdentityText(strs[0]))]);
      }
      if length < 0 {
        return Thrown(NegativeArraySize);
      }
      ghost var v := Contents();
      var all := Strings();
      var out := PadTo(all, length);
      Padded(v, length, all[..], out[..]);
      r := Ok(out[..]);
    }
  }

  /** The element loop of getStringArray() on a number array. */
  method RenderCanon(da: array<Num>) returns (out: array<string>)
    ensures fresh(out) && out[..] == GetStringArray(NumArr(da[..]))
  {
    out := new string[da.Length];
    var i := 0;
    while i < da.Length
      invariant 0 <= i <= da.Length
      invariant forall j :: 0 <= j < i ==> out[j] == Canon(da[j])
    {
      out[i] := Canon(da[i]);
      i := i + 1;
    }
    CanonRendered(da[..], out[..]);
  }

  /** Entry-wise canonical renderings make up getStringArray(). */
  lemma {:induction false} CanonRendered(d: seq<Num>, out: seq<string>)
    requires |out| == |d| && forall j :: 0 <= j < |d| ==> out[j] == Canon(d[j])
    ensures out == GetStringArray(NumArr(d))
  {
    var r := GetStringArray(NumArr(d));
    assert forall j :: 0 <= j < |d| ==> out[j] == r[j];
  }

  /** `new String[length]` filled from `all` for min(length, |all|)
      entries; the remaining entries stay null. */
  method PadTo(all: array<string>, length: nat) returns (out: array<Option<string>>)
    ensures fresh(out) && out.Length == length
    ensures forall j :: 0 <= j < length && j < all.Length ==> out[j] == Some(all[j])
    ensures forall j :: all.Length <= j < length ==> out[j] == None
  {
    out := new Option<string>[length](_ => None);
    var n := if length < all.Length then length else all.Length;
    var i := 0;
    while i < n
      invariant 0 <= i <= n
      invariant forall j :: 0 <= j < i ==> out[j] == Some(all[j])
      invariant forall j :: i <= j < length ==> out[j] == None
    {
      out[i] := Some(all[i]);
      i := i + 1;
    }
  }

  /** The entry-wise description of getStringArray(length) pins the
      result down. */
  lemma {:induction false} Padded(v: Value, length: int, all: seq<string>, out: seq<Option<string>>)
    requires !v.Ref? && 0 <= length && all == GetStringArray(v) && |out| == length
    requires forall j :: 0 <= j < length && j < |all| ==> out[j] == Some(all[j])
    requires forall j :: |all| <= j < length ==> out[j] == None
    ensures Ok(out) == GetStringArrayN(v, length)
  {
    var expected := GetStringArrayN(v, length).value;
    assert forall j :: 0 <= j < length ==> out[j] == expected[j];
    assert out == expected;
  }

  /** System.arraycopy into a longer array followed by the loop that
      fills the new slots. */
  method Extend<T(0)>(a: array<T>, tail: seq<T>) returns (b: array<T>)
    ensures fresh(b) && b[..] == a[..] + tail
  {
    b := new T[a.Length + |tail|];
    var i := 0;
    while i < a.Length
      invariant 0 <= i <= a.Length
      invariant b[..i] == a[..i]
    {
      b[i] := a[i];
      i := i + 1;
    }
    i := 0;
    while i < |tail|
      invariant 0 <= i <= |tail|
      invariant b[..a.Length] == a[..]
      invariant b[a.Length..a.Length + i] == tail[..i]
    {
      b[a.Length + i] := tail[i];
      i := i + 1;
    }
    assert b[..] == b[..a.Length] + b[a.Length..a.Length + |tail|];
  }

  /** The loop `db[i] = da[i] + ""` over a number array. */
  method RenderRaw(da: array<Num>) returns (db: array<string>)
    ensures fresh(db) && db[..] == RawAll(da[..])
  {
    db := new string[da.Length];
    ghost var rendered := RawAll(da[..]);
    var i := 0;
    while i < da.Length
      invariant 0 <= i <= da.Length
      invariant db[..i] == rendered[..i]
    {
      db[i] := Raw(da[i]);
      i := i + 1;
    }
  }
}
