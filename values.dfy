/** The DL value cell (DLValue) as a value: a number array, a string
    array, or an identifier naming another field. */
module Values {
  import opened Basics
  import opened Numbers

  /** DLValue's TYPE_NUMBER_ARRAY, TYPE_STRING_ARRAY and TYPE_ID. */
  datatype Kind = NumberArray | StringArray | Id

  datatype Value =
    | NumArr(nums: seq<Num>)
    | StrArr(strs: seq<string>)
    | Ref(name: string)

  function KindOf(v: Value): Kind
  {
    match v
    case NumArr(_) => NumberArray
    case StrArr(_) => StringArray
    case Ref(_) => Id
  }

  /** Number of elements: an identifier holds its one name. */
  function Size(v: Value): nat
  {
    match v
    case NumArr(ns) => |ns|
    case StrArr(ss) => |ss|
    case Ref(_) => 1
  }

  /** The text `val.toString()` gives for an identifier cell. */
  function IdentityText(name: string): string
  {
    name
  }

  /** `d[i] + ""` for every number, in order. */
  function RawAll(ns: seq<Num>): (r: seq<string>)
    ensures |r| == |ns|
    ensures forall i :: 0 <= i < |ns| ==> r[i] == Raw(ns[i])
  {
    seq(|ns|, i requires 0 <= i < |ns| => Raw(ns[i]))
  }

  /** append(double[]): a number array grows, a string array grows by the
      raw renderings of the numbers, an identifier ignores the call. */
  function AppendNumbers(v: Value, d: seq<Num>): (r: Value)
    ensures KindOf(r) == KindOf(v)
    ensures v.Ref? ==> r == v
    ensures !v.Ref? ==> Size(r) == Size(v) + |d|
    ensures v.NumArr? ==> r.nums[..|v.nums|] == v.nums && r.nums[|v.nums|..] == d
    ensures v.StrArr? ==> r.strs[..|v.strs|] == v.strs && r.strs[|v.strs|..] == RawAll(d)
  {
    match v
    case NumArr(ns) => NumArr(ns + d)
    case StrArr(ss) => StrArr(ss + RawAll(d))
    case Ref(_) => v
  }

  /** append(String[]): a number array becomes a string array of its raw
      renderings followed by the strings; an identifier ignores the call. */
  function AppendStrings(v: Value, s: seq<string>): (r: Value)
    ensures v.Ref? ==> r == v
    ensures !v.Ref? ==> r.StrArr? && |r.strs| == Size(v) + |s| && r.strs[Size(v)..] == s
    ensures v.NumArr? ==> forall i :: 0 <= i < |v.nums| ==> r.strs[i] == Raw(v.nums[i])
    ensures v.StrArr? ==> r.strs[..|v.strs|] == v.strs
  {
    match v
    case NumArr(ns) => StrArr(RawAll(ns) + s)
    case StrArr(ss) => StrArr(ss + s)
    case Ref(_) => v
  }

  /** One append call: the double[] or the String[] overload. */
  datatype Addition = Numbers(d: seq<Num>) | Strings(s: seq<string>)

  function Apply(v: Value, a: Addition): Value
  {
    match a
    case Numbers(d) => AppendNumbers(v, d)
    case Strings(s) => AppendStrings(v, s)
  }

  /** The value after a series of append calls, first to last. */
  function ApplyAll(v: Value, adds: seq<Addition>): Value
    decreases |adds|
  {
    if adds == [] then v else ApplyAll(Apply(v, adds[0]), adds[1..])
  }

  /** copy(): same type and same elements. */
  function Copy(v: Value): (r: Value)
    ensures KindOf(r) == KindOf(v) && Size(r) == Size(v)
    ensures r == v
  {
    match v
    case NumArr(ns) => NumArr(ns)
    case StrArr(ss) => StrArr(ss)
    case Ref(n) => Ref(n)
  }

  /** getStringArray(): numbers in their integer-trimmed rendering. */
  function GetStringArray(v: Value): (r: seq<string>)
    ensures |r| == Size(v)
    ensures v.NumArr? ==> forall i :: 0 <= i < |r| ==> r[i] == Canon(v.nums[i])
    ensures v.StrArr? ==> r == v.strs
    ensures v.Ref? ==> r == [IdentityText(v.name)]
  {
    match v
    case NumArr(ns) => seq(|ns|, i requires 0 <= i < |ns| => Canon(ns[i]))
    case StrArr(ss) => ss
    case Ref(n) => [IdentityText(n)]
  }

  /** getString(): the first element; an empty array has none, and Java
      throws ArrayIndexOutOfBoundsException. */
  function GetString(v: Value): (r: Result<string>)
    ensures r.Thrown? <==> Size(v) == 0
    ensures r.Thrown? ==> r.error == IndexOutOfBounds
    ensures r.Ok? ==> r.value == GetStringArray(v)[0]
  {
    match v
    case NumArr(ns) => if |ns| == 0 then Thrown(IndexOutOfBounds) else Ok(Canon(ns[0]))
    case StrArr(ss) => if |ss| == 0 then Thrown(IndexOutOfBounds) else Ok(ss[0])
    case Ref(n) => Ok(IdentityText(n))
  }

  /** getStringArray(length): exactly `length` entries for an array, the
      first min(length, size) copied and the rest null; a negative length
      throws NegativeArraySizeException; an identifier ignores `length`. */
  function GetStringArrayN(v: Value, length: int): (r: Result<seq<Option<string>>>)
    ensures v.Ref? ==> r == Ok([Some(IdentityText(v.name))])
    ensures !v.Ref? ==> (r.Thrown? <==> length < 0)
    ensures r.Thrown? ==> r.error == NegativeArraySize
    ensures !v.Ref? && r.Ok? ==>
      |r.value| == length &&
      forall i :: 0 <= i < length ==>
        r.value[i] == if i < Size(v) then Some(GetStringArray(v)[i]) else None
  {
    if v.Ref? then Ok([Some(IdentityText(v.name))])
    else if length < 0 then Thrown(NegativeArraySize)
    else
      var all := GetStringArray(v);
      Ok(seq(length, i requires 0 <= i < length => if i < |all| then Some(all[i]) else None))
  }

  /** toString(): a one-element value prints as that element, anything
      else as Arrays.toString does. */
  function ToString(v: Value): string
  {
    var s := GetStringArray(v);
    if |s| == 1 then s[0] else "[" + Join(s, ", ") + "]"
  }

  /** equals(DLValue): comparison of the toString texts. */
  function Equals(a: Value, b: Value): bool
  {
    ToString(a) == ToString(b)
  }

  /** A one-element value prints as that element; any other value prints
      inside brackets. */
  lemma {:induction false} ToStringShape(v: Value)
    ensures Size(v) == 1 ==> ToString(v) == GetStringArray(v)[0]
    ensures Size(v) != 1 ==> |ToString(v)| >= 2 && ToString(v)[0] == '[' && ToString(v)[|ToString(v)| - 1] == ']'
  {
  }

  /** Values with the same element texts are equal whatever their kinds,
      and two one-element values are equal exactly when their texts are. */
  lemma {:induction false} EqualsByText(a: Value, b: Value)
    ensures GetStringArray(a) == GetStringArray(b) ==> Equals(a, b)
    ensures Size(a) == 1 && Size(b) == 1 ==> (Equals(a, b) <==> GetStringArray(a)[0] == GetStringArray(b)[0])
  {
  }

  /** Equality by text is an equivalence relation. */
  lemma {:induction false} EqualsIsEquivalence(a: Value, b: Value, c: Value)
    ensures Equals(a, a)
    ensures Equals(a, b) ==> Equals(b, a)
    ensures Equals(a, b) && Equals(b, c) ==> Equals(a, c)
  {
  }

  /** The number n (an int) equals the one-string value of its decimal
      text: kinds are not compared. */
  lemma {:induction false} NumberEqualsItsText(n: Num)
    requires INT_MIN <= n <= INT_MAX
    ensures Equals(NumArr([n]), StrArr([IntText(n)]))
    ensures KindOf(NumArr([n])) != KindOf(StrArr([IntText(n)]))
  {
    assert GetStringArray(NumArr([n])) == [Canon(n)];
  }

  /** Appending the number 4 to ["a", "b"] adds "4.0", not "4". */
  lemma {:induction false} AppendFourToStrings()
    ensures AppendNumbers(StrArr(["a", "b"]), [4]) == StrArr(["a", "b", "4.0"])
    ensures Canon(4) == "4"
  {
    assert Raw(4) == "4.0" by {
      assert NatText(4) == "4";
    }
    assert AppendNumbers(StrArr(["a", "b"]), [4]).strs == ["a", "b"] + [Raw(4)];
    assert NatText(4) == "4";
  }

  /** Equality is not preserved by append: 5 equals "5", yet appending
      "x" to each gives ["5.0", "x"] and ["5", "x"]. */
  lemma {:induction false} EqualsNotPreservedByAppend()
    ensures Equals(NumArr([5]), StrArr(["5"]))
    ensures !Equals(AppendStrings(NumArr([5]), ["x"]), AppendStrings(StrArr(["5"]), ["x"]))
  {
    assert NatText(5) == "5";
    assert Raw(5) == "5.0";
    assert GetStringArray(NumArr([5])) == ["5"];
    var a := AppendStrings(NumArr([5]), ["x"]);
    var b := AppendStrings(StrArr(["5"]), ["x"]);
    assert a.strs == ["5.0", "x"];
    assert b.strs == ["5", "x"];
    assert ToString(a) == "[5.0, x]";
    assert ToString(b) == "[5, x]";
    assert ToString(a)[2] != ToString(b)[2];
  }

  /** Raw renderings distribute over concatenation. */
  lemma {:induction false} RawAllAppend(a: seq<Num>, b: seq<Num>)
    ensures RawAll(a + b) == RawAll(a) + RawAll(b)
  {
    assert forall i :: 0 <= i < |a + b| ==> RawAll(a + b)[i] == (RawAll(a) + RawAll(b))[i];
  }

  /** Appending numbers in two calls is appending them in one. */
  lemma {:induction false} AppendNumbersTwice(v: Value, a: seq<Num>, b: seq<Num>)
    ensures AppendNumbers(AppendNumbers(v, a), b) == AppendNumbers(v, a + b)
  {
    match v
    case NumArr(ns) =>
      assert ns + a + b == ns + (a + b);
    case StrArr(ss) =>
      RawAllAppend(a, b);
      assert ss + RawAll(a) + RawAll(b) == ss + (RawAll(a) + RawAll(b));
    case Ref(_) =>
  }

  /** Appending strings in two calls is appending them in one. */
  lemma {:induction false} AppendStringsTwice(v: Value, a: seq<string>, b: seq<string>)
    ensures AppendStrings(AppendStrings(v, a), b) == AppendStrings(v, a + b)
  {
    match v
    case NumArr(ns) =>
      assert RawAll(ns) + a + b == RawAll(ns) + (a + b);
    case StrArr(ss) =>
      assert ss + a + b == ss + (a + b);
    case Ref(_) =>
  }

  /** Promotion is one-way: whatever is appended afterwards, a string
      array stays a string array and an identifier stays as it is; a
      number array stays one exactly while only numbers are appended. */
  lemma {:induction false} AppendsNeverDemote(v: Value, adds: seq<Addition>)
    ensures v.StrArr? ==> ApplyAll(v, adds).StrArr?
    ensures v.Ref? ==> ApplyAll(v, adds) == v
    ensures v.NumArr? ==>
      (ApplyAll(v, adds).NumArr? <==> forall i :: 0 <= i < |adds| ==> adds[i].Numbers?)
    ensures Size(ApplyAll(v, adds)) >= Size(v)
    decreases |adds|
  {
    if adds != [] {
      var w := Apply(v, adds[0]);
      AppendsNeverDemote(w, adds[1..]);
      if v.NumArr? {
        if adds[0].Strings? {
          assert !ApplyAll(v, adds).NumArr?;
        } else {
          assert w.NumArr?;
          assert forall i :: 1 <= i < |adds| ==> adds[i] == adds[1..][i - 1];
        }
      }
    }
  }
}
