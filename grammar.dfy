/** The DL parser (DLReader.DLParser) as state-passing functions: each
    grammar rule takes the parser state and returns whether it succeeded
    together with the new state. The struct stack holds paths into the
    tree being filled, so a stack entry names the struct that the Java
    stack holds a reference to. */
module Grammar {
  import opened Basics
  import opened Numbers
  import opened Values
  import opened Structs
  import opened Tokens

  /** structStack (top last), currentName, currentValue, archetypeTable,
      the token cursor and the recorded error messages. */
  datatype PState = PState(
    tree: Struct,
    stack: seq<Path>,
    names: seq<string>,
    values: seq<Value>,
    archetypes: map<string, seq<string>>,
    pos: nat,
    errors: seq<Msg>)

  type Outcome = (bool, PState)

  // ----- The token cursor -----

  predicate At(ts: seq<Token>, s: PState, p: Punct)
  {
    s.pos < |ts| && ts[s.pos] == Sym(p)
  }

  predicate AtIdent(ts: seq<Token>, s: PState)
  {
    s.pos < |ts| && ts[s.pos].Ident?
  }

  predicate AtString(ts: seq<Token>, s: PState)
  {
    s.pos < |ts| && ts[s.pos].Str?
  }

  predicate AtNumber(ts: seq<Token>, s: PState)
  {
    s.pos < |ts| && ts[s.pos].Number?
  }

  /** nextToken(). */
  function Next(s: PState): PState
  {
    s.(pos := s.pos + 1)
  }

  /** addErrorMessage(m); return false. */
  function Fail(s: PState, m: Msg): Outcome
  {
    (false, s.(errors := s.errors + [m]))
  }

  /** matchTypeStrict(p): consume the token if it is `p`, otherwise record
      a type error naming `p`. */
  function Strict(ts: seq<Token>, s: PState, p: Punct): (r: Outcome)
    requires s.pos <= |ts|
    ensures r.0 <==> At(ts, s, p)
    ensures r.0 ==> r.1 == Next(s)
    ensures !r.0 ==> r == Fail(s, UnexpectedToken([p]))
  {
    if At(ts, s, p) then (true, Next(s)) else Fail(s, UnexpectedToken([p]))
  }

  // ----- The three stacks -----

  function Top(s: PState): Path
    requires |s.stack| > 0
  {
    s.stack[|s.stack| - 1]
  }

  /** stackTop. */
  function TopNode(s: PState): Struct
    requires |s.stack| > 0
  {
    NodeAt(s.tree, Top(s))
  }

  /** Replace stackTop in the tree. */
  function UpdateTop(s: PState, x: Struct): PState
    requires |s.stack| > 0
  {
    s.(tree := ReplaceAt(s.tree, Top(s), x))
  }

  function PushStruct(s: PState, p: Path): PState
  {
    s.(stack := s.stack + [p])
  }

  function PopStruct(s: PState): PState
    requires |s.stack| > 0
  {
    s.(stack := s.stack[..|s.stack| - 1])
  }

  /** pushStruct(stackTop.putStruct(t)): the new child is the last of the
      `t` children of stackTop. */
  function OpenChild(s: PState, t: string): (r: PState)
    requires |s.stack| > 0
    ensures |r.stack| == |s.stack| + 1 && r.stack[..|s.stack|] == s.stack
    ensures r.names == s.names && r.values == s.values && r.pos == s.pos && r.errors == s.errors
  {
    var node := TopNode(s);
    var index := |GetStructs(node, t)|;
    PushStruct(UpdateTop(s, PutStruct(node, t, Empty)), Top(s) + [Step(t, index)])
  }

  function PushName(s: PState, n: string): PState
  {
    s.(names := s.names + [n])
  }

  function PeekName(s: PState): string
    requires |s.names| > 0
  {
    s.names[|s.names| - 1]
  }

  function PopName(s: PState): PState
    requires |s.names| > 0
  {
    s.(names := s.names[..|s.names| - 1])
  }

  function PushValue(s: PState, v: Value): PState
  {
    s.(values := s.values + [v])
  }

  function PeekValue(s: PState): Value
    requires |s.values| > 0
  {
    s.values[|s.values| - 1]
  }

  function PopValue(s: PState): PState
    requires |s.values| > 0
  {
    s.(values := s.values[..|s.values| - 1])
  }

  /** currentValue.peek().append(...). */
  function AppendToTop(s: PState, a: Addition): PState
    requires |s.values| > 0
  {
    s.(values := s.values[|s.values| - 1 := Apply(PeekValue(s), a)])
  }

  /** What a value rule leaves alone: the tree, the struct and name stacks
      and the archetype table. */
  predicate ValueFrame(s: PState, t: PState)
  {
    t.tree == s.tree && t.stack == s.stack && t.names == s.names && t.archetypes == s.archetypes
  }

  /** A literal the parser can build: a non-empty number or string array. */
  predicate Literal(v: Value)
  {
    (v.NumArr? && |v.nums| > 0) || (v.StrArr? && |v.strs| > 0)
  }

  /** The value stack grew by exactly one literal. */
  predicate PushedLiteral(s: PState, t: PState)
  {
    |t.values| == |s.values| + 1 && t.values[..|s.values|] == s.values && Literal(t.values[|s.values|])
  }

  // ----- Values -----

  /** <NumberToken> := [INTEGER] | [FLOAT] */
  function NumberToken(ts: seq<Token>, s: PState, negate: bool): (r: Outcome)
    requires s.pos <= |ts|
    ensures s.pos <= r.1.pos <= |ts| && ValueFrame(s, r.1)
    ensures r.0 <==> AtNumber(ts, s)
    ensures r.0 ==> r.1.pos == s.pos + 1 && r.1.errors == s.errors
    ensures r.0 ==> r.1.values == s.values + [NumArr([if negate then -ts[s.pos].n else ts[s.pos].n])]
    ensures !r.0 ==> r.1.values == s.values && r.1.errors == s.errors + [ExpectedNumber]
  {
    if AtNumber(ts, s) then
      var n := ts[s.pos].n;
      (true, Next(PushValue(s, NumArr([if negate then -n else n]))))
    else Fail(s, ExpectedNumber)
  }

  /** <Number> := "-" [NumberToken] | [NumberToken] */
  function NumberRule(ts: seq<Token>, s: PState): (r: Outcome)
    requires s.pos <= |ts|
    ensures s.pos <= r.1.pos <= |ts| && ValueFrame(s, r.1)
    ensures r.0 ==> r.1.pos > s.pos && r.1.errors == s.errors
    ensures r.0 ==> |r.1.values| == |s.values| + 1 && r.1.values[..|s.values|] == s.values
    ensures r.0 ==> r.1.values[|s.values|].NumArr? && |r.1.values[|s.values|].nums| == 1
    ensures !r.0 ==> r.1.values == s.values && r.1.errors == s.errors + [ExpectedNumber]
  {
    if At(ts, s, Minus) then NumberToken(ts, Next(s), true) else NumberToken(ts, s, false)
  }

  /** <StringArray> := "," <String> <StringArray> | [E] */
  function StringArrayRule(ts: seq<Token>, s: PState): (r: Outcome)
    requires s.pos <= |ts| && |s.values| > 0 && PeekValue(s).StrArr?
    ensures s.pos <= r.1.pos <= |ts| && ValueFrame(s, r.1)
    ensures r.0 ==> r.1.errors == s.errors && |r.1.values| == |s.values|
    ensures r.0 ==> r.1.values[..|s.values| - 1] == s.values[..|s.values| - 1]
    ensures r.0 ==> PeekValue(r.1).StrArr? && |PeekValue(r.1).strs| >= |PeekValue(s).strs|
    ensures !r.0 ==> |r.1.errors| > |s.errors|
    decreases |ts| - s.pos
  {
    if At(ts, s, Comma) then
      var s1 := Next(s);
      if !AtString(ts, s1) then Fail(s1, ExpectedString)
      else
        var s2 := AppendToTop(s1, Strings([ts[s1.pos].text]));
        AppendKeeps(s1, Strings([ts[s1.pos].text]), s2);
        var r := StringArrayRule(ts, Next(s2));
        StringArrayFrame(s, Next(s2), r);
        r
    else (true, s)
  }

  /** The rest of a string array keeps what the first step kept. */
  lemma {:induction false} StringArrayFrame(s: PState, s3: PState, r: Outcome)
    requires |s.values| > 0 && PeekValue(s).StrArr? && s.pos <= s3.pos
    requires ValueFrame(s, s3) && s3.errors == s.errors && |s3.values| == |s.values|
    requires s3.values[..|s.values| - 1] == s.values[..|s.values| - 1]
    requires PeekValue(s3).StrArr? && |PeekValue(s3).strs| >= |PeekValue(s).strs|
    requires s3.pos <= r.1.pos && ValueFrame(s3, r.1)
    requires r.0 ==> r.1.errors == s3.errors && |r.1.values| == |s3.values|
    requires r.0 ==> r.1.values[..|s3.values| - 1] == s3.values[..|s3.values| - 1]
    requires r.0 ==> PeekValue(r.1).StrArr? && |PeekValue(r.1).strs| >= |PeekValue(s3).strs|
    requires !r.0 ==> |r.1.errors| > |s3.errors|
    ensures s.pos <= r.1.pos && ValueFrame(s, r.1)
    ensures r.0 ==> r.1.errors == s.errors && |r.1.values| == |s.values|
    ensures r.0 ==> r.1.values[..|s.values| - 1] == s.values[..|s.values| - 1]
    ensures r.0 ==> PeekValue(r.1).StrArr? && |PeekValue(r.1).strs| >= |PeekValue(s).strs|
    ensures !r.0 ==> |r.1.errors| > |s.errors|
  {
  }

  /** <NumberArray> := "," <Number> <NumberArray> | [E]; the parsed
      number is popped and appended to the array below it. */
  function NumberArrayRule(ts: seq<Token>, s: PState): (r: Outcome)
    requires s.pos <= |ts| && |s.values| > 0 && PeekValue(s).NumArr?
    ensures s.pos <= r.1.pos <= |ts| && ValueFrame(s, r.1)
    ensures r.0 ==> r.1.errors == s.errors && |r.1.values| == |s.values|
    ensures r.0 ==> r.1.values[..|s.values| - 1] == s.values[..|s.values| - 1]
    ensures r.0 ==> PeekValue(r.1).NumArr? && |PeekValue(r.1).nums| >= |PeekValue(s).nums|
    ensures !r.0 ==> |r.1.errors| > |s.errors|
    decreases |ts| - s.pos
  {
    if At(ts, s, Comma) then
      var (ok, s1) := NumberRule(ts, Next(s));
      if !ok then (false, s1)
      else
        var popped := PeekValue(s1);
        var s2 := PopValue(s1);
        var s3 := AppendToTop(s2, Numbers([popped.nums[0]]));
        NumberPopped(s, s1, s2);
        AppendKeeps(s2, Numbers([popped.nums[0]]), s3);
        var r := NumberArrayRule(ts, s3);
        NumberArrayFrame(s, s3, r);
        r
    else (true, s)
  }

  /** The rest of a number array keeps what the first step kept. */
  lemma {:induction false} NumberArrayFrame(s: PState, s3: PState, r: Outcome)
    requires |s.values| > 0 && PeekValue(s).NumArr? && s.pos <= s3.pos
    requires ValueFrame(s, s3) && s3.errors == s.errors && |s3.values| == |s.values|
    requires s3.values[..|s.values| - 1] == s.values[..|s.values| - 1]
    requires PeekValue(s3).NumArr? && |PeekValue(s3).nums| >= |PeekValue(s).nums|
    requires s3.pos <= r.1.pos && ValueFrame(s3, r.1)
    requires r.0 ==> r.1.errors == s3.errors && |r.1.values| == |s3.values|
    requires r.0 ==> r.1.values[..|s3.values| - 1] == s3.values[..|s3.values| - 1]
    requires r.0 ==> PeekValue(r.1).NumArr? && |PeekValue(r.1).nums| >= |PeekValue(s3).nums|
    requires !r.0 ==> |r.1.errors| > |s3.errors|
    ensures s.pos <= r.1.pos && ValueFrame(s, r.1)
    ensures r.0 ==> r.1.errors == s.errors && |r.1.values| == |s.values|
    ensures r.0 ==> r.1.values[..|s.values| - 1] == s.values[..|s.values| - 1]
    ensures r.0 ==> PeekValue(r.1).NumArr? && |PeekValue(r.1).nums| >= |PeekValue(s).nums|
    ensures !r.0 ==> |r.1.errors| > |s.errors|
  {
  }

  /** Popping the number a number rule pushed gives the value stack back. */
  lemma {:induction false} NumberPopped(s: PState, s1: PState, s2: PState)
    requires |s1.values| == |s.values| + 1 && s1.values[..|s.values|] == s.values && s2 == PopValue(s1)
    ensures s2.values == s.values
  {
  }

  /** An append changes the top value and nothing else. */
  lemma {:induction false} AppendKeeps(s: PState, a: Addition, u: PState)
    requires |s.values| > 0 && u == AppendToTop(s, a)
    ensures ValueFrame(s, u) && u.pos == s.pos && u.errors == s.errors && |u.values| == |s.values|
    ensures u.values[..|s.values| - 1] == s.values[..|s.values| - 1]
    ensures PeekValue(u) == Apply(PeekValue(s), a)
  {
  }

  /** <ArrayValues> := <STRING> <StringArray> | <Number> <NumberArray> */
  function ArrayValues(ts: seq<Token>, s: PState): (r: Outcome)
    requires s.pos <= |ts|
    ensures s.pos <= r.1.pos <= |ts| && ValueFrame(s, r.1)
    ensures r.0 ==> r.1.pos > s.pos && r.1.errors == s.errors && PushedLiteral(s, r.1)
    ensures !r.0 ==> |r.1.errors| > |s.errors|
  {
    if AtString(ts, s) then
      StringArrayRule(ts, Next(PushValue(s, StrArr([ts[s.pos].text]))))
    else
      var (ok, s1) := NumberRule(ts, s);
      if !ok then (false, s1) else NumberArrayRule(ts, s1)
  }

  /** <Value> := "[" <ArrayValues> "]" | <STRING> | <Number>; pushes one
      value on the value stack. */
  function ValueRule(ts: seq<Token>, s: PState): (r: Outcome)
    requires s.pos <= |ts|
    ensures s.pos <= r.1.pos <= |ts| && ValueFrame(s, r.1)
    ensures r.0 ==> r.1.pos > s.pos && r.1.errors == s.errors && PushedLiteral(s, r.1)
    ensures !r.0 ==> |r.1.errors| > |s.errors|
  {
    if At(ts, s, LBrack) then
      var (ok1, s1) := ArrayValues(ts, Next(s));
      if !ok1 then (false, s1)
      else Strict(ts, s1, RBrack)
    else if AtString(ts, s) then
      (true, Next(PushValue(s, StrArr([ts[s.pos].text]))))
    else
      var (ok, s1) := NumberRule(ts, s);
      if ok then (true, s1) else Fail(s1, ExpectedValue)
  }

  /** <ValueListPrime> := "," <Value> <ValueListPrime> | [E] */
  function ValueListRest(ts: seq<Token>, s: PState): (r: Outcome)
    requires s.pos <= |ts|
    ensures s.pos <= r.1.pos <= |ts| && ValueFrame(s, r.1)
    ensures r.0 ==> r.1.errors == s.errors && |r.1.values| >= |s.values| && r.1.values[..|s.values|] == s.values
    decreases |ts| - s.pos
  {
    if At(ts, s, Comma) then
      var (ok, s1) := ValueRule(ts, Next(s));
      if !ok then Fail(s1, ExpectedValue)
      else ValueListRest(ts, s1)
    else (true, s)
  }

  /** <ValueList> := <Value> <ValueListPrime> */
  function ValueList(ts: seq<Token>, s: PState): (r: Outcome)
    requires s.pos <= |ts|
    ensures s.pos <= r.1.pos <= |ts| && ValueFrame(s, r.1)
    ensures r.0 ==> r.1.errors == s.errors && |r.1.values| > |s.values| && r.1.values[..|s.values|] == s.values
  {
    var (ok, s1) := ValueRule(ts, s);
    if !ok then (false, s1) else ValueListRest(ts, s1)
  }

  // ----- Archetypes -----

  /** <IDList> := <ID> <IDList'> */
  function IdList(ts: seq<Token>, s: PState): (r: Outcome)
    requires s.pos <= |ts|
    ensures s.pos <= r.1.pos <= |ts|
    ensures r.1.tree == s.tree && r.1.stack == s.stack && r.1.values == s.values && r.1.archetypes == s.archetypes
    ensures r.0 ==> r.1.errors == s.errors && |r.1.names| > |s.names| && r.1.names[..|s.names|] == s.names
    decreases |ts| - s.pos
  {
    if AtIdent(ts, s) then IdListRest(ts, Next(PushName(s, ts[s.pos].id)))
    else Fail(s, ExpectedArchetypeField)
  }

  /** <IDList'> := "," <IDList> | [E] */
  function IdListRest(ts: seq<Token>, s: PState): (r: Outcome)
    requires s.pos <= |ts|
    ensures s.pos <= r.1.pos <= |ts|
    ensures r.1.tree == s.tree && r.1.stack == s.stack && r.1.values == s.values && r.1.archetypes == s.archetypes
    ensures r.0 ==> r.1.errors == s.errors && |r.1.names| >= |s.names| && r.1.names[..|s.names|] == s.names
    decreases |ts| - s.pos
  {
    if At(ts, s, Comma) then IdList(ts, Next(s)) else (true, s)
  }

  /** archetypeTable.put: every name above the bottom one, in push order,
      becomes the parameter list of the bottom one; the name stack is
      emptied. */
  function Declare(s: PState): (r: PState)
    requires |s.names| > 0
  {
    s.(archetypes := s.archetypes[s.names[0] := s.names[1..]], names := [])
  }

  /** <ArchetypeDecl> := "(" <IDList> ")" */
  function ArchetypeDecl(ts: seq<Token>, s: PState): (r: Outcome)
    requires s.pos <= |ts| && |s.names| > 0
    ensures s.pos <= r.1.pos <= |ts|
    ensures r.0 ==> r.1.pos > s.pos && r.1.errors == s.errors && r.1.names == []
    ensures r.0 ==> r.1.tree == s.tree && r.1.stack == s.stack && r.1.values == s.values
  {
    var (ok1, s1) := Strict(ts, s, LParen);
    if !ok1 then (false, s1) else
    var (ok2, s2) := IdList(ts, s1);
    if !ok2 then (false, s2) else
    var (ok3, s3) := Strict(ts, s2, RParen);
    if !ok3 then (false, s3) else
    (true, Declare(s3))
  }

  /** The loop `while (i >= 0) stackTop.put(params[i], currentValue.pop())`:
      the top `i + 1` values go to params[0..i], the topmost to params[i]. */
  function BindParams(s: PState, params: seq<string>, i: int): (r: PState)
    requires |s.stack| > 0 && -1 <= i < |params| && i < |s.values|
    ensures r.stack == s.stack && r.names == s.names && r.archetypes == s.archetypes
    ensures r.pos == s.pos && r.errors == s.errors
    ensures r.values == s.values[..|s.values| - (i + 1)]
    decreases i + 1
  {
    if i < 0 then s
    else
      var s1 := UpdateTop(s, PutField(TopNode(s), params[i], Some(PeekValue(s))));
      BindParams(PopValue(s1), params, i - 1)
  }

  /** <ArchetypeClause> := "(" <ValueList> ")": binds the values to the
      parameters declared for the current name, left-aligned. */
  function ArchetypeClause(ts: seq<Token>, s: PState): (r: Outcome)
    requires s.pos <= |ts| && |s.stack| > 0 && |s.names| > 0
    ensures s.pos <= r.1.pos <= |ts|
    ensures r.0 ==> r.1.pos > s.pos && r.1.errors == s.errors
    ensures r.0 ==> r.1.stack == s.stack && r.1.names == s.names && r.1.values == s.values
  {
    var (ok1, s1) := Strict(ts, s, LParen);
    if !ok1 then (false, s1) else
    var (ok2, s2) := ValueList(ts, s1);
    if !ok2 then (false, s2) else
    var (ok3, s3) := Strict(ts, s2, RParen);
    if !ok3 then (false, s3) else
    var name := PeekName(s3);
    if name !in s3.archetypes then Fail(s3, UndeclaredArchetype(name))
    else
      var params := s3.archetypes[name];
      var count := |s3.values| - |s.values|;
      if count > |params| then Fail(s3, TooManyValues(name, |params|))
      else (true, BindParams(s3, params, count - 1))
  }

  // ----- Inheritance -----

  /** `dls.getValue() != null && dls.getValue().equals(dlv)`. */
  predicate Matches(c: Struct, v: Value)
  {
    c.value.Some? && Equals(c.value.value, v)
  }

  /** The index the search loop settles on: the last matching struct. */
  function LastMatch(q: seq<Struct>, v: Value): (r: Option<nat>)
    ensures r.Some? ==> r.value < |q| && Matches(q[r.value], v)
    ensures r.Some? ==> forall j :: r.value < j < |q| ==> !Matches(q[j], v)
    ensures r.None? ==> forall j :: 0 <= j < |q| ==> !Matches(q[j], v)
    decreases |q|
  {
    if q == [] then None
    else if Matches(q[|q| - 1], v) then Some(|q| - 1)
    else
      var p := q[..|q| - 1];
      var r := LastMatch(p, v);
      LastMatchPrefix(q, v, p, r);
      r
  }

  /** A search that skips the last struct answers as the search of the rest. */
  lemma {:induction false} LastMatchPrefix(q: seq<Struct>, v: Value, p: seq<Struct>, r: Option<nat>)
    requires |q| > 0 && p == q[..|q| - 1] && !Matches(q[|q| - 1], v)
    requires r.Some? ==> r.value < |p| && Matches(p[r.value], v)
    requires r.Some? ==> forall j :: r.value < j < |p| ==> !Matches(p[j], v)
    requires r.None? ==> forall j :: 0 <= j < |p| ==> !Matches(p[j], v)
    ensures r.Some? ==> r.value < |q| && Matches(q[r.value], v)
    ensures r.Some? ==> forall j :: r.value < j < |q| ==> !Matches(q[j], v)
    ensures r.None? ==> forall j :: 0 <= j < |q| ==> !Matches(q[j], v)
  {
    if r.Some? {
      assert q[r.value] == p[r.value];
      forall j | r.value < j < |q|
        ensures !Matches(q[j], v)
      {
        if j < |p| {
          assert q[j] == p[j];
        }
      }
    } else {
      forall j | 0 <= j < |q|
        ensures !Matches(q[j], v)
      {
        if j < |p| {
          assert q[j] == p[j];
        }
      }
    }
  }

  /** <InheritClause> := ":" <ID> <Value>: copies the last sibling of the
      named type whose own value equals the given one into stackTop, then
      restores stackTop's own value. */
  function InheritClause(ts: seq<Token>, s: PState): (r: Outcome)
    requires s.pos <= |ts| && |s.stack| > 1
    ensures s.pos <= r.1.pos <= |ts|
    ensures r.0 ==> r.1.pos > s.pos && r.1.errors == s.errors
    ensures r.0 ==> r.1.stack == s.stack && r.1.names == s.names && r.1.values == s.values
  {
    var (ok1, s1) := Strict(ts, s, Colon);
    if !ok1 then (false, s1)
    else if !AtIdent(ts, s1) then Fail(s1, ExpectedIdentifier)
    else
      var s2 := Next(PushName(s1, ts[s1.pos].id));
      var (ok3, s3) := ValueRule(ts, s2);
      if !ok3 then (false, s3) else
      var typeName := PeekName(s3);
      var target := PeekValue(s3);
      var last := Top(s3);
      var s4 := PopStruct(PopValue(s3));
      var siblings := GetStructs(TopNode(s4), typeName);
      var found := LastMatch(siblings, target);
      var s5 := PushStruct(PopName(s4), last);
      ClauseRestores(s1, s3, ts[s1.pos].id, s5);
      match found
      case None => Fail(s5, InheritTargetMissing(typeName, ToString(target)))
      case Some(i) =>
        var node := TopNode(s5);
        (true, UpdateTop(s5, SetValue(CopyInto(siblings[i], node), node.value)))
  }

  /** Popping the value, the name and the struct that an inheritance
      clause pushed, and pushing the struct back, restores the stacks. */
  lemma {:induction false} ClauseRestores(s: PState, s3: PState, t: string, s5: PState)
    requires |s.stack| > 0 && s3.stack == s.stack && s3.names == s.names + [t] && PushedLiteral(s, s3)
    requires s5 == PushStruct(PopName(PopStruct(PopValue(s3))), Top(s3))
    ensures s5.stack == s.stack && s5.names == s.names && s5.values == s.values
  {
    assert s.stack[..|s.stack| - 1] + [Top(s)] == s.stack;
    assert (s.names + [t])[..|s.names|] == s.names;
  }

  // ----- Structures -----

  /** <StructList> := <EOLEX> | "." <ID> <ArchetypeDecl> ";" <StructList>
      | <StructDecl> */
  function StructList(ts: seq<Token>, s: PState): (r: Outcome)
    requires s.pos <= |ts| && |s.stack| > 0 && s.names == []
    ensures s.pos <= r.1.pos <= |ts|
    ensures r.0 && s.pos < |ts| ==> r.1.pos > s.pos
    ensures r.0 ==> r.1.errors == s.errors && r.1.stack == s.stack && r.1.names == [] && r.1.values == s.values
    decreases |ts| - s.pos, 1
  {
    if s.pos == |ts| then (true, s)
    else if At(ts, s, Period) then
      var s1 := Next(s);
      if !AtIdent(ts, s1) then Fail(s1, ExpectedIdentifier)
      else
        var (ok2, s2) := ArchetypeDecl(ts, Next(PushName(s1, ts[s1.pos].id)));
        if !ok2 then (false, s2) else
        var (ok3, s3) := Strict(ts, s2, Semicolon);
        if !ok3 then (false, s3) else
        StructList(ts, s3)
    else StructDecl(ts, s)
  }

  /** <StructDecl> := <ID> <StructTail>; fails silently on anything but an
      identifier. */
  function StructDecl(ts: seq<Token>, s: PState): (r: Outcome)
    requires s.pos <= |ts| && |s.stack| > 0
    ensures s.pos <= r.1.pos <= |ts|
    ensures r.0 ==> r.1.pos > s.pos
    ensures r.0 ==> r.1.errors == s.errors && r.1.stack == s.stack && r.1.names == s.names && r.1.values == s.values
    decreases |ts| - s.pos, 0
  {
    if AtIdent(ts, s) then StructTail(ts, Next(PushName(s, ts[s.pos].id)))
    else (false, s)
  }

  /** <InnerStructList> := <ID> <StructTail> <InnerStructList> | [e] */
  function InnerStructList(ts: seq<Token>, s: PState): (r: Outcome)
    requires s.pos <= |ts| && |s.stack| > 0
    ensures s.pos <= r.1.pos <= |ts|
    ensures r.0 ==> r.1.errors == s.errors && r.1.stack == s.stack && r.1.names == s.names && r.1.values == s.values
    decreases |ts| - s.pos, 0
  {
    if AtIdent(ts, s) then
      var (ok, s1) := StructTail(ts, Next(PushName(s, ts[s.pos].id)));
      if !ok then (false, s1) else InnerStructList(ts, s1)
    else (true, s)
  }

  /** <StructTail> := "{" <InnerStructList> "}" | <InheritClause>
      <StatementEndOrStruct> | <ArchetypeClause> <StatementEndOrStruct>
      | <Value> <StatementEndOrStruct>, where a value followed by ";" is
      a field instead. */
  function StructTail(ts: seq<Token>, s: PState): (r: Outcome)
    requires s.pos <= |ts| && |s.stack| > 0 && |s.names| > 0
    ensures s.pos <= r.1.pos <= |ts|
    ensures r.0 ==> r.1.errors == s.errors && r.1.stack == s.stack
    ensures r.0 ==> r.1.names == s.names[..|s.names| - 1] && r.1.values == s.values
    decreases |ts| - s.pos, 1
  {
    if At(ts, s, LBrace) then Block(ts, OpenChild(Next(s), PeekName(s)))
    else if At(ts, s, Colon) then
      var (ok2, s2) := InheritClause(ts, OpenChild(s, PeekName(s)));
      if !ok2 then (false, s2) else StatementEndOrStruct(ts, s2)
    else if At(ts, s, LParen) then
      var (ok2, s2) := ArchetypeClause(ts, OpenChild(s, PeekName(s)));
      if !ok2 then (false, s2) else StatementEndOrStruct(ts, s2)
    else ValueTail(ts, s)
  }

  /** The last alternative of StructTail: a value, then ";" makes a field
      of the name, and anything else makes a child of that type whose own
      value is the value, completed by StatementEndOrStruct. */
  function ValueTail(ts: seq<Token>, s: PState): (r: Outcome)
    requires s.pos <= |ts| && |s.stack| > 0 && |s.names| > 0
    ensures s.pos <= r.1.pos <= |ts|
    ensures r.0 ==> r.1.errors == s.errors && r.1.stack == s.stack
    ensures r.0 ==> r.1.names == s.names[..|s.names| - 1] && r.1.values == s.values
    decreases |ts| - s.pos, 0
  {
    var (ok1, s1) := ValueRule(ts, s);
    if !ok1 then (false, s1)
    else if At(ts, s1, Semicolon) then
      var s2 := UpdateTop(Next(s1), PutField(TopNode(s1), PeekName(s1), Some(PeekValue(s1))));
      (true, PopValue(PopName(s2)))
    else
      var s2 := OpenChild(s1, PeekName(s1));
      var s3 := UpdateTop(s2, SetValue(TopNode(s2), Some(PeekValue(s2))));
      StatementEndOrStruct(ts, PopValue(s3))
  }

  /** The rest of a braced block once "{" is consumed and the struct it
      fills is on top of the stack: <InnerStructList> "}", then the
      struct and its name are popped. */
  function Block(ts: seq<Token>, s: PState): (r: Outcome)
    requires s.pos <= |ts| && |s.stack| > 1 && |s.names| > 0
    ensures s.pos <= r.1.pos <= |ts|
    ensures r.0 ==> r.1.errors == s.errors && r.1.stack == s.stack[..|s.stack| - 1]
    ensures r.0 ==> r.1.names == s.names[..|s.names| - 1] && r.1.values == s.values
    decreases |ts| - s.pos, 1
  {
    var (ok1, s1) := InnerStructList(ts, s);
    if !ok1 then (false, s1) else
    var (ok2, s2) := Strict(ts, s1, RBrace);
    if !ok2 then (false, s2) else
    (true, PopName(PopStruct(s2)))
  }

  /** <StatementEndOrStruct> := ";" | "{" <InnerStructList> "}" |
      <InheritClause> <StatementEndOrStruct> | <ArchetypeClause>
      <StatementEndOrStruct>; closes the struct opened by StructTail. */
  function StatementEndOrStruct(ts: seq<Token>, s: PState): (r: Outcome)
    requires s.pos <= |ts| && |s.stack| > 1 && |s.names| > 0
    ensures s.pos <= r.1.pos <= |ts|
    ensures r.0 ==> r.1.errors == s.errors && r.1.stack == s.stack[..|s.stack| - 1]
    ensures r.0 ==> r.1.names == s.names[..|s.names| - 1] && r.1.values == s.values
    decreases |ts| - s.pos, 0
  {
    if At(ts, s, Semicolon) then
      (true, PopName(PopStruct(Next(s))))
    else if At(ts, s, LBrace) then Block(ts, Next(s))
    else if At(ts, s, Colon) then
      var (ok1, s1) := InheritClause(ts, s);
      if !ok1 then (false, s1) else StatementEndOrStruct(ts, s1)
    else if At(ts, s, LParen) then
      var (ok1, s1) := ArchetypeClause(ts, s);
      if !ok1 then (false, s1) else StatementEndOrStruct(ts, s1)
    else Fail(s, UnexpectedToken([Semicolon, LParen, LBrace, Colon]))
  }

  // ----- read() -----

  /** The parser right after construction: the target struct alone on the
      struct stack. */
  function Start(root: Struct): PState
  {
    PState(root, [[]], [], [], map[], 0, [])
  }

  /** `while (currentToken() != null && (strOk = StructList()))`. */
  function ReadLoop(ts: seq<Token>, s: PState, strOk: bool): (r: Outcome)
    requires s.pos <= |ts| && |s.stack| > 0 && s.names == []
    ensures r.0 ==> r.1.pos == |ts| && r.1.errors == s.errors
    ensures r.0 ==> r.1.stack == s.stack && r.1.names == [] && r.1.values == s.values
    decreases |ts| - s.pos
  {
    if s.pos == |ts| then (strOk, s)
    else
      var (ok, s1) := StructList(ts, s);
      if !ok then (false, s1) else ReadLoop(ts, s1, true)
  }

  /** The result of apply(): the target struct as the parser left it, and
      the messages of the DLParseException, if any. */
  datatype Applied = Applied(tree: Struct, errors: seq<Msg>)

  /** read() on a parser built over `root`. */
  function Read(ts: seq<Token>, root: Struct): (r: Applied)
    ensures r.errors == [] <==> ReadLoop(ts, Start(root), false).0
    ensures r.errors != [] ==> r.errors[|r.errors| - 1] == ExpectedValidStructure
  {
    var (ok, s) := ReadLoop(ts, Start(root), false);
    if ok then Applied(s.tree, s.errors)
    else Applied(s.tree, s.errors + [ExpectedValidStructure])
  }

  /** The exception apply() throws: None when no message was recorded. */
  function ExceptionText(a: Applied): Option<string>
  {
    if a.errors == [] then None else Some(ErrorText(a.errors))
  }
}
