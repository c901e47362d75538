/** What the DL grammar rules do to the tree: fields versus children,
    archetypes, inheritance, array literals and the end of a read. */
module GrammarFacts {
  import opened Basics
  import opened Numbers
  import opened Values
  import opened Structs
  import opened Tokens
  import opened Grammar

  /** Writing stackTop and reading it back. */
  lemma {:induction false} UpdateTopRead(s: PState, x: Struct)
    requires |s.stack| > 0 && ValidPath(s.tree, Top(s))
    ensures ValidPath(UpdateTop(s, x).tree, Top(s)) && TopNode(UpdateTop(s, x)) == x
  {
    NodeAtReplaceAt(s.tree, Top(s), x);
  }

  /** pushStruct(stackTop.putStruct(t)) puts the new, empty child on top
      of the struct stack, and whatever is later written there is what
      putStruct filed as the last `t` child of the old stackTop. */
  lemma {:induction false} OpenChildTop(s: PState, t: string, x: Struct)
    requires |s.stack| > 0 && ValidPath(s.tree, Top(s))
    ensures var s1 := OpenChild(s, t);
      ValidPath(s1.tree, Top(s1)) && TopNode(s1) == Empty &&
      Top(s1) == Top(s) + [Step(t, |GetStructs(TopNode(s), t)|)] &&
      UpdateTop(s1, x).tree == ReplaceAt(s.tree, Top(s), PutStruct(TopNode(s), t, x)) &&
      ValidPath(UpdateTop(s1, x).tree, Top(s1)) && TopNode(UpdateTop(s1, x)) == x
  {
    var node := TopNode(s);
    var st := Step(t, |GetStructs(node, t)|);
    var tree1 := ReplaceAt(s.tree, Top(s), PutStruct(node, t, Empty));
    NodeAtReplaceAt(s.tree, Top(s), PutStruct(node, t, Empty));
    PutStructChild(node, t, Empty);
    ReplaceAtSnoc(tree1, Top(s), st, x);
    ReplaceNewChild(node, t, Empty, x);
    ReplaceAtTwice(s.tree, Top(s), PutStruct(node, t, Empty), PutStruct(node, t, x));
    NodeAtReplaceAt(tree1, Top(s) + [st], x);
  }

  // ----- Fields and children -----

  /** A declaration is its name and then its tail. */
  lemma {:induction false} DeclIsTail(ts: seq<Token>, s: PState, t: string)
    requires s.pos < |ts| && ts[s.pos] == Ident(t) && |s.stack| > 0
    ensures StructDecl(ts, s) == StructTail(ts, Next(PushName(s, t)))
  {
  }

  /** A tail that starts with none of `{`, `:` and `(` is a value. */
  lemma {:induction false} TailValue(ts: seq<Token>, s: PState)
    requires s.pos <= |ts| && |s.stack| > 0 && |s.names| > 0
    requires !At(ts, s, LBrace) && !At(ts, s, Colon) && !At(ts, s, LParen)
    ensures StructTail(ts, s) == ValueTail(ts, s)
  {
  }

  /** `{` right after a name opens a child of that type. */
  lemma {:induction false} TailBrace(ts: seq<Token>, s: PState)
    requires s.pos <= |ts| && |s.stack| > 0 && |s.names| > 0 && At(ts, s, LBrace)
    ensures StructTail(ts, s) == Block(ts, OpenChild(Next(s), PeekName(s)))
  {
  }


  /** `Name value ;` stores field Name on the current struct, overwriting
      any earlier value; nothing else in the state changes. */
  lemma {:induction false} FieldStatement(ts: seq<Token>, s: PState, f: string, s1: PState, s2: PState)
    requires s.pos < |ts| && ts[s.pos] == Ident(f) && |s.stack| > 0
    requires s1 == Next(PushName(s, f)) && !At(ts, s1, LBrace) && !At(ts, s1, Colon) && !At(ts, s1, LParen)
    requires ValueRule(ts, s1) == (true, s2) && At(ts, s2, Semicolon)
    ensures StructDecl(ts, s) ==
      (true, s.(pos := s2.pos + 1, tree := ReplaceAt(s.tree, Top(s), PutField(TopNode(s), f, Some(PeekValue(s2))))))
  {
    DeclIsTail(ts, s, f);
    TailValue(ts, s1);
    FieldState(s, f, s1, s2);
  }

  lemma {:induction false} FieldState(s: PState, f: string, s1: PState, s2: PState)
    requires |s.stack| > 0 && s1 == Next(PushName(s, f))
    requires ValueFrame(s1, s2) && PushedLiteral(s1, s2) && s2.errors == s.errors
    ensures PopValue(PopName(UpdateTop(Next(s2), PutField(TopNode(s2), PeekName(s2), Some(PeekValue(s2)))))) ==
      s.(pos := s2.pos + 1, tree := ReplaceAt(s.tree, Top(s), PutField(TopNode(s), f, Some(PeekValue(s2)))))
  {
    assert (s.names + [f])[..|s.names|] == s.names;
  }

  /** `Name value` followed by anything but `;` files a new child of type
      Name, last in its queue, whose own value is `value`, and the rest of
      the statement is parsed with that child on top of the stack. */
  lemma {:induction false} ValueChildStatement(ts: seq<Token>, s: PState, t: string, s1: PState, s2: PState, s3: PState)
    requires s.pos < |ts| && ts[s.pos] == Ident(t) && |s.stack| > 0 && ValidPath(s.tree, Top(s))
    requires s1 == Next(PushName(s, t)) && !At(ts, s1, LBrace) && !At(ts, s1, Colon) && !At(ts, s1, LParen)
    requires ValueRule(ts, s1) == (true, s2) && !At(ts, s2, Semicolon)
    requires s3 == PState(ReplaceAt(s.tree, Top(s), PutStruct(TopNode(s), t, Struct(Some(PeekValue(s2)), map[], []))),
                          s.stack + [Top(s) + [Step(t, |GetStructs(TopNode(s), t)|)]],
                          s.names + [t], s.values, s.archetypes, s2.pos, s.errors)
    ensures StructDecl(ts, s) == StatementEndOrStruct(ts, s3)
    ensures ValidPath(s3.tree, Top(s3)) && TopNode(s3) == Struct(Some(PeekValue(s2)), map[], [])
  {
    DeclIsTail(ts, s, t);
    TailValue(ts, s1);
    ValueChildState(s, t, s1, s2, s3);
  }

  lemma {:induction false} ValueChildState(s: PState, t: string, s1: PState, s2: PState, s3: PState)
    requires |s.stack| > 0 && ValidPath(s.tree, Top(s)) && s1 == Next(PushName(s, t))
    requires ValueFrame(s1, s2) && PushedLiteral(s1, s2) && s2.errors == s.errors
    requires s3 == PState(ReplaceAt(s.tree, Top(s), PutStruct(TopNode(s), t, Struct(Some(PeekValue(s2)), map[], []))),
                          s.stack + [Top(s) + [Step(t, |GetStructs(TopNode(s), t)|)]],
                          s.names + [t], s.values, s.archetypes, s2.pos, s.errors)
    ensures PeekName(s2) == t
    ensures var o := OpenChild(s2, t); PopValue(UpdateTop(o, SetValue(TopNode(o), Some(PeekValue(o))))) == s3
    ensures ValidPath(s3.tree, Top(s3)) && TopNode(s3) == Struct(Some(PeekValue(s2)), map[], [])
  {
    var c := Struct(Some(PeekValue(s2)), map[], []);
    var o := OpenChild(s2, t);
    OpenChildEmpty(s2, t, o);
    assert SetValue(TopNode(o), Some(PeekValue(o))) == c;
    OpenChildFilled(s2, t, o, c, UpdateTop(o, c));
  }

  /** What is then written on top of the stack is filed as that child. */
  lemma {:induction false} OpenChildFilled(s: PState, t: string, o: PState, x: Struct, u: PState)
    requires |s.stack| > 0 && ValidPath(s.tree, Top(s)) && o == OpenChild(s, t) && u == UpdateTop(o, x)
    ensures u.tree == ReplaceAt(s.tree, Top(s), PutStruct(TopNode(s), t, x))
    ensures ValidPath(u.tree, Top(u)) && TopNode(u) == x
  {
    OpenChildTop(s, t, x);
  }

  /** `Name { ... }` files a new child of type Name with no own value and
      parses the inner declarations with that child on top of the stack;
      the closing brace restores the stacks. */
  lemma {:induction false} BraceChildStatement(ts: seq<Token>, s: PState, t: string, s1: PState, inner: Outcome)
    requires s.pos + 1 < |ts| && ts[s.pos] == Ident(t) && ts[s.pos + 1] == Sym(LBrace)
    requires |s.stack| > 0 && ValidPath(s.tree, Top(s))
    requires s1 == OpenChild(s.(names := s.names + [t], pos := s.pos + 2), t) && inner == InnerStructList(ts, s1)
    ensures ValidPath(s1.tree, Top(s1)) && TopNode(s1) == Empty
    ensures Top(s1) == Top(s) + [Step(t, |GetStructs(TopNode(s), t)|)]
    ensures inner.0 && At(ts, inner.1, RBrace) ==>
      StructDecl(ts, s) == (true, inner.1.(pos := inner.1.pos + 1, stack := s.stack, names := s.names))
    ensures !inner.0 ==> StructDecl(ts, s) == inner
  {
    BraceOpensBlock(ts, s, t, Next(PushName(s, t)), s1);
    BlockOutcome(ts, s, t, s1, inner);
  }

  lemma {:induction false} BlockOutcome(ts: seq<Token>, s: PState, t: string, s1: PState, inner: Outcome)
    requires |s.stack| > 0 && s1 == OpenChild(s.(names := s.names + [t], pos := s.pos + 2), t) && s1.pos <= |ts|
    requires inner == InnerStructList(ts, s1)
    ensures inner.0 && At(ts, inner.1, RBrace) ==>
      Block(ts, s1) == (true, inner.1.(pos := inner.1.pos + 1, stack := s.stack, names := s.names))
    ensures !inner.0 ==> Block(ts, s1) == inner
  {
    if inner.0 {
      if At(ts, inner.1, RBrace) {
        BlockRestores(ts, s, t, s1, inner.1);
      }
    } else {
      BlockFails(ts, s1, inner);
    }
  }

  lemma {:induction false} BraceOpensBlock(ts: seq<Token>, s: PState, t: string, s0: PState, s1: PState)
    requires s.pos + 1 < |ts| && ts[s.pos] == Ident(t) && ts[s.pos + 1] == Sym(LBrace)
    requires |s.stack| > 0 && ValidPath(s.tree, Top(s))
    requires s0 == Next(PushName(s, t)) && s1 == OpenChild(s.(names := s.names + [t], pos := s.pos + 2), t)
    ensures StructDecl(ts, s) == Block(ts, s1)
    ensures ValidPath(s1.tree, Top(s1)) && TopNode(s1) == Empty
    ensures Top(s1) == Top(s) + [Step(t, |GetStructs(TopNode(s), t)|)]
  {
    var n1 := s.(names := s.names + [t], pos := s.pos + 2);
    DeclIsTail(ts, s, t);
    TailBraceAt(ts, s, t, s0, n1);
    OpenChildEmpty(n1, t, s1);
  }

  lemma {:induction false} TailBraceAt(ts: seq<Token>, s: PState, t: string, s0: PState, n1: PState)
    requires s.pos + 1 < |ts| && ts[s.pos + 1] == Sym(LBrace) && |s.stack| > 0
    requires s0 == Next(PushName(s, t)) && n1 == s.(names := s.names + [t], pos := s.pos + 2)
    ensures StructTail(ts, s0) == Block(ts, OpenChild(n1, t))
  {
    assert Next(s0) == n1 && PeekName(s0) == t;
    TailBrace(ts, s0);
  }

  /** The child putStruct opens is empty and sits right below stackTop. */
  lemma {:induction false} OpenChildEmpty(s: PState, t: string, s1: PState)
    requires |s.stack| > 0 && ValidPath(s.tree, Top(s)) && s1 == OpenChild(s, t)
    ensures ValidPath(s1.tree, Top(s1)) && TopNode(s1) == Empty
    ensures Top(s1) == Top(s) + [Step(t, |GetStructs(TopNode(s), t)|)]
  {
    OpenChildTop(s, t, Empty);
  }

  lemma {:induction false} BlockRestores(ts: seq<Token>, s: PState, t: string, s1: PState, e: PState)
    requires |s.stack| > 0 && s1 == OpenChild(s.(names := s.names + [t], pos := s.pos + 2), t) && s1.pos <= |ts|
    requires InnerStructList(ts, s1) == (true, e) && At(ts, e, RBrace)
    ensures Block(ts, s1) == (true, e.(pos := e.pos + 1, stack := s.stack, names := s.names))
  {
    assert Strict(ts, e, RBrace) == (true, Next(e));
    assert (s.names + [t])[..|s.names|] == s.names;
  }

  lemma {:induction false} BlockFails(ts: seq<Token>, s: PState, inner: Outcome)
    requires s.pos <= |ts| && |s.stack| > 1 && |s.names| > 0
    requires inner == InnerStructList(ts, s) && !inner.0
    ensures Block(ts, s) == inner
  {
  }

  // ----- Archetypes -----

  /** The tokens from `p` on spell `p1, p2, ..., pn`: names at even
      offsets, commas between them, 2n - 1 tokens in all. */
  predicate IdListAt(ts: seq<Token>, p: nat, ps: seq<string>)
  {
    |ps| > 0 && p + 2 * |ps| - 1 <= |ts| &&
    (forall k :: 0 <= k < |ps| ==> ts[p + 2 * k] == Ident(ps[k])) &&
    (forall k :: 0 <= k < |ps| - 1 ==> ts[p + 2 * k + 1] == Sym(Comma))
  }

  /** An identifier list pushes its names in order. */
  lemma {:induction false} IdListReads(ts: seq<Token>, s: PState, ps: seq<string>)
    requires IdListAt(ts, s.pos, ps) && !At(ts, s.(pos := s.pos + 2 * |ps| - 1), Comma)
    ensures IdList(ts, s) == (true, s.(names := s.names + ps, pos := s.pos + 2 * |ps| - 1))
    decreases |ps|
  {
    var s1 := Next(PushName(s, ps[0]));
    IdListFirst(ts, s, ps, s1);
    if |ps| == 1 {
      assert ps == [ps[0]];
      assert s1 == s.(names := s.names + ps, pos := s.pos + 1);
    } else {
      var s2 := Next(s1);
      IdListShift(ts, s.pos, ps, s2.pos);
      IdListReads(ts, s2, ps[1..]);
      IdListJoin(s, ps, s1, s2);
    }
  }

  lemma {:induction false} IdListFirst(ts: seq<Token>, s: PState, ps: seq<string>, s1: PState)
    requires IdListAt(ts, s.pos, ps) && s1 == Next(PushName(s, ps[0]))
    ensures IdList(ts, s) == IdListRest(ts, s1)
    ensures |ps| > 1 ==> IdListRest(ts, s1) == IdList(ts, Next(s1))
  {
    assert ts[s.pos + 2 * 0] == Ident(ps[0]);
    if |ps| > 1 {
      assert ts[s.pos + 2 * 0 + 1] == Sym(Comma);
    }
  }

  lemma {:induction false} IdListShift(ts: seq<Token>, p: nat, ps: seq<string>, q: nat)
    requires IdListAt(ts, p, ps) && |ps| > 1 && q == p + 2
    ensures IdListAt(ts, q, ps[1..])
  {
    var rest := ps[1..];
    forall k | 0 <= k < |rest|
      ensures ts[q + 2 * k] == Ident(rest[k])
    {
      assert ts[p + 2 * (k + 1)] == Ident(ps[k + 1]);
    }
    forall k | 0 <= k < |rest| - 1
      ensures ts[q + 2 * k + 1] == Sym(Comma)
    {
      assert ts[p + 2 * (k + 1) + 1] == Sym(Comma);
    }
  }

  lemma {:induction false} IdListJoin(s: PState, ps: seq<string>, s1: PState, s2: PState)
    requires |ps| > 1 && s1 == Next(PushName(s, ps[0])) && s2 == Next(s1)
    ensures s2.(names := s2.names + ps[1..], pos := s2.pos + 2 * |ps[1..]| - 1) ==
      s.(names := s.names + ps, pos := s.pos + 2 * |ps| - 1)
  {
    assert s.names + [ps[0]] + ps[1..] == s.names + ps;
  }

  /** `.N(p1, ..., pn);` at position `p`. */
  predicate DeclarationAt(ts: seq<Token>, p: nat, name: string, ps: seq<string>)
  {
    |ps| > 0 && p + 2 * |ps| + 4 <= |ts| &&
    ts[p] == Sym(Period) && ts[p + 1] == Ident(name) && ts[p + 2] == Sym(LParen) &&
    IdListAt(ts, p + 3, ps) &&
    ts[p + 2 * |ps| + 2] == Sym(RParen) && ts[p + 2 * |ps| + 3] == Sym(Semicolon)
  }

  /** `.N(p1, ..., pn);` records N -> [p1, ..., pn], replacing any earlier
      entry for N, touches nothing else and parsing goes on with the next
      statement. */
  lemma {:induction false} ArchetypeDeclaration(ts: seq<Token>, s: PState, name: string, ps: seq<string>)
    requires |s.stack| > 0 && s.names == [] && DeclarationAt(ts, s.pos, name, ps)
    ensures StructList(ts, s) ==
      StructList(ts, s.(archetypes := s.archetypes[name := ps], pos := s.pos + 2 * |ps| + 4))
  {
    var s1 := Next(PushName(Next(s), name));
    var d := s1.(archetypes := s1.archetypes[s1.names[0] := s1.names[1..] + ps], names := [],
                 pos := s1.pos + 2 * |ps| + 1);
    ParamListReads(ts, s1, ps, d);
    DeclaredState(s, name, ps, s1, d);
    PeriodStatement(ts, s, name, d);
  }

  lemma {:induction false} DeclaredState(s: PState, name: string, ps: seq<string>, s1: PState, d: PState)
    requires s.names == [] && s1 == Next(PushName(Next(s), name))
    requires d == s1.(archetypes := s1.archetypes[s1.names[0] := s1.names[1..] + ps], names := [],
                      pos := s1.pos + 2 * |ps| + 1)
    ensures Next(d) == s.(archetypes := s.archetypes[name := ps], pos := s.pos + 2 * |ps| + 4)
  {
    assert s1.names == [name];
    assert s1.names[1..] + ps == ps;
  }

  /** `( p1, ..., pn )` with N alone below them on the name stack:
      records the parameters for N and empties the name stack. */
  lemma {:induction false} ParamListReads(ts: seq<Token>, s: PState, ps: seq<string>, d: PState)
    requires |s.names| > 0 && s.pos < |ts| && ts[s.pos] == Sym(LParen)
    requires IdListAt(ts, s.pos + 1, ps) && s.pos + 2 * |ps| < |ts| && ts[s.pos + 2 * |ps|] == Sym(RParen)
    requires d == s.(archetypes := s.archetypes[s.names[0] := s.names[1..] + ps], names := [],
                     pos := s.pos + 2 * |ps| + 1)
    ensures ArchetypeDecl(ts, s) == (true, d)
  {
    var s2 := Next(s);
    IdListReads(ts, s2, ps);
    var s3 := s2.(names := s.names + ps, pos := s.pos + 2 * |ps|);
    assert Strict(ts, s, LParen) == (true, s2);
    assert Strict(ts, s3, RParen) == (true, Next(s3));
    NamesSplit(s.names, ps);
  }

  lemma {:induction false} NamesSplit(a: seq<string>, b: seq<string>)
    requires |a| > 0
    ensures (a + b)[0] == a[0] && (a + b)[1..] == a[1..] + b
  {
    assert (a + b)[1..] == a[1..] + b;
  }

  /** One `.N ArchetypeDecl ;` statement, then the rest of the list. */
  lemma {:induction false} PeriodStatement(ts: seq<Token>, s: PState, name: string, d: PState)
    requires s.pos + 1 < |ts| && |s.stack| > 0 && s.names == []
    requires ts[s.pos] == Sym(Period) && ts[s.pos + 1] == Ident(name)
    requires ArchetypeDecl(ts, Next(PushName(Next(s), name))) == (true, d) && At(ts, d, Semicolon)
    ensures StructList(ts, s) == StructList(ts, Next(d))
  {
    assert s.pos != |ts| && At(ts, s, Period) && AtIdent(ts, Next(s));
    assert Strict(ts, d, Semicolon) == (true, Next(d));
  }

  /** The field table after binding `vs` to `params` the way the loop
      does it: the last value to the parameter at its index first, then
      down to the first. */
  function Bound(m: map<string, Value>, params: seq<string>, vs: seq<Value>): map<string, Value>
    requires |vs| <= |params|
    decreases |vs|
  {
    if vs == [] then m
    else Bound(m[params[|vs| - 1] := vs[|vs| - 1]], params, vs[..|vs| - 1])
  }

  /** Binding leaves every field that is not among the bound parameters
      as it was. */
  lemma {:induction false} BoundKeeps(m: map<string, Value>, params: seq<string>, vs: seq<Value>, f: string)
    requires |vs| <= |params| && f !in params[..|vs|]
    ensures var r := Bound(m, params, vs);
      (f in r <==> f in m) && (f in m ==> r[f] == m[f])
    decreases |vs|
  {
    if vs != [] {
      var n := |vs| - 1;
      assert params[..|vs|] == params[..n] + [params[n]];
      BoundKeeps(m[params[n] := vs[n]], params, vs[..n], f);
    }
  }

  /** Binding sets params[j] to vs[j], the first position winning where a
      parameter name repeats. */
  lemma {:induction false} BoundSets(m: map<string, Value>, params: seq<string>, vs: seq<Value>, j: nat)
    requires |vs| <= |params| && j < |vs| && params[j] !in params[..j]
    ensures var r := Bound(m, params, vs); params[j] in r && r[params[j]] == vs[j]
    decreases |vs|
  {
    var n := |vs| - 1;
    var m1 := m[params[n] := vs[n]];
    if j < n {
      BoundSets(m1, params, vs[..n], j);
    } else {
      assert params[..n] == params[..|vs[..n]|];
      BoundKeeps(m1, params, vs[..n], params[n]);
    }
  }

  /** The tree the binding loop leaves: Bound(...) of the top i + 1 values
      written into the current struct's field table. */
  function BoundTree(s: PState, params: seq<string>, i: int): Struct
    requires |s.stack| > 0 && -1 <= i < |params| && i < |s.values|
  {
    var node := TopNode(s);
    ReplaceAt(s.tree, Top(s), node.(fields := Bound(node.fields, params, s.values[|s.values| - (i + 1)..])))
  }

  /** One turn of the binding loop is one step of Bound. */
  lemma {:induction false} BoundTreeStep(s: PState, params: seq<string>, i: int)
    requires |s.stack| > 0 && ValidPath(s.tree, Top(s)) && 0 <= i < |params| && i < |s.values|
    ensures var node := TopNode(s);
      var s2 := PopValue(UpdateTop(s, node.(fields := node.fields[params[i] := PeekValue(s)])));
      ValidPath(s2.tree, Top(s2)) && BoundTree(s2, params, i - 1) == BoundTree(s, params, i)
  {
    var node := TopNode(s);
    var x := node.(fields := node.fields[params[i] := PeekValue(s)]);
    UpdateTopRead(s, x);
    var s2 := PopValue(UpdateTop(s, x));
    var vs := s.values[|s.values| - (i + 1)..];
    var front := s2.values[|s2.values| - i..];
    assert front == vs[..i];
    assert vs[i] == PeekValue(s);
    assert Top(s2) == Top(s) && TopNode(s2) == x;
    assert Bound(node.fields, params, vs) == Bound(x.fields, params, front);
    var y := x.(fields := Bound(x.fields, params, front));
    assert BoundTree(s2, params, i - 1) == ReplaceAt(ReplaceAt(s.tree, Top(s), x), Top(s), y);
    ReplaceAtTwice(s.tree, Top(s), x, y);
    assert node.(fields := Bound(node.fields, params, vs)) == y;
  }

  /** The binding loop `while (i >= 0) stackTop.put(params[i], pop())`
      writes Bound(...) of the top i + 1 values into the current struct's
      field table and changes nothing else in the tree. */
  lemma {:induction false} BindParamsFields(s: PState, params: seq<string>, i: int)
    requires |s.stack| > 0 && ValidPath(s.tree, Top(s)) && -1 <= i < |params| && i < |s.values|
    ensures BindParams(s, params, i).tree == BoundTree(s, params, i)
    decreases i + 1
  {
    if i < 0 {
      var node := TopNode(s);
      assert s.values[|s.values| - (i + 1)..] == [];
      assert node.(fields := node.fields) == node;
      ReplaceAtNodeAt(s.tree, Top(s));
    } else {
      var node := TopNode(s);
      var x := node.(fields := node.fields[params[i] := PeekValue(s)]);
      assert PutField(node, params[i], Some(PeekValue(s))) == x;
      var s2 := PopValue(UpdateTop(s, x));
      BoundTreeStep(s, params, i);
      BindParamsFields(s2, params, i - 1);
    }
  }

  /** `N(v1, ..., vk)` where N was never declared, the values reading as
      the state `s2`: the clause fails after its closing parenthesis,
      naming N. */
  lemma {:induction false} ArchetypeUndeclared(ts: seq<Token>, s: PState, s2: PState)
    requires s.pos <= |ts| && |s.stack| > 0 && |s.names| > 0 && At(ts, s, LParen)
    requires ValueList(ts, Next(s)) == (true, s2) && At(ts, s2, RParen)
    requires PeekName(s) !in s.archetypes
    ensures ArchetypeClause(ts, s) == Fail(Next(s2), UndeclaredArchetype(PeekName(s)))
  {
    ClauseFrame(ts, s, s2);
  }

  /** `N(v1, ..., vk)` with more values than N has parameters: the clause
      fails, naming N and its parameter count. */
  lemma {:induction false} ArchetypeTooManyValues(ts: seq<Token>, s: PState, s2: PState)
    requires s.pos <= |ts| && |s.stack| > 0 && |s.names| > 0 && At(ts, s, LParen)
    requires ValueList(ts, Next(s)) == (true, s2) && At(ts, s2, RParen)
    requires PeekName(s) in s.archetypes && |s2.values| - |s.values| > |s.archetypes[PeekName(s)]|
    ensures ArchetypeClause(ts, s) == Fail(Next(s2), TooManyValues(PeekName(s), |s.archetypes[PeekName(s)]|))
  {
    ClauseFrame(ts, s, s2);
  }

  /** `N(v1, ..., vk)` with k no more than N's parameters, after the new
      struct N was opened: the values `vs` are bound to N's parameters in
      the current struct (see BoundKeeps and BoundSets), nothing else in
      the tree changes and the value stack is as before the clause. */
  lemma {:induction false} ArchetypeApplication(ts: seq<Token>, s: PState, s2: PState,
                                                params: seq<string>, vs: seq<Value>)
    requires s.pos <= |ts| && |s.stack| > 0 && |s.names| > 0 && ValidPath(s.tree, Top(s))
    requires At(ts, s, LParen) && ValueList(ts, Next(s)) == (true, s2) && At(ts, s2, RParen)
    requires PeekName(s) in s.archetypes && params == s.archetypes[PeekName(s)]
    requires vs == s2.values[|s.values|..] && |vs| <= |params|
    ensures ArchetypeClause(ts, s) ==
      (true, Next(s2).(values := s.values,
                       tree := ReplaceAt(s.tree, Top(s), TopNode(s).(fields := Bound(TopNode(s).fields, params, vs)))))
  {
    ClauseFrame(ts, s, s2);
    ClauseBinds(s, Next(s2), params, vs);
  }

  /** What the parenthesised values leave unchanged: the clause reads the
      state `s2` after `(` and the values, and `)` follows. */
  lemma {:induction false} ClauseFrame(ts: seq<Token>, s: PState, s2: PState)
    requires s.pos <= |ts| && |s.names| > 0 && At(ts, s, LParen)
    requires ValueList(ts, Next(s)) == (true, s2) && At(ts, s2, RParen)
    ensures Strict(ts, s, LParen) == (true, Next(s)) && Strict(ts, s2, RParen) == (true, Next(s2))
    ensures PeekName(Next(s2)) == PeekName(s) && Next(s2).archetypes == s.archetypes
    ensures Next(s2).tree == s.tree && Next(s2).stack == s.stack && Next(s2).errors == s.errors
    ensures Next(s2).values == s.values + s2.values[|s.values|..]
  {
    assert s2.values == s2.values[..|s.values|] + s2.values[|s.values|..];
  }

  lemma {:induction false} ClauseBinds(s: PState, closed: PState, params: seq<string>, vs: seq<Value>)
    requires |s.stack| > 0 && ValidPath(s.tree, Top(s)) && |vs| <= |params|
    requires closed.tree == s.tree && closed.stack == s.stack && closed.values == s.values + vs
    ensures BindParams(closed, params, |vs| - 1) ==
      closed.(values := s.values,
              tree := ReplaceAt(s.tree, Top(s), TopNode(s).(fields := Bound(TopNode(s).fields, params, vs))))
  {
    assert closed.values[|closed.values| - |vs|..] == vs;
    assert closed.values[..|closed.values| - |vs|] == s.values;
    BindParamsFields(closed, params, |vs| - 1);
  }

  // ----- Inheritance -----

  /** `: T V` after the new struct was opened, where V reads as the state
      `s3`: the search runs over the T children of the enclosing struct;
      with no match the clause fails naming T and V, otherwise the last
      match is copied into the new struct, whose own value is then put
      back, and the stacks are as before the clause. */
  lemma {:induction false} Inheritance(ts: seq<Token>, s: PState, t: string, s3: PState, siblings: seq<Struct>)
    requires s.pos + 1 < |ts| && |s.stack| > 1 && ts[s.pos] == Sym(Colon) && ts[s.pos + 1] == Ident(t)
    requires ValueRule(ts, Next(PushName(Next(s), t))) == (true, s3)
    requires siblings == GetStructs(NodeAt(s.tree, s.stack[|s.stack| - 2]), t)
    ensures LastMatch(siblings, PeekValue(s3)).None? ==>
      InheritClause(ts, s) == Fail(s.(pos := s3.pos), InheritTargetMissing(t, ToString(PeekValue(s3))))
    ensures LastMatch(siblings, PeekValue(s3)).Some? ==>
      InheritClause(ts, s) ==
        (true, s.(pos := s3.pos,
                  tree := ReplaceAt(s.tree, Top(s),
                                    SetValue(CopyInto(siblings[LastMatch(siblings, PeekValue(s3)).value], TopNode(s)),
                                             TopNode(s).value))))
  {
    var s1 := Next(s);
    var s4 := PopStruct(PopValue(s3));
    var s5 := PushStruct(PopName(s4), Top(s3));
    InheritStacks(s, t, s3, s4, s5);
    assert Strict(ts, s, Colon) == (true, s1) && AtIdent(ts, s1) && ts[s1.pos].id == t;
  }

  /** The states inside an inheritance clause: the name read is T, the
      struct below the new one is the enclosing struct, and once the value,
      the name and the struct are popped and the struct pushed back the
      state is `s` with the cursor moved. */
  lemma {:induction false} InheritStacks(s: PState, t: string, s3: PState, s4: PState, s5: PState)
    requires |s.stack| > 1
    requires ValueFrame(Next(PushName(Next(s), t)), s3) && PushedLiteral(Next(PushName(Next(s), t)), s3)
    requires s3.errors == s.errors
    requires s4 == PopStruct(PopValue(s3)) && s5 == PushStruct(PopName(s4), Top(s3))
    ensures PeekName(s3) == t && Top(s3) == Top(s) && TopNode(s5) == TopNode(s)
    ensures TopNode(s4) == NodeAt(s.tree, s.stack[|s.stack| - 2])
    ensures s5 == s.(pos := s3.pos)
  {
    ClauseRestores(Next(s), s3, t, s5);
    assert s4.stack == s.stack[..|s.stack| - 1];
  }

  /** What inheriting from `found` leaves in the new struct: its own
      value, `found`'s fields over its own, and its children of every type
      followed by `found`'s. */
  lemma {:induction false} Inherited(found: Struct, node: Struct, u: string)
    requires WF(found)
    ensures var r := SetValue(CopyInto(found, node), node.value);
      r.value == node.value &&
      (forall k :: k in r.fields <==> k in found.fields || k in node.fields) &&
      (forall k :: k in found.fields ==> r.fields[k] == found.fields[k]) &&
      (forall k :: k in node.fields && k !in found.fields ==> r.fields[k] == node.fields[k]) &&
      GetStructs(r, u) == GetStructs(node, u) + GetStructs(found, u)
  {
    CopyIntoQueues(found, node, u);
  }

  /** As written, the inheritance search (see Inheritance) includes the
      struct being declared, which is already the last T child of its
      parent: in `T V : T V` the new struct's own value matches V, so the
      search settles on the struct itself, even when an earlier sibling
      `T V` exists, and copying it into itself (with no children yet)
      leaves the tree as it was. */
  lemma {:induction false} InheritFindsItself(tree: Struct, parent: Path, typeName: string, v: Value,
                                              siblings: seq<Struct>, top: Path, node: Struct)
    requires siblings == GetStructs(NodeAt(tree, parent), typeName) && |siblings| > 0
    requires top == parent + [Step(typeName, |siblings| - 1)] && ValidPath(tree, top)
    requires node == NodeAt(tree, top) && node.value.Some? && Equals(node.value.value, v) && node.groups == []
    ensures siblings[|siblings| - 1] == node && LastMatch(siblings, v) == Some(|siblings| - 1)
    ensures ReplaceAt(tree, top, SetValue(CopyInto(node, node), node.value)) == tree
  {
    LastSibling(tree, parent, typeName, siblings, top, node);
    CopySelf(node);
    ReplaceAtNodeAt(tree, top);
  }

  /** The struct at the end of a path ending in the last `typeName` child
      is that last child. */
  lemma {:induction false} LastSibling(tree: Struct, parent: Path, typeName: string,
                                       siblings: seq<Struct>, top: Path, node: Struct)
    requires siblings == GetStructs(NodeAt(tree, parent), typeName) && |siblings| > 0
    requires top == parent + [Step(typeName, |siblings| - 1)] && ValidPath(tree, top)
    requires node == NodeAt(tree, top)
    ensures siblings[|siblings| - 1] == node
  {
    var st := Step(typeName, |siblings| - 1);
    PrefixValid(tree, top, parent);
    ReplaceAtSnoc(tree, parent, st, node);
  }

  /** A struct with no children copied into itself, its own value put
      back, is itself. */
  lemma {:induction false} CopySelf(node: Struct)
    requires node.groups == []
    ensures SetValue(CopyInto(node, node), node.value) == node
  {
    assert CopyInto(node, node).fields == node.fields;
  }

  // ----- Array literals -----

  /** The first element fixes the kind: after a string, a number is
      rejected. The partly built value stays on the value stack. */
  lemma {:induction false} StringArrayRejectsNumber(ts: seq<Token>, s: PState, a: string, n: Num)
    requires s.pos + 4 <= |ts| && ts[s.pos] == Sym(LBrack) && ts[s.pos + 1] == Str(a)
    requires ts[s.pos + 2] == Sym(Comma) && ts[s.pos + 3] == Number(n)
    ensures ValueRule(ts, s) == (false, s.(pos := s.pos + 3, values := s.values + [StrArr([a])],
                                          errors := s.errors + [ExpectedString]))
  {
    var s1 := Next(s);
    var s2 := Next(PushValue(s1, StrArr([a])));
    var r := (false, s.(pos := s.pos + 3, values := s.values + [StrArr([a])], errors := s.errors + [ExpectedString]));
    StringArrayStarts(ts, s1, a, s2);
    StringArrayStops(ts, s2, r);
    ArrayFails(ts, s, r);
  }

  /** After a number, a string is rejected. */
  lemma {:induction false} NumberArrayRejectsString(ts: seq<Token>, s: PState, a: string, n: Num)
    requires s.pos + 4 <= |ts| && ts[s.pos] == Sym(LBrack) && ts[s.pos + 1] == Number(n)
    requires ts[s.pos + 2] == Sym(Comma) && ts[s.pos + 3] == Str(a)
    ensures ValueRule(ts, s) == (false, s.(pos := s.pos + 3, values := s.values + [NumArr([n])],
                                          errors := s.errors + [ExpectedNumber]))
  {
    var s1 := Next(s);
    var s2 := Next(PushValue(s1, NumArr([n])));
    var r := (false, s.(pos := s.pos + 3, values := s.values + [NumArr([n])], errors := s.errors + [ExpectedNumber]));
    NumberArrayStarts(ts, s1, n, s2);
    NumberArrayStops(ts, s2, r);
    ArrayFails(ts, s, r);
  }

  lemma {:induction false} ArrayFails(ts: seq<Token>, s: PState, r: Outcome)
    requires s.pos < |ts| && ts[s.pos] == Sym(LBrack) && ArrayValues(ts, Next(s)) == r && !r.0
    ensures ValueRule(ts, s) == r
  {
  }

  lemma {:induction false} StringArrayStarts(ts: seq<Token>, s: PState, a: string, s2: PState)
    requires s.pos < |ts| && ts[s.pos] == Str(a) && s2 == Next(PushValue(s, StrArr([a])))
    ensures ArrayValues(ts, s) == StringArrayRule(ts, s2)
  {
  }

  lemma {:induction false} NumberArrayStarts(ts: seq<Token>, s: PState, n: Num, s2: PState)
    requires s.pos < |ts| && ts[s.pos] == Number(n) && s2 == Next(PushValue(s, NumArr([n])))
    ensures ArrayValues(ts, s) == NumberArrayRule(ts, s2)
  {
    assert NumberRule(ts, s) == NumberToken(ts, s, false);
  }

  lemma {:induction false} StringArrayStops(ts: seq<Token>, s: PState, r: Outcome)
    requires s.pos + 1 < |ts| && ts[s.pos] == Sym(Comma) && ts[s.pos + 1].Number?
    requires |s.values| > 0 && PeekValue(s).StrArr?
    requires r == (false, s.(pos := s.pos + 1, errors := s.errors + [ExpectedString]))
    ensures StringArrayRule(ts, s) == r
  {
  }

  lemma {:induction false} NumberArrayStops(ts: seq<Token>, s: PState, r: Outcome)
    requires s.pos + 1 < |ts| && ts[s.pos] == Sym(Comma) && ts[s.pos + 1].Str?
    requires |s.values| > 0 && PeekValue(s).NumArr?
    requires r == (false, s.(pos := s.pos + 1, errors := s.errors + [ExpectedNumber]))
    ensures NumberArrayRule(ts, s) == r
  {
    assert NumberRule(ts, Next(s)) == NumberToken(ts, Next(s), false);
  }

  /** `[]` is not a value: an array literal needs a first element. */
  lemma {:induction false} EmptyArrayRejected(ts: seq<Token>, s: PState)
    requires s.pos + 2 <= |ts| && ts[s.pos] == Sym(LBrack) && ts[s.pos + 1] == Sym(RBrack)
    ensures ValueRule(ts, s) == (false, s.(pos := s.pos + 1, errors := s.errors + [ExpectedNumber]))
  {
  }

  /** A leading '-' negates the number that follows. */
  lemma {:induction false} MinusNegates(ts: seq<Token>, s: PState, n: Num)
    requires s.pos + 2 <= |ts| && ts[s.pos] == Sym(Minus) && ts[s.pos + 1] == Number(n)
    ensures ValueRule(ts, s) == (true, s.(pos := s.pos + 2, values := s.values + [NumArr([-n])]))
  {
  }

  // ----- read() -----

  /** An empty token stream is not a valid structure: the loop never runs,
      strOk stays false and the one message is thrown. */
  lemma {:induction false} EmptyInputFails(root: Struct)
    ensures Read([], root) == Applied(root, [ExpectedValidStructure])
    ensures ExceptionText(Read([], root)) == Some("Expected valid structure.")
  {
    assert ErrorText([ExpectedValidStructure]) == Join(["Expected valid structure."], "\n");
  }

  /** The first top-level statement that fails ends the read with that
      statement's state and messages; read() then adds "Expected valid
      structure." and throws them all, joined by '\n'. */
  lemma {:induction false} ReadStopsAtFailure(ts: seq<Token>, s: PState, strOk: bool)
    requires s.pos < |ts| && |s.stack| > 0 && s.names == [] && !StructList(ts, s).0
    ensures ReadLoop(ts, s, strOk) == StructList(ts, s)
    ensures s == Start(s.tree) ==>
      Read(ts, s.tree).errors == StructList(ts, s).1.errors + [ExpectedValidStructure] &&
      ExceptionText(Read(ts, s.tree)) == Some(ErrorText(StructList(ts, s).1.errors + [ExpectedValidStructure]))
  {
  }
}
