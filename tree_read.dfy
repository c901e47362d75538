/** The parser reading the tokens of a printed tree: statement by
    statement it rebuilds the fields and children the writer printed, so
    that export followed by read gives the tree back. */
module TreeRead {
  import opened Basics
  import opened Values
  import opened Structs
  import opened Tokens
  import opened Grammar
  import opened GrammarFacts
  import opened Writer
  import opened RoundTrip
  import opened TreeRoundTrip

  // ----- States between statements -----

  /** The struct stack is non-empty and its top names a struct of the tree. */
  predicate Sound(s: PState)
  {
    |s.stack| > 0 && ValidPath(s.tree, Top(s))
  }

  /** The state after a run of statements that left `x` as stackTop and
      the cursor at `p`. */
  function Filled(s: PState, x: Struct, p: nat): PState
    requires |s.stack| > 0
  {
    s.(tree := ReplaceAt(s.tree, Top(s), x), pos := p)
  }

  lemma {:induction false} FilledTop(s: PState, x: Struct, p: nat)
    requires Sound(s)
    ensures Sound(Filled(s, x, p)) && Top(Filled(s, x, p)) == Top(s) && TopNode(Filled(s, x, p)) == x
  {
    NodeAtReplaceAt(s.tree, Top(s), x);
  }

  lemma {:induction false} FilledTwice(s: PState, x: Struct, p: nat, y: Struct, q: nat)
    requires Sound(s)
    ensures Filled(Filled(s, x, p), y, q) == Filled(s, y, q)
  {
    ReplaceAtTwice(s.tree, Top(s), x, y);
  }

  lemma {:induction false} FilledNothing(s: PState)
    requires Sound(s)
    ensures Filled(s, TopNode(s), s.pos) == s
  {
    ReplaceAtNodeAt(s.tree, Top(s));
  }

  /** The tokens from position `p` on begin with `t`. */
  predicate Spells(ts: seq<Token>, p: nat, t: seq<Token>)
    decreases |t|
  {
    p + |t| <= |ts| && (t == [] || (ts[p] == t[0] && Spells(ts, p + 1, t[1..])))
  }

  lemma {:induction false} SpellsSplit(ts: seq<Token>, p: nat, a: seq<Token>, b: seq<Token>)
    requires Spells(ts, p, a + b)
    ensures Spells(ts, p, a) && Spells(ts, p + |a|, b)
    decreases |a|
  {
    if a == [] {
      assert a + b == b;
    } else {
      assert (a + b)[0] == a[0] && (a + b)[1..] == a[1..] + b;
      SpellsSplit(ts, p + 1, a[1..], b);
    }
  }

  /** The same, for a sequence known to be the concatenation. */
  lemma {:induction false} SpellsSplitAt(ts: seq<Token>, p: nat, t: seq<Token>, a: seq<Token>, b: seq<Token>, e: nat)
    requires t == a + b && Spells(ts, p, t) && e == p + |a|
    ensures Spells(ts, p, a) && Spells(ts, e, b)
  {
    SpellsSplit(ts, p, a, b);
  }

  lemma {:induction false} SpellsOne(ts: seq<Token>, p: nat, x: Token)
    requires Spells(ts, p, [x])
    ensures p < |ts| && ts[p] == x
  {
  }

  lemma {:induction false} SpellsTokensAt(ts: seq<Token>, p: nat, t: seq<Token>)
    requires Spells(ts, p, t)
    ensures TokensAt(ts, p, t)
    decreases |t|
  {
    if t != [] {
      SpellsTokensAt(ts, p + 1, t[1..]);
      forall k | p <= k < p + |t|
        ensures ts[k] == t[k - p]
      {
        if k > p {
          assert ts[k] == t[1..][k - (p + 1)];
        }
      }
    }
  }

  /** The tokens spell themselves. */
  lemma {:induction false} SpellsRest(ts: seq<Token>, p: nat)
    requires p <= |ts|
    ensures Spells(ts, p, ts[p..])
    decreases |ts| - p
  {
    if p < |ts| {
      SpellsRest(ts, p + 1);
      assert ts[p..][1..] == ts[p + 1..];
    }
  }

  /** One statement `<ID> <StructTail>` runs from `s` to `r` without error. */
  predicate Statement(ts: seq<Token>, s: PState, r: PState)
  {
    s.pos < |ts| && ts[s.pos].Ident? && |s.stack| > 0 &&
    StructTail(ts, Next(PushName(s, ts[s.pos].id))) == (true, r)
  }

  /** A statement inside a block, then the rest of the block. */
  lemma {:induction false} InnerStep(ts: seq<Token>, s: PState, r: PState)
    requires Statement(ts, s, r)
    ensures InnerStructList(ts, s) == InnerStructList(ts, r)
  {
  }

  // ----- Fields -----

  /** A value followed by `;`: the value tail stores the field. */
  lemma {:induction false} FieldTail(ts: seq<Token>, s1: PState, s2: PState, r: PState)
    requires s1.pos <= |ts| && |s1.stack| > 0 && |s1.names| > 0
    requires !At(ts, s1, LBrace) && !At(ts, s1, Colon) && !At(ts, s1, LParen)
    requires ValueRule(ts, s1) == (true, s2) && At(ts, s2, Semicolon)
    requires |s2.stack| > 0 && |s2.names| > 0 && |s2.values| > 0
    requires r == PopValue(PopName(UpdateTop(Next(s2), PutField(TopNode(s2), PeekName(s2), Some(PeekValue(s2))))))
    ensures StructTail(ts, s1) == (true, r)
  {
  }

  /** The state the field statement leaves. */
  lemma {:induction false} FieldState(s: PState, f: string, v: Value, s1: PState, s2: PState, e: nat, x: Struct, q: nat)
    requires |s.stack| > 0 && s1 == Next(PushName(s, f)) && s2 == s1.(values := s1.values + [v], pos := e)
    requires x == PutField(TopNode(s), f, Some(v)) && q == e + 1
    ensures |s2.stack| > 0 && |s2.names| > 0 && |s2.values| > 0
    ensures PopValue(PopName(UpdateTop(Next(s2), PutField(TopNode(s2), PeekName(s2), Some(PeekValue(s2)))))) ==
      Filled(s, x, q)
  {
    var r := PopValue(PopName(UpdateTop(Next(s2), PutField(TopNode(s2), f, Some(v)))));
    assert PeekName(s2) == f && PeekValue(s2) == v;
    assert r.names == s.names;
    assert r.values == s.values;
  }

  /** The tokens of a field line, one by one. */
  lemma {:induction false} FieldSpelled(ts: seq<Token>, p: nat, f: string, v: Value, e: nat, q: nat)
    requires Literal(v) && Spells(ts, p, FieldTokens(f, v))
    requires e == p + 1 + |ValueTokens(v)| && q == p + |FieldTokens(f, v)|
    ensures p < |ts| && ts[p] == Ident(f) && TokensAt(ts, p + 1, ValueTokens(v))
    ensures e < |ts| && ts[e] == Sym(Semicolon) && q == e + 1
  {
    var vt := ValueTokens(v);
    assert FieldTokens(f, v) == ([Ident(f)] + vt) + [Sym(Semicolon)];
    SpellsSplit(ts, p, [Ident(f)] + vt, [Sym(Semicolon)]);
    SpellsSplit(ts, p, [Ident(f)], vt);
    SpellsOne(ts, p, Ident(f));
    SpellsOne(ts, e, Sym(Semicolon));
    SpellsTokensAt(ts, p + 1, vt);
  }

  /** A printed value is read back and leaves the cursor after it. */
  lemma {:induction false} ValueAt(ts: seq<Token>, s1: PState, v: Value, s2: PState, e: nat)
    requires Printable(v) && TokensAt(ts, s1.pos, ValueTokens(v)) && e == s1.pos + |ValueTokens(v)|
    requires s2 == s1.(values := s1.values + [v], pos := e)
    ensures ValueRule(ts, s1) == (true, s2)
    ensures !At(ts, s1, LBrace) && !At(ts, s1, Colon) && !At(ts, s1, LParen)
  {
    ValueReads(ts, s1, v);
  }

  /** `name value ;` sets the field on stackTop and consumes exactly its
      tokens. */
  lemma {:induction false} FieldRead(ts: seq<Token>, s: PState, f: string, v: Value, x: Struct, q: nat)
    requires Sound(s) && Printable(v) && Spells(ts, s.pos, FieldTokens(f, v))
    requires x == PutField(TopNode(s), f, Some(v)) && q == s.pos + |FieldTokens(f, v)|
    ensures Statement(ts, s, Filled(s, x, q))
  {
    var e := s.pos + 1 + |ValueTokens(v)|;
    FieldSpelled(ts, s.pos, f, v, e, q);
    var s1 := Next(PushName(s, f));
    var s2 := s1.(values := s1.values + [v], pos := e);
    ValueAt(ts, s1, v, s2, e);
    FieldState(s, f, v, s1, s2, e, x, q);
    FieldTail(ts, s1, s2, Filled(s, x, q));
    StatementFrom(ts, s, f, s1, Filled(s, x, q));
  }

  /** A statement is its name, pushed, and then its tail. */
  lemma {:induction false} StatementFrom(ts: seq<Token>, s: PState, t: string, s1: PState, r: PState)
    requires s.pos < |ts| && ts[s.pos] == Ident(t) && |s.stack| > 0 && s1 == Next(PushName(s, t))
    requires StructTail(ts, s1) == (true, r)
    ensures Statement(ts, s, r)
  {
  }

  /** The fields a run of field statements leaves on `n`, the last
      statement for a name winning. */
  function PutAll(n: Struct, m: map<string, Value>, names: seq<string>): Struct
    decreases |names|
  {
    if names == [] then n
    else PutAll(if names[0] in m then PutField(n, names[0], Some(m[names[0]])) else n, m, names[1..])
  }

  /** Running the field statements for `names` sets exactly those fields,
      each to its value in `m`, and keeps every other field, the own value
      and the children. */
  lemma {:induction false} PutAllSets(n: Struct, m: map<string, Value>, names: seq<string>)
    requires forall j :: 0 <= j < |names| ==> names[j] in m
    ensures var r := PutAll(n, m, names);
      r.value == n.value && r.groups == n.groups &&
      (forall k :: k in r.fields <==> k in n.fields || k in names) &&
      (forall k :: k in names ==> r.fields[k] == m[k]) &&
      (forall k :: k in n.fields && k !in names ==> r.fields[k] == n.fields[k])
    decreases |names|
  {
    if names != [] {
      var f := names[0];
      assert f in m;
      var n1 := PutField(n, f, Some(m[f]));
      assert names == [f] + names[1..];
      PutAllSets(n1, m, names[1..]);
    }
  }

  /** When `names` lists the keys of `m`, the field statements for
      `names` turn an empty field table into `m`. */
  lemma {:induction false} PutAllFields(n: Struct, m: map<string, Value>, names: seq<string>)
    requires ListsKeys(names, m.Keys) && n.fields == map[]
    ensures PutAll(n, m, names) == n.(fields := m)
  {
    PutAllSets(n, m, names);
    var r := PutAll(n, m, names);
    assert forall k :: k in r.fields <==> k in m;
    assert r.fields == m;
  }

  /** The field lines the writer prints for `names` lie in the tokens
      from `p` on. */
  predicate FieldsAt(ts: seq<Token>, p: nat, m: map<string, Value>, names: seq<string>)
    decreases |names|
  {
    if names == [] then p <= |ts|
    else if names[0] in m && Literal(m[names[0]]) then
      Spells(ts, p, FieldTokens(names[0], m[names[0]])) &&
      FieldsAt(ts, p + |FieldTokens(names[0], m[names[0]])|, m, names[1..])
    else FieldsAt(ts, p, m, names[1..])
  }

  /** Every name is a key of `m` with a printable value. */
  predicate NamesPrintable(m: map<string, Value>, names: seq<string>)
  {
    forall j :: 0 <= j < |names| ==> names[j] in m && Printable(m[names[j]])
  }

  /** The field lines for `names`, read one statement after the other,
      leave `z` as stackTop and the cursor `q` past them. */
  lemma {:induction false} FieldsRead(ts: seq<Token>, s: PState, m: map<string, Value>, names: seq<string>,
                                      z: Struct, q: nat)
    requires Sound(s) && FieldsAt(ts, s.pos, m, names)
    requires NamesPrintable(m, names)
    requires z == PutAll(TopNode(s), m, names) && q == s.pos + |FieldsTokens(m, names)|
    ensures s.pos <= q <= |ts| && InnerStructList(ts, s) == InnerStructList(ts, Filled(s, z, q))
    decreases |names|, 1
  {
    if names == [] {
      FilledNothing(s);
    } else {
      assert names[0] in m && Printable(m[names[0]]);
      FieldsRest(ts, s, m, names, names[0], m[names[0]], names[1..],
                 s.pos + |FieldTokens(names[0], m[names[0]])|, z, q);
    }
  }

  /** The first field line, then the others. */
  lemma {:induction false} FieldsRest(ts: seq<Token>, s: PState, m: map<string, Value>, names: seq<string>,
                                      f: string, v: Value, rest: seq<string>, e: nat, z: Struct, q: nat)
    requires Sound(s) && names != [] && f == names[0] && f in m && v == m[f] && Printable(v) && rest == names[1..]
    requires FieldsAt(ts, s.pos, m, names) && NamesPrintable(m, names)
    requires e == s.pos + |FieldTokens(f, v)|
    requires z == PutAll(TopNode(s), m, names) && q == s.pos + |FieldsTokens(m, names)|
    ensures s.pos <= q <= |ts| && InnerStructList(ts, s) == InnerStructList(ts, Filled(s, z, q))
    decreases |names|, 0
  {
    var x := PutField(TopNode(s), f, Some(v));
    FieldsHead(ts, s.pos, m, names, f, v, rest, e, TopNode(s), x);
    FieldStep(ts, s, f, v, x, e);
    FieldsTail(ts, s, m, rest, e, x, z, q);
  }

  /** The field lines for `names`, read once the ones before are in `x`. */
  lemma {:induction false} FieldsTail(ts: seq<Token>, s: PState, m: map<string, Value>, names: seq<string>,
                                      p: nat, x: Struct, z: Struct, q: nat)
    requires Sound(s) && FieldsAt(ts, p, m, names) && NamesPrintable(m, names)
    requires z == PutAll(x, m, names) && q == p + |FieldsTokens(m, names)|
    ensures p <= q <= |ts| && InnerStructList(ts, Filled(s, x, p)) == InnerStructList(ts, Filled(s, z, q))
    decreases |names|, 2
  {
    FilledTop(s, x, p);
    FieldsRead(ts, Filled(s, x, p), m, names, z, q);
    FilledTwice(s, x, p, z, q);
  }

  /** The first of the printed field lines, and what is left after it. */
  lemma {:induction false} FieldsHead(ts: seq<Token>, p: nat, m: map<string, Value>, names: seq<string>,
                   f: string, v: Value, rest: seq<string>, e: nat, y: Struct, x: Struct)
    requires names != [] && f == names[0] && f in m && v == m[f] && Printable(v) && rest == names[1..]
    requires FieldsAt(ts, p, m, names) && NamesPrintable(m, names)
    requires e == p + |FieldTokens(f, v)| && x == PutField(y, f, Some(v))
    ensures Spells(ts, p, FieldTokens(f, v))
    ensures FieldsAt(ts, e, m, rest) && NamesPrintable(m, rest)
    ensures p + |FieldsTokens(m, names)| == e + |FieldsTokens(m, rest)|
    ensures PutAll(y, m, names) == PutAll(x, m, rest)
  {
    assert forall j :: 0 <= j < |rest| ==> rest[j] == names[j + 1];
  }

  /** One field line, then the rest of the block. */
  lemma {:induction false} FieldStep(ts: seq<Token>, s: PState, f: string, v: Value, x: Struct, q: nat)
    requires Sound(s) && Printable(v) && Spells(ts, s.pos, FieldTokens(f, v))
    requires x == PutField(TopNode(s), f, Some(v)) && q == s.pos + |FieldTokens(f, v)|
    ensures q <= |ts| && InnerStructList(ts, s) == InnerStructList(ts, Filled(s, x, q))
  {
    FieldRead(ts, s, f, v, x, q);
    InnerStep(ts, s, Filled(s, x, q));
  }

  // ----- Children -----

  /** The state once a child's header `type value {` is read: the new child
      holds the own value and is filed last among the `type` children of
      stackTop, and it is on top of the struct stack. */
  function Opened(s: PState, t: string, v: Option<Value>): PState
    requires |s.stack| > 0
  {
    var n := TopNode(s);
    PState(ReplaceAt(s.tree, Top(s), PutStruct(n, t, Struct(v, map[], []))),
           s.stack + [Top(s) + [Step(t, |GetStructs(n, t)|)]],
           s.names + [t], s.values, s.archetypes, s.pos + |HeadTokens(t, v)|, s.errors)
  }

  /** Whatever is written into the opened child is what stackTop files as
      its last `type` child. */
  lemma {:induction false} OpenedTop(s: PState, t: string, v: Option<Value>, x: Struct)
    requires Sound(s)
    ensures var b := Opened(s, t, v);
      Sound(b) && TopNode(b) == Struct(v, map[], []) &&
      ReplaceAt(b.tree, Top(b), x) == ReplaceAt(s.tree, Top(s), PutStruct(TopNode(s), t, x))
  {
    var y := Struct(v, map[], []);
    var s1 := OpenChild(s, t);
    OpenChildTop(s, t, y);
    OpenChildTop(s, t, x);
    ReplaceAtTwice(s1.tree, Top(s1), y, x);
  }

  /** The header `type {` or `type value {` opens the child and leaves the
      parser at the start of its body. */
  lemma {:induction false} ChildOpens(ts: seq<Token>, s: PState, t: string, v: Option<Value>)
    requires Sound(s) && OwnPrintable(v) && Spells(ts, s.pos, HeadTokens(t, v))
    ensures s.pos < |ts| && ts[s.pos] == Ident(t)
    ensures StructTail(ts, Next(PushName(s, t))) == Block(ts, Opened(s, t, v))
  {
    HeadSpelled(ts, s.pos, t, v);
    HeadOpens(ts, s, t, v);
  }

  lemma {:induction false} HeadOpens(ts: seq<Token>, s: PState, t: string, v: Option<Value>)
    requires Sound(s) && OwnPrintable(v) && s.pos < |ts| && ts[s.pos] == Ident(t)
    requires v.None? ==> s.pos + 1 < |ts| && ts[s.pos + 1] == Sym(LBrace)
    requires v.Some? ==> (TokensAt(ts, s.pos + 1, ValueTokens(v.value)) &&
                          s.pos + 1 + |ValueTokens(v.value)| < |ts| && ts[s.pos + 1 + |ValueTokens(v.value)|] == Sym(LBrace))
    ensures StructTail(ts, Next(PushName(s, t))) == Block(ts, Opened(s, t, v))
  {
    if v.None? {
      BraceOpens(ts, s, t);
    } else {
      var e := s.pos + 1 + |ValueTokens(v.value)|;
      ValueHeadRead(ts, Next(PushName(s, t)), v.value, e);
      ValueOpens(ts, s, t, v.value, e);
    }
  }

  /** The tokens of a header, one by one. */
  lemma {:induction false} HeadSpelled(ts: seq<Token>, p: nat, t: string, v: Option<Value>)
    requires OwnPrintable(v) && Spells(ts, p, HeadTokens(t, v))
    ensures p < |ts| && ts[p] == Ident(t)
    ensures v.None? ==> p + 1 < |ts| && ts[p + 1] == Sym(LBrace)
    ensures v.Some? ==> (TokensAt(ts, p + 1, ValueTokens(v.value)) &&
                         p + 1 + |ValueTokens(v.value)| < |ts| && ts[p + 1 + |ValueTokens(v.value)|] == Sym(LBrace))
  {
    var own := OwnTokens(v);
    SpellsSplit(ts, p, [Ident(t)] + own, [Sym(LBrace)]);
    SpellsSplit(ts, p, [Ident(t)], own);
    SpellsOne(ts, p, Ident(t));
    SpellsOne(ts, p + 1 + |own|, Sym(LBrace));
    SpellsTokensAt(ts, p + 1, own);
  }

  /** `type {` */
  lemma {:induction false} BraceOpens(ts: seq<Token>, s: PState, t: string)
    requires |s.stack| > 0 && s.pos + 1 < |ts| && ts[s.pos] == Ident(t) && ts[s.pos + 1] == Sym(LBrace)
    ensures StructTail(ts, Next(PushName(s, t))) == Block(ts, Opened(s, t, None))
  {
    var s1 := Next(PushName(s, t));
    BraceOpened(ts, s, t, s1);
    TailBrace(ts, s1);
  }

  lemma {:induction false} BraceOpened(ts: seq<Token>, s: PState, t: string, s1: PState)
    requires |s.stack| > 0 && s.pos + 1 < |ts| && ts[s.pos + 1] == Sym(LBrace)
    requires s1 == Next(PushName(s, t))
    ensures s1.pos <= |ts| && |s1.stack| > 0 && |s1.names| > 0 && At(ts, s1, LBrace) && PeekName(s1) == t
    ensures OpenChild(Next(s1), t) == Opened(s, t, None)
  {
    var n1 := Next(s1);
    assert Top(n1) == Top(s) && TopNode(n1) == TopNode(s);
    var o := OpenChild(n1, t);
    var b := Opened(s, t, None);
    assert |HeadTokens(t, None)| == 2;
    assert Empty == Struct(None, map[], []);
    assert o.tree == b.tree;
    assert o.stack == b.stack;
    assert o.pos == b.pos;
  }

  /** `type value {` */
  lemma {:induction false} ValueOpens(ts: seq<Token>, s: PState, t: string, x: Value, e: nat)
    requires Sound(s) && Printable(x) && s.pos < |ts| && ts[s.pos] == Ident(t)
    requires e == s.pos + 1 + |ValueTokens(x)| && e < |ts| && ts[e] == Sym(LBrace)
    requires var s1 := Next(PushName(s, t));
      ValueRule(ts, s1).0 && ValueRule(ts, s1).1.pos == e && PeekValue(ValueRule(ts, s1).1) == x &&
      !At(ts, s1, LBrace) && !At(ts, s1, Colon) && !At(ts, s1, LParen)
    ensures StructTail(ts, Next(PushName(s, t))) == Block(ts, Opened(s, t, Some(x)))
  {
    var s1 := Next(PushName(s, t));
    var s2 := ValueRule(ts, s1).1;
    var n := TopNode(s);
    var s3 := PState(ReplaceAt(s.tree, Top(s), PutStruct(n, t, Struct(Some(x), map[], []))),
                     s.stack + [Top(s) + [Step(t, |GetStructs(n, t)|)]],
                     s.names + [t], s.values, s.archetypes, e, s.errors);
    ValueChildStatement(ts, s, t, s1, s2, s3);
    ValueOpened(s, t, x, s3);
    BraceEndsStatement(ts, s3);
    DeclIsTail(ts, s, t);
  }

  /** The own value of `type value {` is read up to the brace. */
  lemma {:induction false} ValueHeadRead(ts: seq<Token>, s1: PState, x: Value, e: nat)
    requires Printable(x) && TokensAt(ts, s1.pos, ValueTokens(x))
    requires e == s1.pos + |ValueTokens(x)| && e < |ts| && ts[e] == Sym(LBrace)
    ensures ValueRule(ts, s1).0 && ValueRule(ts, s1).1.pos == e && PeekValue(ValueRule(ts, s1).1) == x
    ensures !At(ts, s1, LBrace) && !At(ts, s1, Colon) && !At(ts, s1, LParen)
  {
    ValueReads(ts, s1, x);
  }

  /** `{` after a struct's header starts its block. */
  lemma {:induction false} BraceEndsStatement(ts: seq<Token>, r: PState)
    requires r.pos < |ts| && ts[r.pos] == Sym(LBrace) && |r.stack| > 1 && |r.names| > 0
    ensures StatementEndOrStruct(ts, r) == Block(ts, Next(r))
  {
  }

  lemma {:induction false} ValueOpened(s: PState, t: string, x: Value, s3: PState)
    requires |s.stack| > 0 && Literal(x)
    requires var n := TopNode(s);
      s3 == PState(ReplaceAt(s.tree, Top(s), PutStruct(n, t, Struct(Some(x), map[], []))),
                   s.stack + [Top(s) + [Step(t, |GetStructs(n, t)|)]],
                   s.names + [t], s.values, s.archetypes, s.pos + 1 + |ValueTokens(x)|, s.errors)
    ensures Next(s3) == Opened(s, t, Some(x))
  {
    assert |HeadTokens(t, Some(x))| == 2 + |ValueTokens(x)|;
  }

  /** The closing `}` of a child's body: the child, as the body left it,
      is filed in stackTop and the stacks are as before the header. */
  lemma {:induction false} BlockCloses(ts: seq<Token>, s: PState, t: string, v: Option<Value>, x: Struct, p: nat)
    requires Sound(s) && p < |ts| && ts[p] == Sym(RBrace)
    requires Opened(s, t, v).pos <= p
    requires InnerStructList(ts, Opened(s, t, v)) == InnerStructList(ts, Filled(Opened(s, t, v), x, p))
    ensures Block(ts, Opened(s, t, v)) == (true, Filled(s, PutStruct(TopNode(s), t, x), p + 1))
  {
    var b := Opened(s, t, v);
    var e := Filled(b, x, p);
    ClosedState(s, t, v, x, p);
    assert InnerStructList(ts, b) == (true, e);
    assert Strict(ts, e, RBrace) == (true, Next(e));
  }

  /** Popping the child and its name after `}` leaves the parent's stacks
      with the child filed in it. */
  lemma {:induction false} ClosedState(s: PState, t: string, v: Option<Value>, x: Struct, p: nat)
    requires Sound(s)
    ensures var e := Filled(Opened(s, t, v), x, p);
      |e.stack| > 1 && |e.names| > 0 &&
      PopName(PopStruct(Next(e))) == Filled(s, PutStruct(TopNode(s), t, x), p + 1)
  {
    var b := Opened(s, t, v);
    OpenedTop(s, t, v, x);
    assert b.stack[..|s.stack|] == s.stack && b.names[..|s.names|] == s.names;
  }

  // ----- Where the pieces of a printed tree lie -----

  /** The tokens from `p` on hold child `c` of type `t`: its header, its
      field lines, its children and the closing `}`. */
  predicate ChildAt(ts: seq<Token>, p: nat, order: set<string> -> seq<string>, t: string, c: Struct)
    decreases c, 3
  {
    var h := |HeadTokens(t, c.value)|;
    var f := |FieldsTokens(c.fields, FieldOrder(order, c))|;
    var g := |GroupsTokens(order, c, 0)|;
    Spells(ts, p, HeadTokens(t, c.value)) &&
    FieldsAt(ts, p + h, c.fields, FieldOrder(order, c)) && GroupsAt(ts, p + h + f, order, c, 0) &&
    p + h + f + g < |ts| && ts[p + h + f + g] == Sym(RBrace)
  }

  /** The tokens from `p` on hold the children of groups i, i+1, ... */
  predicate GroupsAt(ts: seq<Token>, p: nat, order: set<string> -> seq<string>, c: Struct, i: nat)
    requires i <= |c.groups|
    decreases c, 1, |c.groups| - i
  {
    if i == |c.groups| then p <= |ts|
    else QueueAt(ts, p, order, c, i, 0) && GroupsAt(ts, p + |QueueTokens(order, c, i, 0)|, order, c, i + 1)
  }

  /** The tokens from `p` on hold children k, k+1, ... of group i. */
  predicate QueueAt(ts: seq<Token>, p: nat, order: set<string> -> seq<string>, c: Struct, i: nat, k: nat)
    requires i < |c.groups| && k <= |c.groups[i].queue|
    decreases c, 0, |c.groups[i].queue| - k
  {
    var g := c.groups[i];
    if k == |g.queue| then p <= |ts|
    else
      ChildAt(ts, p, order, g.typeName, g.queue[k]) &&
      QueueAt(ts, p + |ChildTokens(order, g.typeName, g.queue[k])|, order, c, i, k + 1)
  }

  /** At every depth, the field iteration order lists exactly the keys. */
  predicate Keyed(order: set<string> -> seq<string>, c: Struct)
  {
    ListsKeys(FieldOrder(order, c), c.fields.Keys) &&
    forall i, k :: 0 <= i < |c.groups| && 0 <= k < |c.groups[i].queue| ==> Keyed(order, c.groups[i].queue[k])
  }

  lemma {:induction false} ListsKeyed(order: set<string> -> seq<string>, c: Struct)
    requires Lists(order)
    ensures Keyed(order, c)
  {
    forall i, k | 0 <= i < |c.groups| && 0 <= k < |c.groups[i].queue|
      ensures Keyed(order, c.groups[i].queue[k])
    {
      ListsKeyed(order, c.groups[i].queue[k]);
    }
  }

  /** Field lines spelled out from `p` lie there. */
  lemma {:induction false} FieldsLaid(ts: seq<Token>, p: nat, m: map<string, Value>, names: seq<string>)
    requires Spells(ts, p, FieldsTokens(m, names))
    ensures FieldsAt(ts, p, m, names)
    decreases |names|
  {
    if names != [] {
      var f := names[0];
      if f in m && Literal(m[f]) {
        var n := |FieldTokens(f, m[f])|;
        FieldsSplit(ts, p, m, names, n);
        FieldsLaid(ts, p + n, m, names[1..]);
      } else {
        FieldsSkip(ts, p, m, names);
        FieldsLaid(ts, p, m, names[1..]);
      }
    }
  }

  /** The first printed field line, then the rest. */
  lemma {:induction false} FieldsSplit(ts: seq<Token>, p: nat, m: map<string, Value>, names: seq<string>, n: nat)
    requires names != [] && names[0] in m && Literal(m[names[0]])
    requires n == |FieldTokens(names[0], m[names[0]])|
    requires Spells(ts, p, FieldsTokens(m, names))
    ensures Spells(ts, p, FieldTokens(names[0], m[names[0]])) && Spells(ts, p + n, FieldsTokens(m, names[1..]))
  {
    SpellsSplitAt(ts, p, FieldsTokens(m, names), FieldTokens(names[0], m[names[0]]), FieldsTokens(m, names[1..]), p + n);
  }

  /** A name the writer skips adds no tokens. */
  lemma {:induction false} FieldsSkip(ts: seq<Token>, p: nat, m: map<string, Value>, names: seq<string>)
    requires names != [] && !(names[0] in m && Literal(m[names[0]]))
    requires Spells(ts, p, FieldsTokens(m, names))
    ensures Spells(ts, p, FieldsTokens(m, names[1..]))
  {
    assert FieldsTokens(m, names) == FieldsTokens(m, names[1..]);
  }

  /** A printed child spelled out from `p` lies there. */
  lemma {:induction false} ChildLaid(ts: seq<Token>, p: nat, order: set<string> -> seq<string>, t: string, c: Struct)
    requires Spells(ts, p, ChildTokens(order, t, c))
    ensures ChildAt(ts, p, order, t, c)
    decreases c, 3
  {
    var head := HeadTokens(t, c.value);
    var fs := FieldsTokens(c.fields, FieldOrder(order, c));
    var gs := GroupsTokens(order, c, 0);
    var e1 := p + |head|;
    var e2 := e1 + |fs|;
    var e3 := e2 + |gs|;
    BlockSplit(ts, p, head, fs, gs, e1, e2, e3);
    FieldsLaid(ts, e1, c.fields, FieldOrder(order, c));
    ChildrenLaid(ts, order, c);
    GroupsLaid(ts, e2, order, c, 0);
    ChildAtIntro(ts, p, order, t, c, e1, e2, e3);
  }

  /** Every child of `c` lies wherever its printed tokens are spelled out. */
  ghost predicate ChildrenLie(ts: seq<Token>, order: set<string> -> seq<string>, c: Struct)
  {
    forall i, k, p: nat ::
      (0 <= i < |c.groups| && 0 <= k < |c.groups[i].queue| &&
       Spells(ts, p, ChildTokens(order, c.groups[i].typeName, c.groups[i].queue[k]))) ==>
      ChildAt(ts, p, order, c.groups[i].typeName, c.groups[i].queue[k])
  }

  lemma {:induction false} ChildrenLaid(ts: seq<Token>, order: set<string> -> seq<string>, c: Struct)
    ensures ChildrenLie(ts, order, c)
    decreases c, 2
  {
    forall i, k, p: nat | 0 <= i < |c.groups| && 0 <= k < |c.groups[i].queue| &&
      Spells(ts, p, ChildTokens(order, c.groups[i].typeName, c.groups[i].queue[k]))
      ensures ChildAt(ts, p, order, c.groups[i].typeName, c.groups[i].queue[k])
    {
      ChildLaid(ts, p, order, c.groups[i].typeName, c.groups[i].queue[k]);
    }
  }

  /** The pieces of a printed child, each where it belongs, make the child. */
  lemma {:induction false} ChildAtIntro(ts: seq<Token>, p: nat, order: set<string> -> seq<string>, t: string, c: Struct,
                     e1: nat, e2: nat, e3: nat)
    requires e1 == p + |HeadTokens(t, c.value)| && e2 == e1 + |FieldsTokens(c.fields, FieldOrder(order, c))|
    requires e3 == e2 + |GroupsTokens(order, c, 0)|
    requires Spells(ts, p, HeadTokens(t, c.value)) && FieldsAt(ts, e1, c.fields, FieldOrder(order, c))
    requires GroupsAt(ts, e2, order, c, 0) && e3 < |ts| && ts[e3] == Sym(RBrace)
    ensures ChildAt(ts, p, order, t, c)
  {
    var h := |HeadTokens(t, c.value)|;
    var f := |FieldsTokens(c.fields, FieldOrder(order, c))|;
    var g := |GroupsTokens(order, c, 0)|;
    assert p + h == e1 && p + h + f == e2 && p + h + f + g == e3;
  }

  /** `head body-fields body-groups }` spelled out from `p`, piece by piece. */
  lemma {:induction false} BlockSplit(ts: seq<Token>, p: nat, head: seq<Token>, fs: seq<Token>, gs: seq<Token>,
                   e1: nat, e2: nat, e3: nat)
    requires Spells(ts, p, head + (fs + (gs + [Sym(RBrace)])))
    requires e1 == p + |head| && e2 == e1 + |fs| && e3 == e2 + |gs|
    ensures Spells(ts, p, head) && Spells(ts, e1, fs) && Spells(ts, e2, gs)
    ensures e3 < |ts| && ts[e3] == Sym(RBrace)
  {
    var close := Sym(RBrace);
    var r3 := [close];
    var r2 := gs + r3;
    var r1 := fs + r2;
    SpellsSplitAt(ts, p, head + (fs + (gs + [Sym(RBrace)])), head, r1, e1);
    SpellsSplitAt(ts, e1, r1, fs, r2, e2);
    SpellsSplitAt(ts, e2, r2, gs, r3, e3);
    SpellsOne(ts, e3, close);
  }

  /** The field lines and the children of `c` spelled out from `p` lie
      there. */
  lemma {:induction false} BodyLaid(ts: seq<Token>, p: nat, order: set<string> -> seq<string>, c: Struct, e: nat)
    requires Spells(ts, p, BodyTokens(order, c)) && e == p + |FieldsTokens(c.fields, FieldOrder(order, c))|
    ensures FieldsAt(ts, p, c.fields, FieldOrder(order, c)) && GroupsAt(ts, e, order, c, 0)
  {
    var fs := FieldsTokens(c.fields, FieldOrder(order, c));
    SpellsSplitAt(ts, p, BodyTokens(order, c), fs, GroupsTokens(order, c, 0), e);
    FieldsLaid(ts, p, c.fields, FieldOrder(order, c));
    ChildrenLaid(ts, order, c);
    GroupsLaid(ts, e, order, c, 0);
  }

  lemma {:induction false} GroupsLaid(ts: seq<Token>, p: nat, order: set<string> -> seq<string>, c: Struct, i: nat)
    requires i <= |c.groups| && ChildrenLie(ts, order, c) && Spells(ts, p, GroupsTokens(order, c, i))
    ensures GroupsAt(ts, p, order, c, i)
    decreases |c.groups| - i
  {
    if i < |c.groups| {
      var n := |QueueTokens(order, c, i, 0)|;
      GroupsSplit(ts, p, order, c, i, n);
      QueueLaid(ts, p, order, c, i, 0);
      GroupsLaid(ts, p + n, order, c, i + 1);
    }
  }

  /** The children of one group spelled out, then the other groups. */
  lemma {:induction false} GroupsSplit(ts: seq<Token>, p: nat, order: set<string> -> seq<string>, c: Struct, i: nat, n: nat)
    requires i < |c.groups| && n == |QueueTokens(order, c, i, 0)|
    requires Spells(ts, p, GroupsTokens(order, c, i))
    ensures Spells(ts, p, QueueTokens(order, c, i, 0)) && Spells(ts, p + n, GroupsTokens(order, c, i + 1))
  {
    SpellsSplitAt(ts, p, GroupsTokens(order, c, i), QueueTokens(order, c, i, 0), GroupsTokens(order, c, i + 1), p + n);
  }

  lemma {:induction false} QueueLaid(ts: seq<Token>, p: nat, order: set<string> -> seq<string>,
                                     c: Struct, i: nat, k: nat)
    requires i < |c.groups| && k <= |c.groups[i].queue|
    requires ChildrenLie(ts, order, c) && Spells(ts, p, QueueTokens(order, c, i, k))
    ensures QueueAt(ts, p, order, c, i, k)
    decreases |c.groups[i].queue| - k
  {
    var g := c.groups[i];
    if k < |g.queue| {
      var n := |ChildTokens(order, g.typeName, g.queue[k])|;
      QueueSplit(ts, p, order, c, i, k, n);
      QueueLaid(ts, p + n, order, c, i, k + 1);
      QueueAtCons(ts, p, order, c, i, k, n);
    }
  }

  /** The first child of a queue spelled out, then the rest. */
  lemma {:induction false} QueueSplit(ts: seq<Token>, p: nat, order: set<string> -> seq<string>, c: Struct, i: nat, k: nat, n: nat)
    requires i < |c.groups| && k < |c.groups[i].queue|
    requires n == |ChildTokens(order, c.groups[i].typeName, c.groups[i].queue[k])|
    requires Spells(ts, p, QueueTokens(order, c, i, k))
    ensures Spells(ts, p, ChildTokens(order, c.groups[i].typeName, c.groups[i].queue[k]))
    ensures Spells(ts, p + n, QueueTokens(order, c, i, k + 1))
  {
    SpellsSplitAt(ts, p, QueueTokens(order, c, i, k), ChildTokens(order, c.groups[i].typeName, c.groups[i].queue[k]),
                  QueueTokens(order, c, i, k + 1), p + n);
  }

  /** A child and then the rest of its queue make up the queue. */
  lemma {:induction false} QueueAtCons(ts: seq<Token>, p: nat, order: set<string> -> seq<string>, c: Struct, i: nat, k: nat, n: nat)
    requires i < |c.groups| && k < |c.groups[i].queue|
    requires n == |ChildTokens(order, c.groups[i].typeName, c.groups[i].queue[k])|
    requires ChildAt(ts, p, order, c.groups[i].typeName, c.groups[i].queue[k])
    requires QueueAt(ts, p + n, order, c, i, k + 1)
    ensures QueueAt(ts, p, order, c, i, k)
  {
  }

  /** When `names` lists the keys of `m` and every value is printable,
      every name is a key with a printable value. */
  lemma {:induction false} KeysPrintable(names: seq<string>, m: map<string, Value>)
    requires ListsKeys(names, m.Keys) && forall f :: f in m ==> Printable(m[f])
    ensures NamesPrintable(m, names)
  {
  }

  // ----- Reading a printed tree back -----

  /** A printed child, `type value { fields children }`, is one statement
      that files a copy of it as the last `type` child of stackTop, which
      becomes `x`, and moves the cursor to `q` past it. */
  lemma {:induction false} ChildRead(ts: seq<Token>, s: PState, order: set<string> -> seq<string>,
                                     t: string, c: Struct, x: Struct, q: nat)
    requires Sound(s) && Keyed(order, c) && WF(c) && Writable(c) && OwnPrintable(c.value)
    requires ChildAt(ts, s.pos, order, t, c)
    requires x == PutStruct(TopNode(s), t, c) && q == s.pos + |ChildTokens(order, t, c)|
    ensures Statement(ts, s, Filled(s, x, q))
    decreases c, 4
  {
    var e := s.pos + |HeadTokens(t, c.value)|;
    var g := e + |FieldsTokens(c.fields, FieldOrder(order, c))|;
    var r := g + |GroupsTokens(order, c, 0)|;
    ChildParts(ts, s.pos, order, t, c, e, g, r);
    ChildBlock(ts, s, order, t, c, x, e, g, r, q);
    ChildOpens(ts, s, t, c.value);
    StatementFrom(ts, s, t, Next(PushName(s, t)), Filled(s, x, q));
  }

  /** The pieces of a printed child, one by one: the header from `p`, the
      field lines from `e`, the children from `g` and `}` at `r`. */
  lemma {:induction false} ChildParts(ts: seq<Token>, p: nat, order: set<string> -> seq<string>, t: string, c: Struct,
                   e: nat, g: nat, r: nat)
    requires ChildAt(ts, p, order, t, c)
    requires e == p + |HeadTokens(t, c.value)| && g == e + |FieldsTokens(c.fields, FieldOrder(order, c))|
    requires r == g + |GroupsTokens(order, c, 0)|
    ensures Spells(ts, p, HeadTokens(t, c.value))
    ensures FieldsAt(ts, e, c.fields, FieldOrder(order, c)) && GroupsAt(ts, g, order, c, 0)
    ensures r < |ts| && ts[r] == Sym(RBrace) && p + |ChildTokens(order, t, c)| == r + 1
  {
  }

  /** The block after a child's header: its body, then `}`. */
  lemma {:induction false} ChildBlock(ts: seq<Token>, s: PState, order: set<string> -> seq<string>,
                                      t: string, c: Struct, x: Struct, e: nat, g: nat, r: nat, q: nat)
    requires Sound(s) && Keyed(order, c) && WF(c) && Writable(c)
    requires e == s.pos + |HeadTokens(t, c.value)| && g == e + |FieldsTokens(c.fields, FieldOrder(order, c))|
    requires r == g + |GroupsTokens(order, c, 0)|
    requires FieldsAt(ts, e, c.fields, FieldOrder(order, c)) && GroupsAt(ts, g, order, c, 0)
    requires r < |ts| && ts[r] == Sym(RBrace) && q == r + 1
    requires x == PutStruct(TopNode(s), t, c)
    ensures Block(ts, Opened(s, t, c.value)) == (true, Filled(s, x, q))
    decreases c, 3
  {
    OpenedTop(s, t, c.value, c);
    BodyRead(ts, Opened(s, t, c.value), order, c, c, e, g, r);
    BlockCloses(ts, s, t, c.value, c, r);
  }

  /** The field lines and then the children of `c`, read into a struct
      that has none yet, give it exactly `c`'s fields and children. */
  lemma {:induction false} BodyRead(ts: seq<Token>, s: PState, order: set<string> -> seq<string>, c: Struct,
                                    z: Struct, e: nat, g: nat, q: nat)
    requires Sound(s) && Keyed(order, c) && WF(c) && Writable(c)
    requires TopNode(s).fields == map[] && TopNode(s).groups == []
    requires s.pos == e && g == e + |FieldsTokens(c.fields, FieldOrder(order, c))|
    requires FieldsAt(ts, e, c.fields, FieldOrder(order, c)) && GroupsAt(ts, g, order, c, 0)
    requires z == Struct(TopNode(s).value, c.fields, c.groups)
    requires q == g + |GroupsTokens(order, c, 0)|
    ensures q <= |ts| && InnerStructList(ts, s) == InnerStructList(ts, Filled(s, z, q))
    decreases c, 2, 1
  {
    var x := TopNode(s).(fields := c.fields);
    BodyGroups(ts, s, order, c, x, z, g, q);
    BodyFields(ts, s, order, c, x, e, g);
  }

  /** The children of `c`, read once its fields are in `x`. */
  lemma {:induction false} BodyGroups(ts: seq<Token>, s: PState, order: set<string> -> seq<string>, c: Struct,
                                      x: Struct, z: Struct, g: nat, q: nat)
    requires Sound(s) && Keyed(order, c) && WF(c) && Writable(c) && TopNode(s).groups == []
    requires x == TopNode(s).(fields := c.fields) && z == Struct(TopNode(s).value, c.fields, c.groups)
    requires GroupsAt(ts, g, order, c, 0) && q == g + |GroupsTokens(order, c, 0)|
    ensures q <= |ts| && InnerStructList(ts, Filled(s, x, g)) == InnerStructList(ts, Filled(s, z, q))
    decreases c, 2, 0
  {
    FilledTop(s, x, g);
    assert c.groups[..0] == [];
    GroupsRead(ts, Filled(s, x, g), order, c, 0, g, z, q);
    FilledTwice(s, x, g, z, q);
  }

  /** The field lines of a struct, read into one that has no fields yet,
      give it exactly those fields. */
  lemma {:induction false} BodyFields(ts: seq<Token>, s: PState, order: set<string> -> seq<string>, c: Struct, x: Struct,
                    p: nat, q: nat)
    requires Sound(s) && TopNode(s).fields == map[] && Keyed(order, c) && Writable(c)
    requires s.pos == p && FieldsAt(ts, p, c.fields, FieldOrder(order, c))
    requires x == TopNode(s).(fields := c.fields) && q == p + |FieldsTokens(c.fields, FieldOrder(order, c))|
    ensures q <= |ts| && InnerStructList(ts, s) == InnerStructList(ts, Filled(s, x, q))
  {
    var names := FieldOrder(order, c);
    KeysPrintable(names, c.fields);
    PutAllFields(TopNode(s), c.fields, names);
    FieldsRead(ts, s, c.fields, names, x, q);
  }

  /** The children of groups i, i+1, ... of `c`, read into a struct that
      already holds the groups before i. */
  lemma {:induction false} GroupsRead(ts: seq<Token>, s: PState, order: set<string> -> seq<string>,
                                      c: Struct, i: nat, p: nat, z: Struct, q: nat)
    requires Sound(s) && Keyed(order, c) && WF(c) && Writable(c) && i <= |c.groups|
    requires TopNode(s).groups == c.groups[..i] && s.pos == p && GroupsAt(ts, p, order, c, i)
    requires z == TopNode(s).(groups := c.groups) && q == p + |GroupsTokens(order, c, i)|
    ensures q <= |ts| && InnerStructList(ts, s) == InnerStructList(ts, Filled(s, z, q))
    decreases c, 1, |c.groups| - i, 1
  {
    if i == |c.groups| {
      assert c.groups[..i] == c.groups;
      FilledNothing(s);
    } else {
      GroupsRest(ts, s, order, c, i, p, i + 1, p + |QueueTokens(order, c, i, 0)|,
                 TopNode(s).(groups := c.groups[..i + 1]), z, q);
    }
  }

  /** The children of the first group spelled out, and what is left after
      them. */
  lemma {:induction false} GroupsHead(ts: seq<Token>, p: nat, order: set<string> -> seq<string>, c: Struct, i: nat, j: nat, e: nat)
    requires i < |c.groups| && j == i + 1 && e == p + |QueueTokens(order, c, i, 0)| && GroupsAt(ts, p, order, c, i)
    ensures QueueAt(ts, p, order, c, i, 0) && GroupsAt(ts, e, order, c, j)
    ensures p + |GroupsTokens(order, c, i)| == e + |GroupsTokens(order, c, j)|
  {
  }

  /** One group's children, then the other groups. */
  lemma {:induction false} GroupsRest(ts: seq<Token>, s: PState, order: set<string> -> seq<string>,
                                      c: Struct, i: nat, p: nat, j: nat, e: nat, x: Struct, z: Struct, q: nat)
    requires Sound(s) && Keyed(order, c) && WF(c) && Writable(c) && i < |c.groups| && j == i + 1
    requires TopNode(s).groups == c.groups[..i] && s.pos == p && e == p + |QueueTokens(order, c, i, 0)|
    requires GroupsAt(ts, p, order, c, i)
    requires x == TopNode(s).(groups := c.groups[..j]) && z == TopNode(s).(groups := c.groups)
    requires q == p + |GroupsTokens(order, c, i)|
    ensures q <= |ts| && InnerStructList(ts, s) == InnerStructList(ts, Filled(s, z, q))
    decreases c, 1, |c.groups| - i, 0
  {
    GroupsHead(ts, p, order, c, i, j, e);
    GroupsFirst(ts, s, order, c, i, p, j, e, x);
    GroupsTail(ts, s, order, c, j, e, x, z, q);
  }

  /** The children of group i, read into a struct that holds the groups
      before it. */
  lemma {:induction false} GroupsFirst(ts: seq<Token>, s: PState, order: set<string> -> seq<string>,
                                       c: Struct, i: nat, p: nat, j: nat, e: nat, x: Struct)
    requires Sound(s) && Keyed(order, c) && WF(c) && Writable(c) && i < |c.groups| && j == i + 1
    requires TopNode(s).groups == c.groups[..i] && s.pos == p && e == p + |QueueTokens(order, c, i, 0)|
    requires QueueAt(ts, p, order, c, i, 0)
    requires x == TopNode(s).(groups := c.groups[..j])
    ensures e <= |ts| && InnerStructList(ts, s) == InnerStructList(ts, Filled(s, x, e))
    decreases c, 1, |c.groups| - i, 0, 0
  {
    assert Partial(c, i, 0) == c.groups[..i];
    QueueRead(ts, s, order, c, i, 0, p, x, e);
  }

  /** The groups from i on, read once the groups before i are in `x`. */
  lemma {:induction false} GroupsTail(ts: seq<Token>, s: PState, order: set<string> -> seq<string>,
                                      c: Struct, i: nat, p: nat, x: Struct, z: Struct, q: nat)
    requires Sound(s) && Keyed(order, c) && WF(c) && Writable(c) && 0 < i <= |c.groups|
    requires x == TopNode(s).(groups := c.groups[..i]) && z == TopNode(s).(groups := c.groups)
    requires GroupsAt(ts, p, order, c, i) && q == p + |GroupsTokens(order, c, i)|
    ensures q <= |ts| && InnerStructList(ts, Filled(s, x, p)) == InnerStructList(ts, Filled(s, z, q))
    decreases c, 1, |c.groups| - i, 2
  {
    FilledTop(s, x, p);
    GroupsRead(ts, Filled(s, x, p), order, c, i, p, z, q);
    FilledTwice(s, x, p, z, q);
  }

  /** The groups a struct holds after the first k children of group i of
      `c` were read into it. */
  function Partial(c: Struct, i: nat, k: nat): seq<Group>
    requires i < |c.groups| && k <= |c.groups[i].queue|
  {
    c.groups[..i] + (if k == 0 then [] else [Group(c.groups[i].typeName, c.groups[i].queue[..k])])
  }

  /** Filing child k of group i: the first child of a type opens its
      group, at the end; a later one joins it. */
  lemma {:induction false} QueueGrows(c: Struct, i: nat, k: nat, n: Struct)
    requires WF(c) && i < |c.groups| && k < |c.groups[i].queue| && n.groups == Partial(c, i, k)
    ensures PutStruct(n, c.groups[i].typeName, c.groups[i].queue[k]) == n.(groups := Partial(c, i, k + 1))
  {
    var g := c.groups[i];
    if k == 0 {
      GroupOpens(c.groups, i, g, n, g.queue[0]);
    } else {
      GroupJoins(c.groups, i, g, k, n, g.queue[k]);
    }
  }

  lemma {:induction false} GroupOpens(groups: seq<Group>, i: nat, g: Group, n: Struct, x: Struct)
    requires DistinctNames(groups) && i < |groups| && g == groups[i] && |g.queue| > 0 && x == g.queue[0]
    requires n.groups == groups[..i] + []
    ensures PutStruct(n, g.typeName, x) == n.(groups := groups[..i] + [Group(g.typeName, g.queue[..1])])
  {
    assert groups[..i] + [] == groups[..i];
    NewGroupAppended(groups, i, n, x);
    assert g.queue[..1] == [x];
  }

  lemma {:induction false} GroupJoins(groups: seq<Group>, i: nat, g: Group, k: nat, n: Struct, x: Struct)
    requires DistinctNames(groups) && i < |groups| && g == groups[i] && 0 < k < |g.queue| && x == g.queue[k]
    requires n.groups == groups[..i] + [Group(g.typeName, g.queue[..k])]
    ensures PutStruct(n, g.typeName, x) == n.(groups := groups[..i] + [Group(g.typeName, g.queue[..k + 1])])
  {
    ExistingGroupExtended(groups, i, n, g.queue[..k], x);
    assert g.queue[..k] + [x] == g.queue[..k + 1];
  }

  /** The children k, k+1, ... of group i of `c`, read one statement after
      the other. */
  lemma {:induction false} QueueRead(ts: seq<Token>, s: PState, order: set<string> -> seq<string>,
                                     c: Struct, i: nat, k: nat, p: nat, z: Struct, q: nat)
    requires Sound(s) && Keyed(order, c) && WF(c) && Writable(c) && i < |c.groups| && k <= |c.groups[i].queue|
    requires TopNode(s).groups == Partial(c, i, k) && s.pos == p && QueueAt(ts, p, order, c, i, k)
    requires z == TopNode(s).(groups := c.groups[..i + 1]) && q == p + |QueueTokens(order, c, i, k)|
    ensures q <= |ts| && InnerStructList(ts, s) == InnerStructList(ts, Filled(s, z, q))
    decreases c, 0, |c.groups[i].queue| - k, 2
  {
    var g := c.groups[i];
    if k == |g.queue| {
      assert g.queue[..k] == g.queue;
      assert c.groups[..i] + [g] == c.groups[..i + 1];
      FilledNothing(s);
    } else {
      QueueRest(ts, s, order, c, i, k, p, k + 1, p + |ChildTokens(order, g.typeName, g.queue[k])|,
                TopNode(s).(groups := Partial(c, i, k + 1)), z, q);
    }
  }

  /** The first child of a queue spelled out, and what is left after it. */
  lemma {:induction false} QueueHead(ts: seq<Token>, p: nat, order: set<string> -> seq<string>, c: Struct, i: nat, k: nat, l: nat, e: nat)
    requires i < |c.groups| && k < |c.groups[i].queue| && l == k + 1
    requires e == p + |ChildTokens(order, c.groups[i].typeName, c.groups[i].queue[k])| && QueueAt(ts, p, order, c, i, k)
    ensures ChildAt(ts, p, order, c.groups[i].typeName, c.groups[i].queue[k]) && QueueAt(ts, e, order, c, i, l)
    ensures p + |QueueTokens(order, c, i, k)| == e + |QueueTokens(order, c, i, l)|
  {
  }

  /** Child k of group i, then the children after it. */
  lemma {:induction false} QueueRest(ts: seq<Token>, s: PState, order: set<string> -> seq<string>,
                                     c: Struct, i: nat, k: nat, p: nat, l: nat, e: nat, x: Struct, z: Struct, q: nat)
    requires Sound(s) && Keyed(order, c) && WF(c) && Writable(c) && i < |c.groups| && k < |c.groups[i].queue|
    requires TopNode(s).groups == Partial(c, i, k) && s.pos == p && l == k + 1
    requires e == p + |ChildTokens(order, c.groups[i].typeName, c.groups[i].queue[k])| && QueueAt(ts, p, order, c, i, k)
    requires x == TopNode(s).(groups := Partial(c, i, l)) && z == TopNode(s).(groups := c.groups[..i + 1])
    requires q == p + |QueueTokens(order, c, i, k)|
    ensures q <= |ts| && InnerStructList(ts, s) == InnerStructList(ts, Filled(s, z, q))
    decreases c, 0, |c.groups[i].queue| - k, 1
  {
    QueueHead(ts, p, order, c, i, k, l, e);
    QueueStep(ts, s, order, c, i, k, p, l, x, e);
    QueueTail(ts, s, order, c, i, l, e, x, z, q);
  }

  /** The children from k on, read once the ones before k are in `x`. */
  lemma {:induction false} QueueTail(ts: seq<Token>, s: PState, order: set<string> -> seq<string>,
                                     c: Struct, i: nat, k: nat, p: nat, x: Struct, z: Struct, q: nat)
    requires Sound(s) && Keyed(order, c) && WF(c) && Writable(c) && i < |c.groups| && 0 < k <= |c.groups[i].queue|
    requires x == TopNode(s).(groups := Partial(c, i, k)) && z == TopNode(s).(groups := c.groups[..i + 1])
    requires QueueAt(ts, p, order, c, i, k) && q == p + |QueueTokens(order, c, i, k)|
    ensures q <= |ts| && InnerStructList(ts, Filled(s, x, p)) == InnerStructList(ts, Filled(s, z, q))
    decreases c, 0, |c.groups[i].queue| - k, 3
  {
    FilledTop(s, x, p);
    QueueRead(ts, Filled(s, x, p), order, c, i, k, p, z, q);
    FilledTwice(s, x, p, z, q);
  }

  /** Child k of group i, read as one statement. */
  lemma {:induction false} QueueStep(ts: seq<Token>, s: PState, order: set<string> -> seq<string>,
                  c: Struct, i: nat, k: nat, p: nat, l: nat, x: Struct, q1: nat)
    requires Sound(s) && Keyed(order, c) && WF(c) && Writable(c) && i < |c.groups| && k < |c.groups[i].queue|
    requires TopNode(s).groups == Partial(c, i, k) && s.pos == p && l == k + 1
    requires ChildAt(ts, p, order, c.groups[i].typeName, c.groups[i].queue[k])
    requires x == TopNode(s).(groups := Partial(c, i, l))
    requires q1 == p + |ChildTokens(order, c.groups[i].typeName, c.groups[i].queue[k])|
    ensures q1 <= |ts| && InnerStructList(ts, s) == InnerStructList(ts, Filled(s, x, q1))
    decreases c, 0, |c.groups[i].queue| - k, 0
  {
    var g := c.groups[i];
    var child := g.queue[k];
    ChildWF(c, i, k);
    assert Keyed(order, child) && Writable(child) && OwnPrintable(child.value);
    QueueGrows(c, i, k, TopNode(s));
    ChildRead(ts, s, order, g.typeName, child, x, q1);
    InnerStep(ts, s, Filled(s, x, q1));
  }

  // ----- export, then read -----

  /** Once the statements of a block run to the end of the tokens without
      error, read()'s loop runs the same statements as top-level ones and
      ends in the same state. */
  lemma {:induction false} InnerToReadLoop(ts: seq<Token>, s: PState, b: bool, r: PState)
    requires s.pos <= |ts| && |s.stack| > 0 && s.names == []
    requires InnerStructList(ts, s) == (true, r) && r.pos == |ts|
    ensures ReadLoop(ts, s, b) == (if s.pos == |ts| then b else true, r)
    decreases |ts| - s.pos
  {
    if s.pos < |ts| {
      var (ok, s1) := StructTail(ts, Next(PushName(s, ts[s.pos].id)));
      InnerToReadLoop(ts, s1, true, r);
    }
  }

  /** The field lines of `names` are not empty once one of them names a
      printable field. */
  lemma {:induction false} FieldsTokensNonEmpty(m: map<string, Value>, names: seq<string>, j: nat)
    requires j < |names| && names[j] in m && Literal(m[names[j]])
    ensures |FieldsTokens(m, names)| > 0
    decreases j
  {
    if j > 0 {
      FieldsTokensNonEmpty(m, names[1..], j - 1);
    }
  }

  /** A struct with a field or a child prints at least one token. */
  lemma {:induction false} BodyTokensNonEmpty(order: set<string> -> seq<string>, c: Struct)
    requires Keyed(order, c) && WF(c) && Writable(c) && (c.fields != map[] || c.groups != [])
    ensures |BodyTokens(order, c)| > 0
  {
    if c.groups != [] {
      assert |c.groups[0].queue| > 0;
      assert |HeadTokens(c.groups[0].typeName, c.groups[0].queue[0].value)| > 0;
      assert |ChildTokens(order, c.groups[0].typeName, c.groups[0].queue[0])| > 0;
      assert |QueueTokens(order, c, 0, 0)| > 0;
      assert |GroupsTokens(order, c, 0)| > 0;
    } else {
      var f :| f in c.fields;
      var names := FieldOrder(order, c);
      assert f in names;
      var j :| 0 <= j < |names| && names[j] == f;
      FieldsTokensNonEmpty(c.fields, names, j);
    }
  }

  /** export followed by read: the text printed for a well-formed tree
      with at least one field or child, whose field values and child own
      values are printable literals, read into a new empty struct, gives
      back the tree's fields and children without any error. The root's
      own value is not printed and stays absent. */
  lemma {:induction false} ExportReadBack(esc: string -> string, order: set<string> -> seq<string>, root: Struct)
    requires Lists(order) && WF(root) && Writable(root) && (root.fields != map[] || root.groups != [])
    ensures Export(esc, order, root).fault.None?
    ensures Read(Lexed(Export(esc, order, root).pieces), Empty) == Applied(Struct(None, root.fields, root.groups), [])
  {
    var ts := Lexed(Export(esc, order, root).pieces);
    var f := |FieldsTokens(root.fields, FieldOrder(order, root))|;
    ExportLaid(esc, order, root, ts, f);
    ReadBody(ts, order, root, f, Struct(None, root.fields, root.groups));
  }

  /** The printed tokens of a tree: its field lines, then its children. */
  lemma {:induction false} ExportLaid(esc: string -> string, order: set<string> -> seq<string>, root: Struct, ts: seq<Token>, f: nat)
    requires Lists(order) && WF(root) && Writable(root) && (root.fields != map[] || root.groups != [])
    requires ts == Lexed(Export(esc, order, root).pieces) && f == |FieldsTokens(root.fields, FieldOrder(order, root))|
    ensures Export(esc, order, root).fault.None? && Keyed(order, root)
    ensures 0 < |ts| == f + |GroupsTokens(order, root, 0)|
    ensures FieldsAt(ts, 0, root.fields, FieldOrder(order, root)) && GroupsAt(ts, f, order, root, 0)
  {
    StructOutLexed(esc, order, None, root, -1);
    ListsKeyed(order, root);
    BodyTokensNonEmpty(order, root);
    SpellsRest(ts, 0);
    assert ts[0..] == BodyTokens(order, root);
    BodyLaid(ts, 0, order, root, f);
  }

  /** Reading the tokens of a tree's body into a new empty struct. */
  lemma {:induction false} ReadBody(ts: seq<Token>, order: set<string> -> seq<string>, root: Struct, f: nat, z: Struct)
    requires Keyed(order, root) && WF(root) && Writable(root)
    requires f == |FieldsTokens(root.fields, FieldOrder(order, root))| && 0 < |ts| == f + |GroupsTokens(order, root, 0)|
    requires FieldsAt(ts, 0, root.fields, FieldOrder(order, root)) && GroupsAt(ts, f, order, root, 0)
    requires z == Struct(None, root.fields, root.groups)
    ensures Read(ts, Empty) == Applied(z, [])
  {
    var s := Start(Empty);
    BlockBody(ts, s, order, root, f, z);
    InnerToReadLoop(ts, s, false, Filled(s, z, |ts|));
    assert Filled(s, z, |ts|).tree == z;
  }

  /** The parser starts with the root as stackTop, at the first token. */
  lemma {:induction false} StartTop(s: PState, root: Struct)
    requires s == Start(root)
    ensures Sound(s) && TopNode(s) == root && s.pos == 0
  {
  }

  /** The statements of a tree's body, read as the inner statements of
      the new empty struct, run to the end of the tokens. */
  lemma {:induction false} BlockBody(ts: seq<Token>, s: PState, order: set<string> -> seq<string>, root: Struct, f: nat, z: Struct)
    requires Keyed(order, root) && WF(root) && Writable(root) && s == Start(Empty)
    requires f == |FieldsTokens(root.fields, FieldOrder(order, root))| && |ts| == f + |GroupsTokens(order, root, 0)|
    requires FieldsAt(ts, 0, root.fields, FieldOrder(order, root)) && GroupsAt(ts, f, order, root, 0)
    requires z == Struct(None, root.fields, root.groups)
    ensures InnerStructList(ts, s) == (true, Filled(s, z, |ts|))
  {
    StartTop(s, Empty);
    BodyRead(ts, s, order, root, z, 0, f, |ts|);
  }

  /** A tree with no field and no child prints no token, and reading that
      text fails with "Expected valid structure.". */
  lemma {:induction false} EmptyRootNotReadBack(esc: string -> string, order: set<string> -> seq<string>, root: Struct)
    requires Lists(order) && root.fields == map[] && root.groups == []
    ensures Export(esc, order, root).fault.None? && Lexed(Export(esc, order, root).pieces) == []
    ensures Read(Lexed(Export(esc, order, root).pieces), Empty).errors == [ExpectedValidStructure]
  {
    StructOutLexed(esc, order, None, root, -1);
    assert ListsKeys(order(root.fields.Keys), root.fields.Keys);
    EmptyInputFails(Empty);
  }
}
