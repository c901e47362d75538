/** The struct tree printed by DLWriter.export and read back by
    DLReader's parser: for a well-formed tree whose fields and child own
    values the writer prints as literals, reading the printed text into
    a new, empty struct rebuilds the tree's fields and children. */
module TreeRoundTrip {
  import opened Basics
  import opened Numbers
  import opened Values
  import opened Structs
  import opened Tokens
  import opened Grammar
  import opened Writer
  import opened RoundTrip

  // ----- Which trees print faithfully -----

  /** An own value the parser rebuilds: absent, or a printable literal. */
  predicate OwnPrintable(v: Option<Value>)
  {
    v.None? || Printable(v.value)
  }

  /** At every depth, every field name is a Word and every field value a
      printable literal, and every child's type name is a Word and its own
      value absent or a printable literal. DLStruct accepts any string as
      a name; one that is not a Word prints as text the lexer does not
      read back as that name. */
  predicate Writable(s: Struct)
  {
    (forall f :: f in s.fields ==> Word(f) && Printable(s.fields[f])) &&
    (forall i :: 0 <= i < |s.groups| ==> Word(s.groups[i].typeName)) &&
    forall i, k :: 0 <= i < |s.groups| && 0 <= k < |s.groups[i].queue| ==>
      OwnPrintable(s.groups[i].queue[k].value) && Writable(s.groups[i].queue[k])
  }

  /** `names` lists exactly the keys `ks`, each at least once. */
  predicate ListsKeys(names: seq<string>, ks: set<string>)
  {
    (forall j :: 0 <= j < |names| ==> names[j] in ks) && (forall k :: k in ks ==> k in names)
  }

  /** The iteration order of every key set lists exactly its keys. */
  ghost predicate Lists(order: set<string> -> seq<string>)
  {
    forall ks: set<string> :: ListsKeys(order(ks), ks)
  }

  /** The order in which the writer visits the fields of `c`. */
  function FieldOrder(order: set<string> -> seq<string>, c: Struct): seq<string>
  {
    order(c.fields.Keys)
  }

  // ----- The token stream of a printed tree -----

  /** `name value ;` */
  function FieldTokens(f: string, v: Value): seq<Token>
    requires Literal(v)
  {
    [Ident(f)] + ValueTokens(v) + [Sym(Semicolon)]
  }

  /** The field lines for `names` in order. */
  function FieldsTokens(m: map<string, Value>, names: seq<string>): seq<Token>
    decreases |names|
  {
    if names == [] then []
    else (if names[0] in m && Literal(m[names[0]]) then FieldTokens(names[0], m[names[0]]) else [])
         + FieldsTokens(m, names[1..])
  }

  /** `type value {` */
  function HeadTokens(t: string, v: Option<Value>): seq<Token>
  {
    [Ident(t)] + OwnTokens(v) + [Sym(LBrace)]
  }

  /** `type value { fields children }` for a child. */
  function ChildTokens(order: set<string> -> seq<string>, t: string, c: Struct): seq<Token>
    decreases c, 3
  {
    HeadTokens(t, c.value) +
    (FieldsTokens(c.fields, FieldOrder(order, c)) + (GroupsTokens(order, c, 0) + [Sym(RBrace)]))
  }

  /** The field lines, then every child. */
  function BodyTokens(order: set<string> -> seq<string>, c: Struct): seq<Token>
    decreases c, 2
  {
    FieldsTokens(c.fields, FieldOrder(order, c)) + GroupsTokens(order, c, 0)
  }

  function GroupsTokens(order: set<string> -> seq<string>, c: Struct, i: nat): seq<Token>
    requires i <= |c.groups|
    decreases c, 1, |c.groups| - i
  {
    if i == |c.groups| then [] else QueueTokens(order, c, i, 0) + GroupsTokens(order, c, i + 1)
  }

  function QueueTokens(order: set<string> -> seq<string>, c: Struct, i: nat, k: nat): seq<Token>
    requires i < |c.groups| && k <= |c.groups[i].queue|
    decreases c, 0, |c.groups[i].queue| - k
  {
    var g := c.groups[i];
    if k == |g.queue| then [] else ChildTokens(order, g.typeName, g.queue[k]) + QueueTokens(order, c, i, k + 1)
  }

  // ----- The writer prints those tokens -----

  /** A header lexes to its type name, as one identifier, then its own
      value and '{'. */
  lemma {:induction false} HeaderLexed(esc: string -> string, t: string, v: Option<Value>, tabs: int)
    requires Word(t)
    ensures Lexed(Header(esc, t, v, tabs)) == HeadTokens(t, v)
  {
    var a := [Piece(Tabs(tabs) + t, [Ident(t)])];
    var b := OwnPieces(esc, v);
    var c := [Mark(Tabs(tabs) + "{" + EOL, LBrace)];
    LexedAppend(a + b, c);
    LexedAppend(a, b);
    TextPair(a[0], a[0]);
    TextPair(c[0], c[0]);
    OwnLexed(esc, v);
  }

  /** A field line lexes to its name, as one identifier, then its value
      and ';'. */
  lemma {:induction false} FieldLexed(esc: string -> string, tabs: int, f: string, v: Value)
    requires Word(f) && Literal(v)
    ensures Lexed(FieldPieces(esc, tabs, f, v)) == FieldTokens(f, v)
  {
    var lead := Piece(Tabs(tabs) + "\t" + f, [Ident(f)]);
    var tail := [Mark(";", Semicolon), Blank(EOL)];
    assert FieldPieces(esc, tabs, f, v) == [lead] + FieldValue(esc, v) + tail;
    LexedAppend([lead] + FieldValue(esc, v), tail);
    LexedAppend([lead], FieldValue(esc, v));
    TextPair(lead, lead);
    TextPair(tail[0], tail[1]);
    FieldValueLexed(esc, v);
  }

  /** Fields that hold literals are printed as they are, with no fault. */
  lemma {:induction false} FieldsOutLexed(esc: string -> string, s: Struct, names: seq<string>, tabs: int)
    requires forall j :: 0 <= j < |names| ==> names[j] in s.fields && Word(names[j]) && Printable(s.fields[names[j]])
    ensures FieldsOut(esc, s, names, tabs).fault.None?
    ensures Lexed(FieldsOut(esc, s, names, tabs).pieces) == FieldsTokens(s.fields, names)
    decreases |names|
  {
    if names != [] {
      var f := names[0];
      var v := s.fields[f];
      assert GetValue(s, f) == Found(v);
      FieldsOutLexed(esc, s, names[1..], tabs);
      FieldLexed(esc, tabs, f, v);
      LexedAppend(FieldPieces(esc, tabs, f, v), FieldsOut(esc, s, names[1..], tabs).pieces);
    }
  }

  lemma {:induction false} CloseLexed(t: Option<string>, tabs: int)
    ensures Lexed((if t.Some? then [Mark(Tabs(tabs) + "}" + EOL, RBrace)] else []) + [Blank(EOL)]) ==
      if t.Some? then [Sym(RBrace)] else []
  {
    TextPair(Mark(Tabs(tabs) + "}" + EOL, RBrace), Blank(EOL));
    TextPair(Blank(EOL), Blank(EOL));
    if t.None? {
      assert ([] + [Blank(EOL)]) == [Blank(EOL)];
    }
  }

  lemma {:induction false} LexedAppend(a: seq<Piece>, b: seq<Piece>)
    ensures Lexed(a + b) == Lexed(a) + Lexed(b)
    decreases |a|
  {
    if a != [] {
      assert (a + b)[1..] == a[1..] + b;
      LexedAppend(a[1..], b);
    } else {
      assert a + b == b;
    }
  }

  /** A child's output is its header, its field lines, its children and
      its closing brace, in that order. */
  lemma {:induction false} ChildOutParts(esc: string -> string, order: set<string> -> seq<string>, t: string, c: Struct, tabs: int)
    requires Word(t)
    requires FieldsOut(esc, c, FieldOrder(order, c), tabs).fault.None?
    requires GroupsOut(esc, order, c, 0, tabs).fault.None?
    ensures StructOut(esc, order, Some(t), c, tabs).fault.None?
    ensures Lexed(StructOut(esc, order, Some(t), c, tabs).pieces) ==
      HeadTokens(t, c.value) +
      (Lexed(FieldsOut(esc, c, FieldOrder(order, c), tabs).pieces) +
       (Lexed(GroupsOut(esc, order, c, 0, tabs).pieces) + [Sym(RBrace)]))
  {
    var head := Header(esc, t, c.value, tabs);
    var close := [Mark(Tabs(tabs) + "}" + EOL, RBrace)] + [Blank(EOL)];
    var fo := FieldsOut(esc, c, FieldOrder(order, c), tabs);
    var go := GroupsOut(esc, order, c, 0, tabs);
    CloseLexed(Some(t), tabs);
    HeaderLexed(esc, t, c.value, tabs);
    LexedAppend(go.pieces, close);
    LexedAppend(fo.pieces, go.pieces + close);
    LexedAppend(head, fo.pieces + (go.pieces + close));
    assert StructOut(esc, order, Some(t), c, tabs) == Output(head + (fo.pieces + (go.pieces + close)), None);
  }

  /** The root's output is its field lines and its children. */
  lemma {:induction false} RootOutParts(esc: string -> string, order: set<string> -> seq<string>, c: Struct, tabs: int)
    requires FieldsOut(esc, c, FieldOrder(order, c), tabs).fault.None?
    requires GroupsOut(esc, order, c, 0, tabs).fault.None?
    ensures StructOut(esc, order, None, c, tabs).fault.None?
    ensures Lexed(StructOut(esc, order, None, c, tabs).pieces) ==
      Lexed(FieldsOut(esc, c, FieldOrder(order, c), tabs).pieces) + Lexed(GroupsOut(esc, order, c, 0, tabs).pieces)
  {
    var close := [Blank(EOL)];
    var fo := FieldsOut(esc, c, FieldOrder(order, c), tabs);
    var go := GroupsOut(esc, order, c, 0, tabs);
    TextPair(Blank(EOL), Blank(EOL));
    LexedAppend(go.pieces, close);
    assert Lexed(go.pieces) + [] == Lexed(go.pieces);
    LexedAppend(fo.pieces, go.pieces + close);
    assert [] + (fo.pieces + (go.pieces + close)) == fo.pieces + (go.pieces + close);
    assert StructOut(esc, order, None, c, tabs) == Output(fo.pieces + (go.pieces + close), None);
  }

  /** The `k`-th child of the `i`-th group prints without a fault, as the
      tokens of its child statement. */
  predicate ChildLexed(esc: string -> string, order: set<string> -> seq<string>,
                       c: Struct, i: nat, k: nat, tabs: int)
    requires i < |c.groups| && k < |c.groups[i].queue|
  {
    var out := StructOut(esc, order, Some(c.groups[i].typeName), c.groups[i].queue[k], tabs + 1);
    out.fault.None? && Lexed(out.pieces) == ChildTokens(order, c.groups[i].typeName, c.groups[i].queue[k])
  }

  /** Every child of `c` prints as its child statement. */
  predicate ChildrenLexed(esc: string -> string, order: set<string> -> seq<string>, c: Struct, tabs: int)
  {
    forall i, k :: 0 <= i < |c.groups| && 0 <= k < |c.groups[i].queue| ==> ChildLexed(esc, order, c, i, k, tabs)
  }

  /** export prints a writable tree without a fault, as the tokens of its
      body (the root) or of a child statement (every other struct). */
  lemma {:induction false} StructOutLexed(esc: string -> string, order: set<string> -> seq<string>,
                                          t: Option<string>, c: Struct, tabs: int)
    requires Lists(order) && Writable(c) && (t.Some? ==> Word(t.value))
    ensures StructOut(esc, order, t, c, tabs).fault.None?
    ensures Lexed(StructOut(esc, order, t, c, tabs).pieces) ==
      if t.Some? then ChildTokens(order, t.value, c) else BodyTokens(order, c)
    decreases c
  {
    var names := FieldOrder(order, c);
    assert ListsKeys(names, c.fields.Keys);
    FieldsOutLexed(esc, c, names, tabs);
    forall i, k | 0 <= i < |c.groups| && 0 <= k < |c.groups[i].queue|
      ensures ChildLexed(esc, order, c, i, k, tabs)
    {
      StructOutLexed(esc, order, Some(c.groups[i].typeName), c.groups[i].queue[k], tabs + 1);
    }
    GroupsOutLexed(esc, order, c, 0, tabs);
    if t.Some? {
      ChildOutParts(esc, order, t.value, c, tabs);
    } else {
      RootOutParts(esc, order, c, tabs);
    }
  }

  /** The child loop prints the children of the groups from the `i`-th on,
      group by group and each group in queue order. */
  lemma {:induction false} GroupsOutLexed(esc: string -> string, order: set<string> -> seq<string>,
                                          c: Struct, i: nat, tabs: int)
    requires i <= |c.groups|
    requires ChildrenLexed(esc, order, c, tabs)
    ensures GroupsOut(esc, order, c, i, tabs).fault.None?
    ensures Lexed(GroupsOut(esc, order, c, i, tabs).pieces) == GroupsTokens(order, c, i)
    decreases |c.groups| - i
  {
    if i < |c.groups| {
      QueueOutLexed(esc, order, c, i, 0, tabs);
      GroupsOutLexed(esc, order, c, i + 1, tabs);
      GroupsOutStep(esc, order, c, i, tabs);
    } else {
      GroupsOutEnd(esc, order, c, i, tabs);
    }
  }

  lemma {:induction false} GroupsOutEnd(esc: string -> string, order: set<string> -> seq<string>,
                                        c: Struct, i: nat, tabs: int)
    requires i == |c.groups|
    ensures GroupsOut(esc, order, c, i, tabs).fault.None?
    ensures Lexed(GroupsOut(esc, order, c, i, tabs).pieces) == GroupsTokens(order, c, i)
  {
  }

  lemma {:induction false} GroupsOutStep(esc: string -> string, order: set<string> -> seq<string>,
                     c: Struct, i: nat, tabs: int)
    requires i < |c.groups|
    requires QueueOut(esc, order, c, i, 0, tabs).fault.None? && GroupsOut(esc, order, c, i + 1, tabs).fault.None?
    requires Lexed(QueueOut(esc, order, c, i, 0, tabs).pieces) == QueueTokens(order, c, i, 0)
    requires Lexed(GroupsOut(esc, order, c, i + 1, tabs).pieces) == GroupsTokens(order, c, i + 1)
    ensures GroupsOut(esc, order, c, i, tabs).fault.None?
    ensures Lexed(GroupsOut(esc, order, c, i, tabs).pieces) == GroupsTokens(order, c, i)
  {
    LexedAppend(QueueOut(esc, order, c, i, 0, tabs).pieces, GroupsOut(esc, order, c, i + 1, tabs).pieces);
  }

  lemma {:induction false} QueueOutStep(esc: string -> string, order: set<string> -> seq<string>,
                     c: Struct, i: nat, k: nat, tabs: int)
    requires i < |c.groups| && k < |c.groups[i].queue|
    requires ChildLexed(esc, order, c, i, k, tabs)
    requires QueueOut(esc, order, c, i, k + 1, tabs).fault.None?
    requires Lexed(QueueOut(esc, order, c, i, k + 1, tabs).pieces) == QueueTokens(order, c, i, k + 1)
    ensures QueueOut(esc, order, c, i, k, tabs).fault.None?
    ensures Lexed(QueueOut(esc, order, c, i, k, tabs).pieces) == QueueTokens(order, c, i, k)
  {
    LexedAppend(StructOut(esc, order, Some(c.groups[i].typeName), c.groups[i].queue[k], tabs + 1).pieces,
                QueueOut(esc, order, c, i, k + 1, tabs).pieces);
  }

  /** The `i`-th group prints its children from the `k`-th on, in queue order. */
  lemma {:induction false} QueueOutLexed(esc: string -> string, order: set<string> -> seq<string>,
                                         c: Struct, i: nat, k: nat, tabs: int)
    requires i < |c.groups| && k <= |c.groups[i].queue|
    requires ChildrenLexed(esc, order, c, tabs)
    ensures QueueOut(esc, order, c, i, k, tabs).fault.None?
    ensures Lexed(QueueOut(esc, order, c, i, k, tabs).pieces) == QueueTokens(order, c, i, k)
    decreases |c.groups[i].queue| - k
  {
    if k < |c.groups[i].queue| {
      QueueOutLexed(esc, order, c, i, k + 1, tabs);
      QueueOutStep(esc, order, c, i, k, tabs);
    }
  }

  // ----- When export stops early -----

  /** getValue finds a value for every field of every struct in the tree. */
  predicate Resolves(s: Struct)
    decreases s
  {
    (forall f :: f in s.fields ==> GetValue(s, f).Found?) &&
    forall i, k :: 0 <= i < |s.groups| && 0 <= k < |s.groups[i].queue| ==> Resolves(s.groups[i].queue[k])
  }

  /** export completes without a fault exactly when every field of every
      struct in the tree resolves; otherwise it stops at the first field,
      in printing order, that does not. */
  lemma {:induction false} ExportFault(esc: string -> string, order: set<string> -> seq<string>, root: Struct)
    requires Lists(order)
    ensures Export(esc, order, root).fault.None? <==> Resolves(root)
  {
    StructOutFault(esc, order, None, root, -1);
  }

  /** A struct prints completely exactly when its fields and all of its
      descendants' fields resolve. */
  lemma {:induction false} StructOutFault(esc: string -> string, order: set<string> -> seq<string>,
                                          t: Option<string>, c: Struct, tabs: int)
    requires Lists(order)
    ensures StructOut(esc, order, t, c, tabs).fault.None? <==> Resolves(c)
    decreases c, 2
  {
    var names := FieldOrder(order, c);
    assert ListsKeys(names, c.fields.Keys);
    FieldsOutFault(esc, c, names, tabs);
    GroupsOutFault(esc, order, c, 0, tabs);
  }

  /** The child loop from the `i`-th group on completes exactly when every
      child it visits resolves. */
  lemma {:induction false} GroupsOutFault(esc: string -> string, order: set<string> -> seq<string>,
                                          c: Struct, i: nat, tabs: int)
    requires Lists(order) && i <= |c.groups|
    ensures GroupsOut(esc, order, c, i, tabs).fault.None? <==> GroupsResolve(c, i)
    decreases c, 1, |c.groups| - i
  {
    if i < |c.groups| {
      QueueOutFault(esc, order, c, i, 0, tabs);
      GroupsOutFault(esc, order, c, i + 1, tabs);
      GroupsFaultStep(esc, order, c, i, tabs);
    }
  }

  /** Every child of the groups from the `i`-th on resolves. */
  predicate GroupsResolve(c: Struct, i: nat)
  {
    forall j, k :: i <= j < |c.groups| && 0 <= k < |c.groups[j].queue| ==> Resolves(c.groups[j].queue[k])
  }

  /** Every child of the `i`-th group from the `k`-th on resolves. */
  predicate QueueResolves(c: Struct, i: nat, k: nat)
    requires i < |c.groups|
  {
    forall m :: k <= m < |c.groups[i].queue| ==> Resolves(c.groups[i].queue[m])
  }

  lemma {:induction false} GroupsFaultStep(esc: string -> string, order: set<string> -> seq<string>,
                                           c: Struct, i: nat, tabs: int)
    requires i < |c.groups|
    requires QueueOut(esc, order, c, i, 0, tabs).fault.None? <==> QueueResolves(c, i, 0)
    requires GroupsOut(esc, order, c, i + 1, tabs).fault.None? <==> GroupsResolve(c, i + 1)
    ensures GroupsOut(esc, order, c, i, tabs).fault.None? <==> GroupsResolve(c, i)
  {
  }

  /** The `i`-th group's loop from the `k`-th child on completes exactly
      when every child it visits resolves. */
  lemma {:induction false} QueueOutFault(esc: string -> string, order: set<string> -> seq<string>,
                                         c: Struct, i: nat, k: nat, tabs: int)
    requires Lists(order) && i < |c.groups| && k <= |c.groups[i].queue|
    ensures QueueOut(esc, order, c, i, k, tabs).fault.None? <==> QueueResolves(c, i, k)
    decreases c, 0, |c.groups[i].queue| - k
  {
    if k < |c.groups[i].queue| {
      StructOutFault(esc, order, Some(c.groups[i].typeName), c.groups[i].queue[k], tabs + 1);
      QueueOutFault(esc, order, c, i, k + 1, tabs);
    }
  }
}
