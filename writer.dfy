/** DLWriter.export: the text the writer prints for a struct tree. The
    output is kept as a sequence of printed pieces; each piece carries,
    beside its text, the tokens the DL lexer reads from that text, which
    is what the parser sees when the output is read back. */
module Writer {
  import opened Basics
  import opened Numbers
  import opened Values
  import opened Structs
  import opened Tokens

  /** A stretch of printed text and the tokens it lexes to. */
  datatype Piece = Piece(text: string, lexed: seq<Token>)

  /** Printed white space: nothing for the lexer. */
  function Blank(text: string): Piece
  {
    Piece(text, [])
  }

  /** Printed punctuation, possibly with white space around it. */
  function Mark(text: string, p: Punct): Piece
  {
    Piece(text, [Sym(p)])
  }

  /** The line separator println() writes. */
  const EOL: string := "\n"

  /** Why export stops early. A field whose reference chain ends at an
      absent name makes getValue return null and `dlv.getType()` throw a
      NullPointerException; a reference cycle keeps getValue looping
      forever. */
  datatype Fault = NullField(name: string) | Cycle(name: string)

  /** What export printed, and the fault that stopped it, if any. */
  datatype Output = Output(pieces: seq<Piece>, fault: Option<Fault>)

  /** Printing `a` and then, unless `a` was cut short, `b`. */
  function Then(a: Output, b: Output): Output
  {
    if a.fault.Some? then a else Output(a.pieces + b.pieces, b.fault)
  }

  /** The printed text. */
  function Text(ps: seq<Piece>): string
    decreases |ps|
  {
    if ps == [] then "" else ps[0].text + Text(ps[1..])
  }

  /** The token stream the lexer makes of the printed text. */
  function Lexed(ps: seq<Piece>): seq<Token>
    decreases |ps|
  {
    if ps == [] then [] else ps[0].lexed + Lexed(ps[1..])
  }

  lemma {:induction false} TextAppend(a: seq<Piece>, b: seq<Piece>)
    ensures Text(a + b) == Text(a) + Text(b)
    ensures Lexed(a + b) == Lexed(a) + Lexed(b)
    decreases |a|
  {
    if a != [] {
      assert (a + b)[1..] == a[1..] + b;
      TextAppend(a[1..], b);
    } else {
      assert a + b == b;
    }
  }

  lemma {:induction false} TextPair(p: Piece, q: Piece)
    ensures Text([p]) == p.text && Lexed([p]) == p.lexed
    ensures Text([p, q]) == p.text + q.text && Lexed([p, q]) == p.lexed + q.lexed
  {
    assert [p, q][1..] == [q];
    assert [q][1..] == [];
    assert [p][1..] == [];
  }

  // ----- Numbers and strings -----

  /** The number the writer prints: `(long)d` when `d - (long)d` is zero,
      None when the double itself is printed. */
  function NumberText(n: Num): string
  {
    match WrittenLong(n)
    case Some(x) => IntText(x)
    case None => Raw(n)
  }

  /** The number the lexer reads from NumberText: the long when one was
      printed, otherwise the double itself; a negative number lexes as
      '-' followed by its magnitude. */
  function NumberLexed(n: Num): seq<Token>
  {
    var x := match WrittenLong(n) case Some(y) => y case None => n;
    if x < 0 then [Sym(Minus), Number(-x)] else [Number(x)]
  }

  function NumberPiece(n: Num): Piece
  {
    Piece(NumberText(n), NumberLexed(n))
  }

  /** `"\"" + Common.withEscChars(s) + "\""`; `esc` is the escaper. The
      lexer is taken to undo the escaping, giving back `s`. */
  function StringPiece(esc: string -> string, s: string): Piece
  {
    Piece("\"" + esc(s) + "\"", [Str(s)])
  }

  function NumberPieces(d: seq<Num>): (r: seq<Piece>)
    ensures |r| == |d|
  {
    seq(|d|, i requires 0 <= i < |d| => NumberPiece(d[i]))
  }

  function StringPieces(esc: string -> string, ss: seq<string>): (r: seq<Piece>)
    ensures |r| == |ss|
  {
    seq(|ss|, i requires 0 <= i < |ss| => StringPiece(esc, ss[i]))
  }

  /** The element loop of an array: every element followed by ", ", the
      last one by "]". */
  function Elements(ps: seq<Piece>): seq<Piece>
    requires |ps| > 0
    decreases |ps|
  {
    if |ps| == 1 then [ps[0], Mark("]", RBrack)]
    else [ps[0], Mark(", ", Comma)] + Elements(ps[1..])
  }

  function Texts(ps: seq<Piece>): (r: seq<string>)
    ensures |r| == |ps|
  {
    seq(|ps|, i requires 0 <= i < |ps| => ps[i].text)
  }

  /** The element loop prints the elements separated by ", " and closed
      by "]". */
  lemma {:induction false} ElementsText(ps: seq<Piece>)
    requires |ps| > 0
    ensures Text(Elements(ps)) == Join(Texts(ps), ", ") + "]"
    decreases |ps|
  {
    if |ps| > 1 {
      ElementsText(ps[1..]);
      assert Texts(ps)[1..] == Texts(ps[1..]);
      TextPair(ps[0], Mark(", ", Comma));
      TextAppend([ps[0], Mark(", ", Comma)], Elements(ps[1..]));
    } else {
      TextPair(ps[0], Mark("]", RBrack));
    }
  }

  // ----- The header line of a struct -----

  /** The own-value part of the header: for a number or string array,
      nothing when it is empty, " v" for one element and " [a, b, ...]"
      otherwise, then a newline; a newline alone when there is no own
      value. An identifier value matches no case of the switch, so
      nothing at all is printed, not even the newline. */
  function OwnPieces(esc: string -> string, v: Option<Value>): seq<Piece>
  {
    match v
    case None => [Blank(EOL)]
    case Some(NumArr(d)) =>
      (if |d| == 0 then []
       else if |d| == 1 then [Blank(" "), NumberPiece(d[0])]
       else ArrayPieces(NumberPieces(d))) + [Blank(EOL)]
    case Some(StrArr(ss)) =>
      (if |ss| == 0 then []
       else if |ss| == 1 then [Blank(" "), StringPiece(esc, ss[0])]
       else ArrayPieces(StringPieces(esc, ss))) + [Blank(EOL)]
    case Some(Ref(_)) => []
  }

  /** `tabstr + type`, the own value, and the line `tabstr + "{"`. */
  function Header(esc: string -> string, t: string, v: Option<Value>, tabs: int): seq<Piece>
  {
    [Piece(Tabs(tabs) + t, [Ident(t)])] + OwnPieces(esc, v) + [Mark(Tabs(tabs) + "{" + EOL, LBrace)]
  }

  // ----- Field lines -----

  /** `" [" + ...`: the bracketed form of an array of two or more. */
  function ArrayPieces(ps: seq<Piece>): seq<Piece>
    requires |ps| > 0
  {
    [Mark(" [", LBrack)] + Elements(ps)
  }

  /** The value part of a field line: " 0" for an empty number array,
      ` ""` for an empty string array, " v" for one element and the
      bracketed form otherwise. */
  function FieldValue(esc: string -> string, v: Value): seq<Piece>
    requires !v.Ref?
  {
    match v
    case NumArr(d) =>
      if |d| == 0 then [Piece(" 0", [Number(0)])]
      else if |d| == 1 then [Blank(" "), NumberPiece(d[0])]
      else ArrayPieces(NumberPieces(d))
    case StrArr(ss) =>
      if |ss| == 0 then [Piece(" \"\"", [Str("")])]
      else if |ss| == 1 then [Blank(" "), StringPiece(esc, ss[0])]
      else ArrayPieces(StringPieces(esc, ss))
  }

  /** The line for field `name` whose looked-up value is `v`: one tab more
      than the struct's own indentation, the name, the value, ";" and a
      newline. An identifier value would print its name with neither ";"
      nor newline; getValue never yields one. */
  function FieldPieces(esc: string -> string, tabs: int, name: string, v: Value): seq<Piece>
  {
    var lead := Piece(Tabs(tabs) + "\t" + name, [Ident(name)]);
    match v
    case Ref(n) => [lead, Piece(" " + n, [Ident(n)])]
    case _ => [lead] + FieldValue(esc, v) + [Mark(";", Semicolon), Blank(EOL)]
  }

  /** `for (String s : dls.getAllFields())`, in the order `names`: each
      field is looked up with getValue(s), which follows references. */
  function FieldsOut(esc: string -> string, s: Struct, names: seq<string>, tabs: int): Output
    decreases |names|
  {
    if names == [] then Output([], None)
    else match GetValue(s, names[0])
      case Missing => Output([], Some(NullField(names[0])))
      case Diverges => Output([], Some(Cycle(names[0])))
      case Found(v) => Then(Output(FieldPieces(esc, tabs, names[0], v), None), FieldsOut(esc, s, names[1..], tabs))
  }

  // ----- export -----

  /** export(type, dls, out, tabs). `order` is the iteration order of the
      field table's key set; the groups are visited in their order, each
      queue in insertion order, one tab deeper. */
  function StructOut(esc: string -> string, order: set<string> -> seq<string>,
                     t: Option<string>, s: Struct, tabs: int): Output
    decreases s, 2
  {
    var head := if t.Some? then Header(esc, t.value, s.value, tabs) else [];
    var close := (if t.Some? then [Mark(Tabs(tabs) + "}" + EOL, RBrace)] else []) + [Blank(EOL)];
    Then(Output(head, None),
      Then(FieldsOut(esc, s, order(s.fields.Keys), tabs),
        Then(GroupsOut(esc, order, s, 0, tabs), Output(close, None))))
  }

  /** The children of the groups from the `i`-th on. */
  function GroupsOut(esc: string -> string, order: set<string> -> seq<string>,
                     s: Struct, i: nat, tabs: int): Output
    requires i <= |s.groups|
    decreases s, 1, |s.groups| - i
  {
    if i == |s.groups| then Output([], None)
    else Then(QueueOut(esc, order, s, i, 0, tabs), GroupsOut(esc, order, s, i + 1, tabs))
  }

  /** The children of the `i`-th group from the `k`-th on. */
  function QueueOut(esc: string -> string, order: set<string> -> seq<string>,
                    s: Struct, i: nat, k: nat, tabs: int): Output
    requires i < |s.groups| && k <= |s.groups[i].queue|
    decreases s, 0, |s.groups[i].queue| - k
  {
    var g := s.groups[i];
    if k == |g.queue| then Output([], None)
    else Then(StructOut(esc, order, Some(g.typeName), g.queue[k], tabs + 1),
              QueueOut(esc, order, s, i, k + 1, tabs))
  }

  /** export(dlst, out): the root, with no type and `tabs` = -1. */
  function Export(esc: string -> string, order: set<string> -> seq<string>, root: Struct): Output
  {
    StructOut(esc, order, None, root, -1)
  }

  /** The tabstr loop. */
  method TabString(tabs: int) returns (tabstr: string)
    ensures tabstr == Tabs(tabs)
  {
    tabstr := "";
    var i := 0;
    while i < tabs
      invariant 0 <= i && (tabs >= 0 ==> i <= tabs) && (tabs < 0 ==> i == 0)
      invariant tabstr == Tabs(i)
    {
      tabstr := tabstr + "\t";
      i := i + 1;
    }
  }

  // ----- What the printed text looks like -----

  /** A number prints as its own decimal text on the long range; the
      double 2^63, just past it, prints as LONG_MAX and is read back as
      LONG_MAX. */
  lemma {:induction false} NumberFormat(n: Num)
    ensures LONG_MIN <= n <= LONG_MAX ==> NumberText(n) == IntText(n)
    ensures LONG_MIN <= n <= LONG_MAX ==> NumberLexed(n) == if n < 0 then [Sym(Minus), Number(-n)] else [Number(n)]
    ensures n == LONG_MAX + 1 ==> NumberText(n) == IntText(LONG_MAX) && NumberLexed(n) == [Number(LONG_MAX)]
    ensures WrittenLong(n).None? ==> NumberText(n) == Raw(n)
  {
  }

  /** The value part of a field line by the number of elements. */
  lemma {:induction false} FieldValueText(esc: string -> string, v: Value)
    requires !v.Ref?
    ensures v == NumArr([]) ==> Text(FieldValue(esc, v)) == " 0"
    ensures v == StrArr([]) ==> Text(FieldValue(esc, v)) == " \"\""
    ensures v.NumArr? && |v.nums| == 1 ==> Text(FieldValue(esc, v)) == " " + NumberText(v.nums[0])
    ensures v.StrArr? && |v.strs| == 1 ==> Text(FieldValue(esc, v)) == " \"" + esc(v.strs[0]) + "\""
    ensures v.NumArr? && |v.nums| > 1 ==>
      Text(FieldValue(esc, v)) == " [" + Join(Texts(NumberPieces(v.nums)), ", ") + "]"
    ensures v.StrArr? && |v.strs| > 1 ==>
      Text(FieldValue(esc, v)) == " [" + Join(Texts(StringPieces(esc, v.strs)), ", ") + "]"
  {
    var ps := if v.NumArr? then NumberPieces(v.nums) else StringPieces(esc, v.strs);
    if |ps| == 0 {
      TextPair(FieldValue(esc, v)[0], Blank(""));
    } else if |ps| == 1 {
      TextPair(Blank(" "), ps[0]);
    } else {
      ElementsText(ps);
      TextPair(Mark(" [", LBrack), Blank(""));
      TextAppend([Mark(" [", LBrack)], Elements(ps));
    }
  }

  /** Every number or string field line is the indented name, the value
      and ";" with a newline. */
  lemma {:induction false} FieldLineText(esc: string -> string, tabs: int, name: string, v: Value)
    requires !v.Ref?
    ensures Text(FieldPieces(esc, tabs, name, v)) == Tabs(tabs) + "\t" + name + Text(FieldValue(esc, v)) + ";" + EOL
  {
    var lead := Piece(Tabs(tabs) + "\t" + name, [Ident(name)]);
    var end := [Mark(";", Semicolon), Blank(EOL)];
    TextPair(lead, Blank(""));
    TextPair(Mark(";", Semicolon), Blank(EOL));
    TextAppend([lead], FieldValue(esc, v));
    TextAppend([lead] + FieldValue(esc, v), end);
  }

  /** The root is exported with `tabs` = -1 and its children with 0, so
      the fields of both are indented by exactly one tab; every deeper
      level adds one tab to the header and to the fields. */
  lemma {:induction false} Indentation(esc: string -> string, name: string, v: Value, tabs: int)
    ensures FieldPieces(esc, -1, name, v)[0].text == "\t" + name
    ensures FieldPieces(esc, 0, name, v)[0].text == "\t" + name
    ensures tabs >= 0 ==> FieldPieces(esc, tabs, name, v)[0].text == Tabs(tabs + 1) + name
  {
    if tabs >= 0 {
      assert Tabs(tabs + 1) == Tabs(tabs) + "\t";
    }
  }

  /** A child's header is indented by one tab more than its parent's
      `tabs`, and starts with its type name. */
  lemma {:induction false} ChildHeader(esc: string -> string, order: set<string> -> seq<string>,
                    s: Struct, i: nat, tabs: int)
    requires i < |s.groups| && |s.groups[i].queue| > 0
    ensures var out := QueueOut(esc, order, s, i, 0, tabs);
      |out.pieces| > 0 &&
      out.pieces[0] == Piece(Tabs(tabs + 1) + s.groups[i].typeName, [Ident(s.groups[i].typeName)])
  {
    var g := s.groups[i];
    var c := StructOut(esc, order, Some(g.typeName), g.queue[0], tabs + 1);
    assert c.pieces[0] == Header(esc, g.typeName, g.queue[0].value, tabs + 1)[0];
  }

  /** With an identifier as own value the header prints `type{` on one
      line: the lexer sees a type name followed by '{', exactly as for a
      struct with no own value. */
  lemma {:induction false} IdOwnValueHeader(esc: string -> string, t: string, n: string, tabs: int)
    ensures Text(Header(esc, t, Some(Ref(n)), tabs)) == Tabs(tabs) + t + Tabs(tabs) + "{" + EOL
    ensures Lexed(Header(esc, t, Some(Ref(n)), tabs)) == [Ident(t), Sym(LBrace)]
    ensures Lexed(Header(esc, t, Some(Ref(n)), tabs)) == Lexed(Header(esc, t, None, tabs))
  {
    var p := Piece(Tabs(tabs) + t, [Ident(t)]);
    var q := Mark(Tabs(tabs) + "{" + EOL, LBrace);
    HeaderShapes(esc, t, n, tabs, p, q);
    IdHeaderPrinted(esc, t, n, tabs, p, q);
    BareHeaderLexed(esc, t, n, tabs, p, q);
  }

  lemma {:induction false} IdHeaderPrinted(esc: string -> string, t: string, n: string, tabs: int, p: Piece, q: Piece)
    requires p == Piece(Tabs(tabs) + t, [Ident(t)]) && q == Mark(Tabs(tabs) + "{" + EOL, LBrace)
    requires Header(esc, t, Some(Ref(n)), tabs) == [p, q]
    ensures Text(Header(esc, t, Some(Ref(n)), tabs)) == Tabs(tabs) + t + Tabs(tabs) + "{" + EOL
    ensures Lexed(Header(esc, t, Some(Ref(n)), tabs)) == [Ident(t), Sym(LBrace)]
  {
    TextPair(p, q);
  }

  lemma {:induction false} BareHeaderLexed(esc: string -> string, t: string, n: string, tabs: int, p: Piece, q: Piece)
    requires p == Piece(Tabs(tabs) + t, [Ident(t)]) && q == Mark(Tabs(tabs) + "{" + EOL, LBrace)
    requires Header(esc, t, None, tabs) == [p] + [Blank(EOL), q]
    ensures Lexed(Header(esc, t, None, tabs)) == [Ident(t), Sym(LBrace)]
  {
    TextPair(p, q);
    TextPair(Blank(EOL), q);
    TextAppend([p], [Blank(EOL), q]);
  }

  /** The pieces of a header line, with an identifier own value and with none. */
  lemma {:induction false} HeaderShapes(esc: string -> string, t: string, n: string, tabs: int, p: Piece, q: Piece)
    requires p == Piece(Tabs(tabs) + t, [Ident(t)]) && q == Mark(Tabs(tabs) + "{" + EOL, LBrace)
    ensures Header(esc, t, Some(Ref(n)), tabs) == [p, q]
    ensures Header(esc, t, None, tabs) == [p] + [Blank(EOL), q]
  {
  }

  /** A struct with no fields and no children: the root prints a blank
      line only, a child its header, "}" and a blank line. */
  lemma {:induction false} EmptyStructText(esc: string -> string, order: set<string> -> seq<string>, tabs: int)
    requires order(Empty.fields.Keys) == []
    ensures Text(Export(esc, order, Empty).pieces) == EOL && Lexed(Export(esc, order, Empty).pieces) == []
    ensures Export(esc, order, Empty).fault == None
  {
  }

  // ----- Faults -----

  /** The field loop completes exactly when every field's reference chain
      ends at a value; otherwise it stops at the first field whose chain
      does not, with nothing printed for that field. */
  lemma {:induction false} FieldsOutFault(esc: string -> string, s: Struct, names: seq<string>, tabs: int)
    ensures FieldsOut(esc, s, names, tabs).fault == None <==>
      forall j :: 0 <= j < |names| ==> GetValue(s, names[j]).Found?
    ensures FieldsOut(esc, s, names, tabs).fault.Some? ==>
      exists j :: FaultAt(s, names, j, FieldsOut(esc, s, names, tabs).fault)
    decreases |names|
  {
    if names != [] {
      var r := FieldsOut(esc, s, names[1..], tabs);
      FieldsOutFault(esc, s, names[1..], tabs);
      if GetValue(s, names[0]).Found? {
        FoundFieldStep(esc, s, names, tabs, r);
      } else {
        assert FaultAt(s, names, 0, FieldsOut(esc, s, names, tabs).fault);
      }
    }
  }

  /** Field `names[j]` is the first whose value getValue cannot produce,
      and `f` is the fault it raises. */
  predicate FaultAt(s: Struct, names: seq<string>, j: int, f: Option<Fault>)
  {
    0 <= j < |names| && (forall m :: 0 <= m < j ==> GetValue(s, names[m]).Found?) &&
    f == Some(if GetValue(s, names[j]).Missing? then NullField(names[j]) else Cycle(names[j]))
  }

  /** FieldsOutFault when the first field is printed: the outcome is the
      outcome for the rest. */
  lemma {:induction false} FoundFieldStep(esc: string -> string, s: Struct, names: seq<string>, tabs: int, r: Output)
    requires names != [] && GetValue(s, names[0]).Found? && r == FieldsOut(esc, s, names[1..], tabs)
    requires r.fault == None <==> forall j :: 0 <= j < |names[1..]| ==> GetValue(s, names[1..][j]).Found?
    requires r.fault.Some? ==> exists j :: FaultAt(s, names[1..], j, r.fault)
    ensures FieldsOut(esc, s, names, tabs).fault == r.fault
    ensures r.fault == None <==> forall j :: 0 <= j < |names| ==> GetValue(s, names[j]).Found?
    ensures r.fault.Some? ==> exists j :: FaultAt(s, names, j, r.fault)
  {
    if r.fault.Some? {
      var j :| FaultAt(s, names[1..], j, r.fault);
      FaultShifts(s, names, j, r.fault);
    } else {
      forall j | 0 <= j < |names| ensures GetValue(s, names[j]).Found? {
        if j > 0 {
          assert names[j] == names[1..][j - 1];
        }
      }
    }
  }

  lemma {:induction false} FaultShifts(s: Struct, names: seq<string>, j: int, f: Option<Fault>)
    requires names != [] && GetValue(s, names[0]).Found? && FaultAt(s, names[1..], j, f)
    ensures FaultAt(s, names, j + 1, f)
  {
    forall m | 0 <= m < j + 1 ensures GetValue(s, names[m]).Found? {
      if m > 0 {
        assert names[m] == names[1..][m - 1];
      }
    }
  }

  /** A field holding a reference to an absent name stops the export
      with a NullPointerException before anything of its line is printed. */
  lemma {:induction false} DanglingReference(esc: string -> string, s: Struct, f: string, g: string, tabs: int)
    requires f in s.fields && s.fields[f] == Ref(g) && g !in s.fields
    ensures FieldsOut(esc, s, [f], tabs) == Output([], Some(NullField(f)))
  {
    assert {} + {f} == {f};
    assert GetValue(s, f) == Chase(s.fields, g, {f});
  }

  /** A field holding a reference prints the value of the field it names,
      under its own name. */
  lemma {:induction false} ReferencePrintsTarget(esc: string -> string, s: Struct, f: string, g: string, tabs: int)
    requires f in s.fields && s.fields[f] == Ref(g) && g in s.fields && !s.fields[g].Ref? && f != g
    ensures FieldsOut(esc, s, [f], tabs) == Output(FieldPieces(esc, tabs, f, s.fields[g]), None)
  {
    assert {} + {f} == {f};
    assert GetValue(s, f) == Chase(s.fields, g, {f});
  }
}
