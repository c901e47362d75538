/** DLReader.DLParser as Java runs it: an object whose fields are the
    struct, name and value stacks, the archetype table, the token cursor
    and the recorded messages, changed in place by one method per grammar
    rule. Each method is proved to compute what the rule of the same name
    in Grammar computes, so every property proved of the rules holds of
    the parser. The struct stack holds paths into the tree being filled
    where Java holds references into it. */
module Reader {
  import opened Basics
  import opened Values
  import opened Structs
  import opened Tokens
  import opened Grammar
  import opened GrammarFacts

  class Parser {
    /** The token stream the lexer produces. */
    const tokens: seq<Token>
    /** The struct handed to the parser, as filled so far. */
    var tree: Struct
    /** structStack, top last; stackTop is the struct at the last path. */
    var structStack: seq<Path>
    var currentName: seq<string>
    var currentValue: seq<Value>
    var archetypeTable: map<string, seq<string>>
    /** The index of currentToken(); |tokens| once the stream is used up. */
    var cursor: nat
    /** The messages of addErrorMessage and addTypeError, in order. */
    var errors: seq<Msg>

    function State(): PState
      reads this
    {
      PState(tree, structStack, currentName, currentValue, archetypeTable, cursor, errors)
    }

    /** new DLParser(dls, lexer), then the nextToken() that read() starts
        with. */
    constructor (ts: seq<Token>, root: Struct)
      ensures tokens == ts && State() == Start(root)
    {
      tokens := ts;
      tree := root;
      structStack := [[]];
      currentName := [];
      currentValue := [];
      archetypeTable := map[];
      cursor := 0;
      errors := [];
    }

    // ----- Token matching -----

    /** matchTypeStrict(p). */
    method MatchStrict(p: Punct) returns (ok: bool)
      requires cursor <= |tokens|
      modifies this
      ensures (ok, State()) == Strict(tokens, old(State()), p)
    {
      if cursor < |tokens| && tokens[cursor] == Sym(p) {
        cursor := cursor + 1;
        ok := true;
      } else {
        errors := errors + [UnexpectedToken([p])];
        ok := false;
      }
    }

    // ----- Values -----

    /** NumberToken(negate): pushes the number, negated when asked. */
    method NumberToken(negate: bool) returns (ok: bool)
      requires cursor <= |tokens|
      modifies this
      ensures (ok, State()) == Grammar.NumberToken(tokens, old(State()), negate)
    {
      if cursor < |tokens| && tokens[cursor].Number? {
        var n := tokens[cursor].n;
        currentValue := currentValue + [NumArr([if negate then -n else n])];
        cursor := cursor + 1;
        ok := true;
      } else {
        errors := errors + [ExpectedNumber];
        ok := false;
      }
    }

    /** Number(). */
    method Number() returns (ok: bool)
      requires cursor <= |tokens|
      modifies this
      ensures (ok, State()) == NumberRule(tokens, old(State()))
    {
      if cursor < |tokens| && tokens[cursor] == Sym(Minus) {
        cursor := cursor + 1;
        ok := NumberToken(true);
      } else {
        ok := NumberToken(false);
      }
    }

    /** StringArray(): appends each further string to the array on top of
        the value stack. */
    method StringArray() returns (ok: bool)
      requires cursor <= |tokens| && |currentValue| > 0 && currentValue[|currentValue| - 1].StrArr?
      modifies this
      ensures (ok, State()) == StringArrayRule(tokens, old(State()))
      decreases |tokens| - cursor
    {
      if cursor < |tokens| && tokens[cursor] == Sym(Comma) {
        ghost var s := State();
        cursor := cursor + 1;
        if !(cursor < |tokens| && tokens[cursor].Str?) {
          errors := errors + [ExpectedString];
          return false;
        }
        ghost var s1 := State();
        var top := |currentValue| - 1;
        currentValue := currentValue[top := Values.Apply(currentValue[top], Strings([tokens[cursor].text]))];
        ghost var s2 := State();
        cursor := cursor + 1;
        StringAppended(tokens, s, s1, s2, State());
        ok := StringArray();
      } else {
        ok := true;
      }
    }

    /** NumberArray(): each further number is parsed onto the stack, popped
        and appended to the array below it. */
    method NumberArray() returns (ok: bool)
      requires cursor <= |tokens| && |currentValue| > 0 && currentValue[|currentValue| - 1].NumArr?
      modifies this
      ensures (ok, State()) == NumberArrayRule(tokens, old(State()))
      decreases |tokens| - cursor
    {
      if cursor < |tokens| && tokens[cursor] == Sym(Comma) {
        ghost var s := State();
        cursor := cursor + 1;
        ok := Number();
        if !ok {
          return;
        }
        ghost var s1 := State();
        var val := currentValue[|currentValue| - 1];
        currentValue := currentValue[..|currentValue| - 1];
        ghost var s2 := State();
        var top := |currentValue| - 1;
        currentValue := currentValue[top := Values.Apply(currentValue[top], Numbers([val.nums[0]]))];
        NumberAppended(tokens, s, s1, s2, State());
        ok := NumberArray();
      } else {
        ok := true;
      }
    }

    /** ArrayValues(). */
    method ArrayValues() returns (ok: bool)
      requires cursor <= |tokens|
      modifies this
      ensures (ok, State()) == Grammar.ArrayValues(tokens, old(State()))
    {
      if cursor < |tokens| && tokens[cursor].Str? {
        currentValue := currentValue + [StrArr([tokens[cursor].text])];
        cursor := cursor + 1;
        ok := StringArray();
        return;
      }
      ok := Number();
      if !ok {
        return;
      }
      ok := NumberArray();
    }

    /** Value(): pushes one value on the value stack. */
    method Value() returns (ok: bool)
      requires cursor <= |tokens|
      modifies this
      ensures (ok, State()) == ValueRule(tokens, old(State()))
    {
      if cursor < |tokens| && tokens[cursor] == Sym(LBrack) {
        cursor := cursor + 1;
        ok := ArrayValues();
        if !ok {
          return;
        }
        ok := MatchStrict(RBrack);
      } else if cursor < |tokens| && tokens[cursor].Str? {
        currentValue := currentValue + [StrArr([tokens[cursor].text])];
        cursor := cursor + 1;
        ok := true;
      } else {
        ok := Number();
        if !ok {
          errors := errors + [ExpectedValue];
        }
      }
    }

    /** ValueListPrime(). */
    method ValueListPrime() returns (ok: bool)
      requires cursor <= |tokens|
      modifies this
      ensures (ok, State()) == ValueListRest(tokens, old(State()))
      decreases |tokens| - cursor
    {
      if cursor < |tokens| && tokens[cursor] == Sym(Comma) {
        cursor := cursor + 1;
        ok := Value();
        if !ok {
          errors := errors + [ExpectedValue];
          return false;
        }
        ok := ValueListPrime();
      } else {
        ok := true;
      }
    }

    /** ValueList(). */
    method ValueList() returns (ok: bool)
      requires cursor <= |tokens|
      modifies this
      ensures (ok, State()) == Grammar.ValueList(tokens, old(State()))
    {
      ok := Value();
      if !ok {
        return;
      }
      ok := ValueListPrime();
    }

    // ----- Archetypes -----

    /** IDList(). */
    method IDList() returns (ok: bool)
      requires cursor <= |tokens|
      modifies this
      ensures (ok, State()) == IdList(tokens, old(State()))
      decreases |tokens| - cursor, 1
    {
      if cursor < |tokens| && tokens[cursor].Ident? {
        currentName := currentName + [tokens[cursor].id];
        cursor := cursor + 1;
        ok := IDListPrime();
      } else {
        errors := errors + [ExpectedArchetypeField];
        ok := false;
      }
    }

    /** IDListPrime(). */
    method IDListPrime() returns (ok: bool)
      requires cursor <= |tokens|
      modifies this
      ensures (ok, State()) == IdListRest(tokens, old(State()))
      decreases |tokens| - cursor, 0
    {
      if cursor < |tokens| && tokens[cursor] == Sym(Comma) {
        cursor := cursor + 1;
        ok := IDList();
      } else {
        ok := true;
      }
    }

    /** ArchetypeDecl(): after the parameter list, the loop pops every
        name above the bottom one into `archids`, last parameter first,
        and the bottom name is declared with them. */
    method ArchetypeDecl() returns (ok: bool)
      requires cursor <= |tokens| && |currentName| > 0
      modifies this
      ensures (ok, State()) == Grammar.ArchetypeDecl(tokens, old(State()))
    {
      ok := MatchStrict(LParen);
      if !ok {
        return;
      }
      ok := IDList();
      if !ok {
        return;
      }
      ok := MatchStrict(RParen);
      if !ok {
        return;
      }
      var archids := PopParams();
      archetypeTable := archetypeTable[currentName[0] := archids[..]];
      currentName := [];
    }

    /** The loop `while (currentName.size() - 1 > 0) archids[i--] =
        currentName.pop()` of ArchetypeDecl(): every name above the bottom
        one moves into a new array, in the order they were pushed. */
    method PopParams() returns (archids: array<string>)
      requires |currentName| > 0
      modifies this
      ensures fresh(archids) && archids[..] == old(currentName)[1..]
      ensures State() == old(State()).(names := old(currentName)[..1])
    {
      ghost var full := currentName;
      archids := new string[|currentName| - 1];
      var i := archids.Length - 1;
      while |currentName| - 1 > 0
        invariant 1 <= |currentName| <= |full| && currentName == full[..|currentName|]
        invariant i == |currentName| - 2 && archids.Length == |full| - 1
        invariant forall j :: |currentName| - 1 <= j < archids.Length ==> archids[j] == full[j + 1]
        invariant State() == old(State()).(names := currentName)
        decreases |currentName|
      {
        archids[i] := currentName[|currentName| - 1];
        currentName := currentName[..|currentName| - 1];
        i := i - 1;
      }
      assert archids[..] == full[1..];
    }

    /** ArchetypeClause(): after the value list, the loop
        `while (i >= 0) stackTop.put(params[i], currentValue.pop())`
        binds the parsed values to the leading parameters. */
    method ArchetypeClause() returns (ok: bool)
      requires cursor <= |tokens| && |structStack| > 0 && |currentName| > 0
      modifies this
      ensures (ok, State()) == Grammar.ArchetypeClause(tokens, old(State()))
    {
      ok := MatchStrict(LParen);
      if !ok {
        return;
      }
      var startSize := |currentValue|;
      ok := ValueList();
      if !ok {
        return;
      }
      ok := MatchStrict(RParen);
      if !ok {
        return;
      }
      var archName := currentName[|currentName| - 1];
      if archName !in archetypeTable {
        errors := errors + [UndeclaredArchetype(archName)];
        return false;
      }
      var params := archetypeTable[archName];
      if |currentValue| - startSize > |params| {
        errors := errors + [TooManyValues(archName, |params|)];
        return false;
      }
      BindValues(params, |currentValue| - startSize - 1);
      ok := true;
    }

    /** The loop `while (i >= 0) stackTop.put(params[i], currentValue.pop())`
        of ArchetypeClause(), from `i == last` down. */
    method BindValues(params: seq<string>, last: int)
      requires |structStack| > 0 && -1 <= last < |params| && last < |currentValue|
      modifies this
      ensures State() == BindParams(old(State()), params, last)
    {
      var i := last;
      while i >= 0
        invariant -1 <= i < |params| && i < |currentValue| && |structStack| > 0
        invariant BindParams(State(), params, i) == BindParams(old(State()), params, last)
        decreases i + 1
      {
        ghost var st := State();
        var top := structStack[|structStack| - 1];
        tree := ReplaceAt(tree, top, PutField(NodeAt(tree, top), params[i], Some(currentValue[|currentValue| - 1])));
        ghost var st1 := State();
        currentValue := currentValue[..|currentValue| - 1];
        BindStep(st, st1, State(), params, i);
        i := i - 1;
      }
    }

    // ----- Inheritance -----

    /** InheritClause(): `: type value` names an already parsed sibling of
        the wanted type by its own value; its contents are copied into the
        struct being built (see ResolveInherit). */
    method InheritClause() returns (ok: bool)
      requires cursor <= |tokens| && |structStack| > 1
      modifies this
      ensures (ok, State()) == Grammar.InheritClause(tokens, old(State()))
    {
      ghost var s := State();
      ok := MatchStrict(Colon);
      if !ok {
        return;
      }
      if !(cursor < |tokens| && tokens[cursor].Ident?) {
        errors := errors + [ExpectedIdentifier];
        return false;
      }
      ghost var s1 := State();
      assert s1 == Next(s) && At(tokens, s, Colon);
      ghost var t := tokens[cursor].id;
      assert s.pos + 1 < |tokens| && tokens[s.pos] == Sym(Colon) && tokens[s.pos + 1] == Ident(t);
      currentName := currentName + [tokens[cursor].id];
      cursor := cursor + 1;
      assert State() == Next(PushName(s1, t));
      ok := Value();
      if !ok {
        return;
      }
      ok := ResolveInherit(s, t);
    }

    /** The rest of InheritClause() once the value is read: the search
        among the siblings of the new struct, then the copy or the
        message. `s` is the state the clause started from and `t` the type
        name it read. */
    method ResolveInherit(ghost s: PState, ghost t: string) returns (ok: bool)
      requires |s.stack| > 1 && s.pos + 1 < |tokens| && tokens[s.pos] == Sym(Colon) && tokens[s.pos + 1] == Ident(t)
      requires ValueRule(tokens, Next(PushName(Next(s), t))) == (true, State())
      modifies this
      ensures (ok, State()) == Grammar.InheritClause(tokens, s)
    {
      ghost var s3 := State();
      var structName := currentName[|currentName| - 1];
      var dlv := currentValue[|currentValue| - 1];
      currentValue := currentValue[..|currentValue| - 1];
      var last := structStack[|structStack| - 1];
      structStack := structStack[..|structStack| - 1];
      ghost var s4 := State();
      var structList := GetStructs(NodeAt(tree, structStack[|structStack| - 1]), structName);
      assert structList == GetStructs(TopNode(s4), structName);
      var found := FindInherited(structList, dlv);
      currentName := currentName[..|currentName| - 1];
      structStack := structStack + [last];
      InheritStacks(s, t, s3, s4, State());
      Inheritance(tokens, s, t, s3, structList);
      if found.Some? {
        var top := structStack[|structStack| - 1];
        var node := NodeAt(tree, top);
        tree := ReplaceAt(tree, top, SetValue(CopyInto(structList[found.value], node), node.value));
        ok := true;
      } else {
        errors := errors + [InheritTargetMissing(structName, ToString(dlv))];
        ok := false;
      }
    }

    // ----- Structures -----

    /** StructList(). */
    method StructList() returns (ok: bool)
      requires cursor <= |tokens| && |structStack| > 0 && currentName == []
      modifies this
      ensures (ok, State()) == Grammar.StructList(tokens, old(State()))
      decreases |tokens| - cursor, 1
    {
      if cursor == |tokens| {
        return true;
      }
      if tokens[cursor] == Sym(Period) {
        cursor := cursor + 1;
        if !(cursor < |tokens| && tokens[cursor].Ident?) {
          errors := errors + [ExpectedIdentifier];
          return false;
        }
        currentName := currentName + [tokens[cursor].id];
        cursor := cursor + 1;
        ok := ArchetypeDecl();
        if !ok {
          return;
        }
        ok := MatchStrict(Semicolon);
        if !ok {
          return;
        }
        ok := StructList();
        return;
      }
      ok := StructDecl();
    }

    /** StructDecl(). */
    method StructDecl() returns (ok: bool)
      requires cursor <= |tokens| && |structStack| > 0
      modifies this
      ensures (ok, State()) == Grammar.StructDecl(tokens, old(State()))
      decreases |tokens| - cursor, 0
    {
      if cursor < |tokens| && tokens[cursor].Ident? {
        currentName := currentName + [tokens[cursor].id];
        cursor := cursor + 1;
        ok := StructTail();
      } else {
        ok := false;
      }
    }

    /** InnerStructList(). */
    method InnerStructList() returns (ok: bool)
      requires cursor <= |tokens| && |structStack| > 0
      modifies this
      ensures (ok, State()) == Grammar.InnerStructList(tokens, old(State()))
      decreases |tokens| - cursor, 0
    {
      if cursor < |tokens| && tokens[cursor].Ident? {
        currentName := currentName + [tokens[cursor].id];
        cursor := cursor + 1;
        ok := StructTail();
        if !ok {
          return;
        }
        ok := InnerStructList();
      } else {
        ok := true;
      }
    }

    /** pushStruct(stackTop.putStruct(currentName.peek())). */
    method OpenChild()
      requires |structStack| > 0 && |currentName| > 0
      modifies this
      ensures State() == Grammar.OpenChild(old(State()), PeekName(old(State())))
    {
      var t := currentName[|currentName| - 1];
      var top := structStack[|structStack| - 1];
      var node := NodeAt(tree, top);
      var index := |GetStructs(node, t)|;
      tree := ReplaceAt(tree, top, PutStruct(node, t, Empty));
      structStack := structStack + [top + [Step(t, index)]];
    }

    /** StructTail(). */
    method StructTail() returns (ok: bool)
      requires cursor <= |tokens| && |structStack| > 0 && |currentName| > 0
      modifies this
      ensures (ok, State()) == Grammar.StructTail(tokens, old(State()))
      decreases |tokens| - cursor, 1
    {
      ghost var s := State();
      if cursor < |tokens| && tokens[cursor] == Sym(LBrace) {
        cursor := cursor + 1;
        assert State() == Next(s);
        OpenChild();
        ok := Block();
      } else if cursor < |tokens| && tokens[cursor] == Sym(Colon) {
        OpenChild();
        ok := InheritClause();
        if !ok {
          return;
        }
        ok := StatementEndOrStruct();
      } else if cursor < |tokens| && tokens[cursor] == Sym(LParen) {
        OpenChild();
        ok := ArchetypeClause();
        if !ok {
          return;
        }
        ok := StatementEndOrStruct();
      } else {
        ok := ValueStatement();
      }
    }

    /** The last branch of StructTail(): a value, then either ";" and the
        field `stackTop.put(name, value)`, or a child whose own value it
        is. */
    method ValueStatement() returns (ok: bool)
      requires cursor <= |tokens| && |structStack| > 0 && |currentName| > 0
      modifies this
      ensures (ok, State()) == ValueTail(tokens, old(State()))
      decreases |tokens| - cursor, 0, 1
    {
      ghost var s := State();
      ok := Value();
      if !ok {
        return;
      }
      if cursor < |tokens| && tokens[cursor] == Sym(Semicolon) {
        ghost var s1 := State();
        FieldEnd();
        FieldEnds(tokens, s, s1, State());
        ok := true;
      } else {
        ok := ChildValue(s);
      }
    }

    /** The ";" after the value: `stackTop.put(name, value)`, then the
        name and the value are popped. */
    method FieldEnd()
      requires cursor < |tokens| && |structStack| > 0 && |currentName| > 0 && |currentValue| > 0
      modifies this
      ensures State() == PopValue(PopName(PutOnTop(Next(old(State())))))
    {
      cursor := cursor + 1;
      var top := structStack[|structStack| - 1];
      tree := ReplaceAt(tree, top, PutField(NodeAt(tree, top), currentName[|currentName| - 1],
                                            Some(currentValue[|currentValue| - 1])));
      currentName := currentName[..|currentName| - 1];
      currentValue := currentValue[..|currentValue| - 1];
    }

    /** No ";" after the value: a child of the name's type is opened and
        the value becomes its own value, `stackTop.set(currentValue.pop())`. */
    method ChildValue(ghost s: PState) returns (ok: bool)
      requires s.pos <= |tokens| && |s.stack| > 0 && |s.names| > 0
      requires ValueRule(tokens, s) == (true, State()) && !At(tokens, State(), Semicolon)
      modifies this
      ensures (ok, State()) == ValueTail(tokens, s)
      decreases |tokens| - s.pos, 0, 0
    {
      ghost var s1 := State();
      OpenChild();
      ghost var s2 := State();
      var top := structStack[|structStack| - 1];
      tree := ReplaceAt(tree, top, SetValue(NodeAt(tree, top), Some(currentValue[|currentValue| - 1])));
      currentValue := currentValue[..|currentValue| - 1];
      ChildOpens(tokens, s, s1, s2, State());
      ok := StatementEndOrStruct();
    }

    /** The braced block of StructTail() and StatementEndOrStruct(), once
        "{" is consumed: the inner statements, "}", then popStruct() and
        currentName.pop(). */
    method Block() returns (ok: bool)
      requires cursor <= |tokens| && |structStack| > 1 && |currentName| > 0
      modifies this
      ensures (ok, State()) == Grammar.Block(tokens, old(State()))
      decreases |tokens| - cursor, 1
    {
      ok := InnerStructList();
      if !ok {
        return;
      }
      ok := MatchStrict(RBrace);
      if !ok {
        return;
      }
      structStack := structStack[..|structStack| - 1];
      currentName := currentName[..|currentName| - 1];
    }

    /** StatementEndOrStruct(). */
    method StatementEndOrStruct() returns (ok: bool)
      requires cursor <= |tokens| && |structStack| > 1 && |currentName| > 0
      modifies this
      ensures (ok, State()) == Grammar.StatementEndOrStruct(tokens, old(State()))
      decreases |tokens| - cursor, 0
    {
      if cursor < |tokens| && tokens[cursor] == Sym(Semicolon) {
        cursor := cursor + 1;
        structStack := structStack[..|structStack| - 1];
        currentName := currentName[..|currentName| - 1];
        ok := true;
      } else if cursor < |tokens| && tokens[cursor] == Sym(LBrace) {
        cursor := cursor + 1;
        ok := Block();
      } else if cursor < |tokens| && tokens[cursor] == Sym(Colon) {
        ok := InheritClause();
        if !ok {
          return;
        }
        ok := StatementEndOrStruct();
      } else if cursor < |tokens| && tokens[cursor] == Sym(LParen) {
        ok := ArchetypeClause();
        if !ok {
          return;
        }
        ok := StatementEndOrStruct();
      } else {
        errors := errors + [UnexpectedToken([Semicolon, LParen, LBrace, Colon])];
        ok := false;
      }
    }

    // ----- read() -----

    /** read() on a freshly built parser: the loop
        `while (currentToken() != null && (strOk = StructList()))`, the
        final message when the last statement failed, and the text of the
        DLParseException, one message per line. */
    method Read() returns (thrown: Option<string>)
      requires State() == Start(tree)
      modifies this
      ensures Applied(tree, errors) == Grammar.Read(tokens, old(tree))
      ensures thrown == ExceptionText(Grammar.Read(tokens, old(tree)))
    {
      ghost var s0 := State();
      var strOk := false;
      var going := cursor < |tokens|;
      while going
        invariant cursor <= |tokens|
        invariant going ==> cursor < |tokens| && |structStack| > 0 && currentName == []
        invariant going ==> ReadLoop(tokens, State(), strOk) == ReadLoop(tokens, s0, false)
        invariant !going ==> (strOk, State()) == ReadLoop(tokens, s0, false)
        decreases |tokens| - cursor, going
      {
        strOk := StructList();
        going := strOk && cursor < |tokens|;
      }
      if !strOk {
        errors := errors + [ExpectedValidStructure];
      }
      thrown := None;
      if |errors| > 0 {
        var text := JoinLines(errors);
        thrown := Some(text);
      }
    }
  }

  /** One turn of the binding loop: the top value is put under
      params[i] and popped, and the rest binds params[..i]. */
  lemma {:induction false} BindStep(s: PState, s1: PState, u: PState, params: seq<string>, i: int)
    requires |s.stack| > 0 && 0 <= i < |params| && i < |s.values|
    requires s1 == UpdateTop(s, PutField(TopNode(s), params[i], Some(PeekValue(s))))
    requires u == PopValue(s1)
    ensures BindParams(u, params, i - 1) == BindParams(s, params, i)
  {
  }

  /** A further string of a string array: once it is appended to the
      array on top of the stack, the rule goes on from there. */
  lemma {:induction false} StringAppended(ts: seq<Token>, s: PState, s1: PState, s2: PState, u: PState)
    requires s.pos <= |ts| && |s.values| > 0 && PeekValue(s).StrArr? && At(ts, s, Comma)
    requires s1 == Next(s) && AtString(ts, s1)
    requires s2 == AppendToTop(s1, Strings([ts[s1.pos].text])) && u == Next(s2)
    ensures u.pos <= |ts| && |u.values| > 0 && PeekValue(u).StrArr?
    ensures StringArrayRule(ts, s) == StringArrayRule(ts, u)
  {
  }

  /** A further number of a number array: once it is popped and appended
      to the array below it, the rule goes on from there. */
  lemma {:induction false} NumberAppended(ts: seq<Token>, s: PState, s1: PState, s2: PState, u: PState)
    requires s.pos <= |ts| && |s.values| > 0 && PeekValue(s).NumArr? && At(ts, s, Comma)
    requires NumberRule(ts, Next(s)) == (true, s1) && s2 == PopValue(s1)
    requires |s2.values| > 0 && u == AppendToTop(s2, Numbers([PeekValue(s1).nums[0]]))
    ensures u.pos <= |ts| && |u.values| > 0 && PeekValue(u).NumArr?
    ensures NumberArrayRule(ts, s) == NumberArrayRule(ts, u)
  {
    NumberPopped(Next(s), s1, s2);
  }

  /** A value statement ended by ";" is a field of the struct on top of
      the stack. */
  lemma {:induction false} FieldEnds(ts: seq<Token>, s: PState, s1: PState, u: PState)
    requires s.pos <= |ts| && |s.stack| > 0 && |s.names| > 0
    requires ValueRule(ts, s) == (true, s1) && At(ts, s1, Semicolon)
    requires u == PopValue(PopName(PutOnTop(Next(s1))))
    ensures ValueTail(ts, s) == (true, u)
  {
  }

  /** `stackTop.put(currentName.peek(), currentValue.peek())`. */
  function PutOnTop(s: PState): PState
    requires |s.stack| > 0 && |s.names| > 0 && |s.values| > 0
  {
    UpdateTop(s, PutField(TopNode(s), PeekName(s), Some(PeekValue(s))))
  }

  /** A value statement not ended by ";" opens a child whose own value
      is the value and goes on as StatementEndOrStruct. */
  lemma {:induction false} ChildOpens(ts: seq<Token>, s: PState, s1: PState, s2: PState, u: PState)
    requires s.pos <= |ts| && |s.stack| > 0 && |s.names| > 0
    requires ValueRule(ts, s) == (true, s1) && !At(ts, s1, Semicolon)
    requires s2 == OpenChild(s1, PeekName(s1))
    requires u == PopValue(UpdateTop(s2, SetValue(TopNode(s2), Some(PeekValue(s2)))))
    ensures u.pos <= |ts| && |u.stack| > 1 && |u.names| > 0
    ensures ValueTail(ts, s) == StatementEndOrStruct(ts, u)
  {
  }

  /** The search loop of InheritClause(): the last struct in the queue
      whose own value equals `v`. */
  method FindInherited(structList: seq<Struct>, v: Value) returns (found: Option<nat>)
    ensures found == LastMatch(structList, v)
  {
    found := None;
    var k := 0;
    while k < |structList|
      invariant 0 <= k <= |structList| && found == LastMatch(structList[..k], v)
    {
      LastMatchSnoc(structList, k, v);
      if Matches(structList[k], v) {
        found := Some(k);
      }
      k := k + 1;
    }
    assert structList[..k] == structList;
  }

  /** The StringBuilder loop of read(): each message, and '\n' after every
      message but the last. */
  method JoinLines(ms: seq<Msg>) returns (text: string)
    ensures text == ErrorText(ms)
  {
    ghost var parts := seq(|ms|, i requires 0 <= i < |ms| => MsgText(ms[i]));
    text := "";
    var i := 0;
    while i < |ms|
      invariant 0 <= i <= |ms|
      invariant text == Join(parts[..i], "\n") + (if 0 < i < |ms| then "\n" else "")
    {
      JoinStep(parts, i, "\n", text);
      text := text + MsgText(ms[i]);
      if i < |ms| - 1 {
        text := text + "\n";
      }
      i := i + 1;
    }
    assert parts[..i] == parts;
  }

  /** Joining one part more: the part follows the separator when parts
      were joined before it. */
  lemma {:induction false} JoinStep(parts: seq<string>, i: nat, sep: string, before: string)
    requires i < |parts| && before == Join(parts[..i], sep) + (if 0 < i then sep else "")
    ensures before + parts[i] == Join(parts[..i + 1], sep)
  {
    if i > 0 {
      JoinSnoc(parts[..i], parts[i], sep);
      assert parts[..i] + [parts[i]] == parts[..i + 1];
    } else {
      assert parts[..1] == [parts[0]];
    }
  }

  /** One more part joins on after a separator. */
  lemma {:induction false} JoinSnoc(parts: seq<string>, x: string, sep: string)
    requires |parts| > 0
    ensures Join(parts + [x], sep) == Join(parts, sep) + sep + x
    decreases |parts|
  {
    if |parts| > 1 {
      assert (parts + [x])[1..] == parts[1..] + [x];
      JoinSnoc(parts[1..], x, sep);
    } else {
      assert parts + [x] == [parts[0], x];
      assert [parts[0], x][1..] == [x];
    }
  }

  /** One more struct searched: it is the answer when it matches, and
      otherwise the answer so far stands. */
  lemma {:induction false} LastMatchSnoc(q: seq<Struct>, k: nat, v: Value)
    requires k < |q|
    ensures LastMatch(q[..k + 1], v) == if Matches(q[k], v) then Some(k) else LastMatch(q[..k], v)
  {
    LastMatchOf(q[..k + 1], q[k], q[..k], v);
  }

  /** The search of a non-empty queue looks at its last struct first. */
  lemma {:induction false} LastMatchOf(p: seq<Struct>, last: Struct, front: seq<Struct>, v: Value)
    requires |p| > 0 && last == p[|p| - 1] && front == p[..|p| - 1]
    ensures LastMatch(p, v) == if Matches(last, v) then Some(|p| - 1) else LastMatch(front, v)
  {
  }

  /** apply(streamName, in, dlst) on the tokens of the stream: the struct
      as the parser leaves it and the message of the DLParseException,
      None when none is thrown. */
  method Apply(ts: seq<Token>, root: Struct) returns (result: Struct, thrown: Option<string>)
    ensures result == Grammar.Read(ts, root).tree
    ensures thrown == ExceptionText(Grammar.Read(ts, root))
    ensures thrown.None? <==> ReadLoop(ts, Start(root), false).0
  {
    var parser := new Parser(ts, root);
    thrown := parser.Read();
    result := parser.tree;
  }
}
