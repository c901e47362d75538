/** Reading back what DLWriter.export prints: the token stream of the
    printed text, and what DLReader's parser builds from it. For a tree
    whose fields and own values are non-empty number or string arrays
    with numbers in the long range, the parser rebuilds the tree. */
module RoundTrip {
  import opened Basics
  import opened Numbers
  import opened Values
  import opened Structs
  import opened Tokens
  import opened Grammar
  import opened GrammarFacts
  import opened Writer

  // ----- The token stream of printed values -----

  /** A value the writer prints so that the parser reads it back as
      itself: a non-empty array whose numbers all print as longs. */
  predicate Printable(v: Value)
  {
    Literal(v) && (v.NumArr? ==> forall j :: 0 <= j < |v.nums| ==> LONG_MIN <= v.nums[j] <= LONG_MAX)
  }

  /** ", x" for every element of an array after the first. */
  function ElemTail(xs: seq<seq<Token>>): seq<Token>
    decreases |xs|
  {
    if xs == [] then [] else [Sym(Comma)] + xs[0] + ElemTail(xs[1..])
  }

  function NumberLexeds(d: seq<Num>): (r: seq<seq<Token>>)
    ensures |r| == |d|
  {
    seq(|d|, i requires 0 <= i < |d| => NumberLexed(d[i]))
  }

  function StringLexeds(ss: seq<string>): (r: seq<seq<Token>>)
    ensures |r| == |ss|
  {
    seq(|ss|, i requires 0 <= i < |ss| => [Str(ss[i])])
  }

  /** The tokens of a printed non-empty value: the element itself, or
      "[" a, b, ... "]". */
  function ValueTokens(v: Value): seq<Token>
    requires Literal(v)
  {
    match v
    case NumArr(d) =>
      if |d| == 1 then NumberLexed(d[0])
      else [Sym(LBrack)] + NumberLexed(d[0]) + ElemTail(NumberLexeds(d[1..])) + [Sym(RBrack)]
    case StrArr(ss) =>
      if |ss| == 1 then [Str(ss[0])]
      else [Sym(LBrack), Str(ss[0])] + ElemTail(StringLexeds(ss[1..])) + [Sym(RBrack)]
  }

  /** The tokens of a printed own value: none for an absent, empty or
      identifier value. */
  function OwnTokens(v: Option<Value>): seq<Token>
  {
    match v
    case None => []
    case Some(x) => if Literal(x) then ValueTokens(x) else []
  }

  function Lexeds(ps: seq<Piece>): (r: seq<seq<Token>>)
    ensures |r| == |ps|
  {
    seq(|ps|, i requires 0 <= i < |ps| => ps[i].lexed)
  }

  lemma {:induction false} ElementsLexed(ps: seq<Piece>)
    requires |ps| > 0
    ensures Lexed(Elements(ps)) == ps[0].lexed + ElemTail(Lexeds(ps)[1..]) + [Sym(RBrack)]
    decreases |ps|
  {
    if |ps| == 1 {
      TextPair(ps[0], Mark("]", RBrack));
      assert Lexeds(ps)[1..] == [];
    } else {
      ElementsLexed(ps[1..]);
      TextPair(ps[0], Mark(", ", Comma));
      TextAppend([ps[0], Mark(", ", Comma)], Elements(ps[1..]));
      assert Lexeds(ps[1..])[1..] == Lexeds(ps)[1..][1..];
      assert Lexeds(ps)[1..][0] == ps[1].lexed;
    }
  }

  lemma {:induction false} ArrayLexed(ps: seq<Piece>)
    requires |ps| > 0
    ensures Lexed(ArrayPieces(ps)) == [Sym(LBrack)] + ps[0].lexed + ElemTail(Lexeds(ps)[1..]) + [Sym(RBrack)]
  {
    ElementsLexed(ps);
    TextPair(Mark(" [", LBrack), Blank(""));
    TextAppend([Mark(" [", LBrack)], Elements(ps));
  }

  /** A printed field value lexes to the value's tokens. */
  lemma {:induction false} FieldValueLexed(esc: string -> string, v: Value)
    requires Literal(v)
    ensures Lexed(FieldValue(esc, v)) == ValueTokens(v)
  {
    match v
    case NumArr(d) =>
      if |d| == 1 {
        TextPair(Blank(" "), NumberPiece(d[0]));
      } else {
        ArrayLexed(NumberPieces(d));
        assert Lexeds(NumberPieces(d))[1..] == NumberLexeds(d[1..]);
      }
    case StrArr(ss) =>
      if |ss| == 1 {
        TextPair(Blank(" "), StringPiece(esc, ss[0]));
      } else {
        ArrayLexed(StringPieces(esc, ss));
        assert Lexeds(StringPieces(esc, ss))[1..] == StringLexeds(ss[1..]);
      }
  }

  /** A printed own value lexes to its tokens; the trailing newline, and
      an identifier value, give none. */
  lemma {:induction false} OwnLexed(esc: string -> string, v: Option<Value>)
    ensures Lexed(OwnPieces(esc, v)) == OwnTokens(v)
  {
    match v
    case None =>
      TextPair(Blank(EOL), Blank(""));
    case Some(x) =>
      if x.Ref? {
      } else if Size(x) == 0 {
        TextPair(Blank(EOL), Blank(""));
      } else {
        FieldValueLexed(esc, x);
        TextPair(Blank(EOL), Blank(""));
        assert OwnPieces(esc, v) == FieldValue(esc, x) + [Blank(EOL)];
        TextAppend(FieldValue(esc, x), [Blank(EOL)]);
      }
  }

  // ----- Reading values -----

  /** The tokens from `p` on start with `t`. */
  predicate TokensAt(ts: seq<Token>, p: nat, t: seq<Token>)
  {
    p + |t| <= |ts| && forall k :: p <= k < p + |t| ==> ts[k] == t[k - p]
  }

  lemma {:induction false} TokensSplit(ts: seq<Token>, p: nat, a: seq<Token>, b: seq<Token>)
    requires TokensAt(ts, p, a + b)
    ensures TokensAt(ts, p, a) && TokensAt(ts, p + |a|, b)
  {
    forall k | p <= k < p + |a|
      ensures ts[k] == a[k - p]
    {
      assert (a + b)[k - p] == a[k - p];
    }
    forall k | p + |a| <= k < p + |a| + |b|
      ensures ts[k] == b[k - (p + |a|)]
    {
      assert (a + b)[k - p] == b[k - (p + |a|)];
    }
  }

  /** A bracketed run of four pieces splits into its pieces, each at its own offset. */
  lemma {:induction false} TokensSplit4(ts: seq<Token>, p: nat, a: seq<Token>, b: seq<Token>, c: seq<Token>, d: seq<Token>)
    requires TokensAt(ts, p, a + b + c + d)
    ensures TokensAt(ts, p, a) && TokensAt(ts, p + |a|, b)
    ensures TokensAt(ts, p + |a| + |b|, c) && TokensAt(ts, p + |a| + |b| + |c|, d)
  {
    TokensSplit(ts, p, a + b + c, d);
    TokensSplit(ts, p, a + b, c);
    TokensSplit(ts, p, a, b);
  }

  /** The tokens from `p` on spell the number `x`: a "-" before the
      magnitude when `x` is negative. */
  predicate NumberAt(ts: seq<Token>, p: nat, x: Num)
  {
    if x < 0 then p + 1 < |ts| && ts[p] == Sym(Minus) && ts[p + 1] == Number(-x)
    else p < |ts| && ts[p] == Number(x)
  }

  function NumberWidth(x: Num): nat
  {
    if x < 0 then 2 else 1
  }

  /** A number in the long range prints as the tokens NumberAt expects. */
  lemma {:induction false} LongLexed(ts: seq<Token>, p: nat, x: Num)
    requires LONG_MIN <= x <= LONG_MAX
    ensures |NumberLexed(x)| == NumberWidth(x)
    ensures TokensAt(ts, p, NumberLexed(x)) <==> NumberAt(ts, p, x)
  {
    if x < 0 {
      assert NumberLexed(x) == [Sym(Minus), Number(-x)];
    } else {
      assert NumberLexed(x) == [Number(x)];
    }
  }

  lemma {:induction false} NumberReads(ts: seq<Token>, s: PState, n: Num)
    requires NumberAt(ts, s.pos, n)
    ensures NumberRule(ts, s) == (true, s.(values := s.values + [NumArr([n])], pos := s.pos + NumberWidth(n)))
  {
  }

  /** The tokens from `p` on spell ", n" for every number of `xs`. */
  predicate NumbersAt(ts: seq<Token>, p: nat, xs: seq<Num>)
    decreases |xs|
  {
    xs == [] ||
    (p < |ts| && ts[p] == Sym(Comma) && NumberAt(ts, p + 1, xs[0]) &&
     NumbersAt(ts, p + 1 + NumberWidth(xs[0]), xs[1..]))
  }

  function NumbersEnd(p: nat, xs: seq<Num>): nat
    decreases |xs|
  {
    if xs == [] then p else NumbersEnd(p + 1 + NumberWidth(xs[0]), xs[1..])
  }

  /** The tokens from `p` on spell ", s" for every string of `xs`. */
  predicate StringsAt(ts: seq<Token>, p: nat, xs: seq<string>)
    decreases |xs|
  {
    xs == [] ||
    (p + 1 < |ts| && ts[p] == Sym(Comma) && ts[p + 1] == Str(xs[0]) && StringsAt(ts, p + 2, xs[1..]))
  }

  lemma {:induction false} NumbersAtTokens(ts: seq<Token>, p: nat, xs: seq<Num>)
    requires forall j :: 0 <= j < |xs| ==> LONG_MIN <= xs[j] <= LONG_MAX
    requires TokensAt(ts, p, ElemTail(NumberLexeds(xs)))
    ensures NumbersAt(ts, p, xs) && NumbersEnd(p, xs) == p + |ElemTail(NumberLexeds(xs))|
    decreases |xs|
  {
    if xs != [] {
      var comma := [Sym(Comma)];
      var lex := NumberLexed(xs[0]);
      var rest := ElemTail(NumberLexeds(xs[1..]));
      var q := p + 1 + NumberWidth(xs[0]);
      NumberTailCons(xs, comma, lex, rest);
      TokensSplit(ts, p, comma + lex, rest);
      TokensSplit(ts, p, comma, lex);
      assert ts[p] == comma[0];
      LongLexed(ts, p + 1, xs[0]);
      NumbersAtTokens(ts, q, xs[1..]);
      NumbersAtCons(ts, p, xs, q);
    }
  }

  /** The number tail of xs: a comma, the first number, then the tail of the rest. */
  lemma {:induction false} NumberTailCons(xs: seq<Num>, comma: seq<Token>, lex: seq<Token>, rest: seq<Token>)
    requires xs != [] && comma == [Sym(Comma)] && lex == NumberLexed(xs[0]) && rest == ElemTail(NumberLexeds(xs[1..]))
    ensures ElemTail(NumberLexeds(xs)) == comma + lex + rest
  {
    assert NumberLexeds(xs)[1..] == NumberLexeds(xs[1..]);
  }

  lemma {:induction false} NumbersAtCons(ts: seq<Token>, p: nat, xs: seq<Num>, q: nat)
    requires xs != [] && q == p + 1 + NumberWidth(xs[0])
    requires p < |ts| && ts[p] == Sym(Comma) && NumberAt(ts, p + 1, xs[0]) && NumbersAt(ts, q, xs[1..])
    ensures NumbersAt(ts, p, xs) && NumbersEnd(p, xs) == NumbersEnd(q, xs[1..])
  {
  }

  lemma {:induction false} StringsAtTokens(ts: seq<Token>, p: nat, xs: seq<string>)
    requires TokensAt(ts, p, ElemTail(StringLexeds(xs)))
    ensures StringsAt(ts, p, xs) && |ElemTail(StringLexeds(xs))| == 2 * |xs|
    decreases |xs|
  {
    if xs != [] {
      var rest := ElemTail(StringLexeds(xs[1..]));
      assert StringLexeds(xs)[1..] == StringLexeds(xs[1..]);
      assert ElemTail(StringLexeds(xs)) == [Sym(Comma), Str(xs[0])] + rest;
      TokensSplit(ts, p, [Sym(Comma), Str(xs[0])], rest);
      StringsAtTokens(ts, p + 2, xs[1..]);
    }
  }

  /** Appending the head of `xs`, then its tail, appends `xs`. */
  lemma {:induction false} AppendHead<T>(acc: seq<T>, xs: seq<T>)
    requires |xs| > 0
    ensures acc + [xs[0]] + xs[1..] == acc + xs
  {
    assert [xs[0]] + xs[1..] == xs;
  }

  /** One ", n" of a number array. */
  lemma {:induction false} NumberArrayStep(ts: seq<Token>, s: PState, pre: seq<Value>, acc: seq<Num>, x: Num, s3: PState)
    requires s.values == pre + [NumArr(acc)] && At(ts, s, Comma) && NumberAt(ts, s.pos + 1, x)
    requires s3 == s.(values := pre + [NumArr(acc + [x])], pos := s.pos + 1 + NumberWidth(x))
    ensures NumberArrayRule(ts, s) == NumberArrayRule(ts, s3)
  {
    NumberReads(ts, Next(s), x);
    TopReplaced(pre, NumArr(acc), NumArr(acc + [x]));
  }

  /** Replacing the last of `pre + [a]` by `b` gives `pre + [b]`. */
  lemma {:induction false} TopReplaced(pre: seq<Value>, a: Value, b: Value)
    ensures (pre + [a])[|pre| := b] == pre + [b]
  {
    assert (pre + [a])[|pre| := b] == pre + [b];
  }

  /** ", n" repeated: each number is appended to the array on top of the
      value stack, and the array ends where the last number does. */
  lemma {:induction false} NumberTailReads(ts: seq<Token>, s: PState, pre: seq<Value>, acc: seq<Num>, xs: seq<Num>, e: nat)
    requires s.values == pre + [NumArr(acc)] && s.pos <= |ts|
    requires NumbersAt(ts, s.pos, xs) && e == NumbersEnd(s.pos, xs) && !(e < |ts| && ts[e] == Sym(Comma))
    ensures NumberArrayRule(ts, s) == (true, s.(values := pre + [NumArr(acc + xs)], pos := e))
    decreases |xs|
  {
    if xs == [] {
      assert acc + xs == acc;
    } else {
      var p3 := s.pos + 1 + NumberWidth(xs[0]);
      var s3 := s.(values := pre + [NumArr(acc + [xs[0]])], pos := p3);
      NumbersStep(ts, s.pos, xs, p3, e);
      NumberArrayStep(ts, s, pre, acc, xs[0], s3);
      NumberTailReads(ts, s3, pre, acc + [xs[0]], xs[1..], e);
      AppendHead(acc, xs);
    }
  }

  /** The first ", n" of a number tail, and where the rest starts and ends. */
  lemma {:induction false} NumbersStep(ts: seq<Token>, p: nat, xs: seq<Num>, p3: nat, e: nat)
    requires xs != [] && NumbersAt(ts, p, xs) && e == NumbersEnd(p, xs) && p3 == p + 1 + NumberWidth(xs[0])
    ensures p < |ts| && ts[p] == Sym(Comma) && NumberAt(ts, p + 1, xs[0])
    ensures NumbersAt(ts, p3, xs[1..]) && e == NumbersEnd(p3, xs[1..])
  {
  }

  /** One ", s" of a string array. */
  lemma {:induction false} StringArrayStep(ts: seq<Token>, s: PState, pre: seq<Value>, acc: seq<string>, x: string, s3: PState)
    requires s.values == pre + [StrArr(acc)] && At(ts, s, Comma)
    requires s.pos + 1 < |ts| && ts[s.pos + 1] == Str(x)
    requires s3 == s.(values := pre + [StrArr(acc + [x])], pos := s.pos + 2)
    ensures StringArrayRule(ts, s) == StringArrayRule(ts, s3)
  {
    TopReplaced(pre, StrArr(acc), StrArr(acc + [x]));
  }

  /** ", s" repeated: each string is appended to the array on top of the
      value stack. */
  lemma {:induction false} StringTailReads(ts: seq<Token>, s: PState, pre: seq<Value>, acc: seq<string>, xs: seq<string>, e: nat)
    requires s.values == pre + [StrArr(acc)] && s.pos <= |ts|
    requires StringsAt(ts, s.pos, xs) && e == s.pos + 2 * |xs| && !(e < |ts| && ts[e] == Sym(Comma))
    ensures StringArrayRule(ts, s) == (true, s.(values := pre + [StrArr(acc + xs)], pos := e))
    decreases |xs|
  {
    if xs == [] {
      assert acc + xs == acc;
    } else {
      var s3 := s.(values := pre + [StrArr(acc + [xs[0]])], pos := s.pos + 2);
      StringsStep(ts, s.pos, xs, s3.pos, e);
      StringArrayStep(ts, s, pre, acc, xs[0], s3);
      StringTailReads(ts, s3, pre, acc + [xs[0]], xs[1..], e);
      AppendHead(acc, xs);
    }
  }

  /** The first ", s" of a string tail, and where the rest starts and ends. */
  lemma {:induction false} StringsStep(ts: seq<Token>, p: nat, xs: seq<string>, p3: nat, e: nat)
    requires xs != [] && StringsAt(ts, p, xs) && e == p + 2 * |xs| && p3 == p + 2
    ensures p + 1 < |ts| && ts[p] == Sym(Comma) && ts[p + 1] == Str(xs[0])
    ensures StringsAt(ts, p3, xs[1..]) && e == p3 + 2 * |xs[1..]|
  {
  }

  /** Where the parts of a printed number array lie in the token
      stream. */
  lemma {:induction false} NumberArrayLayout(ts: seq<Token>, p: nat, d: seq<Num>, e: nat)
    requires Printable(NumArr(d)) && |d| > 1 && TokensAt(ts, p, ValueTokens(NumArr(d)))
    requires e == NumbersEnd(p + 1 + NumberWidth(d[0]), d[1..])
    ensures p < |ts| && ts[p] == Sym(LBrack) && NumberAt(ts, p + 1, d[0])
    ensures NumbersAt(ts, p + 1 + NumberWidth(d[0]), d[1..])
    ensures e < |ts| && ts[e] == Sym(RBrack) && p + |ValueTokens(NumArr(d))| == e + 1
  {
    var lex, tail := NumberLexed(d[0]), ElemTail(NumberLexeds(d[1..]));
    assert ValueTokens(NumArr(d)) == [Sym(LBrack)] + lex + tail + [Sym(RBrack)];
    BracketedPieces(ts, p, lex, tail);
    LongLexed(ts, p + 1, d[0]);
    NumbersAtTokens(ts, p + 1 + NumberWidth(d[0]), d[1..]);
  }

  /** Tokens spelling "[", `a`, `b`, "]" from `p` on. */
  lemma {:induction false} BracketedPieces(ts: seq<Token>, p: nat, a: seq<Token>, b: seq<Token>)
    requires TokensAt(ts, p, [Sym(LBrack)] + a + b + [Sym(RBrack)])
    ensures p < |ts| && ts[p] == Sym(LBrack)
    ensures TokensAt(ts, p + 1, a) && TokensAt(ts, p + 1 + |a|, b)
    ensures p + 1 + |a| + |b| < |ts| && ts[p + 1 + |a| + |b|] == Sym(RBrack)
  {
    var open, close := [Sym(LBrack)], [Sym(RBrack)];
    TokensSplit4(ts, p, open, a, b, close);
    assert ts[p] == open[0];
    assert ts[p + 1 + |a| + |b|] == close[0];
  }

  /** n, n, ... is read as one number array. */
  lemma {:induction false} NumberElementsRead(ts: seq<Token>, s: PState, d: seq<Num>, e: nat)
    requires |d| > 1 && NumberAt(ts, s.pos, d[0])
    requires NumbersAt(ts, s.pos + NumberWidth(d[0]), d[1..])
    requires e == NumbersEnd(s.pos + NumberWidth(d[0]), d[1..]) && !(e < |ts| && ts[e] == Sym(Comma))
    ensures ArrayValues(ts, s) == (true, s.(values := s.values + [NumArr(d)], pos := e))
  {
    var s1 := s.(values := s.values + [NumArr([d[0]])], pos := s.pos + NumberWidth(d[0]));
    NumberFirstRead(ts, s, d[0], s1);
    NumberTailReads(ts, s1, s.values, [d[0]], d[1..], e);
    NumbersJoined(s, s1, d, e);
  }

  lemma {:induction false} NumbersJoined(s: PState, s1: PState, d: seq<Num>, e: nat)
    requires |d| > 0 && s1 == s.(values := s.values + [NumArr([d[0]])], pos := s.pos + NumberWidth(d[0]))
    ensures s1.(values := s.values + [NumArr([d[0]] + d[1..])], pos := e) == s.(values := s.values + [NumArr(d)], pos := e)
  {
    assert [d[0]] + d[1..] == d;
  }

  /** The first number of an array starts the array. */
  lemma {:induction false} NumberFirstRead(ts: seq<Token>, s: PState, x: Num, s1: PState)
    requires NumberAt(ts, s.pos, x) && s1 == s.(values := s.values + [NumArr([x])], pos := s.pos + NumberWidth(x))
    ensures ArrayValues(ts, s) == NumberArrayRule(ts, s1)
  {
    NumberReads(ts, s, x);
    assert !AtString(ts, s);
  }

  /** "[" n, n, ... "]" is read as one number array. */
  lemma {:induction false} NumberArrayReads(ts: seq<Token>, s: PState, d: seq<Num>, e: nat)
    requires |d| > 1 && s.pos < |ts| && ts[s.pos] == Sym(LBrack) && NumberAt(ts, s.pos + 1, d[0])
    requires NumbersAt(ts, s.pos + 1 + NumberWidth(d[0]), d[1..])
    requires e == NumbersEnd(s.pos + 1 + NumberWidth(d[0]), d[1..]) && e < |ts| && ts[e] == Sym(RBrack)
    ensures ValueRule(ts, s) == (true, s.(values := s.values + [NumArr(d)], pos := e + 1))
  {
    var s2 := s.(values := s.values + [NumArr(d)], pos := e);
    NumberElementsRead(ts, Next(s), d, e);
    ArrayCloses(ts, s, s2);
  }

  /** An array whose elements were read closes at its `]`. */
  lemma {:induction false} ArrayCloses(ts: seq<Token>, s: PState, s2: PState)
    requires s.pos < |ts| && ts[s.pos] == Sym(LBrack)
    requires ArrayValues(ts, Next(s)) == (true, s2) && s2.pos < |ts| && ts[s2.pos] == Sym(RBrack)
    ensures ValueRule(ts, s) == (true, Next(s2))
  {
    assert Strict(ts, s2, RBrack) == (true, Next(s2));
  }

  /** A printed number array is read back as itself. */
  lemma {:induction false} NumberValueReads(ts: seq<Token>, s: PState, v: Value)
    requires v.NumArr? && Printable(v) && TokensAt(ts, s.pos, ValueTokens(v))
    ensures ValueRule(ts, s) == (true, s.(values := s.values + [v], pos := s.pos + |ValueTokens(v)|))
  {
    if |v.nums| == 1 {
      SingleNumberReads(ts, s, v);
    } else {
      var d := v.nums;
      NumberArrayValueReads(ts, s, v, d, NumbersEnd(s.pos + 1 + NumberWidth(d[0]), d[1..]));
    }
  }

  lemma {:induction false} NumberArrayValueReads(ts: seq<Token>, s: PState, v: Value, d: seq<Num>, e: nat)
    requires v == NumArr(d) && |d| > 1 && Printable(v) && TokensAt(ts, s.pos, ValueTokens(v))
    requires e == NumbersEnd(s.pos + 1 + NumberWidth(d[0]), d[1..])
    ensures ValueRule(ts, s) == (true, s.(values := s.values + [v], pos := s.pos + |ValueTokens(v)|))
  {
    NumberArrayLayout(ts, s.pos, d, e);
    NumberArrayReads(ts, s, d, e);
  }

  lemma {:induction false} SingleNumberReads(ts: seq<Token>, s: PState, v: Value)
    requires v.NumArr? && |v.nums| == 1 && Printable(v) && TokensAt(ts, s.pos, ValueTokens(v))
    ensures ValueRule(ts, s) == (true, s.(values := s.values + [v], pos := s.pos + |ValueTokens(v)|))
  {
    var n := v.nums[0];
    assert v == NumArr([n]);
    LongLexed(ts, s.pos, n);
    NumberReads(ts, s, n);
    assert !At(ts, s, LBrack) && !AtString(ts, s);
  }



  /** Where the parts of a printed string array lie in the token
      stream. */
  lemma {:induction false} StringArrayLayout(ts: seq<Token>, p: nat, ss: seq<string>, e: nat)
    requires |ss| > 1 && TokensAt(ts, p, ValueTokens(StrArr(ss))) && e == p + 2 * |ss|
    ensures p + 1 < |ts| && ts[p] == Sym(LBrack) && ts[p + 1] == Str(ss[0])
    ensures StringsAt(ts, p + 2, ss[1..])
    ensures e < |ts| && ts[e] == Sym(RBrack) && p + |ValueTokens(StrArr(ss))| == e + 1
  {
    var tail := ElemTail(StringLexeds(ss[1..]));
    TokensSplit(ts, p, [Sym(LBrack), Str(ss[0])] + tail, [Sym(RBrack)]);
    TokensSplit(ts, p, [Sym(LBrack), Str(ss[0])], tail);
    StringsAtTokens(ts, p + 2, ss[1..]);
  }

  /** s, s, ... is read as one string array. */
  lemma {:induction false} StringElementsRead(ts: seq<Token>, s: PState, ss: seq<string>, e: nat)
    requires |ss| > 1 && s.pos < |ts| && ts[s.pos] == Str(ss[0])
    requires StringsAt(ts, s.pos + 1, ss[1..])
    requires e == s.pos + 2 * |ss| - 1 && !(e < |ts| && ts[e] == Sym(Comma))
    ensures ArrayValues(ts, s) == (true, s.(values := s.values + [StrArr(ss)], pos := e))
  {
    var s1 := s.(values := s.values + [StrArr([ss[0]])], pos := s.pos + 1);
    StringArrayStarts(ts, s, ss[0], s1);
    StringTailReads(ts, s1, s.values, [ss[0]], ss[1..], e);
    StringsJoined(s, s1, ss, e);
  }

  lemma {:induction false} StringsJoined(s: PState, s1: PState, ss: seq<string>, e: nat)
    requires |ss| > 0 && s1 == s.(values := s.values + [StrArr([ss[0]])], pos := s.pos + 1)
    ensures s1.(values := s.values + [StrArr([ss[0]] + ss[1..])], pos := e) == s.(values := s.values + [StrArr(ss)], pos := e)
  {
    assert [ss[0]] + ss[1..] == ss;
  }

  /** "[" s, s, ... "]" is read as one string array. */
  lemma {:induction false} StringArrayReads(ts: seq<Token>, s: PState, ss: seq<string>, e: nat)
    requires |ss| > 1 && s.pos + 1 < |ts| && ts[s.pos] == Sym(LBrack) && ts[s.pos + 1] == Str(ss[0])
    requires StringsAt(ts, s.pos + 2, ss[1..])
    requires e == s.pos + 2 * |ss| && e < |ts| && ts[e] == Sym(RBrack)
    ensures ValueRule(ts, s) == (true, s.(values := s.values + [StrArr(ss)], pos := e + 1))
  {
    var s2 := s.(values := s.values + [StrArr(ss)], pos := e);
    StringElementsRead(ts, Next(s), ss, e);
    ArrayCloses(ts, s, s2);
  }

  /** A printed string array is read back as itself. */
  lemma {:induction false} StringValueReads(ts: seq<Token>, s: PState, v: Value)
    requires v.StrArr? && Printable(v) && TokensAt(ts, s.pos, ValueTokens(v))
    ensures ValueRule(ts, s) == (true, s.(values := s.values + [v], pos := s.pos + |ValueTokens(v)|))
  {
    var ss := v.strs;
    if |ss| == 1 {
      assert [ss[0]] == ss;
      assert ts[s.pos] == Str(ss[0]);
    } else {
      StringArrayLayout(ts, s.pos, ss, s.pos + 2 * |ss|);
      StringArrayReads(ts, s, ss, s.pos + 2 * |ss|);
    }
  }


  /** A printed value is read back as itself. */
  lemma {:induction false} ValueReads(ts: seq<Token>, s: PState, v: Value)
    requires Printable(v) && TokensAt(ts, s.pos, ValueTokens(v))
    ensures ValueRule(ts, s) == (true, s.(values := s.values + [v], pos := s.pos + |ValueTokens(v)|))
    ensures |ValueTokens(v)| > 0 && (ts[s.pos].Number? || ts[s.pos].Str? || ts[s.pos] == Sym(Minus) || ts[s.pos] == Sym(LBrack))
  {
    ValueStarts(ts, s.pos, v);
    if v.NumArr? {
      NumberValueReads(ts, s, v);
    } else {
      StringValueReads(ts, s, v);
    }
  }

  /** A printed value starts with a number, a string, `-` or `[`. */
  lemma {:induction false} ValueStarts(ts: seq<Token>, p: nat, v: Value)
    requires Printable(v) && TokensAt(ts, p, ValueTokens(v))
    ensures |ValueTokens(v)| > 0 && (ts[p].Number? || ts[p].Str? || ts[p] == Sym(Minus) || ts[p] == Sym(LBrack))
  {
    var t := ValueTokens(v);
    if v.NumArr? && |v.nums| == 1 {
      LongLexed(ts, p, v.nums[0]);
    }
    assert ts[p] == t[0];
  }
}
