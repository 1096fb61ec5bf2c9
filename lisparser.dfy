/** comptools/lisparser.py: LisParser, which splits a Lisp program into
    tokens, each parenthesis its own token, and walks the token stack
    recursively into nested lists whose leaves are integers or strings. */
module Lisparser {
  import opened PyBase
  import opened PyStr

  // ---------------------------------------------------------------------
  // Whitespace and str.split()
  // ---------------------------------------------------------------------

  predicate NoSpace(s: string)
  {
    forall i :: 0 <= i < |s| ==> !IsSpace(s[i])
  }

  /** s with its whitespace removed. */
  function NonSpace(s: string): string
  {
    if s == [] then [] else (if IsSpace(s[0]) then [] else [s[0]]) + NonSpace(s[1..])
  }

  /** The concatenation of a list of strings. */
  function Concat(ws: seq<string>): string
  {
    if ws == [] then [] else ws[0] + Concat(ws[1..])
  }

  lemma {:induction false} NonSpaceConcat(a: string, b: string)
    ensures NonSpace(a + b) == NonSpace(a) + NonSpace(b)
  {
    if a == [] {
      assert a + b == b;
    } else {
      assert (a + b)[1..] == a[1..] + b;
      NonSpaceConcat(a[1..], b);
    }
  }

  lemma {:induction false} NonSpaceOfWord(w: string)
    requires NoSpace(w)
    ensures NonSpace(w) == w
  {
    if w != [] {
      NonSpaceOfWord(w[1..]);
    }
  }

  /** Removing whitespace from s keeps its first word and then the rest. */
  lemma WordNonSpace(s: string)
    ensures NonSpace(s) == s[..WordLength(s)] + NonSpace(s[WordLength(s)..])
  {
    var k := WordLength(s);
    assert s == s[..k] + s[k..];
    NonSpaceConcat(s[..k], s[k..]);
    NonSpaceOfWord(s[..k]);
  }

  /** The words of s are the characters of s that are not whitespace. */
  lemma {:induction false} WordsConcat(s: string)
    ensures Concat(SplitWhitespace(s)) == NonSpace(s)
    decreases |s|
  {
    if s != [] {
      if IsSpace(s[0]) {
        WordsConcat(s[1..]);
      } else {
        var k := WordLength(s);
        WordsConcat(s[k..]);
        WordNonSpace(s);
        assert SplitWhitespace(s) == [s[..k]] + SplitWhitespace(s[k..]);
      }
    }
  }

  /** Joining words with single spaces adds only whitespace. */
  lemma {:induction false} JoinNonSpace(ws: seq<string>)
    requires forall k :: 0 <= k < |ws| ==> NoSpace(ws[k])
    ensures NonSpace(Join(" ", ws)) == Concat(ws)
  {
    if ws != [] {
      var w := ws[0];
      NonSpaceOfWord(w);
      if |ws| > 1 {
        var rest := ws[1..];
        var tail := Join(" ", rest);
        assert Join(" ", ws) == (w + " ") + tail;
        JoinNonSpace(rest);
        NonSpaceConcat(w + " ", tail);
        NonSpaceConcat(w, " ");
        SpaceNonSpace();
        assert Concat(ws) == w + Concat(rest);
      } else {
        assert Concat(ws) == w + Concat([]);
      }
    }
  }

  lemma SpaceNonSpace()
    ensures NonSpace(" ") == []
  {
    var sp := " ";
    assert sp[1..] == [];
  }

  // ---------------------------------------------------------------------
  // Padding parentheses
  // ---------------------------------------------------------------------

  predicate IsParen(c: char)
  {
    c == '(' || c == ')'
  }

  /** What the two replace() calls make of one character: each parenthesis
      with a space on either side. Neither inserted text holds the other
      parenthesis, so the calls act character by character. */
  function Piece(c: char): string
  {
    if c == '(' then " ( " else if c == ')' then " ) " else [c]
  }

  /** s.replace('(', ' ( ').replace(')', ' ) '). */
  function Pad(s: string): string
  {
    if s == [] then [] else Piece(s[0]) + Pad(s[1..])
  }

  /** Padding adds only whitespace. */
  lemma {:induction false} PadNonSpace(s: string)
    ensures NonSpace(Pad(s)) == NonSpace(s)
  {
    if s != [] {
      PadNonSpace(s[1..]);
      NonSpaceConcat(Piece(s[0]), Pad(s[1..]));
      assert s == [s[0]] + s[1..];
      NonSpaceConcat([s[0]], s[1..]);
      if IsParen(s[0]) {
        NonSpaceSpaced(s[0]);
      }
    }
  }

  lemma NonSpaceSpaced(c: char)
    requires !IsSpace(c)
    ensures NonSpace([' ', c, ' ']) == [c]
  {
    var t := [' ', c, ' '];
    assert t[1..][1..][1..] == [];
    assert NonSpace(t[1..][1..]) == [] + NonSpace(t[1..][1..][1..]);
    assert NonSpace(t[1..]) == [c] + NonSpace(t[1..][1..]);
  }

  /** Every parenthesis of t stands between whitespace or the ends of t. */
  predicate Flanked(t: string)
  {
    forall i :: 0 <= i < |t| && IsParen(t[i]) ==>
      (i == 0 || IsSpace(t[i - 1])) && (i == |t| - 1 || IsSpace(t[i + 1]))
  }

  /** A string that neither starts nor ends with a parenthesis. */
  predicate InnerParens(t: string)
  {
    |t| >= 1 ==> !IsParen(t[0]) && !IsParen(t[|t| - 1])
  }

  lemma FlankedConcat(a: string, b: string)
    requires Flanked(a) && Flanked(b) && InnerParens(a) && InnerParens(b)
    ensures Flanked(a + b) && InnerParens(a + b)
  {
    var t := a + b;
    forall i | 0 <= i < |t| && IsParen(t[i])
      ensures (i == 0 || IsSpace(t[i - 1])) && (i == |t| - 1 || IsSpace(t[i + 1]))
    {
      if i < |a| {
        assert a[i] == t[i];
        if i < |a| - 1 {
          assert t[i + 1] == a[i + 1];
        }
        if i > 0 {
          assert t[i - 1] == a[i - 1];
        }
      } else {
        var j := i - |a|;
        assert b[j] == t[i];
        if j > 0 {
          assert t[i - 1] == b[j - 1];
        }
        if j < |b| - 1 {
          assert t[i + 1] == b[j + 1];
        }
      }
    }
  }

  /** Padding leaves every parenthesis flanked by spaces. */
  lemma {:induction false} PadFlanked(s: string)
    ensures Flanked(Pad(s)) && InnerParens(Pad(s))
  {
    if s != [] {
      PadFlanked(s[1..]);
      FlankedConcat(Piece(s[0]), Pad(s[1..]));
    }
  }

  /** A suffix of a flanked string is flanked. */
  lemma FlankedSuffix(t: string, n: nat)
    requires Flanked(t) && n <= |t|
    ensures Flanked(t[n..])
  {
    var u := t[n..];
    forall i | 0 <= i < |u| && IsParen(u[i])
      ensures (i == 0 || IsSpace(u[i - 1])) && (i == |u| - 1 || IsSpace(u[i + 1]))
    {
      assert u[i] == t[n + i];
      if i > 0 {
        assert u[i - 1] == t[n + i - 1];
      }
      if i < |u| - 1 {
        assert u[i + 1] == t[n + i + 1];
      }
    }
  }

  predicate ParenFree(w: string)
  {
    forall i :: 0 <= i < |w| ==> !IsParen(w[i])
  }

  /** A token is a lone parenthesis or a run free of parentheses and of
      whitespace. */
  predicate GoodToken(w: string)
  {
    |w| >= 1 && NoSpace(w) && (w == "(" || w == ")" || ParenFree(w))
  }

  /** The words of a flanked string are good tokens. */
  lemma {:induction false} FlankedWords(t: string)
    requires Flanked(t)
    ensures forall k :: 0 <= k < |SplitWhitespace(t)| ==> GoodToken(SplitWhitespace(t)[k])
    decreases |t|
  {
    if t != [] {
      if IsSpace(t[0]) {
        FlankedSuffix(t, 1);
        FlankedWords(t[1..]);
      } else {
        var n := WordLength(t);
        var w := t[..n];
        FlankedSuffix(t, n);
        FlankedWords(t[n..]);
        assert GoodToken(w) by {
          if IsParen(t[0]) {
            assert |t| == 1 || IsSpace(t[1]);
            assert n == 1 by {
              if |t| > 1 {
                assert WordLength(t[1..]) == 0;
              }
            }
            assert w == [t[0]];
          } else {
            forall i | 0 <= i < |w|
              ensures !IsParen(w[i])
            {
              if i > 0 {
                assert !IsSpace(t[i - 1]);
              }
            }
          }
        }
        assert SplitWhitespace(t) == [w] + SplitWhitespace(t[n..]);
      }
    }
  }

  // ---------------------------------------------------------------------
  // _tokenize_program
  // ---------------------------------------------------------------------

  /** The token list of line 22: whitespace runs collapsed to single spaces,
      parentheses padded, then split. */
  function Lex(program: string): seq<string>
  {
    SplitWhitespace(Pad(Join(" ", SplitWhitespace(program))))
  }

  /** _tokenize_program: a program that starts with a double quote loses
      its first and last tokens, unless that leaves nothing (an empty list
      is false, so the `or` falls back to every token). */
  function TokenizeProgram(program: string): seq<string>
  {
    var tokens := Lex(program);
    if |program| >= 1 && program[0] == '"' && |tokens| > 2 then tokens[1..|tokens| - 1] else tokens
  }

  /** Every token is a lone parenthesis or a run of characters free of
      parentheses and whitespace. */
  lemma LexTokens(program: string)
    ensures forall k :: 0 <= k < |Lex(program)| ==> GoodToken(Lex(program)[k])
  {
    PadFlanked(Join(" ", SplitWhitespace(program)));
    FlankedWords(Pad(Join(" ", SplitWhitespace(program))));
  }

  /** The tokens spell out the program with its whitespace removed. */
  lemma LexSpells(program: string)
    ensures Concat(Lex(program)) == NonSpace(program)
  {
    var words := SplitWhitespace(program);
    WordsConcat(Pad(Join(" ", words)));
    PadNonSpace(Join(" ", words));
    JoinNonSpace(words);
    WordsConcat(program);
  }

  /** Every token of the program is a good token. */
  lemma TokenizeProgramGood(program: string)
    ensures forall k :: 0 <= k < |TokenizeProgram(program)| ==> GoodToken(TokenizeProgram(program)[k])
  {
    LexTokens(program);
    var tokens := Lex(program);
    if |program| >= 1 && program[0] == '"' && |tokens| > 2 {
      var middle := tokens[1..|tokens| - 1];
      forall k | 0 <= k < |middle|
        ensures GoodToken(middle[k])
      {
        assert middle[k] == tokens[k + 1];
      }
    }
  }

  /** Without a leading double quote the tokens spell out the program
      without its whitespace. */
  lemma TokenizeProgramSpells(program: string)
    requires !(|program| >= 1 && program[0] == '"')
    ensures Concat(TokenizeProgram(program)) == NonSpace(program)
  {
    LexSpells(program);
  }

  /** With a leading double quote the tokens are those of the program less
      the first and the last, when there are more than two; otherwise all of
      them. */
  lemma TokenizeProgramQuoted(program: string)
    requires |program| >= 1 && program[0] == '"'
    ensures |Lex(program)| > 2 ==>
      [Lex(program)[0]] + TokenizeProgram(program) + [Lex(program)[|Lex(program)| - 1]] == Lex(program)
    ensures |Lex(program)| <= 2 ==> TokenizeProgram(program) == Lex(program)
  {
    var tokens := Lex(program);
    if |tokens| > 2 {
      assert tokens == [tokens[0]] + tokens[1..|tokens| - 1] + [tokens[|tokens| - 1]];
    }
  }

  // ---------------------------------------------------------------------
  // _to_py_type
  // ---------------------------------------------------------------------

  /** A leaf of the parse: what _to_py_type makes of an atom. */
  datatype Atom = Int(value: int) | Str(text: string)

  /** The parse: an atom, or the list of sub-parses between parentheses. */
  datatype Sexp = Leaf(atom: Atom) | Node(items: seq<Sexp>)

  /** _to_py_type(atom): int(atom) when int() accepts it and the value is
      not 0 (0 is false, so the `or` moves on); otherwise the atom itself as
      a string. */
  function ToPyType(atom: string): Atom
  {
    var v := ParseInt(atom);
    if v.Some? && v.value != 0 then Int(v.value) else Str(atom)
  }

  /** A non-zero integer written out in decimal reads back as itself, and
      "0" stays a string. */
  lemma ToPyTypeOfText(n: int)
    ensures n != 0 ==> ToPyType(IntToString(n)) == Int(n)
    ensures ToPyType("0") == Str("0")
  {
    ParseIntOfIntToString(n);
    ParseNatural(0);
    assert NatToString(0) == "0";
  }

  // ---------------------------------------------------------------------
  // recursive_unpack, on values
  // ---------------------------------------------------------------------

  /** The opening parenthesis, sub_program_sep. */
  const SubProgramSep: string := "("

  /** What recursive_unpack reads from the token stack: the parse and the
      tokens left. IndexError when the stack runs out: pop(0) of an empty
      list, or program_stack[0] of one. */
  function Parse(tokens: seq<string>): (r: Result<(Sexp, seq<string>)>)
    ensures r.Ok? ==> |r.value.1| < |tokens| && r.value.1 == tokens[|tokens| - |r.value.1|..]
    ensures r.Err? ==> r.error == IndexError
    decreases |tokens|, 0
  {
    if tokens == [] then Err(IndexError)
    else if tokens[0] != SubProgramSep then Ok((Leaf(ToPyType(tokens[0])), tokens[1..]))
    else
      var items := ParseItems(tokens[1..]);
      if items.Err? then Err(items.error) else Ok((Node(items.value.0), items.value.1))
  }

  /** The loop of recursive_unpack after "(": sub-parses up to the next ")"
      at the head of the stack, which is then removed. */
  function ParseItems(tokens: seq<string>): (r: Result<(seq<Sexp>, seq<string>)>)
    ensures r.Ok? ==> |r.value.1| < |tokens| && r.value.1 == tokens[|tokens| - |r.value.1|..]
    ensures r.Err? ==> r.error == IndexError
    decreases |tokens|, 1
  {
    if tokens == [] then Err(IndexError)
    else if tokens[0] == ")" then Ok(([], tokens[1..]))
    else
      var first := Parse(tokens);
      if first.Err? then Err(first.error)
      else
        var more := ParseItems(first.value.1);
        if more.Err? then Err(more.error) else Ok(([first.value.0] + more.value.0, more.value.1))
  }

  /** The items parsed before the rest of a list's items. */
  function Prepend(ast: seq<Sexp>, r: Result<(seq<Sexp>, seq<string>)>): Result<(seq<Sexp>, seq<string>)>
  {
    if r.Err? then r else Ok((ast + r.value.0, r.value.1))
  }

  lemma PrependNothing(r: Result<(seq<Sexp>, seq<string>)>)
    ensures Prepend([], r) == r
  {
    if r.Ok? {
      assert [] + r.value.0 == r.value.0;
    }
  }

  /** One more item read: the items so far, then the one just parsed, then
      the rest. */
  lemma ItemStep(tokens: seq<string>, ast: seq<Sexp>)
    requires tokens != [] && tokens[0] != ")" && Parse(tokens).Ok?
    ensures Prepend(ast, ParseItems(tokens)) == Prepend(ast + [Parse(tokens).value.0], ParseItems(Parse(tokens).value.1))
  {
    ItemsOfFirst(tokens);
    PrependTwice(ast, Parse(tokens).value.0, ParseItems(Parse(tokens).value.1));
  }

  /** ParseItems reads the first item, then the rest. */
  lemma ItemsOfFirst(tokens: seq<string>)
    requires tokens != [] && tokens[0] != ")" && Parse(tokens).Ok?
    ensures ParseItems(tokens) == Prepend([Parse(tokens).value.0], ParseItems(Parse(tokens).value.1))
  {
  }

  lemma PrependTwice(ast: seq<Sexp>, e: Sexp, r: Result<(seq<Sexp>, seq<string>)>)
    ensures Prepend(ast, Prepend([e], r)) == Prepend(ast + [e], r)
  {
    if r.Ok? {
      assert ast + ([e] + r.value.0) == ast + [e] + r.value.0;
    }
  }

  /** A missing ")" fails: with no ")" among the tokens, reading the items
      of a list runs the stack out. */
  lemma {:induction false} UnclosedFails(tokens: seq<string>)
    requires forall k :: 0 <= k < |tokens| ==> tokens[k] != ")"
    ensures ParseItems(tokens) == Err(IndexError)
    ensures Parse([SubProgramSep] + tokens) == Err(IndexError)
    decreases |tokens|
  {
    if tokens != [] {
      var first := Parse(tokens);
      if first.Ok? {
        var rest := first.value.1;
        assert forall k :: 0 <= k < |rest| ==> rest[k] == tokens[|tokens| - |rest| + k];
        UnclosedFails(rest);
      }
    }
    assert ([SubProgramSep] + tokens)[1..] == tokens;
  }

  /** The tokens of an atom. */
  function AtomText(a: Atom): string
  {
    match a
    case Int(n) => IntToString(n)
    case Str(s) => s
  }

  /** The tokens of a parse: its atoms, and each list between "(" and ")". */
  function Serialize(e: Sexp): seq<string>
    decreases e, 1
  {
    match e
    case Leaf(a) => [AtomText(a)]
    case Node(items) => [SubProgramSep] + SerializeItems(items) + [")"]
  }

  function SerializeItems(items: seq<Sexp>): seq<string>
    decreases items, 0
  {
    if items == [] then [] else Serialize(items[0]) + SerializeItems(items[1..])
  }

  /** An atom reads back as itself: a non-zero integer, or a string that is
      a good token, neither parenthesis, and not an integer int() reads as
      non-zero. */
  predicate ReadableAtom(a: Atom)
  {
    match a
    case Int(n) => n != 0
    case Str(s) => |s| >= 1 && NoSpace(s) && ParenFree(s) && !(ParseInt(s).Some? && ParseInt(s).value != 0)
  }

  predicate Readable(e: Sexp)
  {
    match e
    case Leaf(a) => ReadableAtom(a)
    case Node(items) => forall k :: 0 <= k < |items| ==> Readable(items[k])
  }

  /** A readable atom's token is neither parenthesis and converts back to
      the atom. */
  lemma AtomRoundTrip(a: Atom)
    requires ReadableAtom(a)
    ensures AtomText(a) != SubProgramSep && AtomText(a) != ")" && ToPyType(AtomText(a)) == a
  {
    if a.Int? {
      ToPyTypeOfText(a.value);
      var t := AtomText(a);
      assert t[0] == '-' || IsDigit(t[0]);
      assert t != "(" && t != ")";
    } else {
      assert a.text[0] != '(' && a.text[0] != ')';
    }
  }

  /** recursive_unpack reads back the tokens of a readable parse, and
      leaves whatever follows them on the stack: the nesting of the result
      mirrors the parentheses. */
  lemma {:induction false} ParseSerialize(e: Sexp, rest: seq<string>)
    requires Readable(e)
    ensures Parse(Serialize(e) + rest) == Ok((e, rest))
    decreases e, 1
  {
    match e
    case Leaf(a) =>
      AtomRoundTrip(a);
      assert (Serialize(e) + rest)[1..] == rest;
    case Node(items) =>
      var t := Serialize(e) + rest;
      assert t[1..] == SerializeItems(items) + ([")"] + rest);
      ParseSerializeItems(items, rest);
  }

  /** The items of a list, read up to and including its ")". */
  lemma {:induction false} ParseSerializeItems(items: seq<Sexp>, rest: seq<string>)
    requires forall k :: 0 <= k < |items| ==> Readable(items[k])
    ensures ParseItems(SerializeItems(items) + ([")"] + rest)) == Ok((items, rest))
    decreases items, 0
  {
    var t := SerializeItems(items) + ([")"] + rest);
    if items == [] {
      assert t == [")"] + rest;
      assert t[1..] == rest;
    } else {
      var tail := SerializeItems(items[1..]) + ([")"] + rest);
      assert t == Serialize(items[0]) + tail by {
        assert SerializeItems(items) == Serialize(items[0]) + SerializeItems(items[1..]);
      }
      SerializeHead(items[0]);
      ParseSerialize(items[0], tail);
      ParseSerializeItems(items[1..], rest);
      ItemsStep(t, items[0], tail, items[1..], rest);
      HeadTail(items);
    }
  }

  lemma HeadTail<T>(s: seq<T>)
    requires |s| >= 1
    ensures [s[0]] + s[1..] == s
  {
  }

  /** ParseItems past a first item that is not ")". */
  lemma ItemsStep(t: seq<string>, first: Sexp, tail: seq<string>, more: seq<Sexp>, rest: seq<string>)
    requires t != [] && t[0] != ")" && Parse(t) == Ok((first, tail)) && ParseItems(tail) == Ok((more, rest))
    ensures ParseItems(t) == Ok(([first] + more, rest))
  {
  }

  /** The first token of a readable parse is not ")". */
  lemma SerializeHead(e: Sexp)
    requires Readable(e)
    ensures |Serialize(e)| >= 1 && Serialize(e)[0] != ")"
  {
    if e.Leaf? {
      AtomRoundTrip(e.atom);
    }
  }

  // ---------------------------------------------------------------------
  // The parser object
  // ---------------------------------------------------------------------

  /** LisParser: a program and the stack of its tokens still to read. */
  class LisParser {
    var program: string
    var programStack: seq<string>

    /** LisParser(prog): the stack holds every token of the program. */
    constructor (prog: string)
      ensures program == prog && programStack == TokenizeProgram(prog)
    {
      program := prog;
      programStack := TokenizeProgram(prog);
    }

    /** recursive_unpack(): pop the head of the stack; an atom is converted,
        "(" reads sub-parses until ")" is at the head and removes it. The
        tokens after the expression stay on the stack; when the stack runs
        out the call raises IndexError with the stack empty. */
    method RecursiveUnpack() returns (r: Result<Sexp>)
      modifies this
      decreases |programStack|
      ensures program == old(program)
      ensures Parse(old(programStack)).Ok? ==>
                r == Ok(Parse(old(programStack)).value.0) && programStack == Parse(old(programStack)).value.1
      ensures Parse(old(programStack)).Err? ==> r == Err(IndexError) && programStack == []
    {
      if programStack == [] {
        return Err(IndexError);
      }
      var stackHead := programStack[0];
      programStack := programStack[1..];
      if stackHead != SubProgramSep {
        return Ok(Leaf(ToPyType(stackHead)));
      }
      ghost var after := programStack;
      var ast: seq<Sexp> := [];
      PrependNothing(ParseItems(after));
      while true
        invariant |programStack| <= |after| < |old(programStack)|
        invariant program == old(program)
        invariant ParseItems(after) == Prepend(ast, ParseItems(programStack))
        decreases |programStack|
      {
        if programStack == [] {
          return Err(IndexError);
        }
        if programStack[0] == ")" {
          break;
        }
        ghost var before := programStack;
        var item := RecursiveUnpack();
        if item.Err? {
          return Err(item.error);
        }
        ItemStep(before, ast);
        ast := ast + [item.value];
      }
      assert ParseItems(after) == Ok((ast, programStack[1..])) by {
        assert ast + [] == ast;
      }
      // remove(")") drops the first ")", which is the head
      programStack := programStack[1..];
      r := Ok(Node(ast));
    }
  }
}
