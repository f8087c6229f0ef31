/**
 The keyword-upper-casing pass of the `CaseOfWords` command: every token of a
 T-SQL script whose kind name, upper-cased, equals its own upper-cased text is
 rendered upper-case; every other token is kept verbatim; the rendered pieces
 are joined with no separator into the new query.

 The token stream is the output of an external T-SQL tokenizer and is taken
 as given: a `Token` carries the kind as its name string and the source text,
 which may be null.
 */
module CaseOfWords {
  import opened Nullables
  import opened Ascii

  /** One token of the tokenizer's stream: the name of its kind and its text. */
  datatype Token = Token(kind: string, text: Nullable<string>)

  /** The membership test of the pass: the upper-cased kind name equals the
      upper-cased text. A null text never matches, since a kind name is never null. */
  predicate IsKeyword(t: Token)
    ensures t.text.Null? ==> !IsKeyword(t)
    ensures IsKeyword(t) ==> |t.text.value| == |t.kind|
  {
    t.text.NonNull? && ToUpper(t.kind) == ToUpper(t.text.value)
  }

  /** The list element the pass produces for one token. */
  function Render(t: Token): (r: Nullable<string>)
    ensures IsKeyword(t) ==> r == NonNull(ToUpper(t.text.value))
    ensures !IsKeyword(t) ==> r == t.text
    ensures r.Null? <==> t.text.Null?
    ensures r.NonNull? ==> |r.value| == |t.text.value| && ToUpper(r.value) == ToUpper(t.text.value)
    ensures r.NonNull? && IsKeyword(t) ==> IsUpperCase(r.value)
  {
    if IsKeyword(t) then NonNull(ToUpper(t.text.value)) else t.text
  }

  /** The list built by the loop over the token stream: one `Add` per token, in order. */
  function ScriptsWords(tokens: seq<Token>): (words: seq<Nullable<string>>)
    ensures |words| == |tokens|
    ensures forall i :: 0 <= i < |tokens| ==> words[i] == Render(tokens[i])
    decreases |tokens|
  {
    if |tokens| == 0 then []
    else ScriptsWords(tokens[..|tokens| - 1]) + [Render(tokens[|tokens| - 1])]
  }

  /** `String.Join("", words)`: the pieces concatenated, a null piece counting as empty. */
  function Join(words: seq<Nullable<string>>): string
    decreases |words|
  {
    if |words| == 0 then ""
    else Join(words[..|words| - 1]) + OrEmpty(words[|words| - 1])
  }

  /** The texts of the tokens, as the tokenizer reported them. */
  function Texts(tokens: seq<Token>): seq<Nullable<string>> {
    seq(|tokens|, i requires 0 <= i < |tokens| => tokens[i].text)
  }

  /** The script the tokens were cut from, for a tokenizer that loses nothing. */
  function Source(tokens: seq<Token>): string {
    Join(Texts(tokens))
  }

  /** The text the command writes back: the joined rendering of every token.
      It differs from the concatenated token texts only in the case of
      letters: same length, same upper-case form. */
  function NewQuery(tokens: seq<Token>): (q: string)
    ensures |q| == |Source(tokens)|
    ensures ToUpper(q) == ToUpper(Source(tokens))
  {
    var ws, ts := ScriptsWords(tokens), Texts(tokens);
    assert forall i :: 0 <= i < |ws| ==> ToUpper(OrEmpty(ws[i])) == ToUpper(OrEmpty(ts[i]));
    JoinCaseEquivalent(ws, ts);
    Join(ws)
  }

  /** The stream as a re-tokenization of the new query would report it:
      the same kinds, with the rendered texts. */
  function Rerendered(tokens: seq<Token>): (rs: seq<Token>)
    ensures Texts(rs) == ScriptsWords(tokens)
  {
    seq(|tokens|, i requires 0 <= i < |tokens| => Token(tokens[i].kind, Render(tokens[i])))
  }

  // ---------------------------------------------------------------------------
  // Join: the concatenation with no separator
  // ---------------------------------------------------------------------------

  /** One piece joins to its own text, or to nothing when it is null. */
  lemma JoinSingleton(w: Nullable<string>)
    ensures Join([w]) == OrEmpty(w)
    ensures w.Null? ==> Join([w]) == ""
  {
  }

  /** Joining distributes over concatenation of the piece lists: nothing is
      inserted between pieces, and pieces keep their order. */
  lemma {:induction false} JoinAppend(a: seq<Nullable<string>>, b: seq<Nullable<string>>)
    ensures Join(a + b) == Join(a) + Join(b)
    decreases |b|
  {
    if |b| == 0 {
      assert a + b == a;
    } else {
      var b', w := b[..|b| - 1], b[|b| - 1];
      assert a + b == (a + b') + [w];
      assert ((a + b') + [w])[..|a + b'|] == a + b';
      assert Join(a + b) == Join(a + b') + OrEmpty(w);
      JoinAppend(a, b');
    }
  }

  /** Two piece lists whose pieces agree up to case join to strings that agree up to case. */
  lemma {:induction false} JoinCaseEquivalent(ws: seq<Nullable<string>>, vs: seq<Nullable<string>>)
    requires |ws| == |vs|
    requires forall i :: 0 <= i < |ws| ==> ToUpper(OrEmpty(ws[i])) == ToUpper(OrEmpty(vs[i]))
    ensures ToUpper(Join(ws)) == ToUpper(Join(vs))
    ensures |Join(ws)| == |Join(vs)|
    decreases |ws|
  {
    if |ws| > 0 {
      var n := |ws| - 1;
      JoinCaseEquivalent(ws[..n], vs[..n]);
      ToUpperAppend(Join(ws[..n]), OrEmpty(ws[n]));
      ToUpperAppend(Join(vs[..n]), OrEmpty(vs[n]));
      assert |ToUpper(OrEmpty(ws[n]))| == |ToUpper(OrEmpty(vs[n]))|;
    }
  }

  /** Two concatenations with equal-length left parts are equal exactly when both parts are. */
  lemma ConcatEqualIff(a: string, b: string, c: string, d: string)
    requires |a| == |c|
    ensures a + b == c + d <==> a == c && b == d
  {
    if a + b == c + d {
      assert a == (a + b)[..|a|] && c == (c + d)[..|c|];
      assert b == (a + b)[|a|..] && d == (c + d)[|c|..];
    }
  }

  /** For piece lists whose pieces pair up with equal lengths, the joins are
      equal exactly when every pair of pieces is equal. */
  lemma {:induction false} JoinEqualIff(ws: seq<Nullable<string>>, vs: seq<Nullable<string>>)
    requires |ws| == |vs|
    requires forall i :: 0 <= i < |ws| ==> |OrEmpty(ws[i])| == |OrEmpty(vs[i])|
    ensures Join(ws) == Join(vs) <==> forall i :: 0 <= i < |ws| ==> OrEmpty(ws[i]) == OrEmpty(vs[i])
    decreases |ws|
  {
    if |ws| > 0 {
      var n := |ws| - 1;
      var ws', vs' := ws[..n], vs[..n];
      assert forall i :: 0 <= i < n ==> ws'[i] == ws[i] && vs'[i] == vs[i];
      JoinEqualIff(ws', vs');
      JoinPrefixLength(ws', vs');
      assert Join(ws) == Join(ws') + OrEmpty(ws[n]);
      assert Join(vs) == Join(vs') + OrEmpty(vs[n]);
      ConcatEqualIff(Join(ws'), OrEmpty(ws[n]), Join(vs'), OrEmpty(vs[n]));
    }
  }

  /** Piece lists whose pieces pair up with equal lengths join to equal lengths. */
  lemma {:induction false} JoinPrefixLength(ws: seq<Nullable<string>>, vs: seq<Nullable<string>>)
    requires |ws| == |vs|
    requires forall i :: 0 <= i < |ws| ==> |OrEmpty(ws[i])| == |OrEmpty(vs[i])|
    ensures |Join(ws)| == |Join(vs)|
    decreases |ws|
  {
    if |ws| > 0 {
      var n := |ws| - 1;
      JoinPrefixLength(ws[..n], vs[..n]);
    }
  }

  // ---------------------------------------------------------------------------
  // Properties of the pass
  // ---------------------------------------------------------------------------

  /** A token's piece is unchanged exactly when it is not a keyword, or is a
      keyword already written in upper case. */
  lemma RenderUnchangedIff(t: Token)
    ensures OrEmpty(Render(t)) == OrEmpty(t.text) <==> (IsKeyword(t) ==> IsUpperCase(t.text.value))
  {
    if IsKeyword(t) {
      ToUpperFixesExactlyUpperCase(t.text.value);
    }
  }

  /** The pass changes nothing exactly when every keyword token is already upper-case. */
  lemma NoChangeIff(tokens: seq<Token>)
    ensures NewQuery(tokens) == Source(tokens) <==>
            forall i :: 0 <= i < |tokens| ==> IsKeyword(tokens[i]) ==> IsUpperCase(tokens[i].text.value)
  {
    var ws, ts := ScriptsWords(tokens), Texts(tokens);
    forall i | 0 <= i < |ws|
      ensures |OrEmpty(ws[i])| == |OrEmpty(ts[i])|
      ensures OrEmpty(ws[i]) == OrEmpty(ts[i]) <==> (IsKeyword(tokens[i]) ==> IsUpperCase(tokens[i].text.value))
    {
      RenderUnchangedIff(tokens[i]);
    }
    JoinEqualIff(ws, ts);
  }

  /** Rendering an already rendered token gives the same piece back. */
  lemma RenderIdempotent(t: Token)
    ensures Render(Token(t.kind, Render(t))) == Render(t)
  {
    if IsKeyword(t) {
      ToUpperIdempotent(t.text.value);
    }
  }

  /** Re-rendering the rendered stream yields the same list, hence the same new query. */
  lemma ScriptsWordsIdempotent(tokens: seq<Token>)
    ensures ScriptsWords(Rerendered(tokens)) == ScriptsWords(tokens)
    ensures NewQuery(Rerendered(tokens)) == NewQuery(tokens)
  {
  }

  /** The rendered stream is a lossless tokenization of the new query. */
  lemma RerenderedSource(tokens: seq<Token>)
    ensures Source(Rerendered(tokens)) == NewQuery(tokens)
  {
  }

  // ---------------------------------------------------------------------------
  // Worked cases (kind names as the tokenizer's enumeration spells them)
  // ---------------------------------------------------------------------------

  /** A reserved word is upper-cased; an identifier and a string literal keep
      their text, case included. A symbol never passes the test: its kind name
      is made of letters, which upper-casing cannot turn into `,`. */
  lemma RenderExamples()
    ensures Render(Token("Select", NonNull("select"))) == NonNull("SELECT")
    ensures Render(Token("Identifier", NonNull("myColumn"))) == NonNull("myColumn")
    ensures Render(Token("AsciiStringLiteral", NonNull("'Select'"))) == NonNull("'Select'")
    ensures Render(Token("EndOfFile", Null)) == Null
    ensures Render(Token("Comma", NonNull(","))) == NonNull(",")
  {
    assert ToUpper("select") == "SELECT" == ToUpper("Select");
    assert ToUpper("Identifier") != ToUpper("myColumn");
    assert ToUpper("AsciiStringLiteral")[0] != ToUpper("'Select'")[0];
  }

  /** The membership test is only as exact as the kind names: an identifier
      spelled like its own kind name is upper-cased as well. */
  lemma IdentifierSpelledLikeItsKind()
    ensures IsKeyword(Token("Identifier", NonNull("identifier")))
    ensures Render(Token("Identifier", NonNull("identifier"))) == NonNull("IDENTIFIER")
  {
    assert ToUpper("identifier") == "IDENTIFIER" == ToUpper("Identifier");
  }

  /** Joining one more piece of a list appends that piece's text. */
  lemma JoinStep(ws: seq<Nullable<string>>, k: nat)
    requires k < |ws|
    ensures Join(ws[..k + 1]) == Join(ws[..k]) + OrEmpty(ws[k])
  {
    assert ws[..k + 1][..k] == ws[..k];
  }

  /** The token stream of the script `select Id from Users`. */
  function ExampleTokens(): seq<Token> {
    [Token("Select", NonNull("select")), Token("WhiteSpace", NonNull(" ")),
     Token("Identifier", NonNull("Id")), Token("WhiteSpace", NonNull(" ")),
     Token("From", NonNull("from")), Token("WhiteSpace", NonNull(" ")),
     Token("Identifier", NonNull("Users"))]
  }

  /** The keywords of the example are rendered upper-case, the rest verbatim. */
  lemma ExampleRendering()
    ensures ScriptsWords(ExampleTokens()) ==
            [NonNull("SELECT"), NonNull(" "), NonNull("Id"), NonNull(" "),
             NonNull("FROM"), NonNull(" "), NonNull("Users")]
  {
    assert ToUpper("select") == "SELECT" == ToUpper("Select");
    assert ToUpper("from") == "FROM" == ToUpper("From");
    assert ToUpper("WhiteSpace")[0] != ToUpper(" ")[0];
    assert |ToUpper("Identifier")| != |ToUpper("Id")|;
    assert |ToUpper("Identifier")| != |ToUpper("Users")|;
  }

  /** The concatenation of the example's pieces, with no separator. */
  lemma ExampleJoin(ws: seq<Nullable<string>>, a: string, b: string, c: string, d: string)
    requires ws == [NonNull(a), NonNull(" "), NonNull(b), NonNull(" "), NonNull(c), NonNull(" "), NonNull(d)]
    ensures Join(ws) == a + " " + b + " " + c + " " + d
  {
    assert ws[..0] == [];
    JoinStep(ws, 0);
    assert Join(ws[..1]) == a;
    JoinStep(ws, 1);
    assert Join(ws[..2]) == a + " ";
    JoinStep(ws, 2);
    assert Join(ws[..3]) == a + " " + b;
    JoinStep(ws, 3);
    assert Join(ws[..4]) == a + " " + b + " ";
    JoinStep(ws, 4);
    assert Join(ws[..5]) == a + " " + b + " " + c;
    JoinStep(ws, 5);
    assert Join(ws[..6]) == a + " " + b + " " + c + " ";
    JoinStep(ws, 6);
    assert ws[..7] == ws;
  }

  /** The script `select Id from Users` becomes `SELECT Id FROM Users`. */
  lemma NewQueryExample()
    ensures Source(ExampleTokens()) == "select Id from Users"
    ensures NewQuery(ExampleTokens()) == "SELECT Id FROM Users"
  {
    var ws, ts := ScriptsWords(ExampleTokens()), Texts(ExampleTokens());
    ExampleRendering();
    assert ts == [NonNull("select"), NonNull(" "), NonNull("Id"), NonNull(" "),
                  NonNull("from"), NonNull(" "), NonNull("Users")];
    ExampleJoin(ws, "SELECT", "Id", "FROM", "Users");
    ExampleJoin(ts, "select", "Id", "from", "Users");
    assert "SELECT" + " " + "Id" + " " + "FROM" + " " + "Users" == "SELECT Id FROM Users";
    assert "select" + " " + "Id" + " " + "from" + " " + "Users" == "select Id from Users";
  }

}
