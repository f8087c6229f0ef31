/**
 The apply step of the `CaseOfWords` command, as one state transition over an
 abstract document view: the whole text and the caret offset.

 The command reads the full text, tokenizes it, builds the new query and, when
 it differs from the text, replaces the span `[0, length)` with it in one edit
 and puts the caret back at its numeric pre-edit offset. It does not clamp
 that offset: placing the caret beyond the end of the new text raises an
 exception, which is the `CaretOutOfRange` outcome here.
 */
module CaseOfWordsExecute {
  import opened Nullables
  import opened Ascii
  import opened CaseOfWords

  /** The text of the active document and the caret's offset into it. */
  datatype Buffer = Buffer(text: string, caret: int)

  /** A caret that points into its text (the end of the text included). */
  predicate Valid(b: Buffer) {
    0 <= b.caret <= |b.text|
  }

  /** A buffer edit: replace `length` characters from `start` by `newText`. */
  datatype Edit = Replace(start: int, length: int, newText: string)

  /** The span of an edit lies inside the text. */
  predicate InBounds(text: string, e: Edit) {
    0 <= e.start && 0 <= e.length && e.start + e.length <= |text|
  }

  /** The text after one edit: the prefix and the suffix around the span are untouched. */
  function ApplyEdit(text: string, e: Edit): (r: string)
    requires InBounds(text, e)
    ensures |r| == |text| - e.length + |e.newText|
    ensures r[..e.start] == text[..e.start]
    ensures r[e.start..e.start + |e.newText|] == e.newText
    ensures r[e.start + |e.newText|..] == text[e.start + e.length..]
  {
    text[..e.start] + e.newText + text[e.start + e.length..]
  }

  /** The result of one invocation of the command. */
  datatype Outcome =
    | NoActiveView
    | Unchanged(buffer: Buffer)
    | Replaced(buffer: Buffer, edits: seq<Edit>)
    | CaretOutOfRange(text: string, edits: seq<Edit>, position: int)

  /** One invocation of the command. `view` is the active document view, or
      null when there is none; `tokenize` stands for the external T-SQL
      tokenizer's token stream for a text. */
  function Execute(view: Nullable<Buffer>, tokenize: string -> seq<Token>): (o: Outcome)
    ensures view.Null? <==> o.NoActiveView?
    ensures view.NonNull? ==>
              (o.Unchanged? <==> NewQuery(tokenize(view.value.text)) == view.value.text)
    ensures o.Unchanged? ==> o.buffer == view.value
    ensures o.Replaced? ==>
              && o.edits == [Replace(0, |view.value.text|, NewQuery(tokenize(view.value.text)))]
              && o.buffer == Buffer(NewQuery(tokenize(view.value.text)), view.value.caret)
              && Valid(o.buffer)
    ensures o.CaretOutOfRange? ==>
              && o.edits == [Replace(0, |view.value.text|, NewQuery(tokenize(view.value.text)))]
              && o.text == NewQuery(tokenize(view.value.text))
              && o.position == view.value.caret
              && !(0 <= o.position <= |o.text|)
  {
    match view
    case Null => NoActiveView
    case NonNull(b) =>
      var script := b.text;
      var newQuery := NewQuery(tokenize(script));
      if newQuery == script then
        Unchanged(b)
      else
        var position := b.caret;
        var edit := Replace(0, |b.text|, newQuery);
        var text := ApplyEdit(b.text, edit);
        if 0 <= position <= |text| then
          Replaced(Buffer(text, position), [edit])
        else
          CaretOutOfRange(text, [edit], position)
  }

  /** A tokenizer whose token texts, concatenated, give back the text. */
  predicate LosslessOn(tokenize: string -> seq<Token>, text: string) {
    Source(tokenize(text)) == text
  }

  /** Replacing the whole span leaves exactly the new text. */
  lemma WholeSpanReplace(text: string, newText: string)
    ensures ApplyEdit(text, Replace(0, |text|, newText)) == newText
  {
  }

  /** With a lossless tokenizer the caret offset the command reuses without
      clamping always lies inside the new text: the exception case cannot
      arise, the caret keeps its offset, and the text only changes case. */
  lemma CaretStaysInRange(b: Buffer, tokenize: string -> seq<Token>)
    requires Valid(b)
    requires LosslessOn(tokenize, b.text)
    ensures Execute(NonNull(b), tokenize).Unchanged? || Execute(NonNull(b), tokenize).Replaced?
    ensures var b' := Execute(NonNull(b), tokenize).buffer;
            Valid(b') && b'.caret == b.caret && |b'.text| == |b.text| && ToUpper(b'.text) == ToUpper(b.text)
  {
  }

  /** With a lossless tokenizer, the command edits the document exactly when
      some keyword token contains a lower-case letter. */
  lemma EditsIff(b: Buffer, tokenize: string -> seq<Token>)
    requires Valid(b)
    requires LosslessOn(tokenize, b.text)
    ensures Execute(NonNull(b), tokenize).Replaced? <==>
            exists i :: 0 <= i < |tokenize(b.text)| && IsKeyword(tokenize(b.text)[i]) &&
                        !IsUpperCase(tokenize(b.text)[i].text.value)
  {
    CaretStaysInRange(b, tokenize);
    NoChangeIff(tokenize(b.text));
  }

  /** Running the command a second time changes nothing, provided the tokenizer
      reports the new text as the same kinds with the rendered texts. */
  lemma ExecuteIdempotent(b: Buffer, tokenize: string -> seq<Token>)
    requires Valid(b)
    requires LosslessOn(tokenize, b.text)
    requires Execute(NonNull(b), tokenize).Replaced? ==>
               tokenize(Execute(NonNull(b), tokenize).buffer.text) == Rerendered(tokenize(b.text))
    ensures Execute(NonNull(b), tokenize).Unchanged? || Execute(NonNull(b), tokenize).Replaced?
    ensures var b' := Execute(NonNull(b), tokenize).buffer;
            Execute(NonNull(b'), tokenize) == Unchanged(b')
  {
    CaretStaysInRange(b, tokenize);
    var tokens := tokenize(b.text);
    ScriptsWordsIdempotent(tokens);
  }

  /** The reused offset is not clamped: when the new text is shorter than the
      caret offset (which a tokenizer that drops text can cause), the command
      fails after the replace instead of moving the caret to the end. */
  lemma CaretNotClamped()
    ensures var tokenize := (s: string) => [Token("Select", NonNull("select"))];
            Execute(NonNull(Buffer("select x", 8)), tokenize) ==
              CaretOutOfRange("SELECT", [Replace(0, 8, "SELECT")], 8)
  {
    var tokens := [Token("Select", NonNull("select"))];
    assert ToUpper("select") == "SELECT" == ToUpper("Select");
    assert ScriptsWords(tokens) == [NonNull("SELECT")];
    JoinSingleton(NonNull("SELECT"));
  }

  /** In `select Id from Users` with the caret at offset 7 (inside `Id`), the
      command replaces the whole text once and leaves the caret at offset 7. */
  lemma ExecuteExample()
    ensures var tokenize := (s: string) => ExampleTokens();
            Execute(NonNull(Buffer("select Id from Users", 7)), tokenize) ==
              Replaced(Buffer("SELECT Id FROM Users", 7), [Replace(0, 20, "SELECT Id FROM Users")])
  {
    NewQueryExample();
  }
}
