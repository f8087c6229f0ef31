# CaseOfWords: keyword upper-casing for T-SQL scripts

A Dafny model of the `CaseOfWords` command of the QuickEditing Visual Studio
extension. The command reads the whole text of the active document. It
tokenizes the text with the T-SQL parser and renders every token. A token whose
kind name, upper-cased, equals its own upper-cased text (in practice a reserved
word whose kind name is spelled like it; a symbol such as `,` never matches,
since a kind name is an identifier) is written in upper case. Every other token keeps its
text. The pieces are joined with no separator. When the result differs from the
document, the whole span `[0, length)` is replaced by it in one edit, and the
caret is moved back to its numeric pre-edit offset.

Files:

- `nullables.dfy` (module `Nullables`): the C# null reference, and what
  `String.Join` makes of a null element.
- `ascii.dfy` (module `Ascii`): ASCII upper-casing, standing in for
  `String.ToUpper`.
- `case_of_words.dfy` (module `CaseOfWords`): tokens, the per-token rendering,
  the list build of `GetScriptsWords`, the join, and their properties.
- `execute.dfy` (module `CaseOfWordsExecute`): the document view as a buffer
  (text and caret), the whole-span edit, and `Execute` as one state transition.

The tokenizer is a parameter `tokenize: string -> seq<Token>`. A token's kind is
the name string that `TokenType.ToString()` yields. Its text is `Nullable<string>`.
Properties that need the tokenizer to lose no text take that as a hypothesis,
`LosslessOn(tokenize, text)`: the token texts, concatenated, give back the text.

Points where the code's behaviour is easy to miss:

- The code does not clamp the reused caret offset
  (`QuickEditing/CaseOfWords.cs:119`). An offset past the new end makes the
  `SnapshotPoint` construction throw. The model returns `CaretOutOfRange` for
  it. `CaretStaysInRange` proves that this cannot happen with a lossless
  tokenizer and a length-preserving upper-case. `CaretNotClamped` shows it
  happening with a tokenizer that drops text.
- The code catches no exception. The model has no failure outcome beyond
  `CaretOutOfRange`.
- A null token text is added to the list as null. `String.Join` turns it into
  the empty string. The model keeps the null in the list, and `Join` counts it
  as empty.
- The keyword test is only as exact as the kind names. An identifier spelled
  like its own kind name (`identifier`) is upper-cased too
  (`IdentifierSpelledLikeItsKind`).

## Model

| member | source | states |
|---|---|---|
| CaseOfWords.IsKeyword | QuickEditing/CaseOfWords.cs:128-131 | a token with a null text never passes the keyword test; a token that passes it has a text exactly as long as its kind name |
| CaseOfWords.Render | QuickEditing/CaseOfWords.cs:128-138 | a token whose upper-cased kind name equals its upper-cased text is rendered as that upper-cased text, and any other token as its original text; a null text stays null; a rendered text has the original's length and upper-case form, so only letter case can change |
| CaseOfWords.RenderUnchangedIff | QuickEditing/CaseOfWords.cs:128-138 | a token's piece is unchanged exactly when the token is not a keyword or is a keyword already in upper case |
| CaseOfWords.ScriptsWords | QuickEditing/CaseOfWords.cs:123-141 | the list has exactly one entry per token, and entry i is the rendering of token i: nothing dropped, reordered or inserted |
| CaseOfWords.JoinSingleton | QuickEditing/CaseOfWords.cs:106 | one piece joins to its own text; a null piece joins to the empty string (with `JoinAppend`, this determines `Join` on every list) |
| CaseOfWords.JoinAppend | QuickEditing/CaseOfWords.cs:106 | joining a concatenation of piece lists is the concatenation of their joins: no separator is inserted and order is kept (with `JoinSingleton`, this determines `Join` on every list) |
| CaseOfWords.JoinCaseEquivalent | QuickEditing/CaseOfWords.cs:106 | piece lists that agree piecewise up to case join to strings of equal length that agree up to case |
| CaseOfWords.JoinEqualIff | QuickEditing/CaseOfWords.cs:106 | for piece lists whose pieces pair up with equal lengths, the joins are equal exactly when every pair of pieces is equal |
| CaseOfWords.NewQuery | QuickEditing/CaseOfWords.cs:105-106 | the new query has the same length as the concatenated token texts and the same upper-case form |
| CaseOfWords.NoChangeIff | QuickEditing/CaseOfWords.cs:105-108 | the new query equals the concatenated token texts exactly when every keyword token is already upper-case |
| CaseOfWords.RenderIdempotent | QuickEditing/CaseOfWords.cs:128-138 | rendering a token whose text is already rendered gives the same piece |
| CaseOfWords.ScriptsWordsIdempotent | QuickEditing/CaseOfWords.cs:123-141 | re-rendering the rendered stream (same kinds, rendered texts) gives the same list and the same new query |
| CaseOfWords.Rerendered | QuickEditing/CaseOfWords.cs:128-138 | the texts of the re-rendered stream are exactly the list the pass builds for the original stream |
| CaseOfWords.RerenderedSource | QuickEditing/CaseOfWords.cs:105-106 | the rendered stream's texts concatenate to the new query, so it is a lossless tokenization of it |
| CaseOfWords.RenderExamples | QuickEditing/CaseOfWords.cs:128-138 | `select` of kind `Select` becomes `SELECT`; the identifier `myColumn` and the literal `'Select'` are unchanged; a null end-of-file text stays null; the symbol `,` of kind `Comma` is unchanged |
| CaseOfWords.IdentifierSpelledLikeItsKind | QuickEditing/CaseOfWords.cs:128-133 | an identifier whose text is `identifier` passes the keyword test and is upper-cased |
| CaseOfWords.NewQueryExample | QuickEditing/CaseOfWords.cs:105-106 | the tokens of `select Id from Users` concatenate back to it and are rendered to `SELECT Id FROM Users` |
| CaseOfWordsExecute.ApplyEdit | QuickEditing/CaseOfWords.cs:117 | a span replace keeps the text before and after the span and puts the new text in between; the length changes by the difference |
| CaseOfWordsExecute.WholeSpanReplace | QuickEditing/CaseOfWords.cs:116-117 | replacing the span `[0, length)` leaves exactly the new text |
| CaseOfWordsExecute.Execute | QuickEditing/CaseOfWords.cs:92-120 | no view means no action; the text is left alone exactly when the new query equals it; otherwise exactly one edit replaces `[0, length)` with the new query and the caret gets its pre-edit offset, and lies inside the new text, or the move fails exactly when that offset is past the new end |
| CaseOfWordsExecute.CaretStaysInRange | QuickEditing/CaseOfWords.cs:112-119 | with a lossless tokenizer and a valid caret the move never fails: the caret keeps its offset inside the new text, and the text keeps its length and changes only in case |
| CaseOfWordsExecute.EditsIff | QuickEditing/CaseOfWords.cs:105-117 | with a lossless tokenizer the document is edited exactly when some keyword token holds a lower-case letter |
| CaseOfWordsExecute.ExecuteIdempotent | QuickEditing/CaseOfWords.cs:100-119 | a second run on the result changes nothing, when the tokenizer reports the new text as the same kinds with the rendered texts |
| CaseOfWordsExecute.CaretNotClamped | QuickEditing/CaseOfWords.cs:119 | the reused offset is not clamped: a new text shorter than the caret offset makes the caret move fail after the replace |
| CaseOfWordsExecute.ExecuteExample | QuickEditing/CaseOfWords.cs:112-119 | in `select Id from Users` with the caret at 7, one replace writes `SELECT Id FROM Users` and the caret stays at 7 |

## Left out

- The T-SQL tokenizer (`TSql160Parser.Parse`): an external library. Its token stream is the `tokenize` parameter. Its parse errors are ignored by the code and are not modelled.
- Command registration, the singleton instance and the service lookup (`CaseOfWords.cs:47-89`): host plumbing with no logic of its own.
- The switch to the main thread and `async void`: concurrency and host lifecycle. An exception thrown by `Execute` is modelled only as the `CaretOutOfRange` outcome.
- The document view, text buffer, snapshot and caret objects: abstracted as a `Buffer` of text and caret offset. The model assumes that the view's snapshot and the buffer's current snapshot hold the same text, and it does not model where the editor puts the caret during the replace.
- A buffer that refuses the edit (a read-only document): the code does not handle it, and the model has no outcome for it.
- Ascii.ToUpper: culture-sensitive `String.ToUpper` is replaced by ASCII upper-casing, which preserves length and is idempotent; full Unicode case mapping is not modelled.
- The enumeration name `TokenType.ToString()`: taken as the token's `kind` string.
- The unused cast of the parse result to a script (`CaseOfWords.cs:103`).
