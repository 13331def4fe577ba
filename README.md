# mongo-markov in Dafny

A model of the Markov-chain text builder and generator of `markov.js`. The
original stores its chain in a MongoDB collection. Each record is keyed by a
*window* (`state`, the last `degree` symbols, padded with nulls at the start
of a text) and the symbol that followed it (`next`, null at the end of a
text). It holds a `count` of observations and the set of raw `tokens` seen
for that symbol.

- The **builder** tokenizes a text and symbolizes every token. It slides the
  window along the text and links each window to the symbol and token that
  follow it (`$inc` on the count, `$addToSet` on the tokens, as an upsert).
  It ends every text with a link to null.
- The **generator** starts from a window of nulls and draws among the records
  of the current window, weighted by their counts. It emits each drawn
  record's first token and shifts the drawn symbol into the window, until it
  draws null.

The model has seven modules:

- `Wrappers` holds the `Option` and `Result` datatypes the others share.
- `Text` covers the tokenizers, the symbolizers and the string functions they
  rely on:
  - JavaScript's `\s` and `\w` classes;
  - `trim`;
  - ASCII `toLowerCase`;
  - the non-global `replace`.
- `Window` covers the window and its shift-then-push update.
- `Table` covers the collection. It has two parts:
  - a value, `Store`: the records plus the order in which they were
    created, which stands for cursor order;
  - a class, `TransitionTable`, whose `Link` method is proved to perform
    exactly the upsert.
- `Builder` has the `MarkovChainBuilder` class. `AddText` and
  `AddDocuments` are proved equal to a fold of upserts.
- `Generator` has the `MarkovChainGenerator` class. `NextSymbol` and
  `Generate` are proved equal to the draw and the walk written as functions.
- `Chain` connects the builder and the generator:
  - what training puts in the table;
  - what generation then prints;
  - what happens when the two are given different degrees.

Randomness is a parameter. A draw is given a natural number `r`. It reduces
`r` modulo the total count of the matching records and picks the record
whose share of `[0, total)` holds it. `generate` is given the finite
sequence of draws it will use.

Behaviour of the code as written that the model keeps:

- `replace(/[^\w]/, '')` has no `g` flag. It deletes only the first non-word
  character, so the word symbolizer is not idempotent: `"a.b."` becomes
  `"ab."` and then `"ab"`. See `Text.SymbolizeNotIdempotent`.
- A token that is a single non-word character keeps it. `"!"` stays `"!"`
  through the `||` fallback, while `"!!!"` becomes `"!!"`.
- The terminal link of every text is `link(window, null, null)`. So the
  terminal record's token set holds null. It is never emitted, because the
  generator stops on a null symbol.
- `addDocuments` skips a record only when its selector gives `null`. The
  `undefined` of a record without text reaches `addText`. The word tokenizer
  reads it as the text `"undefined"`, while the character tokenizer throws on
  it and ends the run. See `Builder.UndefinedTrained`. A selector that throws
  is not caught, so it ends the run too (`Builder.ThrowStops`).
- A window that matches no record leaves `nextSymbol` nothing to draw from.
  The model reports this as the error `NoTransitions`.
- With `degree == 0` the window is not always empty. `shift()` on an empty
  array does nothing, so after the first symbol the window holds the latest
  symbol (`Window.SlideDegreeZero`).

## Model

| member | source | states |
|---|---|---|
| Text.Lower | markov.js:42 | `toLowerCase` keeps the length, turns each upper-case letter into its lower-case letter (32 code points on) and leaves every other character unchanged |
| Text.Trim | markov.js:42 | `trim` returns a slice of the input with whitespace only around it; the slice neither starts nor ends with whitespace, and it is empty exactly when the input is all whitespace |
| Text.FirstNonWord | markov.js:42 | the position `/[^\w]/` matches: every earlier character is a word character, and the one there is not |
| Text.RemovesFirstNonWord | markov.js:42 | the non-global `replace` deletes exactly the first non-word character and leaves a string without one unchanged |
| Text.WordSymbolize | markov.js:40-45 | the symbol is the trimmed lower-cased token minus its first non-word character; that text itself when it has no non-word character or is that one character; empty exactly when the token is all whitespace |
| Text.LetterSymbolize | markov.js:15-19 | the character symbolizer lower-cases: same length, each upper-case letter turned into its lower-case letter, other characters unchanged |
| Text.Scan | markov.js:21-37 | the `exec` loop of `scan` with `/[^\s]+/g` returns exactly the maximal runs of non-whitespace, left to right |
| Text.Tokenize | markov.js:9-24 | each tokenizer returns the tokens its mode defines: every character in character mode, the whitespace-separated runs in word mode |
| Text.WordsAreWords | markov.js:21-37 | every token of the word tokenizer is non-empty and free of whitespace |
| Text.WordsConcat | markov.js:21-37 | the word tokens, put back together, are the text with its whitespace removed: no character is lost or invented |
| Text.WordsEmpty | markov.js:21-37 | the word tokenizer returns no token exactly when the text is empty or all whitespace |
| Text.WordsOfJoin | markov.js:21-37 | tokenizing words joined by single spaces gives back exactly those words |
| Text.LetterTokensConcat | markov.js:9-13 | in character mode there is one token per character, and the tokens read in order are the text |
| Text.SymbolizeNotIdempotent | markov.js:42-43 | `"a.b."` symbolizes to `"ab."`, which symbolizes to `"ab"`: applying the symbolizer twice differs from applying it once |
| Text.SymbolizePunctuation | markov.js:42-43 | `"!!!"` symbolizes to `"!!"`, and `"!"` falls back to `"!"` |
| Text.PlainToken | markov.js:42 | a token with no surrounding whitespace and no upper-case letter is unchanged by `trim().toLowerCase()` |
| Window.Nones | markov.js:51-54 | the opening window is `degree` nulls |
| Window.EmptyWindow | markov.js:113-116 | the loop that fills the opening window yields `degree` nulls |
| Window.Shift | markov.js:125-126 | `shift()` then `push(symbol)`: the symbol ends the window and the others move one place forward; an empty window grows to one entry |
| Window.SlideIsLastPadded | markov.js:113-127 | with `degree >= 1`, the window after the pushes is the last `degree` symbols, null-padded at the front |
| Window.SlideDegreeZero | markov.js:113-127 | with `degree == 0`, the window is empty before the first symbol and is the latest symbol after it |
| Window.SlideSnoc | markov.js:125-126 | pushing one more symbol is one more shift |
| Window.SlideLength | markov.js:113-127 | the window is `degree` long, except that a zero-degree window holds one symbol once a symbol was pushed |
| Table.AddToSet | markov.js:136 | `$addToSet` adds the token when it is absent and otherwise changes nothing; it keeps earlier entries in place and keeps the set free of duplicates |
| Table.Upsert | markov.js:132-139 | the upsert creates a record `{tokens: [token], count: 1}` for a new key, or increments the count and adds the token for an existing key; every other record is unchanged; the store stays well formed |
| Table.TransitionTable.constructor | markov.js:146-147 | the destination collection is opened with the records already in it, which the builder's invariant holds of |
| Table.TransitionTable.Link | markov.js:132-139 | `link` leaves the table equal to the upsert of the old one and keeps it well formed; the record the store returns is discarded |
| Table.ApplyLinksGrows | markov.js:132-139 | linking never removes a record or lowers a count, and it only appends tokens |
| Table.ApplyLinksHasKey | markov.js:132-139 | every key a call names has a record afterwards |
| Table.ApplyLinksKeys | markov.js:132-139 | linking creates records only for keys the calls name |
| Table.ApplyLinksWellFormed | markov.js:132-139 | any number of links keeps the table well formed |
| Table.UpsertTotalCount | markov.js:136 | one link adds exactly one observation to the total count |
| Table.ApplyLinksTotalCount | markov.js:132-139 | n links add exactly n observations |
| Table.AddToSetIdempotent | markov.js:136 | adding the same token twice is adding it once |
| Table.AddToSetFirstSeen | markov.js:136 | adding tokens one by one lists the distinct tokens in the order they were first seen |
| Table.LinkRepeated | markov.js:132-139 | k links of one new key give one record: count k, the distinct tokens in first-seen order, and `tokens[0]` the first token observed |
| Builder.Symbols | markov.js:119-121 | one symbol per token, each the symbolizer applied to its token |
| Builder.MarkovChainBuilder.constructor | markov.js:86-88 | the builder keeps its collection, tokenizer, symbolizer and degree |
| Builder.MarkovChainBuilder.AddText | markov.js:112-130 | `addText` leaves the table equal to the old table after the calls `TextCalls` lists, and keeps it well formed |
| Builder.MarkovChainBuilder.AddDocuments | markov.js:90-110 | `addDocuments` trains the table on the selected values in corpus order, skipping only null: `undefined` trains "undefined" in word mode and stops the run in character mode, and a selector that throws stops the run; `ok` reports a stopped run |
| Builder.ThrowStops | markov.js:95-103 | a selector that throws for a record ends `addDocuments` at that record, so no later record is trained |
| Builder.FedStaysStopped | markov.js:95-103 | once a record has stopped the run (the selector or `addText` threw), no later record is trained |
| Builder.FedWithoutUndefined | markov.js:95-103 | when every record selects a string or null, `addDocuments` trains exactly the selected strings in corpus order and runs to the end |
| Builder.SelectedTexts | markov.js:98-101 | skipping every record without a text trains exactly the strings the records select, and nothing else |
| Builder.UndefinedTrained | markov.js:98-103 | in a one-record corpus, a record whose selector gives `undefined` is trained in word mode as the text "undefined", which gets a record from the window of nulls; skipping it would train nothing |
| Builder.UndefinedWords | markov.js:23-32 | the word tokenizer reads "undefined" as that one token |
| Builder.AddTextStep | markov.js:119-127 | one pass of the loop of `addText` is call i, which links the window after the first i symbols to symbol i and token i, followed by the shift to the window after i + 1 symbols |
| Builder.AddTextLast | markov.js:129 | the link after the loop is the last call, from the final window to null with a null token |
| Builder.TextCallsShape | markov.js:112-130 | `addText` makes one call per token plus one; call i links the window of the first i symbols to symbol i and token i; the last call links the final window to null |
| Builder.TextCallsWindows | markov.js:113-127 | with `degree >= 1`, every window `addText` links is the previous `degree` symbols, null-padded |
| Builder.TerminalEdge | markov.js:129 | after `addText`, the table has a terminal record for the text's final window |
| Builder.StartEdge | markov.js:113-123 | after `addText`, the table has a record from the window of nulls to the text's first symbol, or to null for a text without tokens |
| Builder.EmptyTextCalls | markov.js:118-129 | in word mode, an empty or all-whitespace text makes the single call from the window of nulls to null |
| Builder.AddTextTotalCount | markov.js:112-130 | `addText` adds one observation per token plus one |
| Builder.TrainTotalCount | markov.js:90-110 | training keeps the table well formed and adds one observation per token plus one per text |
| Builder.TrainStatesOfLength | markov.js:90-130 | with `degree >= 1`, every window in a trained table is exactly `degree` long |
| Builder.TrainGrows | markov.js:90-110 | training never removes a record or lowers a count |
| Generator.Matching | markov.js:73 | the query `{state: states}` returns exactly the records whose window equals the query, each once |
| Generator.MatchingInOrder | markov.js:73-80 | the records the query returns come in cursor order |
| Generator.Pick | markov.js:82 | the weighted draw picks the entry whose share of `[0, total)` holds the drawn point |
| Generator.SumPositive | markov.js:77-80 | the weights of a non-empty query have a positive sum |
| Generator.MarkovChainGenerator.constructor | markov.js:47-48 | the generator keeps its collection and degree |
| Generator.MarkovChainGenerator.NextSymbol | markov.js:72-83 | `nextSymbol` collects the option `(next, tokens[0])` and weight `count` of each matching record, and returns the weighted draw among them, or `NoTransitions` when none matches |
| Generator.MarkovChainGenerator.Generate | markov.js:50-70 | `generate` returns the walk from the window of nulls: each drawn token followed by a space, trimmed; or the error that stopped it |
| Generator.PickIff | markov.js:82 | entry i is picked exactly when the point lies in entry i's share, which is `w[i]` wide |
| Generator.PickShare | markov.js:82 | the points that pick entry i are exactly its share |
| Generator.PickCount | markov.js:82 | exactly `w[i]` of the points in `[0, total)` pick entry i, so each option is drawn in proportion to its weight |
| Generator.DrawFromTable | markov.js:72-83 | a drawn option is a record of the queried window: its symbol is that record's `next` and its token that record's `tokens[0]` |
| Generator.DrawFails | markov.js:72-83 | the draw fails exactly when no record has the queried window |
| Generator.DrawWeighted | markov.js:72-83 | exactly `count` of the points in `[0, total)` draw a given matching record: draws are weighted by count |
| Generator.StepsTrace | markov.js:50-70 | a completed walk draws a non-null symbol at every step from the window of the symbols drawn so far, and then draws null, within the draws given |
| Generator.WalkTrace | markov.js:50-70 | the same trace, starting from the window of nulls |
| Generator.WalkFollowsTable | markov.js:50-83 | every step of a generated text follows a record of the table and emits that record's first token; the final window has a terminal record |
| Generator.EmittedJoin | markov.js:63 | when every token is a word, the accumulated text is the tokens joined by single spaces, plus a trailing space |
| Generator.GeneratedText | markov.js:50-70 | when every drawn token is a word, the result is the tokens joined by single spaces, and tokenizing it gives them back |
| Chain.WordTextCalls | markov.js:112-130 | in word mode, every token `addText` links to a non-null symbol is a word |
| Chain.TrainWordTokens | markov.js:90-130 | training in word mode records only words as tokens of non-terminal records |
| Chain.TrainedOutputRetokenizes | markov.js:50-70 | on a chain trained in word mode into a collection whose every non-terminal token is a word, a generated text is the drawn tokens joined by single spaces, and tokenizing it gives those tokens back |
| Chain.MismatchedDegree | markov.js:50-58 | a generator whose degree differs from the chain's window length finds no record for its first window, so it never produces a text |
| Chain.RunConfiguration | markov.js:149-152 | the configured run builds with degree 3 and generates with degree 2, so it fails on every corpus and every draw, on a fresh collection or one earlier degree-3 runs trained |
| Chain.MatchedDegreeStarts | markov.js:50-58 | with the builder's degree, the first draw on a chain trained from at least one text always succeeds |
| Chain.TextCallsChained | markov.js:119-129 | each non-terminal call of `addText` is followed by a call from the window it shifts to |
| Chain.ApplyChainClosed | markov.js:132-139 | linking such a chain keeps a table closed, meaning every non-terminal record leads to a window that has records |
| Chain.TrainClosed | markov.js:90-130 | training keeps a table closed |
| Chain.ClosedNeverStuck | markov.js:57-67 | on a closed table, a walk from a window that has records never meets a window with no records |
| Chain.MatchedDegreeNeverStuck | markov.js:47-83 | with the builder's degree, generation on a chain trained from at least one text into a closed collection never fails for lack of a transition: it ends at null or runs out of draws |
| Chain.BuilderOnlyClosed | markov.js:112-139 | a collection that only the builder has written, starting fresh, is closed |
| Chain.CorrectedRunConfiguration | markov.js:149-152 | the run with degree 3 on both sides never fails for lack of a transition when at least one text is trained into a closed collection |

## Left out

- `lib.js` is not part of this model. It supplies the MongoDB client, the `async`/`await` wrappers, the logger and `sprintf`. Database access is modelled as operations on the `Store` value and the `TransitionTable` object.
- `run` (markov.js:142-159) is modelled only through the configuration it chooses. `Chain.RunConfiguration` and `Chain.CorrectedRunConfiguration` cover it. The connections, `console.log` and `close` are I/O.
- `ensureIndex` (markov.js:87-88) affects only lookup speed, not the contents of the collection.
- The progress log of `addDocuments` (markov.js:105-108) is output only. It does not change the table.
- Failures of the store and of the corpus cursor (`findAsync`, `countAsync`, `nextObjectAsync`, `findAndModifyAsync` rejecting) are not modelled. Every store operation is taken to succeed. In the original such a rejection ends the running `addText`, `addDocuments` or `generate`.
- Concurrency is left out. The model runs every operation to completion, one after another. The atomicity of `findAndModify` is therefore taken for granted.
- Cursor order is modelled as record creation order. MongoDB does not promise this order for an unsorted query. It affects only which share of `[0, total)` each option occupies, not any proportion.
- Generator.MarkovChainGenerator.NextSymbol: Chance's floating-point draw is replaced by a given natural number reduced modulo the total count. The claim that each record is drawn with probability count/total is stated as a count of points (`Generator.DrawWeighted`), not as a probability.
- Generator.MarkovChainGenerator.Generate: the original loop is unbounded. The model walks at most as many steps as draws are given and reports `OutOfDraws` after that. So it does not model a walk that never draws null.
- Generator.MarkovChainGenerator.NextSymbol: what Chance does with an empty list of options is not modelled. The model reports the error `NoTransitions`.
- Text.Lower: covers only the ASCII letters, not Unicode case mapping.
- Text.Tokenize: strings are sequences of Dafny characters, not UTF-16 code units. In character mode, a character outside the Basic Multilingual Plane is one token here but two in the original.
- Text.WordSymbolize: for the same reason, when a token's first non-word character lies outside the Basic Multilingual Plane, the original's `replace` deletes only its high surrogate while the model deletes the whole character. `"lol😂"` keeps a lone low surrogate in the original but becomes `"lol"` here, so the model merges symbols the original keeps apart.
- Text.Scan: the check that throws 'RegEx must be global.' is left out. Its only caller passes a global expression, so it cannot fire.
- Builder.MarkovChainBuilder.AddDocuments: the selector gives null, `undefined` or a string, or throws. A selector that gives another value (a number, an object) is not modelled; the word tokenizer would train its string form, and the character tokenizer would make a single terminal link for a number.
- Table.TransitionTable.constructor: the records already in the collection are required to satisfy the table invariant, as records written by `link` do. A collection written by another program is not modelled.
- markov.js:150 does not close the parenthesis it opens after `await`, so the file as written does not parse and `run` never starts. The model reads the line as the evidently intended call `await(builder.addDocuments(messages, d => d.text))`.

## Findings

| source | as written | input that shows it | evidently intended | confidence | as-written member | corrected member |
|---|---|---|---|---|---|---|
| markov.js:149-152 | the chain is built with degree 3 and the generator is created with degree 2 (read with line 150's missing parenthesis closed, without which the file does not parse) | any corpus and any draws: every stored window has 3 entries, so the first query `{state: [null, null]}` matches nothing | the generator uses the builder's degree, 3 | high; not executed | Chain.RunConfiguration | Chain.CorrectedRunConfiguration |
| markov.js:98-103 | only `null` is skipped (`text === null`), so a record whose selector gives `undefined`, as `d.text` does for a record without text, reaches `addText` | a record without a `text` field: the word tokenizer trains the token "undefined" from the window of nulls | records without text are skipped | medium; not executed | Builder.UndefinedTrained | Builder.SelectedTexts |
