# Choose-your-own-adventure engine: sheet loader and navigation, in Dafny

This project models two sequential pieces of a branching-narrative engine.

1. **The sheet-to-book builder.** The story is authored in a spreadsheet. Each row holds:
   - a page id,
   - a text,
   - a list of directive cells (`GOTO x`, `SET k v`, `TIME 3`, `IF k v`, `DEFAULT`, `START`, …).

   The builder does the following:
   - groups the sheet's cells into rows by their row label;
   - skips the header row;
   - turns the first row of each id into a page, namespaced by the sheet title;
   - turns each later row of the same id into one more option on that page;
   - picks the unique page marked `START` as the start page.

   Directive cells are read with the JavaScript idiom `str.trim().split(/\s+/)`. This is modelled exactly, white-space set included.

2. **The navigation step** `GameState.processOption`. It follows an option's link to a page of the book and notifies the update listener once. If the link does not resolve, it throws.

Modules, one per concern:

| module | file | models |
|---|---|---|
| `Results` | results.dfy | `Option`, `Result`, one `Fault` per error message of the modelled code, and an in-order map over a sequence that stops at the first failure |
| `Text` | text.dfy | `trim`, `split(/\s+/)` and the `[keyword, ...args]` destructuring |
| `Book` | book.dfy | effects, options, pages, the book and spreadsheet cells, with the field names the loader uses |
| `Directives` | directives.dfy | `parseEffect`, `parseAndApplyOptionAttribute`, `parseAndApplyPageAttribute`, and the loops that apply a row's attribute cells |
| `Loader` | loader.dfy | `toRows`, `processRow`, the per-sheet step of `loadSheets`, and the start-page selection at the end of `loadBook` |
| `Game` | game.dfy | `GameState.processOption` |

Modelling decisions:
- **Errors.** A thrown error is an `Err` carrying a `Fault`.
  - A throw inside `processRow` rejects the whole load, so a page already created before the throw is never observed. The model therefore returns no book at all.
  - `processOption` returns its state unchanged together with the error.
- **Missing values.** JavaScript `undefined` is `None`. That covers:
  - a missing argument (`args[0]` past the end);
  - an option's never-set `link`.

  Used as a property key, `undefined` becomes the key `"undefined"` (`KeyName`, `LinkKey`).
- **Number parsing.** `parseFloat` and `parseInt` belong to the host, so they are a parameter (`NumberReader`). NaN is an explicit value. The model states what the loader itself does with the numbers:
  - seconds are multiplied by 1000;
  - a `parseInt` result is integral.
- **The update listener.** `onUpdate` is a flag saying whether a listener is installed. Each call of the listener appends the current page to the `updates` log.
- **Record shapes.** They follow how the loader uses them. src/game.ts declares smaller records, without `cond`, `effects`, `start` and the rest. `GameOption` keeps the `link` field that `processOption` reads.

- **Navigation.** `processOption` (src/game.ts:7-14) only follows `opt.link` and notifies the listener. It runs no effects and touches no timer, so the model does neither.

## Model

| member | source | states |
|---|---|---|
| `Text.Trim` | src/sheetsloader.ts:24 | the trimmed cell neither starts nor ends with white space; it is empty exactly when the cell is blank; an already trimmed string is unchanged |
| `Text.TrimPadded` | src/sheetsloader.ts:24 | trimming removes exactly the white space around a trimmed, non-empty text, whatever the padding |
| `Text.Split` | src/sheetsloader.ts:24 | splitting on white-space runs yields at least one piece, and no piece contains white space; `Text.SplitJoin` shows it gives back the tokens of any text written with white-space runs between them |
| `Text.SplitTrimmed` | src/sheetsloader.ts:24 | splitting a trimmed, non-blank string yields no empty piece |
| `Text.WordsShape` | src/sheetsloader.ts:24 | the keyword of a cell is empty exactly when the cell is blank, in which case it is the only word; otherwise every word is a non-empty token |
| `Text.Destructure` | src/sheetsloader.ts:24 | a blank cell has the empty keyword and no arguments; any other cell has a keyword and arguments that are all non-empty white-space-free tokens |
| `Text.DestructureBlank` | src/sheetsloader.ts:24 | a blank cell has the empty keyword and no arguments |
| `Text.SplitJoin` | src/sheetsloader.ts:24 | splitting tokens written with any non-empty white-space runs between them (spaces, tabs, line breaks, one or several) gives the tokens back |
| `Text.DestructureJoin` | src/sheetsloader.ts:24 | a cell written as tokens parted by any white-space runs, with any padding, destructures into its first token as keyword and the rest as arguments |
| `Book.Millis` | src/sheetsloader.ts:29-30 | the stored milliseconds divided by 1000 give back the parsed seconds; NaN stays NaN |
| `Directives.ReadInt` | src/sheetsloader.ts:31 | a number read by `parseInt`, when not NaN, is an integer |
| `Directives.ParseEffect` | src/sheetsloader.ts:21-35 | parsing succeeds exactly for the six effect keywords; any other keyword, the empty one included, fails with an error naming the cell |
| `Directives.ParseEffectSetsOneField` | src/sheetsloader.ts:22-31 | a parsed effect differs from a fresh effect in at most the keyword's own field, and in that field whenever the argument it stores is present |
| `Directives.ParseEffectValues` | src/sheetsloader.ts:26-31 | GOTO and DEBUG store the first argument, SET stores the second argument under the first, TIME and STRESS_SCALE store milliseconds, STRESS stores an integer |
| `Directives.ExtraArgumentsIgnored` | src/sheetsloader.ts:26-31 | two cells with the same keyword that agree on the arguments it reads (the first, and for SET the second) parse to the same effect; further arguments are ignored |
| `Directives.BlankCellIsNoEffect` | src/sheetsloader.ts:24-32 | a blank cell is not an effect: parsing it fails with the cell's error |
| `Directives.EffectsOfOk` | src/sheetsloader.ts:37-52 | a row's effect cells parse exactly when every cell is a flag of its router or a known effect keyword |
| `Directives.EffectsOfFault` | src/sheetsloader.ts:37-52 | when a row's effect cells fail, the error names the first cell, in cell order, that is neither a flag nor a known effect |
| `Directives.ParseTokens` | src/sheetsloader.ts:24-31 | a cell whose words are a directive's tokens parses to that directive's meaning |
| `Directives.ParseRender` | src/sheetsloader.ts:21-35 | writing a directive as text, with any white-space runs between its tokens and any surrounding white space, and parsing it back yields the effect the directive means (round trip) |
| `Directives.ApplyOptionAttribute` | src/sheetsloader.ts:37-44 | IF and SHOWIF write their value under their key in the lock or visibility map and never fail; DEFAULT sets the default flag; any other cell appends exactly its parsed effect, or fails as `parseEffect` does; text and link never change |
| `Directives.ApplyPageAttribute` | src/sheetsloader.ts:46-52 | START and UNTIMED only set their flags; any other cell appends exactly its parsed effect, or fails as `parseEffect` does; text, prefix and options never change |
| `Directives.ApplyOptionAttributes` | src/sheetsloader.ts:78-81 | an option row's cells fail exactly when one of its non-flag cells does not parse, and then with the error of the row's effect cells (`Directives.EffectsOfFault`: the first unparsable cell); otherwise the option's effects are those cells' effects in cell order |
| `Directives.OptionAttributesFlags` | src/sheetsloader.ts:78-81 | the option is the default exactly when some cell says DEFAULT; text and link are kept; the lock and visibility maps are untouched unless some cell says IF or SHOWIF (per key: `Directives.ConditionUntouched`) |
| `Directives.ApplyPageAttributes` | src/sheetsloader.ts:66-69 | a page row's cells fail exactly when one of its non-flag cells does not parse, and then with the error of the row's effect cells (`Directives.EffectsOfFault`: the first unparsable cell); otherwise the page's effects are those cells' effects in cell order |
| `Directives.PageAttributesFlags` | src/sheetsloader.ts:66-69 | START and UNTIMED anywhere in the row set their flags, and only then; text, prefix and options are kept |
| `Directives.ConditionWritten` | src/sheetsloader.ts:40-42 | an IF or SHOWIF cell leaves its value under its key |
| `Directives.ConditionSurvives` | src/sheetsloader.ts:37-44 | a cell that does not write the same key of the same map keeps an existing condition entry |
| `Directives.ConditionUntouched` | src/sheetsloader.ts:78-81 | when an option row's cells apply without error, a key that no IF (or SHOWIF) cell of the row names keeps its presence and value in the lock (or visibility) map, whatever the other cells write |
| `Directives.LastConditionWins` | src/sheetsloader.ts:78-81 | when an option row's cells apply without error, a key's lock (or visibility) condition holds the value of the last IF (or SHOWIF) cell naming it: a later write to the same key wins |
| `Loader.ToRows` | src/sheetsloader.ts:86-100 | the rows laid end to end are the input cells; every row is non-empty and has one row label; neighbouring rows have different labels |
| `Loader.WellGroupedRows` | src/sheetsloader.ts:86-100 | well-grouped rows are exactly the row lists whose every row is non-empty with one label and whose neighbours differ in label |
| `Loader.StartLastRow` | src/sheetsloader.ts:91-95 | a cell whose label differs from the previous cell's starts a new row of its own |
| `Loader.ContinueLastRow` | src/sheetsloader.ts:96-97 | a cell with the previous cell's label is appended to the last row |
| `Loader.ToRowsUnique` | src/sheetsloader.ts:86-100 | any well-grouped rows that lay out to the cells are the rows `toRows` computes: the grouping is the only one possible |
| `Loader.NewPage` | src/sheetsloader.ts:60-69 | a created page records the sheet's prefix and has no options |
| `Loader.AddOption` | src/sheetsloader.ts:72-82 | adding an option keeps every other field of the page and the existing options, in place |
| `Loader.ProcessRow` | src/sheetsloader.ts:55-84 | an empty id leaves the book unchanged; otherwise only the page under prefix + id can change; the page set grows by that key; existing pages only gain options; a new page is namespaced by the prefix |
| `Loader.FirstRowCreatesPage` | src/sheetsloader.ts:59-70 | the first row of a key creates its page with the row's text, the prefix, no options, the row's effects in order and the START and UNTIMED flags of its cells; it fails on missing or empty text or on an unparsable effect |
| `Loader.LaterRowAddsOption` | src/sheetsloader.ts:71-83 | a later row with text appends exactly one option, carrying that text, the row's effects and its DEFAULT flag, and changes nothing else of the page; a later row without text changes nothing |
| `Loader.ProcessRows` | src/sheetsloader.ts:109-111 | processing a sheet's rows in order only adds pages under the sheet's prefix and only extends existing pages with options |
| `Loader.ProcessSheet` | src/sheetsloader.ts:107-111 | the per-sheet step (rows grouped, header row dropped) only extends existing pages and adds pages namespaced by the sheet title |
| `Loader.ProcessSheets` | src/sheetsloader.ts:104-111 | processing the sheets one after another only grows the book |
| `Loader.SelectStart` | src/sheetsloader.ts:139-142 | start selection succeeds exactly when one page is marked START, and then that page becomes the start page; no START page and several START pages fail with their own errors; the pages are unchanged |
| `Loader.BuildBook` | src/sheetsloader.ts:125-143 | a successfully built book has exactly one START page, and its start page is marked START |
| `Game.ProcessOption` | src/game.ts:7-14 | following an option succeeds exactly when its link is a page key; then the current page is that page and the listener, if installed, is called once with it; otherwise the error names the link and the state is unchanged; the book and the variables never change |
| `Game.ProcessOptionTwice` | src/game.ts:8-10 | following the same resolvable option twice lands on the same page, notifying the listener twice |
| `Game.ProcessOptionForgetsCurrentPage` | src/game.ts:8-10 | success and the page reached depend only on the book and the option, not on the previous current page |
| `Game.Play` | src/game.ts:7-14 | a run of choices succeeds exactly when every link resolves; it ends on the last choice's page; it notifies the listener once per choice; it never changes the book or the variables |

## Left out

- The network and batching in `loadSheets`/`loadBook` (src/sheetsloader.ts:102-138) are I/O and asynchronous plumbing. That covers:
  - the HTTP fetches and the `{ID}` URL template;
  - the batches of five, with "Network Error" ending the loop;
  - the 50-sheet limit.

  The model folds the fetched sheets in sequence (`ProcessSheets`). The source processes a batch concurrently, in whatever order the responses arrive.
- Host number parsing (`parseFloat`, `parseInt`) is floating point and host behaviour, so it is a parameter. The model fixes only what the loader does with the result.
- Floating-point rounding of `x * 1000` is not modelled: `Millis` multiplies exact reals.
- `Book.Number` has no infinities: `parseFloat("Infinity")` and an `x * 1000` that overflows give ±Infinity in the source, which the model does not represent.
- src/index.ts (the DOM rendering, fades, the input lock, the pie chart) is presentation and is not part of this model.
- Keys inherited from `Object.prototype`, such as a page id `constructor`, are not modelled. Pages are a plain map, so `!book.pages[pageId]` means "key absent".
- The page's `id` field and the cell's column are not modelled: the loader never reads or writes them.
- The `!curRow` check in `toRows` (src/sheetsloader.ts:96) can never fire, since a row is always created first. It has no counterpart.
- `Loader.ProcessRow` requires a non-empty row. The source would crash on an empty row, and `toRows` never produces one (`Loader.ToRows`, `Loader.WellGroupedRows`).
- The listener's own behaviour is left out. `onUpdate` is arbitrary code, so the model only records that it was called and with which current page.
- src/index.ts calls `setPage`, `isLocked`, `isHidden`, `getDefaultOption`, `onPageChanged` and `onTimerUpdate` (src/index.ts:17-74). None of them is defined in src/game.ts, so lock and visibility evaluation, default-option choice and the timer are not part of this model.
