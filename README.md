# SEC filing extractor, modelled in Dafny

What the model covers is the logic of a tool that turns 10-K filings into one table of financial
line items. For each filing file:

1. A `DataCleaner` turns the filing into plain text. It loads the file once. If the text
   contains `<html` or `<!doctype html` in any letter case, the cleaner removes every
   `script` and `style` element and extracts the remaining text strings. It strips each
   string, drops the empty ones, joins the rest with single spaces and collapses every
   whitespace run to one space. Other text passes through unchanged.
2. `FinancialDataExtractor.extract_from_file` puts the text into a prompt, with every `"\n"`
   in the query and the passage replaced by a space, and asks a generative model for the
   consolidated balance sheets as JSON.
3. `process_and_flatten` sanitizes the answer:
   - it drops lines that begin with a code fence, rejoins the rest with `"\n"` and strips
     the result;
   - it parses the JSON and walks it (statement, year, item), writing one row per item. A
     row is `Statement`, `Year` and `Item` overlaid with the item's own entries.
4. The loop in `main`:
   - skips a filing whose answer is empty, or whose flattening raises;
   - otherwise tags every row with the ticker and year taken from the file name
     (`<TICKER>-10k-<year>`), keeps the frame, and reassigns the loop's `ticker`;
   - at the end, concatenates the kept frames and names the output file after the last
     ticker.

The project has six modules:

- `Wrappers`: Option and Result.
- `Text`: the Python `str` operations used, over `seq<char>`. These are `isspace`,
  `splitlines`, `split`, `join`, `strip`, `lower`, `startswith` and `in`.
- `Records`: the parsed JSON tree, and rows as ordered dicts. `Set` and `Overlay` follow
  dict assignment and `{**a, **b}`.
- `Extractor`: the prompt line flattening, the sanitizer, and the flattener. The flattener
  appears twice: as functions, and as the imperative nested loops (`ProcessAndFlatten`),
  which are proved equal to those functions.
- `Preprocessor`: HTML detection, the document tree and its cleaning, the whitespace
  collapse, and `DataCleaner` as a class with a lazily loaded `content` field.
- `Pipeline`: file-name parsing, tagging, the outcome of one filing, the loop as a fold over
  outcomes, and the imperative loop `ProcessFilings` proved against that fold.

Foreign code enters as function-typed parameters:

- `disk` is what reading a file yields;
- `parse` is the HTML parser, which returns a `Node` tree;
- `generate` is the model call, from prompt to response text;
- `loads` is `json.loads`, which returns `None` when the text does not parse;
- `preamble` is the fixed instruction prose of the prompt.

Where code and documentation differ, the model follows the code:

- A value of the wrong shape at any level aborts the whole filing. The items around it are
  not flattened one by one.
- No `value` or `unit` key is checked.
- No diagnostics are collected.

One pandas behaviour is modelled because it changes the loop's observable result:

- `set_index(['Statement', 'Year', 'Item'])` raises on a frame built from no rows, because
  that frame has no such columns.
- This happens inside the `try`, so such a filing is skipped and does not reassign the
  ticker. This is `FlattenError.NoColumns`.

## Model

| member | source | states |
|---|---|---|
| Extractor.BuildPrompt | src/extractor.py:23-63 | the prompt: the fixed preamble, then "QUESTION: " and the flattened query, a line break, the indentation, "PASSAGE: " and the flattened passage, a line break and the indentation |
| Extractor.ExtractFromFile | src/extractor.py:11-65 | the model's answer to the prompt built from the passage and the query |
| Extractor.OneLine | src/extractor.py:20-21 | the result has no "\n", the same length as the input, every other character in place and a space where each "\n" was |
| Extractor.OneLineFixedPoint | src/extractor.py:20-21 | the replacement changes text exactly when it holds a "\n", and applying it twice equals applying it once |
| Extractor.PromptLayout | src/extractor.py:61-62 | whatever "\n" query and passage held, the prompt's lines are the preamble's lines, with the question ending the last of them, then the passage on a line of its own, then the closing indentation |
| Extractor.IsFence | src/extractor.py:74 | `line.startswith("```")`, on the line as it is |
| Extractor.KeepLines | src/extractor.py:74 | the list comprehension: the lines that are not fences, in order |
| Extractor.FenceExamples | src/extractor.py:74 | a line is a fence only when its first three characters are backticks: "```json" is one, " ```json" (leading space) and a line with ``` in the middle are not |
| Extractor.KeepLinesMembers | src/extractor.py:74 | a line survives the filter exactly when it was a line of the input and is not a fence |
| Extractor.KeepLinesAppend | src/extractor.py:74 | the filter works line by line, so kept lines keep their relative order |
| Extractor.KeptLinesJoined | src/extractor.py:73-75 | before the strip, splitting the joined text at "\n" gives back exactly the kept lines, so they are separated by single "\n" |
| Extractor.Sanitize | src/extractor.py:73-75 | the sanitized text neither starts nor ends with whitespace |
| Text.IsSpace | src/preprocessor.py:51 | `str.isspace()`: \t to \r, \x1c to space, \x85, \xa0, U+1680, U+2000 to U+200A, U+2028, U+2029, U+202F, U+205F and U+3000. This is also the `\s` set here and the set that `strip()` removes at src/extractor.py:75 and src/preprocessor.py:50 |
| Text.IsLineBreak | src/extractor.py:73 | the characters at which `splitlines()` ends a line: \n to \r, \x1c to \x1e, \x85, U+2028 and U+2029 |
| Text.BreakWidth | src/extractor.py:73 | a line boundary is two characters for "\r\n" and one otherwise |
| Text.Join | src/extractor.py:75 | `sep.join(parts)`: the parts with `sep` between consecutive ones, "" for no parts. This is also the `separator=' '` of `get_text` at src/preprocessor.py:50 |
| Text.StartsWith | src/extractor.py:74 | `s.startswith(prefix)`: the first characters of `s` are `prefix` |
| Text.Contains | src/preprocessor.py:34 | `sub in s`: `sub` occurs in `s` at some position |
| Text.Strip | src/extractor.py:75 | `strip` leaves no whitespace at either end |
| Text.StripMiddle | src/extractor.py:75 | what `strip` removes is a whitespace prefix and a whitespace suffix: the result is the middle of its input |
| Text.SplitLines | src/extractor.py:73 | no line produced by `splitlines` holds a line boundary |
| Text.SplitLinesJoin | src/extractor.py:73-75 | boundary-free lines, the last non-empty, joined with "\n" split back into the same lines |
| Text.SplitOnJoin | src/extractor.py:75 | separator-free parts joined with the separator split back into the same parts |
| Text.JoinSplitOn | src/main.py:83 | joining the parts of `split(c)` with `c` gives back the text |
| Text.SplitOnParts | src/main.py:83 | no part of `split(c)` holds `c` |
| Text.SplitOnConcat | src/main.py:83 | a separator between two texts splits the one, then the other |
| Extractor.LeafRow | src/extractor.py:85-90 | the row of one leaf: Statement, Year and Item overlaid with the leaf's members |
| Extractor.ItemRows | src/extractor.py:84-91 | the rows of one year, one per item, in item order |
| Extractor.YearRows | src/extractor.py:83-91 | the rows of one statement, year after year |
| Extractor.StatementRows | src/extractor.py:82-91 | the rows of the whole payload, statement after statement |
| Extractor.Flatten | src/extractor.py:81-91 | the rows of a well-shaped payload, a shape error otherwise |
| Extractor.ToFrame | src/extractor.py:94-95 | the frame of the rows, or the `set_index` failure when there are none |
| Extractor.FlattenResponse | src/extractor.py:67-96 | `process_and_flatten`: sanitize, parse with `loads`, flatten, build the frame; each failure is its own error |
| Extractor.AppendItemRows | src/extractor.py:84-91 | the inner loop appends exactly the rows of the year's items to the list, or fails when some item value is not an object |
| Extractor.AppendYearRows | src/extractor.py:83-91 | the middle loop appends exactly the rows of the statement's years, or fails when some year or item value is not an object |
| Extractor.ProcessAndFlatten | src/extractor.py:67-96 | the imperative sanitize, parse and three nested loops give exactly `FlattenResponse`: an unparsable text, a wrong shape or no leaf is an error, else the rows |
| Extractor.FlattenResponseOk | src/extractor.py:73-96 | a frame comes out exactly when the sanitized text parses, every level is shaped and there is at least one leaf, and it is then the rows of the parsed payload |
| Extractor.FlattenSucceedsIff | src/extractor.py:81-91 | flattening succeeds exactly when the payload, every statement value, every year value and every item value are objects, and then gives one row per leaf |
| Extractor.NoPartialRows | src/extractor.py:84-89 | one item value that is not an object voids the rows of its well-formed siblings too |
| Extractor.BalanceSheetExample | src/extractor.py:81-91 | the template's example payload, cut to one leaf, flattens to the row Statement, Year, Item, value, unit |
| Extractor.StatementRowsCount | src/extractor.py:81-91 | one row per (statement, year, item) triple: the row count is the sum over statements and years of the number of items |
| Extractor.YearRowsCount | src/extractor.py:83-91 | the rows of one statement number the items summed over its years |
| Extractor.StatementRowsAt | src/extractor.py:82-91 | the rows of statement i come after those of earlier statements and before those of later ones |
| Extractor.YearRowsAt | src/extractor.py:83-91 | within a statement, the rows of year j come after those of earlier years and before those of later ones |
| Extractor.ItemRowsAt | src/extractor.py:84-91 | within a year, the k-th row is the row of the k-th item |
| Extractor.StatementRowsHead | src/extractor.py:82-91 | the rows of a payload begin with those of its first statement |
| Extractor.YearRowsHead | src/extractor.py:83-91 | the rows of a statement begin with those of its first year |
| Extractor.ItemRowsAppend | src/extractor.py:84-91 | the rows of two item lists are the rows of the first, then those of the second |
| Extractor.YearRowsAppend | src/extractor.py:83-91 | the rows of two year lists are the rows of the first, then those of the second |
| Extractor.StatementRowsAppend | src/extractor.py:82-91 | the rows of two statement lists are the rows of the first, then those of the second |
| Extractor.LeafRowLookup | src/extractor.py:85-90 | a row holds every entry of its leaf; Statement, Year and Item read the path keys unless the leaf has a key of that name, whose value then wins |
| Extractor.LeafRowKeys | src/extractor.py:85-90 | a row is a dict whose first three columns are Statement, Year and Item |
| Extractor.ItemsShapedIff | src/extractor.py:84 | the item level is shaped exactly when every item value is an object |
| Extractor.YearsShapedIff | src/extractor.py:83-84 | the year level is shaped exactly when every year value is an object whose item level is shaped |
| Extractor.YearsShapedDeep | src/extractor.py:83-84 | a statement value is shaped exactly when each year value is an object whose item values are all objects |
| Extractor.StatementsShapedIff | src/extractor.py:82-83 | the statement level is shaped exactly when every statement value is an object whose year level is shaped |
| Records.Set | src/main.py:92-93 | `row[k] = v`: an existing key keeps its position and takes the new value, a new key is appended |
| Records.Overlay | src/extractor.py:89 | `{**base, **kvs}`: the members of `kvs` assigned into `base` one after another |
| Records.Lookup | src/extractor.py:85-90 | a key reads a value exactly when the row has that key, and the value is one of the row's entries for it |
| Records.OverlayLookup | src/extractor.py:89 | `{**base, **kvs}` reads, for each key, the value `kvs` gives it, and otherwise the base's value |
| Records.OverlayKeys | src/extractor.py:89 | the overlay keeps the base's columns in place and a dict stays a dict |
| Records.SetLookup | src/main.py:92-93 | after `row[k] = v`, key k reads v and every other key reads what it read before |
| Records.SetKeys | src/main.py:92-93 | `row[k] = v` keeps the columns in place and adds k at the end only when it is new |
| Text.Lower | src/preprocessor.py:32 | `content.lower()` on ASCII letters, every other character kept |
| Preprocessor.IsHtmlText | src/preprocessor.py:32-34 | the lower-cased content holds "<html" or "<!doctype html" |
| Preprocessor.IsHidden | src/preprocessor.py:47 | the element is a `script` or a `style` |
| Preprocessor.AllStrings | src/preprocessor.py:50 | the text strings of the document, in document order |
| Preprocessor.StrippedStrings | src/preprocessor.py:50 | `strip=True`: each string stripped, empty ones dropped |
| Preprocessor.GetText | src/preprocessor.py:50 | `get_text(separator=' ', strip=True)`: the stripped strings joined by single spaces |
| Preprocessor.Collapse | src/preprocessor.py:51 | `re.sub(r'\s+', ' ', text)`: every maximal whitespace run replaced by one space |
| Preprocessor.CleanHtmlText | src/preprocessor.py:45-51 | `clean_html` on the parsed document: hidden subtrees removed, text extracted, whitespace collapsed |
| Preprocessor.CleanText | src/preprocessor.py:53-65 | `get_clean_text` on loaded content: the cleaned HTML text when the markers are present, the content otherwise |
| Preprocessor.DataCleaner.constructor | src/preprocessor.py:10-17 | a new cleaner has its path, no content, and has read nothing |
| Preprocessor.DataCleaner.LoadFile | src/preprocessor.py:19-22 | the content becomes what reading the file yields, one read more |
| Preprocessor.DataCleaner.EnsureLoaded | src/preprocessor.py:30-31 | the file is read only when no content is loaded; loaded content is never reloaded |
| Preprocessor.DataCleaner.IsHtml | src/preprocessor.py:24-34 | loads at most once, and answers whether the lower-cased content holds either marker |
| Preprocessor.DataCleaner.CleanHtml | src/preprocessor.py:36-51 | loads at most once, and gives the collapsed text of the parsed content with scripts and style sheets removed |
| Preprocessor.DataCleaner.GetCleanText | src/preprocessor.py:53-65 | loads at most once, and gives the cleaned text of HTML content, the content as it is otherwise |
| Preprocessor.IsHtmlCaseInsensitive | src/preprocessor.py:32-34 | two contents that agree up to letter case are both HTML or both not |
| Preprocessor.IsHtmlExamples | src/preprocessor.py:32-34 | "<HTML>" and "<!DOCTYPE html>" are detected, text without a marker is not |
| Preprocessor.PassThrough | src/preprocessor.py:62-65 | content without either marker is returned verbatim |
| Preprocessor.RemoveHidden | src/preprocessor.py:47-48 | after the decompose loop no script or style element is left at any depth |
| Preprocessor.RemoveHiddenFixedPoint | src/preprocessor.py:47-48 | the decompose loop changes a document exactly when it holds a script or style element, and a second pass removes nothing more |
| Preprocessor.RemoveHiddenAppend | src/preprocessor.py:47-48 | decomposing works node by node |
| Preprocessor.HiddenIgnored | src/preprocessor.py:47-51 | a script or style element contributes nothing to the cleaned text, whatever it holds |
| Preprocessor.VisibleStrings | src/preprocessor.py:47-50 | reference definition: the text strings outside every script and style subtree, at any depth, in document order |
| Preprocessor.RemoveHiddenStrings | src/preprocessor.py:47-50 | after the decompose loop the document holds exactly the visible strings: no string from a script or style subtree at any depth, every other string in its place |
| Preprocessor.CleanHtmlVisible | src/preprocessor.py:45-51 | the cleaned text is built from the visible strings alone, stripped, joined by spaces and collapsed |
| Preprocessor.VisibleStringsAppend | src/preprocessor.py:47-50 | the visible strings of two node lists are those of the first, then those of the second |
| Preprocessor.HiddenIgnoredNested | src/preprocessor.py:47-51 | a script or style element inside a visible element contributes nothing: the cleaned text is that of the document with it taken out of its parent |
| Preprocessor.VisibleElement | src/preprocessor.py:47-50 | any other element stays, with its children cleaned, and contributes their text |
| Preprocessor.AllStringsAppend | src/preprocessor.py:50 | the strings of two node lists are those of the first, then those of the second |
| Preprocessor.StrippedStringsTrimmed | src/preprocessor.py:50 | every string kept by `strip=True` is non-empty and has no whitespace at either end |
| Preprocessor.JoinTrimmed | src/preprocessor.py:50 | trimmed strings joined by single spaces give a text that is empty only for no strings and has no whitespace at either end |
| Preprocessor.GetTextTrimmed | src/preprocessor.py:50 | the extracted text has no whitespace at either end |
| Preprocessor.CollapseCollapsed | src/preprocessor.py:51 | the collapse leaves no newline, no tab, no whitespace but the plain space, and never two whitespace characters side by side |
| Preprocessor.CollapseKeepsVisible | src/preprocessor.py:51 | every non-whitespace character of the input appears in the output, in the same order, and no other is added |
| Preprocessor.CollapseEnds | src/preprocessor.py:51 | the collapse is empty only for empty input, and starts and ends with whitespace exactly when its input does |
| Preprocessor.CollapsedFixed | src/preprocessor.py:51 | text that is already collapsed is left as it is |
| Preprocessor.CollapseFixedPoint | src/preprocessor.py:51 | the collapse changes text exactly when it is not collapsed, and is idempotent |
| Preprocessor.CleanHtmlShape | src/preprocessor.py:50-51 | the cleaned text of an HTML document is collapsed and has no whitespace at either end |
| Pipeline.DropExtension | src/main.py:47 | `splitext(name)[0]`: the text before the last '.', unless only dots come before it |
| Pipeline.FileStem | src/main.py:47 | `splitext(basename(path))[0]` |
| Text.SplitOn | src/main.py:83 | `split('-')` for a one-character separator: the text between consecutive separators, at least one part |
| Pipeline.ParseFileName | src/main.py:83-89 | the first and third parts of the split name, or "" for both with fewer than three parts |
| Pipeline.LastIndexOf | src/main.py:47 | the index of the last occurrence, or -1 when there is none |
| Pipeline.BaseName | src/main.py:47 | the base name holds no '/' |
| Pipeline.LastIndexOfAt | src/main.py:47 | the last `c` of `a + c + b` is the one between them when `b` has none |
| Pipeline.StemOf | src/main.py:47 | "dir/base.ext" with a dot-free extension and a base that is not only dots has the stem `base` |
| Pipeline.StemExample | src/main.py:47 | "data/raw/AMZN-10k-08.txt" has the stem "AMZN-10k-08" |
| Pipeline.ParseFileNameTriple | src/main.py:83-86 | a name with two '-' or more gives its first part as ticker and its third as year |
| Pipeline.ParseFileNameShort | src/main.py:83-89 | a name with at most one '-' gives "" for both |
| Pipeline.ParseExample | src/main.py:83-86 | "AMZN-10k-08" gives ticker "AMZN" and year "08" |
| Pipeline.AmazonExample | src/main.py:47-86 | the file "data/raw/AMZN-10k-08.txt" is filed under AMZN, year 08 |
| Pipeline.SetColumn | src/main.py:92 | setting a column keeps the number of rows |
| Pipeline.TagRows | src/main.py:92-93 | tagging keeps the number of rows |
| Pipeline.Classify | src/main.py:67-98 | the fate of one filing: skipped on an empty response, skipped on a failed flatten, otherwise its tagged frame and parsed ticker |
| Pipeline.Response | src/main.py:51-66 | the model's answer about the filing's cleaned text |
| Pipeline.FilingOutcome | src/main.py:45-98 | the fate of the filing at a path |
| Pipeline.Step | src/main.py:85-96 | an accepted filing appends its frame and reassigns the ticker; a skipped one changes nothing |
| Pipeline.Fold | src/main.py:45-98 | the loop state after a sequence of outcomes, one after another |
| Pipeline.Run | src/main.py:14-98 | the loop over all filings, from no frames and the ticker "AMZN" |
| Pipeline.Concat | src/main.py:102 | `pd.concat(frames, ignore_index=True)`: the rows of the frames, one frame after another |
| Pipeline.OutputPath | src/main.py:103-105 | "data/final/" followed by the ticker and "extracted.csv" |
| Pipeline.TagRowsLookup | src/main.py:92-93 | a tagged row reads the filing's ticker and year verbatim and, under every other key, what the flattened row read |
| Pipeline.AcceptedFrame | src/main.py:74-96 | an accepted filing had a non-empty response and a successful flatten, and its frame is that flatten's rows, in order, each tagged; its ticker is the one parsed from its name |
| Pipeline.Skipped | src/main.py:67-98 | an empty response or a raising flatten leaves the loop state as it was |
| Pipeline.AskFiling | src/main.py:51-66 | a fresh cleaner's text, put to the model with the balance-sheet query, gives the filing's response |
| Pipeline.Record | src/main.py:67-98 | the second half of the loop body is one step of the fold over the filing's outcome |
| Pipeline.ProcessFiling | src/main.py:45-98 | one pass of the loop body is one step of the fold over that filing's outcome |
| Pipeline.RunStep | src/main.py:45-98 | running over one more filing is one more step |
| Pipeline.ProcessFilings | src/main.py:45-109 | the loop's dataset is the concatenation of the fold's frames, and the output path is absent without frames and named after the fold's ticker otherwise |
| Pipeline.OutcomesAppend | src/main.py:45 | the outcome of each filing depends on that filing alone: the outcomes of two lists of files are those of the first, then those of the second |
| Pipeline.RunAppend | src/main.py:45-98 | processing two lists of files is processing the first, then the second from the state the first left |
| Pipeline.FoldAppend | src/main.py:45 | running over two lists of filings is running over the first, then over the second from there |
| Pipeline.AcceptedFramesSnoc | src/main.py:96 | one more outcome adds its frame at the end exactly when it is accepted |
| Pipeline.FoldFrames | src/main.py:67-98 | the loop keeps exactly the frames of the accepted filings, in order; skipped filings add nothing and later filings are still processed |
| Pipeline.FoldNoneAccepted | src/main.py:67-98 | without an accepted filing the loop state is the one it started from |
| Pipeline.FoldLastTicker | src/main.py:85 | the ticker after the loop is that of the last accepted filing |
| Pipeline.LastAccepted | src/main.py:85-101 | after a last accepted filing there is a frame, and the ticker is that filing's |
| Pipeline.OutcomeTicker | src/main.py:85-88 | an accepted filing reassigns the ticker to the one parsed from its own name |
| Pipeline.Dataset | src/main.py:96-102 | the combined dataset is the accepted frames concatenated in processing order, with as many rows as they have together |
| Pipeline.RowCountSnoc | src/main.py:102 | one more frame adds its rows to the count |
| Pipeline.ConcatLength | src/main.py:102 | concatenation adds and loses no row |
| Pipeline.ConcatAppend | src/main.py:102 | concatenation keeps the frames in order |
| Pipeline.AcceptedFramesAt | src/main.py:101 | an accepted filing anywhere means some frame is kept |
| Pipeline.NothingSaved | src/main.py:101-109 | when no filing is accepted there is no frame and the ticker keeps its initial value |
| Pipeline.OutputName | src/main.py:85-105 | the output file is named after the ticker parsed from the last accepted filing, "" when that name had fewer than three parts |

## Left out

- Reading and writing files, `os.makedirs` and `print`: a read appears as `disk`. The
  cleaned text, written to `data/processed` and read back by `extract_from_file`, is taken
  to come back unchanged. Universal-newline translation is not modelled.
- The configuration of the generative model and the `generate_content` call: the model
  appears as `generate`. The fixed prose of the prompt template appears as `preamble`.
- The workings of `json.loads`: it appears as `loads`, which returns an ordered JSON tree
  or fails. An object is modelled as its members in the order the resulting dict iterates
  them, so duplicate keys are assumed already merged.
- The BeautifulSoup parser and its tree repair: it appears as `parse`, which returns a
  `Node` tree.
- `tag.decompose()` is modelled on values. `RemoveHidden` returns the pruned tree instead
  of changing the parsed tree in place.
- pandas is modelled as sequences of rows:
  - column alignment across rows, NaN filling and column order are not modelled;
  - `set_index` is kept only as the failure on a frame with no rows;
  - `reset_index` is taken to give the rows back, with Statement, Year and Item as columns;
  - `to_csv` is left out, and only the path it would write to is modelled.
- Exception types and messages: a raising flatten is one of three `FlattenError` values.
  An exception outside the `try`, such as a read error, would end the program; it is not
  modelled.
- The `downloader` module and the lines of `main` before the loop, except the initial
  `ticker = "AMZN"`: they download and list filings and are not part of this model. The
  list of files is an input.
- src/test.py only prints the stem of one example path. That example appears as
  `Pipeline.StemExample`.
- Text.Lower: lower-cases ASCII letters only. Python's `lower` also maps other letters, but
  the only non-ASCII characters whose lower case holds an ASCII letter are the dotted
  capital I and the Kelvin sign. The dotted capital I becomes "i" followed by a combining
  dot, and the Kelvin sign becomes "k". Neither "i" nor "k" appears in the markers, and a
  combining dot never matches a marker character, so the HTML test gives the same answer.
- `os.path.basename` and `os.path.splitext` are modelled only for '/' as the separator
  and a single name. `splitext` keeps a name whose part before the last dot is only dots.
