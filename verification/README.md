# JpExtractor core, modelled in Dafny

JpExtractor scans a directory of office documents and counts Japanese words.
Each entry is dispatched on its file name's suffix to a text extractor:
`.xlsx` goes to the spreadsheet extractor, `.pptx` to the presentation
extractor and `.docx` to the word-processing extractor. Every other entry is
skipped. The extracted text passes a language gate: only text identified as
`ja` goes on. It is then tokenized. Non-alphabetic tokens and Japanese stop
words are dropped. Every surviving word is counted into one dictionary with
`table.get(word, 0) + 1`. An entry that its extractor cannot read aborts the
whole scan.

The model is functional: immutable datatypes and pure functions over `seq`
and `map`.

- `Text` (text.dfy): suffix test, and the text an extractor assembles. Each
  unit is followed by one space. A spreadsheet row is `" ".join(cells)`.
- `Extract` (extract.dfy): the three extractors. Documents arrive already
  parsed into their string units, in document order.
- `Language` (language.dfy): the language gate and the two order-preserving
  filters of `extract_japanese_words`. The language identifier, the
  tokenizer, `str.isalpha` and the stop-word list are not modelled. They are
  the fields of a `Toolkit` value passed in as a parameter.
- `Frequency` (frequency.dfy): the counting fold (`Tally`, `Frequencies`).
  It is related to a reference histogram built from the multiset of the words.
- `Directory` (directory.dfy): dispatch, per-entry words, and the whole scan.
  `ProcessDirectory` is the accumulator loop of `process_directory`.
  `DirectoryWords` is the reference: the concatenated words of all entries,
  or the first error. `ScanDirectory` is the same loop written with `while`
  loops.
- `Wrappers` (wrappers.dfy): the `Result` type used for the error path.

A directory is a sequence of entries (name, content). The content is a parsed
workbook, presentation or word-processing document, or `Unparsable`. A
recognised entry whose content is not of the format its suffix selects yields
`Err(Unreadable(name))`, and the scan returns that error. This matches the
library raising and the exception propagating out of `process_directory`. A
skipped entry's content is never looked at. The whole model is made of pure
functions, so scanning an unchanged directory twice gives the same table.

Every unit, the last one included, is followed by one space, so non-empty
text always ends with a space (`Text.Spaced`).

## Model

| member | source | states |
|---|---|---|
| Text.EndsWithChars | main.py:63-67 | `str.endswith` holds exactly when the suffix is no longer than the name and each of its characters equals the character at the same distance from the name's end. |
| Text.Spaced | main.py:35-38 | The assembled text is as long as all units together plus one space per unit. It is empty exactly when there are no units, and otherwise ends with a space. |
| Text.SpacedAppend | main.py:25-28 | Appending two runs of units one after the other gives the concatenation of their texts. |
| Text.SpacedUnitAt | main.py:37-38 | Every unit appears verbatim at its offset in the text, followed by exactly one space. |
| Text.Join | main.py:16 | `" ".join(cells)` is the sum of the cell lengths plus one separator between neighbours. An empty row joins to the empty string. |
| Text.JoinThenSpace | main.py:16 | A row's contribution `" ".join(cells) + " "` equals its cells assembled like any other units. An empty row contributes a lone space. |
| Extract.GroupedTextIsSpacedFlatten | main.py:25-28 | The nested loops (slides then shapes, sheets then rows) give the same text as one loop over all units in order. |
| Extract.SheetUnitsFlatten | main.py:14-15 | Joining rows sheet by sheet and then concatenating equals joining all rows of all sheets, in order. |
| Extract.ExcelText | main.py:9-18 | A workbook's text is every row of every sheet, in order, joined with single spaces and followed by one space. Its length is the joined rows' lengths plus the row count. It is empty exactly when there are no rows. |
| Extract.PowerPointText | main.py:20-30 | A presentation's text is every text-bearing shape's text, slide by slide, each followed by one space. Its length follows, and it is empty exactly when there are no such shapes. |
| Extract.WordText | main.py:32-40 | A document's text is as long as its paragraphs plus one space each. Every paragraph appears verbatim at its offset, followed by one space. |
| Language.Filter | main.py:50 | A conditional list comprehension keeps exactly the elements that pass the test, and is never longer than its input. |
| Language.FilterIsSubsequence | main.py:50-52 | The surviving tokens keep their order: they form a subsequence of the input. |
| Language.FilterCount | main.py:50-52 | An accepted element keeps every occurrence. A rejected element keeps none. |
| Language.JapaneseWords | main.py:42-54 | If the identified language is not `ja`, the result is empty. Otherwise a word is in the result exactly when it is a token, is alphabetic and is not a stop word. |
| Language.JapaneseWordsFromTokens | main.py:47-52 | The words are an order-preserving subsequence of the tokens. Each kept token occurs as often as among the tokens, and every other word does not occur. |
| Frequency.Bump | main.py:75 | One update adds `word` as a key, raises its count by one and leaves every other count unchanged. |
| Frequency.Tally | main.py:74-75 | The loop over the words never drops a key of the dictionary it starts from; `TallyCounts` gives the counts. |
| Frequency.Frequencies | main.py:58-75 | The table built from an empty dictionary is empty exactly when there are no words; `FrequenciesIsHistogram` gives its contents. |
| Frequency.TallyAppend | main.py:74-75 | Folding two runs of words one after the other equals folding their concatenation. |
| Frequency.TallyCounts | main.py:74-75 | The fold adds each word's number of occurrences to its count. The new keys are exactly the words that occur. |
| Frequency.TallyKeepsPositive | main.py:75 | The fold never creates a key with count 0. |
| Frequency.FrequenciesIsHistogram | main.py:58-75 | The table built from an empty dictionary has as keys exactly the words that occur. Each count is the word's number of occurrences. |
| Frequency.FrequenciesPositive | main.py:75 | Every count in the table is at least 1. |
| Frequency.FrequenciesAdditive | main.py:60-75 | The table of concatenated word sequences is the key-wise sum of their tables. |
| Frequency.FrequenciesPermutation | main.py:74-75 | Reordering the words does not change the table. |
| Frequency.TallyIsSum | main.py:74-75 | Resuming the fold from an existing table adds the new words' table to it. |
| Frequency.CountWords | main.py:74-75 | The dictionary-update loop computes the fold: each count rises by the word's number of occurrences. |
| Directory.DispatchOf | main.py:63-70 | A name goes to the spreadsheet, presentation or word-processing extractor exactly when it ends with `.xlsx`, `.pptx` or `.docx`. It is skipped exactly when it ends with none of them, so at most one extractor applies. |
| Directory.FileText | main.py:63-68 | The chosen extractor succeeds exactly when the entry holds a document of its format, and then returns every unit of the document (joined spreadsheet rows, text-bearing shapes, or paragraphs), in order, each followed by one space. Otherwise the error names the entry. |
| Directory.FileWords | main.py:63-72 | A skipped entry gives no words and no error. An entry whose text is not identified as `ja` gives no words. Only recognised entries can fail. Every word given is alphabetic and not a stop word. The entry succeeds exactly when it is skipped or its extractor can read it. |
| Directory.FileWordsOfText | main.py:47-72 | A readable recognised entry succeeds, and its words are an order-preserving subsequence of its text's tokens: each kept token as often as among the tokens, every other word never, and nothing unless the text is identified as `ja`. |
| Directory.Scan | main.py:60-75 | Resuming the loop never drops a key of the dictionary; `ScanIsTally` relates it to the fold of all entries' words. |
| Directory.ProcessDirectory | main.py:56-77 | An empty directory gives the empty dictionary; `ProcessDirectoryCounts` gives the table of any directory and `ProcessDirectoryFails` its failures. |
| Directory.DirectoryWordsFails | main.py:60-72 | All or nothing: the scan gathers words exactly when every entry can be read. Otherwise it reports the first unreadable entry's error. |
| Directory.ScanIsTally | main.py:60-77 | The accumulator loop equals folding all entries' words, in order, into the table. When the reference fails, the loop fails with the same error. |
| Directory.DirectoryWordsAppend | main.py:60-72 | The words of two runs of entries are the first run's words followed by the second's. The first failure wins. |
| Directory.ProcessDirectoryCounts | main.py:56-77 | The scan succeeds exactly when the reference gathers words. The table is then the histogram of all entries' words: the words that occur, each mapped to its number of occurrences (so every count is at least 1). |
| Directory.ProcessDirectoryFails | main.py:60-72 | The scan fails exactly when some entry is unreadable, with the error of the first such entry. |
| Directory.ProcessDirectoryAdditive | main.py:58-77 | Scanning two runs of entries together succeeds exactly when both succeed alone. The table is then the key-wise sum of the two tables. |
| Directory.ProcessDirectoryOrderIrrelevant | main.py:60-77 | Listing the two runs of entries in either order gives the same outcome and the same table. |
| Directory.DirectoryWordsPermutation | main.py:60-72 | Any reordering of the entries fails or succeeds alike and gathers the same words, each as often. |
| Directory.ProcessDirectoryPermutation | main.py:60-77 | The table does not depend on the order `os.listdir` lists the entries in: any reordering succeeds exactly when the original does, with the same table. |
| Directory.NeutralEntry | main.py:63-72 | Removing an entry that gives no words (skipped, or not identified as `ja`) leaves the result unchanged. |
| Directory.NoRecognisedEntries | main.py:58-70 | A directory where no name ends with a recognised suffix yields the empty table. |
| Directory.TextFileExample | main.py:69-70 | A single `.txt` entry yields the empty table and no error, whatever it holds. |
| Directory.TwoSlidesExample | main.py:20-30 | Two slides, each with one shape reading 猫: if the text is identified as `ja`, tokenizes to two 猫 tokens, and 猫 is an alphabetic non-stop word, the table is {猫: 2}. |
| Directory.ScanDirectory | main.py:56-77 | The `while` loop over the entries, with `CountWords` for each entry's words, computes `ProcessDirectory`. It fails exactly when the reference fails. Otherwise each count is the word's number of occurrences among all entries' words. |

## Left out

- Filesystem access (`os.listdir`, `os.path.join`): the directory is a given sequence of entries, in listing order. That order is arbitrary in the program; `ProcessDirectoryPermutation` shows it does not affect the table (an error, when several entries are unreadable, names the first in listing order). The dictionary's key order (Python keeps first-insertion order, which follows the listing order and shows in the printed result) is not modelled: a `Table` is an unordered map, and `ProcessDirectoryPermutation` is about the words and their counts only.
- Document parsing by openpyxl, python-pptx and python-docx: documents arrive as sequences of strings. Anything a library cannot parse is the single `Unparsable` content. The exception's type and message are reduced to `Unreadable(name)`.
- The `hasattr(shape, "text")` test: shapes without text are simply absent from a slide's sequence.
- `str()` coercion of cell values (`None`, numbers, dates): cells arrive as strings.
- The langid model, its construction on every call and its confidence score: the identifier is the `classify` field of the `Toolkit`, returning only the language code. The program never reads the score.
- nltk's `word_tokenize`, `str.isalpha` and the nltk Japanese stop-word corpus: they are the `tokenize`, `isAlpha` and `stopWords` fields of the `Toolkit`. Failures inside them, such as a missing corpus, are not modelled.
- The `__main__` block and `print` of the result: I/O.
- Python's case-sensitive `str.endswith` is modelled as written, so `REPORT.XLSX` is skipped.
