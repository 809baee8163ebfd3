/**
 `process_directory`: every entry of the directory is dispatched on its name's
 suffix to one of the three extractors or skipped, the extracted text goes
 through the language gate and the token filters, and the surviving words are
 counted into one table. An entry that its extractor cannot read aborts the
 whole scan.
 */
module Directory {
  import opened Wrappers
  import opened Text
  import opened Extract
  import opened Language
  import opened Frequency

  /** The three recognised document formats. */
  datatype Format = Xlsx | Pptx | Docx

  /** What `process_directory` does with an entry: hand it to an extractor, or `continue`. */
  datatype Dispatch = Extractor(format: Format) | Skipped

  /** The content of a directory entry, as the format's parsing library would see it. */
  datatype Content =
    | WorkbookFile(workbook: Workbook)
    | PresentationFile(presentation: Presentation)
    | WordFile(document: WordDocument)
    | Unparsable // anything else: another format, a corrupt file, a subdirectory

  /** A directory entry: its name and what it holds. */
  datatype Entry = Entry(name: string, content: Content)

  /** The library of the dispatched format could not read the named entry. */
  datatype ScanError = Unreadable(name: string)

  /**
   The suffix tests in order `.xlsx`, `.pptx`, `.docx`. The suffixes exclude
   one another, so the format chosen is the one suffix the name ends with.
   */
  function DispatchOf(name: string): (d: Dispatch)
    ensures d == Extractor(Xlsx) <==> EndsWith(name, ".xlsx")
    ensures d == Extractor(Pptx) <==> EndsWith(name, ".pptx")
    ensures d == Extractor(Docx) <==> EndsWith(name, ".docx")
    ensures d == Skipped <==> !EndsWith(name, ".xlsx") && !EndsWith(name, ".pptx") && !EndsWith(name, ".docx")
  {
    if EndsWith(name, ".xlsx") then Extractor(Xlsx)
    else if EndsWith(name, ".pptx") then Extractor(Pptx)
    else if EndsWith(name, ".docx") then Extractor(Docx)
    else Skipped
  }

  /**
   The string units a document's extractor visits, in order: the joined rows
   of every sheet, the texts of every slide's text-bearing shapes, or the
   paragraphs.
   */
  function UnitsOf(c: Content): seq<string> {
    match c
    case WorkbookFile(wb) => Joins(Flatten(wb.sheets))
    case PresentationFile(p) => Flatten(p.slides)
    case WordFile(d) => d.paragraphs
    case Unparsable => []
  }

  /**
   The extractor of `format` applied to the entry; it fails unless the entry
   holds a document of that format, and otherwise returns every unit of the
   document followed by one space.
   */
  function FileText(format: Format, e: Entry): (r: Result<string, ScanError>)
    ensures r.Err? ==> r.error == Unreadable(e.name)
    ensures r.Ok? ==> r.value == Spaced(UnitsOf(e.content))
    ensures r.Ok? <==> match e.content
                       case WorkbookFile(_) => format == Xlsx
                       case PresentationFile(_) => format == Pptx
                       case WordFile(_) => format == Docx
                       case Unparsable => false
  {
    match (format, e.content)
    case (Xlsx, WorkbookFile(wb)) => Ok(ExcelText(wb))
    case (Pptx, PresentationFile(p)) => Ok(PowerPointText(p))
    case (Docx, WordFile(d)) => Ok(WordText(d))
    case _ => Err(Unreadable(e.name))
  }

  /** The words one entry contributes: none for a skipped entry, else the Japanese words of its text. */
  function FileWords(tk: Toolkit, e: Entry): (r: Result<seq<string>, ScanError>)
    ensures DispatchOf(e.name) == Skipped ==> r == Ok([])
    ensures r.Err? ==> DispatchOf(e.name).Extractor? && r.error == Unreadable(e.name)
    ensures DispatchOf(e.name).Extractor? ==>
              match FileText(DispatchOf(e.name).format, e)
              case Ok(text) => tk.classify(text) != Target ==> r == Ok([])
              case Err(_) => r.Err?
    ensures r.Ok? <==> DispatchOf(e.name) == Skipped || FileText(DispatchOf(e.name).format, e).Ok?
    ensures r.Ok? ==> forall w :: w in r.value ==> Kept(tk, w)
  {
    match DispatchOf(e.name)
    case Skipped => Ok([])
    case Extractor(format) =>
      match FileText(format, e)
      case Ok(text) => Ok(JapaneseWords(tk, text))
      case Err(err) => Err(err)
  }

  /**
   The words of a readable recognised entry are the tokens of its text with
   the rejected ones deleted: an order-preserving subsequence in which a kept
   token occurs as often as among the tokens and every other word not at all,
   and nothing unless the text is identified as Japanese.
   */
  lemma FileWordsOfText(tk: Toolkit, e: Entry, text: string)
    requires DispatchOf(e.name).Extractor? && FileText(DispatchOf(e.name).format, e) == Ok(text)
    ensures FileWords(tk, e).Ok?
    ensures Subsequence(FileWords(tk, e).value, tk.tokenize(text))
    ensures forall w :: multiset(FileWords(tk, e).value)[w] ==
                       (if tk.classify(text) == Target && Kept(tk, w) then multiset(tk.tokenize(text))[w] else 0)
  {
    JapaneseWordsFromTokens(tk, text);
  }

  /** How the scan turns one entry into its words, or fails on it. */
  type Reader = Entry -> Result<seq<string>, ScanError>

  /** The reader `process_directory` uses: dispatch, extraction, language gate and filters. */
  function FileReader(tk: Toolkit): Reader {
    e => FileWords(tk, e)
  }

  /**
   Reference definition: the words of all entries in order, or the error of
   the first entry that cannot be read.
   */
  function DirectoryWords(read: Reader, entries: seq<Entry>): Result<seq<string>, ScanError>
    decreases |entries|
  {
    if entries == [] then Ok([])
    else
      match read(entries[0])
      case Err(err) => Err(err)
      case Ok(words) =>
        match DirectoryWords(read, entries[1..])
        case Err(err) => Err(err)
        case Ok(rest) => Ok(words + rest)
  }

  /** The loop of `process_directory`, resumed with `table` at the remaining entries. */
  function Scan(read: Reader, table: Table, entries: seq<Entry>): (r: Result<Table, ScanError>)
    ensures r.Ok? ==> table.Keys <= r.value.Keys
    decreases |entries|
  {
    if entries == [] then Ok(table)
    else
      match read(entries[0])
      case Err(err) => Err(err)
      case Ok(words) => Scan(read, Tally(table, words), entries[1..])
  }

  /**
   `process_directory`: the scan started from an empty dictionary, which an
   empty directory returns unchanged. `ProcessDirectoryCounts` and
   `ProcessDirectoryFails` state what it computes.
   */
  function ProcessDirectory(tk: Toolkit, entries: seq<Entry>): (r: Result<Table, ScanError>)
    ensures entries == [] ==> r == Ok(map[])
  {
    Scan(FileReader(tk), map[], entries)
  }

  /**
   All or nothing: the words are gathered exactly when every entry can be
   read, and otherwise the error is that of the first unreadable entry.
   */
  lemma {:induction false} DirectoryWordsFails(read: Reader, entries: seq<Entry>)
    ensures DirectoryWords(read, entries).Ok? <==> forall i :: 0 <= i < |entries| ==> read(entries[i]).Ok?
    ensures DirectoryWords(read, entries).Err? ==>
              exists i :: && 0 <= i < |entries|
                          && read(entries[i]) == DirectoryWords(read, entries)
                          && forall j :: 0 <= j < i ==> read(entries[j]).Ok?
    decreases |entries|
  {
    if entries != [] {
      var rest := entries[1..];
      DirectoryWordsFails(read, rest);
      if read(entries[0]).Err? {
        assert read(entries[0]) == DirectoryWords(read, entries);
      } else if DirectoryWords(read, rest).Err? {
        var i :| && 0 <= i < |rest|
                 && read(rest[i]) == DirectoryWords(read, rest)
                 && forall j :: 0 <= j < i ==> read(rest[j]).Ok?;
        assert read(entries[i + 1]) == DirectoryWords(read, entries);
        forall j | 0 <= j < i + 1
          ensures read(entries[j]).Ok?
        {
          if j > 0 {
            assert entries[j] == rest[j - 1];
          }
        }
      } else {
        forall i | 0 <= i < |entries|
          ensures read(entries[i]).Ok?
        {
          if i > 0 {
            assert entries[i] == rest[i - 1];
          }
        }
      }
    }
  }

  /** Resuming the scan with `table` folds all the directory's words into `table`, or fails as the reference does. */
  lemma {:induction false} ScanIsTally(read: Reader, table: Table, entries: seq<Entry>)
    ensures DirectoryWords(read, entries).Ok? ==> Scan(read, table, entries) == Ok(Tally(table, DirectoryWords(read, entries).value))
    ensures DirectoryWords(read, entries).Err? ==> Scan(read, table, entries) == Err(DirectoryWords(read, entries).error)
    decreases |entries|
  {
    if entries != [] {
      match read(entries[0])
      case Err(_) =>
      case Ok(words) =>
        ScanIsTally(read, Tally(table, words), entries[1..]);
        if DirectoryWords(read, entries[1..]).Ok? {
          TallyAppend(table, words, DirectoryWords(read, entries[1..]).value);
        }
    }
  }

  /** The words of two runs of entries, one after the other. */
  lemma {:induction false} DirectoryWordsAppend(read: Reader, a: seq<Entry>, b: seq<Entry>)
    ensures DirectoryWords(read, a).Err? ==> DirectoryWords(read, a + b) == DirectoryWords(read, a)
    ensures DirectoryWords(read, a).Ok? && DirectoryWords(read, b).Err? ==> DirectoryWords(read, a + b) == DirectoryWords(read, b)
    ensures DirectoryWords(read, a).Ok? && DirectoryWords(read, b).Ok? ==>
              DirectoryWords(read, a + b) == Ok(DirectoryWords(read, a).value + DirectoryWords(read, b).value)
    decreases |a|
  {
    if a == [] {
      assert a + b == b;
      if DirectoryWords(read, b).Ok? {
        assert [] + DirectoryWords(read, b).value == DirectoryWords(read, b).value;
      }
    } else {
      var ab := a + b;
      assert ab[0] == a[0];
      assert ab[1..] == a[1..] + b;
      DirectoryWordsAppend(read, a[1..], b);
      var first := read(a[0]);
      if first.Ok? && DirectoryWords(read, a[1..]).Ok? && DirectoryWords(read, b).Ok? {
        var x, y := DirectoryWords(read, a[1..]).value, DirectoryWords(read, b).value;
        assert first.value + (x + y) == (first.value + x) + y;
      }
    }
  }

  /**
   The table holds, for each word, its number of occurrences among the words
   of all entries, and only words that occur; every count is at least 1.
   */
  lemma ProcessDirectoryCounts(tk: Toolkit, entries: seq<Entry>)
    ensures ProcessDirectory(tk, entries).Ok? <==> DirectoryWords(FileReader(tk), entries).Ok?
    ensures DirectoryWords(FileReader(tk), entries).Ok? ==>
              ProcessDirectory(tk, entries) == Ok(Histogram(DirectoryWords(FileReader(tk), entries).value))
  {
    var read := FileReader(tk);
    ScanIsTally(read, map[], entries);
    if DirectoryWords(read, entries).Ok? {
      FrequenciesIsHistogram(DirectoryWords(read, entries).value);
    }
  }

  /**
   All or nothing: the scan fails exactly when some entry cannot be read, and
   then with the error of the first such entry.
   */
  lemma ProcessDirectoryFails(tk: Toolkit, entries: seq<Entry>)
    ensures ProcessDirectory(tk, entries).Ok? <==> forall i :: 0 <= i < |entries| ==> FileWords(tk, entries[i]).Ok?
    ensures ProcessDirectory(tk, entries).Err? ==>
              exists i :: && 0 <= i < |entries|
                          && FileWords(tk, entries[i]) == Err(ProcessDirectory(tk, entries).error)
                          && forall j :: 0 <= j < i ==> FileWords(tk, entries[j]).Ok?
  {
    var read := FileReader(tk);
    ScanIsTally(read, map[], entries);
    DirectoryWordsFails(read, entries);
    assert forall e :: read(e) == FileWords(tk, e);
  }

  /**
   Counts add up across files: scanning two runs of entries together succeeds
   exactly when both succeed alone, and then gives the key-wise sum of their
   tables.
   */
  lemma ProcessDirectoryAdditive(tk: Toolkit, a: seq<Entry>, b: seq<Entry>)
    ensures ProcessDirectory(tk, a + b).Ok? <==> ProcessDirectory(tk, a).Ok? && ProcessDirectory(tk, b).Ok?
    ensures ProcessDirectory(tk, a + b).Ok? ==>
              ProcessDirectory(tk, a + b).value == Sum(ProcessDirectory(tk, a).value, ProcessDirectory(tk, b).value)
  {
    var read := FileReader(tk);
    ScanIsTally(read, map[], a);
    ScanIsTally(read, map[], b);
    ScanIsTally(read, map[], a + b);
    DirectoryWordsAppend(read, a, b);
    if DirectoryWords(read, a).Ok? && DirectoryWords(read, b).Ok? {
      FrequenciesAdditive(DirectoryWords(read, a).value, DirectoryWords(read, b).value);
    }
  }

  /** The table does not depend on the order in which the two runs of entries are listed. */
  lemma ProcessDirectoryOrderIrrelevant(tk: Toolkit, a: seq<Entry>, b: seq<Entry>)
    ensures ProcessDirectory(tk, a + b).Ok? <==> ProcessDirectory(tk, b + a).Ok?
    ensures ProcessDirectory(tk, a + b).Ok? ==> ProcessDirectory(tk, a + b) == ProcessDirectory(tk, b + a)
  {
    assert multiset(a + b) == multiset(b + a);
    ProcessDirectoryPermutation(tk, a + b, b + a);
  }

  /** The words of an entry followed by a run of entries. */
  lemma DirectoryWordsCons(read: Reader, x: Entry, rest: seq<Entry>)
    ensures DirectoryWords(read, [x] + rest).Ok? <==> read(x).Ok? && DirectoryWords(read, rest).Ok?
    ensures DirectoryWords(read, [x] + rest).Ok? ==>
              DirectoryWords(read, [x] + rest).value == read(x).value + DirectoryWords(read, rest).value
  {
  }

  /** Moving one entry to the front changes the words only in their order. */
  lemma DirectoryWordsMoveFront(read: Reader, x: Entry, b1: seq<Entry>, b2: seq<Entry>)
    ensures DirectoryWords(read, b1 + [x] + b2).Ok? <==> DirectoryWords(read, [x] + (b1 + b2)).Ok?
    ensures DirectoryWords(read, b1 + [x] + b2).Ok? ==>
              multiset(DirectoryWords(read, b1 + [x] + b2).value) == multiset(DirectoryWords(read, [x] + (b1 + b2)).value)
  {
    DirectoryWordsAppend(read, b1, [x]);
    DirectoryWordsAppend(read, b1 + [x], b2);
    DirectoryWordsAppend(read, b1, b2);
    DirectoryWordsCons(read, x, b1 + b2);
    DirectoryWordsCons(read, x, []);
    var none: seq<Entry> := [];
    assert [x] + none == [x];
    if DirectoryWords(read, b1 + [x] + b2).Ok? {
      var w, v1, v2 := read(x).value, DirectoryWords(read, b1).value, DirectoryWords(read, b2).value;
      assert DirectoryWords(read, [x]).value == w + [];
      assert multiset(v1 + (w + []) + v2) == multiset(w + (v1 + v2));
    }
  }

  /**
   Listing the same entries in another order gathers the same words, up to
   order, and fails or succeeds alike.
   */
  lemma {:induction false} DirectoryWordsPermutation(read: Reader, a: seq<Entry>, b: seq<Entry>)
    requires multiset(a) == multiset(b)
    ensures DirectoryWords(read, a).Ok? <==> DirectoryWords(read, b).Ok?
    ensures DirectoryWords(read, a).Ok? ==> multiset(DirectoryWords(read, a).value) == multiset(DirectoryWords(read, b).value)
    decreases |a|
  {
    if a == [] {
      assert |b| == |multiset(b)| == 0;
    } else {
      var x, rest := a[0], a[1..];
      assert a == [x] + rest;
      assert x in multiset(b);
      var k :| 0 <= k < |b| && b[k] == x;
      var b1, b2 := b[..k], b[k + 1..];
      assert b == b1 + [x] + b2;
      MultisetCancel(x, rest, b1, b2);
      DirectoryWordsPermutation(read, rest, b1 + b2);
      DirectoryWordsCons(read, x, rest);
      DirectoryWordsCons(read, x, b1 + b2);
      DirectoryWordsMoveFront(read, x, b1, b2);
    }
  }

  /** Removing one occurrence of `x` from both sides of a multiset equation. */
  lemma MultisetCancel<T>(x: T, rest: seq<T>, b1: seq<T>, b2: seq<T>)
    requires multiset([x] + rest) == multiset(b1 + [x] + b2)
    ensures multiset(rest) == multiset(b1 + b2)
  {
    forall y
      ensures multiset(rest)[y] == multiset(b1 + b2)[y]
    {
      assert multiset([x] + rest)[y] == multiset([x])[y] + multiset(rest)[y];
      assert multiset(b1 + [x] + b2)[y] == multiset(b1)[y] + multiset([x])[y] + multiset(b2)[y];
    }
  }

  /**
   The table does not depend on the order in which the entries are listed:
   any reordering succeeds exactly when the original does, with the same table.
   */
  lemma ProcessDirectoryPermutation(tk: Toolkit, a: seq<Entry>, b: seq<Entry>)
    requires multiset(a) == multiset(b)
    ensures ProcessDirectory(tk, a).Ok? <==> ProcessDirectory(tk, b).Ok?
    ensures ProcessDirectory(tk, a).Ok? ==> ProcessDirectory(tk, a) == ProcessDirectory(tk, b)
  {
    var read := FileReader(tk);
    DirectoryWordsPermutation(read, a, b);
    ScanIsTally(read, map[], a);
    ScanIsTally(read, map[], b);
    if DirectoryWords(read, a).Ok? {
      FrequenciesPermutation(DirectoryWords(read, a).value, DirectoryWords(read, b).value);
    }
  }

  /**
   An entry that contributes no words (a skipped entry, or one whose text is
   not identified as Japanese) can be removed without changing the result.
   */
  lemma NeutralEntry(tk: Toolkit, a: seq<Entry>, e: Entry, b: seq<Entry>)
    requires FileWords(tk, e) == Ok([])
    ensures ProcessDirectory(tk, a + [e] + b) == ProcessDirectory(tk, a + b)
  {
    var read := FileReader(tk);
    DirectoryWordsAppend(read, a, [e]);
    DirectoryWordsAppend(read, a + [e], b);
    DirectoryWordsAppend(read, a, b);
    assert DirectoryWords(read, [e]) == Ok([]) by {
      assert read(e) == Ok([]);
      assert [e][1..] == [];
    }
    if DirectoryWords(read, a).Ok? {
      assert DirectoryWords(read, a).value + [] == DirectoryWords(read, a).value;
    }
    ScanIsTally(read, map[], a + [e] + b);
    ScanIsTally(read, map[], a + b);
  }

  /** A directory in which no name ends with a recognised suffix yields the empty table. */
  lemma NoRecognisedEntries(tk: Toolkit, entries: seq<Entry>)
    requires forall i :: 0 <= i < |entries| ==> DispatchOf(entries[i].name) == Skipped
    ensures ProcessDirectory(tk, entries) == Ok(map[])
  {
    var read := FileReader(tk);
    DirectoryWordsFails(read, entries);
    NoWordsFromSkipped(read, entries);
    ScanIsTally(read, map[], entries);
  }

  lemma {:induction false} NoWordsFromSkipped(read: Reader, entries: seq<Entry>)
    requires forall i :: 0 <= i < |entries| ==> read(entries[i]) == Ok([])
    ensures DirectoryWords(read, entries) == Ok([])
    decreases |entries|
  {
    if entries != [] {
      var rest := entries[1..];
      assert forall i :: 0 <= i < |rest| ==> rest[i] == entries[i + 1];
      NoWordsFromSkipped(read, rest);
      var none: seq<string> := [];
      assert none + none == none;
    }
  }

  /**
   Two slides, each with one shape whose text is the word 猫, in a file
   named `.pptx`: if the text is identified as Japanese, its tokens are the
   two words and 猫 is an alphabetic non-stop word, the table is {猫: 2}.
   */
  lemma TwoSlidesExample(tk: Toolkit)
    requires tk.classify("猫 猫 ") == Target
    requires tk.tokenize("猫 猫 ") == ["猫", "猫"]
    requires Kept(tk, "猫")
    ensures ProcessDirectory(tk, [Entry("slides.pptx", PresentationFile(Presentation([["猫"], ["猫"]])))]) == Ok(map["猫" := 2])
  {
    var e := Entry("slides.pptx", PresentationFile(Presentation([["猫"], ["猫"]])));
    TwoSlidesWords(tk);
    var read := FileReader(tk);
    assert read(e) == Ok(["猫", "猫"]);
    assert [e][1..] == [];
    TwoCats();
    assert Scan(read, map[], [e]) == Scan(read, Tally(map[], ["猫", "猫"]), []);
  }

  /** Counting the same word twice from an empty dictionary. */
  lemma TwoCats()
    ensures Tally(map[], ["猫", "猫"]) == map["猫" := 2]
  {
    assert ["猫", "猫"][1..] == ["猫"];
    var once := Bump(map[], "猫");
    assert once == map["猫" := 1];
    assert Bump(once, "猫") == map["猫" := 2];
    assert Tally(map[], ["猫", "猫"]) == Tally(once, ["猫"]) == Tally(Bump(once, "猫"), []);
  }

  /** The words of the two-slide file of `TwoSlidesExample`. */
  lemma TwoSlidesWords(tk: Toolkit)
    requires tk.classify("猫 猫 ") == Target
    requires tk.tokenize("猫 猫 ") == ["猫", "猫"]
    requires Kept(tk, "猫")
    ensures FileWords(tk, Entry("slides.pptx", PresentationFile(Presentation([["猫"], ["猫"]])))) == Ok(["猫", "猫"])
  {
    var e := Entry("slides.pptx", PresentationFile(Presentation([["猫"], ["猫"]])));
    assert DispatchOf(e.name) == Extractor(Pptx) by {
      assert e.name[|e.name| - 5..] == ".pptx";
      assert e.name[|e.name| - 4] == 'p';
    }
    assert FileText(Pptx, e) == Ok("猫 猫 ") by {
      TwoSlidesText();
    }
    TwoSlidesJapanese(tk);
  }

  /** The Japanese words of the two-slide text of `TwoSlidesExample`. */
  lemma TwoSlidesJapanese(tk: Toolkit)
    requires tk.classify("猫 猫 ") == Target
    requires tk.tokenize("猫 猫 ") == ["猫", "猫"]
    requires Kept(tk, "猫")
    ensures JapaneseWords(tk, "猫 猫 ") == ["猫", "猫"]
  {
    var tokens: seq<string> := ["猫", "猫"];
    assert tokens[1..] == ["猫"];
    assert Filter(tk.isAlpha, tokens) == tokens;
  }

  /** The text of the two-slide presentation of `TwoSlidesExample`. */
  lemma TwoSlidesText()
    ensures PowerPointText(Presentation([["猫"], ["猫"]])) == "猫 猫 "
  {
    var slides: seq<seq<string>> := [["猫"], ["猫"]];
    assert Flatten(slides) == ["猫", "猫"] by {
      assert slides[..1] == [["猫"]];
      assert slides[..1][..0] == [];
    }
    var units: seq<string> := ["猫", "猫"];
    assert units[..1] == ["猫"] && units[..1][..0] == [];
    assert Spaced(units[..1]) == "猫 ";
  }

  /** An entry with an unrecognised suffix, such as `.txt`, yields the empty table and no error. */
  lemma TextFileExample(tk: Toolkit, content: Content)
    ensures ProcessDirectory(tk, [Entry("notes.txt", content)]) == Ok(map[])
  {
    NoRecognisedEntries(tk, [Entry("notes.txt", content)]);
  }

  /**
   The loop of `process_directory` written imperatively: an outer loop over
   the entries, stopping at the first unreadable one, and `CountWords` for
   the words of each entry.
   */
  method ScanDirectory(tk: Toolkit, entries: seq<Entry>) returns (r: Result<Table, ScanError>)
    ensures r == ProcessDirectory(tk, entries)
    ensures r.Ok? <==> DirectoryWords(FileReader(tk), entries).Ok?
    ensures r.Ok? ==> forall w :: Get(r.value, w) == multiset(DirectoryWords(FileReader(tk), entries).value)[w]
  {
    var read := FileReader(tk);
    var table: Table := map[];
    var i := 0;
    while i < |entries|
      invariant 0 <= i <= |entries|
      invariant Scan(read, table, entries[i..]) == ProcessDirectory(tk, entries)
    {
      assert entries[i..][0] == entries[i] && entries[i..][1..] == entries[i + 1..];
      var fileWords := FileWords(tk, entries[i]);
      assert read(entries[i]) == fileWords;
      if fileWords.Err? {
        ScanIsTally(read, map[], entries);
        return Err(fileWords.error);
      }
      table := CountWords(table, fileWords.value);
      i := i + 1;
    }
    assert entries[i..] == [];
    r := Ok(table);
    ScanIsTally(read, map[], entries);
    FrequenciesIsHistogram(DirectoryWords(read, entries).value);
  }

}
