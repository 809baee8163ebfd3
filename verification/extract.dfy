/**
 The three text extractors. Each document arrives already parsed into the
 string units its extractor visits, in the document's own order: the rows of
 every sheet of a workbook (each row a sequence of cell strings), the texts of
 the text-bearing shapes of every slide, the paragraphs of a word-processing
 document.
 */
module Extract {
  import opened Text

  type Row = seq<string>

  /** A workbook: its sheets, each a sequence of rows of cell values. */
  datatype Workbook = Workbook(sheets: seq<seq<Row>>)

  /** A presentation: its slides, each the texts of the shapes that carry text. */
  datatype Presentation = Presentation(slides: seq<seq<string>>)

  /** A word-processing document: its paragraphs' texts. */
  datatype WordDocument = WordDocument(paragraphs: seq<string>)

  /** All units of all groups, group after group. */
  function Flatten<T>(groups: seq<seq<T>>): seq<T> {
    if groups == [] then [] else Flatten(groups[..|groups| - 1]) + groups[|groups| - 1]
  }

  /**
   The text left by two nested loops, the outer over the groups (sheets,
   slides) and the inner appending `unit + " "` for each unit of the group.
   */
  function GroupedText(groups: seq<seq<string>>): string {
    if groups == [] then "" else GroupedText(groups[..|groups| - 1]) + Spaced(groups[|groups| - 1])
  }

  /** The nested loops produce the same text as one loop over all units in order. */
  lemma {:induction false} GroupedTextIsSpacedFlatten(groups: seq<seq<string>>)
    ensures GroupedText(groups) == Spaced(Flatten(groups))
    decreases |groups|
  {
    if groups != [] {
      var init, last := groups[..|groups| - 1], groups[|groups| - 1];
      GroupedTextIsSpacedFlatten(init);
      SpacedAppend(Flatten(init), last);
    }
  }

  /** Each row rendered as `" ".join(row)`. */
  function Joins(rows: seq<Row>): (r: seq<string>)
    ensures |r| == |rows|
    ensures forall i :: 0 <= i < |rows| ==> r[i] == Join(rows[i])
  {
    if rows == [] then [] else Joins(rows[..|rows| - 1]) + [Join(rows[|rows| - 1])]
  }

  lemma JoinsAppend(a: seq<Row>, b: seq<Row>)
    ensures Joins(a + b) == Joins(a) + Joins(b)
    decreases |b|
  {
    if b == [] {
      assert a + b == a;
    } else {
      assert (a + b)[..|a + b| - 1] == a + b[..|b| - 1];
      JoinsAppend(a, b[..|b| - 1]);
    }
  }

  /** Per sheet, its rows rendered as `" ".join(row)`. */
  function SheetUnits(sheets: seq<seq<Row>>): seq<seq<string>> {
    if sheets == [] then [] else SheetUnits(sheets[..|sheets| - 1]) + [Joins(sheets[|sheets| - 1])]
  }

  lemma {:induction false} SheetUnitsFlatten(sheets: seq<seq<Row>>)
    ensures Flatten(SheetUnits(sheets)) == Joins(Flatten(sheets))
    decreases |sheets|
  {
    if sheets != [] {
      var init, last := sheets[..|sheets| - 1], sheets[|sheets| - 1];
      SheetUnitsFlatten(init);
      JoinsAppend(Flatten(init), last);
      assert SheetUnits(sheets)[..|SheetUnits(sheets)| - 1] == SheetUnits(init);
    }
  }

  /**
   Text of a workbook: for every sheet, for every row, `" ".join(row) + " "`.
   It is the rows of all sheets in order, each joined with single spaces and
   followed by one space, and it is empty exactly when the workbook has no rows.
   */
  function ExcelText(wb: Workbook): (r: string)
    ensures r == Spaced(Joins(Flatten(wb.sheets)))
    ensures |r| == TotalLength(Joins(Flatten(wb.sheets))) + |Flatten(wb.sheets)|
    ensures r == [] <==> Flatten(wb.sheets) == []
  {
    GroupedTextIsSpacedFlatten(SheetUnits(wb.sheets));
    SheetUnitsFlatten(wb.sheets);
    GroupedText(SheetUnits(wb.sheets))
  }

  /**
   Text of a presentation: for every slide, for every text-bearing shape,
   `text + " "`. It is the texts of all such shapes, slide after slide, each
   followed by one space, and it is empty exactly when there are none.
   */
  function PowerPointText(p: Presentation): (r: string)
    ensures r == Spaced(Flatten(p.slides))
    ensures |r| == TotalLength(Flatten(p.slides)) + |Flatten(p.slides)|
    ensures r == [] <==> Flatten(p.slides) == []
  {
    GroupedTextIsSpacedFlatten(p.slides);
    GroupedText(p.slides)
  }

  /**
   Text of a word-processing document: for every paragraph, `text + " "`.
   Every paragraph appears verbatim at its offset, followed by one space.
   */
  function WordText(d: WordDocument): (r: string)
    ensures |r| == TotalLength(d.paragraphs) + |d.paragraphs|
    ensures forall i :: 0 <= i < |d.paragraphs| ==>
              && Offset(d.paragraphs, i) + |d.paragraphs[i]| < |r|
              && r[Offset(d.paragraphs, i)..Offset(d.paragraphs, i) + |d.paragraphs[i]|] == d.paragraphs[i]
              && r[Offset(d.paragraphs, i) + |d.paragraphs[i]|] == ' '
  {
    assert forall i :: 0 <= i < |d.paragraphs| ==>
             && Offset(d.paragraphs, i) + |d.paragraphs[i]| < |Spaced(d.paragraphs)|
             && Spaced(d.paragraphs)[Offset(d.paragraphs, i)..Offset(d.paragraphs, i) + |d.paragraphs[i]|] == d.paragraphs[i]
             && Spaced(d.paragraphs)[Offset(d.paragraphs, i) + |d.paragraphs[i]|] == ' '
    by {
      forall i | 0 <= i < |d.paragraphs| {
        SpacedUnitAt(d.paragraphs, i);
      }
    }
    Spaced(d.paragraphs)
  }

}
