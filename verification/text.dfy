/**
 Strings as the extractors assemble them: every extracted unit (a row, a
 shape's text, a paragraph) is appended to the running text followed by one
 space, and a spreadsheet row is first joined from its cells with single
 spaces.
 */
module Text {

  /** Python's `str.endswith`: the last |suffix| characters of `s` are `suffix` (case-sensitive). */
  predicate EndsWith(s: string, suffix: string)
  {
    |suffix| <= |s| && s[|s| - |suffix|..] == suffix
  }

  /**
   Character by character: `s` ends with `suffix` exactly when `suffix` is no
   longer than `s` and each of its characters equals the character of `s` at
   the same distance from the end.
   */
  lemma EndsWithChars(s: string, suffix: string)
    ensures EndsWith(s, suffix) <==>
              |suffix| <= |s| && forall i :: 0 <= i < |suffix| ==> s[|s| - |suffix| + i] == suffix[i]
  {
  }

  /** Sum of the lengths of the units. */
  function TotalLength(units: seq<string>): nat {
    if units == [] then 0 else TotalLength(units[..|units| - 1]) + |units[|units| - 1]|
  }

  /** The text left by running `text += unit + " "` for each unit in order, starting from "". */
  function Spaced(units: seq<string>): (r: string)
    ensures |r| == TotalLength(units) + |units|
    ensures r == [] <==> units == []
    ensures units != [] ==> r[|r| - 1] == ' '
  {
    if units == [] then "" else Spaced(units[..|units| - 1]) + units[|units| - 1] + " "
  }

  /** Assembling two runs of units one after the other is concatenating their texts. */
  lemma {:induction false} SpacedAppend(a: seq<string>, b: seq<string>)
    ensures Spaced(a + b) == Spaced(a) + Spaced(b)
    decreases |b|
  {
    if b == [] {
      assert a + b == a;
    } else {
      var b', last := b[..|b| - 1], b[|b| - 1];
      assert (a + b)[..|a + b| - 1] == a + b';
      assert (a + b)[|a + b| - 1] == last;
      SpacedAppend(a, b');
      calc {
        Spaced(a + b);
        Spaced(a + b') + last + " ";
        (Spaced(a) + Spaced(b')) + last + " ";
        Spaced(a) + (Spaced(b') + last + " ");
        Spaced(a) + Spaced(b);
      }
    }
  }

  /** Position at which the text of unit `i` starts inside `Spaced(units)`. */
  function Offset(units: seq<string>, i: nat): nat
    requires i <= |units|
  {
    TotalLength(units[..i]) + i
  }

  /**
   Each unit appears verbatim in the assembled text, at its offset, and is
   followed by exactly one space.
   */
  lemma SpacedUnitAt(units: seq<string>, i: nat)
    requires i < |units|
    ensures Offset(units, i) + |units[i]| < |Spaced(units)|
    ensures Spaced(units)[Offset(units, i)..Offset(units, i) + |units[i]|] == units[i]
    ensures Spaced(units)[Offset(units, i) + |units[i]|] == ' '
  {
    var pre, u, post := units[..i], units[i], units[i + 1..];
    assert units == (pre + [u]) + post;
    SpacedAppend(pre + [u], post);
    SpacedAppend(pre, [u]);
    SpacedOne(u);
    var x, z := Spaced(pre), Spaced(post);
    assert Offset(units, i) == TotalLength(pre) + |pre| == |x|;
    var t := Spaced(units);
    assert t == x + (u + [' ']) + z;
    Middle(x, u, ' ', z);
    assert t[|x|..|x| + |u|] == u && t[|x| + |u|] == ' ';
  }

  /** A single unit is assembled to itself followed by one space. */
  lemma SpacedOne(u: string)
    ensures Spaced([u]) == u + [' ']
  {
    assert [u][..0] == [] && [u][0] == u;
  }

  /** The middle part of a three-part concatenation, and the element after it. */
  lemma Middle<T>(x: seq<T>, u: seq<T>, c: T, z: seq<T>)
    ensures (x + (u + [c]) + z)[|x|..|x| + |u|] == u
    ensures (x + (u + [c]) + z)[|x| + |u|] == c
  {
    var s := x + (u + [c]) + z;
    assert forall j :: 0 <= j < |u| ==> s[|x|..|x| + |u|][j] == u[j];
  }

  /** Python's `" ".join(cells)`: the cells with one space between neighbours. */
  function Join(cells: seq<string>): (r: string)
    ensures cells != [] ==> |r| == TotalLength(cells) + |cells| - 1
    ensures cells == [] ==> r == []
  {
    if cells == [] then ""
    else if |cells| == 1 then cells[0]
    else Join(cells[..|cells| - 1]) + " " + cells[|cells| - 1]
  }

  /**
   A spreadsheet row's contribution `" ".join(cells) + " "` is the row's cells
   assembled like any other units; an empty row contributes a lone space.
   */
  lemma {:induction false} JoinThenSpace(cells: seq<string>)
    ensures cells != [] ==> Join(cells) + " " == Spaced(cells)
    ensures cells == [] ==> Join(cells) + " " == " "
    decreases |cells|
  {
    if |cells| == 1 {
      assert cells[..0] == [];
    } else if |cells| > 1 {
      JoinThenSpace(cells[..|cells| - 1]);
    }
  }

}
