/** The cells of a Markdown table row: cut at the bars that are not inside code. */
module TableRows {
  import opened Lists

  type Cells = seq<string>

  /** Inside code after one more character. */
  function Step(inCode: bool, c: char): bool {
    if c == '`' then !inCode else inCode
  }

  /** Inside code after a text. */
  function After(text: string, inCode: bool): bool {
    if text == "" then inCode else After(text[1..], Step(inCode, text[0]))
  }

  function Prepend(text: string, cells: Cells): Cells
    requires cells != []
  {
    [text + cells[0]] + cells[1..]
  }

  /** The text cut at its bars outside code. */
  function Cut(text: string, inCode: bool): (cells: Cells)
    ensures cells != []
  {
    if text == "" then [""]
    else if text[0] == '|' && !inCode then [""] + Cut(text[1..], inCode)
    else Prepend([text[0]], Cut(text[1..], Step(inCode, text[0])))
  }

  /** The cells with bars between them. */
  function Join(cells: Cells): string
    requires cells != []
  {
    if |cells| == 1 then cells[0] else cells[0] + "|" + Join(cells[1..])
  }

  lemma JoinPrepend(text: string, cells: Cells)
    requires cells != []
    ensures Join(Prepend(text, cells)) == text + Join(cells)
  {
    if |cells| > 1 {
      assert Prepend(text, cells)[1..] == cells[1..];
    }
  }

  /** Cutting loses no character. */
  lemma {:induction false} CutJoins(text: string, inCode: bool)
    ensures Join(Cut(text, inCode)) == text
  {
    if text == "" {
    } else if text[0] == '|' && !inCode {
      CutJoins(text[1..], inCode);
      assert ([""] + Cut(text[1..], inCode))[1..] == Cut(text[1..], inCode);
    } else {
      CutJoins(text[1..], Step(inCode, text[0]));
      JoinPrepend([text[0]], Cut(text[1..], Step(inCode, text[0])));
    }
  }

  /** No bar outside code. */
  predicate NoBars(text: string, inCode: bool) {
    text == "" || (!(text[0] == '|' && !inCode) && NoBars(text[1..], Step(inCode, text[0])))
  }

  /** Cells without bars outside code, separated outside code. */
  predicate Clean(cells: Cells, inCode: bool)
    requires cells != []
  {
    && NoBars(cells[0], inCode)
    && (|cells| > 1 ==> !After(cells[0], inCode) && Clean(cells[1..], false))
  }

  lemma {:induction false} CutIsClean(text: string, inCode: bool)
    ensures Clean(Cut(text, inCode), inCode)
  {
    if text == "" {
    } else if text[0] == '|' && !inCode {
      CutIsClean(text[1..], inCode);
      assert ([""] + Cut(text[1..], inCode))[1..] == Cut(text[1..], inCode);
    } else {
      var rest := Cut(text[1..], Step(inCode, text[0]));
      CutIsClean(text[1..], Step(inCode, text[0]));
      assert ([text[0]] + rest[0])[1..] == rest[0];
      assert Prepend([text[0]], rest)[1..] == rest[1..];
    }
  }

  /** A text without bars goes whole into the first cell. */
  lemma {:induction false} CutAfter(text: string, tail: string, inCode: bool, rest: Cells)
    requires NoBars(text, inCode) && Cut(tail, After(text, inCode)) == [""] + rest
    ensures Cut(text + tail, inCode) == [text] + rest
  {
    if text == "" {
      assert text + tail == tail;
    } else {
      CutAfter(text[1..], tail, Step(inCode, text[0]), rest);
      assert (text + tail)[1..] == text[1..] + tail;
      PrependFirst(text, rest);
    }
  }

  lemma PrependFirst(text: string, rest: Cells)
    requires text != ""
    ensures Prepend([text[0]], [text[1..]] + rest) == [text] + rest
  {
    assert [text[0]] + text[1..] == text;
    assert ([text[1..]] + rest)[1..] == rest;
  }

  /** There is one way to cut a text into clean cells. */
  lemma {:induction false} CutIsUnique(cells: Cells, inCode: bool)
    requires cells != [] && Clean(cells, inCode)
    ensures Cut(Join(cells), inCode) == cells
  {
    FirstAndRest(cells);
    if |cells| == 1 {
      CutAfter(cells[0], "", inCode, []);
      assert cells[0] + "" == cells[0];
    } else {
      var rest := Join(cells[1..]);
      CutIsUnique(cells[1..], false);
      assert ("|" + rest)[1..] == rest;
      CutAfter(cells[0], "|" + rest, inCode, cells[1..]);
      assert cells[0] + ("|" + rest) == Join(cells);
    }
  }

  // ----- a row of a table -----

  /** The row without its outer bars. */
  function Inner(line: string, space: char -> bool): string {
    var text := Strip(line, space);
    var tail := if text != "" && text[0] == '|' then text[1..] else text;
    if tail != "" && tail[|tail| - 1] == '|' then tail[..|tail| - 1] else tail
  }

  function StripAll(cells: Cells, space: char -> bool): Cells {
    seq(|cells|, i requires 0 <= i < |cells| => Strip(cells[i], space))
  }

  lemma {:induction false} NothingToStrip(text: string, space: char -> bool)
    requires text != "" && !space(text[0]) && !space(text[|text| - 1])
    ensures Strip(text, space) == text
  {
  }

  lemma {:induction false} InnerOfRow(inner: string, space: char -> bool)
    requires !space('|')
    ensures Inner("|" + inner + "|", space) == inner
  {
    var text := "|" + inner + "|";
    NothingToStrip(text, space);
    assert text[1..] == inner + "|";
  }

  /** A row written with bars before, between and after clean cells is cut into these cells. */
  lemma {:induction false} RowRoundTrip(cells: Cells, space: char -> bool)
    requires cells != [] && Clean(cells, false) && !space('|')
    ensures Cut(Inner("|" + Join(cells) + "|", space), false) == cells
  {
    InnerOfRow(Join(cells), space);
    CutIsUnique(cells, false);
  }

  lemma CutNext(text: string, i: nat, cells: Cells, current: string, inCode: bool)
    requires i < |text| && cells + Prepend(current, Cut(text[i..], inCode)) == Cut(text, false)
    ensures if text[i] == '|' && !inCode
            then cells + [current] + Prepend("", Cut(text[i + 1..], false)) == Cut(text, false)
            else cells + Prepend(current + [text[i]], Cut(text[i + 1..], Step(inCode, text[i]))) == Cut(text, false)
  {
    var rest := Cut(text[i + 1..], Step(inCode, text[i]));
    assert text[i..][1..] == text[i + 1..];
    if text[i] == '|' && !inCode {
      assert current + "" == current && "" + rest[0] == rest[0];
      assert Prepend("", rest) == rest && Prepend(current, [""] + rest) == [current] + rest;
      assert cells + ([current] + rest) == cells + [current] + rest;
    } else {
      assert current + ([text[i]] + rest[0]) == current + [text[i]] + rest[0];
    }
  }

  lemma LastCell(text: string, cells: Cells, current: string, inCode: bool)
    requires cells + Prepend(current, Cut(text[|text|..], inCode)) == Cut(text, false)
    ensures cells + [current] == Cut(text, false)
  {
    assert text[|text|..] == "" && current + "" == current;
    assert Prepend(current, [""]) == [current];
  }

  lemma StripAllNext(cells: Cells, cell: string, space: char -> bool)
    ensures StripAll(cells + [cell], space) == StripAll(cells, space) + [Strip(cell, space)]
  {
  }

  lemma NothingRead(text: string)
    ensures [] + Prepend("", Cut(text[0..], false)) == Cut(text, false)
  {
    assert text[0..] == text && "" + Cut(text, false)[0] == Cut(text, false)[0];
  }

  /** The cells of a row: its text cut at the bars outside code, each cell stripped. */
  method SplitTableRow(line: string, space: char -> bool) returns (cells: Cells)
    ensures cells == StripAll(Cut(Inner(line, space), false), space)
  {
    var text := Inner(line, space);
    var current, inCode := "", false;
    cells := [];
    ghost var raw: Cells := [];
    NothingRead(text);
    for i := 0 to |text|
      invariant raw + Prepend(current, Cut(text[i..], inCode)) == Cut(text, false)
      invariant cells == StripAll(raw, space)
    {
      CutNext(text, i, raw, current, inCode);
      var character := text[i];
      if character == '`' {
        inCode := !inCode;
      }
      if character == '|' && !inCode {
        StripAllNext(raw, current, space);
        cells := cells + [Strip(current, space)];
        raw := raw + [current];
        current := "";
      } else {
        current := current + [character];
      }
    }
    StripAllNext(raw, current, space);
    LastCell(text, raw, current, inCode);
    cells := cells + [Strip(current, space)];
    raw := raw + [current];
  }
}
