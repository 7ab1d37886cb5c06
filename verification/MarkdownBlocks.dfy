/**
The Markdown scanner of the milestone report: lines, already classified by their patterns, are cut
into headings, code, tables, lists, figure captions and paragraphs.
 */
module MarkdownBlocks {
  import opened Outcomes
  import opened Lists

  datatype Kind = Number | Bullet

  /**
  What the patterns say of a line. `headingPrefix` is the looser pattern that ends a paragraph;
  `indented` is two leading spaces; `pipe` is a first nonblank character '|'. No pattern matches a
  blank line.
   */
  datatype Line =
    | Blank
    | Text(
        heading: Option<nat>,
        headingPrefix: bool,
        fence: bool,
        pipe: bool,
        separator: bool,
        marker: Option<Kind>,
        indented: bool,
        figure: bool)
  {
    predicate IsFence() { Text? && fence }

    predicate IsRow() { Text? && pipe }

    predicate IsSeparator() { Text? && separator }

    predicate IsMarker(kind: Kind) { Text? && marker == Some(kind) }

    predicate IsItem() { Text? && marker.Some? }
  }

  type Lines = seq<Line>

  // ----- where a run of lines ends -----

  predicate Continues(line: Line) {
    line.Text? && line.marker.None? && line.indented
  }

  predicate StartsTable(lines: Lines, i: nat)
    requires i < |lines|
  {
    lines[i].IsRow() && i + 1 < |lines| && lines[i + 1].IsSeparator()
  }

  predicate StopsParagraph(lines: Lines, i: nat)
    requires i < |lines|
  {
    lines[i].Blank? || lines[i].headingPrefix || lines[i].fence || StartsTable(lines, i) || lines[i].IsItem()
  }

  function FenceFrom(lines: Lines, i: nat): (end: nat)
    requires i <= |lines|
    ensures i <= end <= |lines| && (forall k | i <= k < end :: !lines[k].IsFence())
    ensures end < |lines| ==> lines[end].IsFence()
    decreases |lines| - i
  {
    if i == |lines| || lines[i].IsFence() then i else FenceFrom(lines, i + 1)
  }

  function RowsEnd(lines: Lines, i: nat): (end: nat)
    requires i <= |lines|
    ensures i <= end <= |lines| && (forall k | i <= k < end :: lines[k].IsRow())
    ensures end < |lines| ==> !lines[end].IsRow()
    decreases |lines| - i
  {
    if i == |lines| || !lines[i].IsRow() then i else RowsEnd(lines, i + 1)
  }

  function ParagraphEnd(lines: Lines, i: nat): (end: nat)
    requires i <= |lines|
    ensures i <= end <= |lines| && (forall k | i <= k < end :: !StopsParagraph(lines, k))
    ensures end < |lines| ==> StopsParagraph(lines, end)
    decreases |lines| - i
  {
    if i == |lines| || StopsParagraph(lines, i) then i else ParagraphEnd(lines, i + 1)
  }

  function ItemEnd(lines: Lines, i: nat): (end: nat)
    requires i <= |lines|
    ensures i <= end <= |lines| && (forall k | i <= k < end :: Continues(lines[k]))
    ensures end < |lines| ==> !Continues(lines[end])
    decreases |lines| - i
  {
    if i == |lines| || !Continues(lines[i]) then i else ItemEnd(lines, i + 1)
  }

  function NonBlankFrom(lines: Lines, i: nat): (end: nat)
    requires i <= |lines|
    ensures i <= end <= |lines| && (forall k | i <= k < end :: lines[k].Blank?)
    ensures (end < |lines| ==> !lines[end].Blank?)
    decreases |lines| - i
  {
    if i == |lines| || !lines[i].Blank? then i else NonBlankFrom(lines, i + 1)
  }

  // ----- lists -----

  /** An item: its marker line, and the end of its continuation lines. */
  datatype Item = Item(line: nat, end: nat)

  /** The next item of the same kind, directly after line i or after blank lines. */
  function NextItem(lines: Lines, i: nat, kind: Kind): (next: Option<nat>)
    requires i <= |lines|
    ensures next.Some? ==> i <= next.value < |lines| && lines[next.value].IsMarker(kind)
    ensures next.Some? ==> forall k | i <= k < next.value :: lines[k].Blank?
  {
    var j := NonBlankFrom(lines, i);
    if i < |lines| && !lines[i].Blank? then if lines[i].IsMarker(kind) then Some(i) else None
    else if j < |lines| && lines[j].IsMarker(kind) then Some(j) else None
  }

  function ItemsFrom(lines: Lines, i: nat, kind: Kind): seq<Item>
    requires i < |lines|
    decreases |lines| - i
  {
    var end := ItemEnd(lines, i + 1);
    match NextItem(lines, end, kind)
    case None => [Item(i, end)]
    case Some(next) => [Item(i, end)] + ItemsFrom(lines, next, kind)
  }

  function ListEnd(lines: Lines, i: nat, kind: Kind): (end: nat)
    requires i < |lines|
    ensures i < end <= |lines|
    decreases |lines| - i
  {
    var end := ItemEnd(lines, i + 1);
    match NextItem(lines, end, kind)
    case None => end
    case Some(next) => ListEnd(lines, next, kind)
  }

  /** The number of marker lines in [low, high). */
  function Markers(lines: Lines, low: nat, high: nat): nat
    requires low <= high <= |lines|
    decreases high
  {
    if low == high then 0 else Markers(lines, low, high - 1) + if lines[high - 1].IsItem() then 1 else 0
  }

  lemma {:induction false} MarkersSplit(lines: Lines, low: nat, middle: nat, high: nat)
    requires low <= middle <= high <= |lines|
    ensures Markers(lines, low, high) == Markers(lines, low, middle) + Markers(lines, middle, high)
    decreases high
  {
    if middle < high {
      MarkersSplit(lines, low, middle, high - 1);
    }
  }

  lemma {:induction false} NoMarkers(lines: Lines, low: nat, high: nat)
    requires low <= high <= |lines| && forall k | low <= k < high :: !lines[k].IsItem()
    ensures Markers(lines, low, high) == 0
    decreases high
  {
    if low < high {
      NoMarkers(lines, low, high - 1);
    }
  }

  /** A line of a list: a marker of its kind, a continuation, or a blank line between items. */
  predicate ListLine(line: Line, kind: Kind) {
    line.IsMarker(kind) || Continues(line) || line.Blank?
  }

  /** A list has one item for each marker line of its span. */
  lemma {:induction false} ListCountsMarkers(lines: Lines, i: nat, kind: Kind)
    requires i < |lines| && lines[i].IsMarker(kind)
    ensures |ItemsFrom(lines, i, kind)| == Markers(lines, i, ListEnd(lines, i, kind))
    decreases |lines| - i
  {
    var own := ItemEnd(lines, i + 1);
    NoMarkers(lines, i + 1, own);
    MarkersSplit(lines, i, i + 1, own);
    assert Markers(lines, i, i + 1) == 1;
    match NextItem(lines, own, kind)
    case None =>
    case Some(next) =>
      ListCountsMarkers(lines, next, kind);
      NoMarkers(lines, own, next);
      MarkersSplit(lines, i, own, ListEnd(lines, i, kind));
      MarkersSplit(lines, own, next, ListEnd(lines, i, kind));
  }

  /** All lines of a list are of its one kind, and the last is not blank. */
  lemma {:induction false} ListHasOneKind(lines: Lines, i: nat, kind: Kind)
    requires i < |lines| && lines[i].IsMarker(kind)
    ensures forall k | i <= k < ListEnd(lines, i, kind) :: ListLine(lines[k], kind)
    ensures !lines[ListEnd(lines, i, kind) - 1].Blank?
    decreases |lines| - i
  {
    match NextItem(lines, ItemEnd(lines, i + 1), kind)
    case None =>
    case Some(next) => ListHasOneKind(lines, next, kind);
  }

  predicate ItemAt(lines: Lines, item: Item, kind: Kind, low: nat, high: nat)
    requires high <= |lines|
  {
    low <= item.line < item.end <= high && lines[item.line].IsMarker(kind)
  }

  /** Each item is a marker line of the list's kind with its continuation lines. */
  lemma {:induction false} ItemsAreMarkers(lines: Lines, i: nat, kind: Kind)
    requires i < |lines| && lines[i].IsMarker(kind)
    ensures forall item | item in ItemsFrom(lines, i, kind) :: ItemAt(lines, item, kind, i, ListEnd(lines, i, kind))
    decreases |lines| - i
  {
    match NextItem(lines, ItemEnd(lines, i + 1), kind)
    case None =>
    case Some(next) => ItemsAreMarkers(lines, next, kind);
  }

  /** No item overlaps a later one. */
  predicate Ordered(items: seq<Item>, low: nat) {
    items != [] ==> low <= items[0].line < items[0].end && Ordered(items[1..], items[0].end)
  }

  lemma {:induction false} ItemsAreOrdered(lines: Lines, i: nat, kind: Kind, low: nat)
    requires i < |lines| && low <= i
    ensures Ordered(ItemsFrom(lines, i, kind), low)
    decreases |lines| - i
  {
    var end := ItemEnd(lines, i + 1);
    match NextItem(lines, end, kind)
    case None =>
    case Some(next) => ItemsAreOrdered(lines, next, kind, end);
  }

  method ConsumeContinuation(lines: Lines, start: nat) returns (index: nat)
    requires start <= |lines|
    ensures index == ItemEnd(lines, start)
  {
    index := start;
    while index < |lines|
      invariant start <= index <= |lines|
      invariant forall k | start <= k < index :: Continues(lines[k])
    {
      if lines[index].Blank? || lines[index].IsItem() || !lines[index].indented {
        break;
      }
      index := index + 1;
    }
  }

  method SkipBlanks(lines: Lines, start: nat) returns (lookahead: nat)
    requires start <= |lines|
    ensures lookahead == NonBlankFrom(lines, start)
  {
    lookahead := start;
    while lookahead < |lines| && lines[lookahead].Blank?
      invariant start <= lookahead <= |lines|
      invariant forall k | start <= k < lookahead :: lines[k].Blank?
    {
      lookahead := lookahead + 1;
    }
  }

  /** The rest of the list from an item on, after the items already consumed. */
  predicate Remaining(lines: Lines, items: seq<Item>, index: nat, kind: Kind, whole: seq<Item>, last: nat) {
    if index < |lines| && lines[index].IsMarker(kind)
    then items + ItemsFrom(lines, index, kind) == whole && ListEnd(lines, index, kind) == last
    else items == whole && index == last
  }

  lemma NextRemains(lines: Lines, items: seq<Item>, index: nat, kind: Kind, whole: seq<Item>, last: nat, end: nat)
    requires index < |lines| && lines[index].IsMarker(kind) && Remaining(lines, items, index, kind, whole, last)
    requires end == ItemEnd(lines, index + 1)
    ensures match NextItem(lines, end, kind)
            case None => items + [Item(index, end)] == whole && end == last
            case Some(next) => Remaining(lines, items + [Item(index, end)], next, kind, whole, last)
  {
    match NextItem(lines, end, kind)
    case None =>
    case Some(next) => Regroup(items, [Item(index, end)], ItemsFrom(lines, next, kind));
  }

  method ConsumeList(lines: Lines, start: nat) returns (items: seq<Item>, index: nat)
    requires start < |lines|
    ensures !lines[start].IsItem() ==> items == [] && index == start
    ensures lines[start].IsItem() ==>
              && items == ItemsFrom(lines, start, lines[start].marker.value)
              && index == ListEnd(lines, start, lines[start].marker.value)
  {
    if !lines[start].IsItem() {
      return [], start;
    }
    var expected := lines[start].marker.value;
    ghost var whole, last := ItemsFrom(lines, start, expected), ListEnd(lines, start, expected);
    items, index := [], start;
    while index < |lines|
      invariant start <= index <= |lines|
      invariant Remaining(lines, items, index, expected, whole, last)
      decreases |lines| - index
    {
      if !lines[index].IsMarker(expected) {
        break;
      }
      var end := ConsumeContinuation(lines, index + 1);
      NextRemains(lines, items, index, expected, whole, last, end);
      items := items + [Item(index, end)];
      index := end;
      if index < |lines| && lines[index].Blank? {
        var lookahead := SkipBlanks(lines, index);
        if lookahead < |lines| && lines[lookahead].IsMarker(expected) {
          index := lookahead;
          continue;
        }
        break;
      }
    }
  }

  // ----- blocks -----

  datatype Block =
    | Heading(line: nat, level: nat, pageBreak: bool)
    | CodeBlock(line: nat, body: nat, end: nat)
    | Table(line: nat, end: nat)
    | List(line: nat, end: nat, kind: Kind, items: seq<Item>)
    | Figure(line: nat)
    | Paragraph(line: nat, end: nat)
  {
    /** The first line after the block. */
    function End(): nat {
      match this
      case Heading(line, _, _) => line + 1
      case CodeBlock(_, _, end) => end
      case Table(_, end) => end
      case List(_, end, _, _) => end
      case Figure(line) => line + 1
      case Paragraph(_, end) => end
    }

    predicate Owns(j: nat) {
      line <= j < End()
    }
  }

  predicate IsPlain(lines: Lines, i: nat)
    requires i < |lines|
  {
    lines[i].Text? && lines[i].heading.None? && !lines[i].fence && !StartsTable(lines, i) && !lines[i].IsItem()
  }

  /** What makes a block of each kind, and that it extends as far as it can. */
  predicate Shape(lines: Lines, block: Block) {
    && block.line < block.End() <= |lines| && lines[block.line].Text?
    && match block {
       case Heading(i, level, _) => lines[i].heading == Some(level)
       case CodeBlock(i, body, end) =>
         && lines[i].heading.None? && lines[i].fence && i < body <= |lines|
         && (forall k | i < k < body :: !lines[k].IsFence())
         && (if body < |lines| then lines[body].IsFence() && end == body + 1 else end == body)
       case Table(i, end) =>
         && lines[i].heading.None? && !lines[i].fence && StartsTable(lines, i) && i + 2 <= end
         && (forall k | i + 2 <= k < end :: lines[k].IsRow()) && (end < |lines| ==> !lines[end].IsRow())
       case List(i, end, kind, items) =>
         && lines[i].heading.None? && !lines[i].fence && !StartsTable(lines, i) && lines[i].IsMarker(kind)
         && items == ItemsFrom(lines, i, kind) && end == ListEnd(lines, i, kind)
       case Figure(i) => IsPlain(lines, i) && lines[i].figure
       case Paragraph(i, end) =>
         && IsPlain(lines, i) && !lines[i].figure
         && (forall k | i < k < end :: !StopsParagraph(lines, k)) && (end < |lines| ==> StopsParagraph(lines, end))
       }
  }

  /** The block that starts at a line; `first` until a heading has been seen. */
  function BlockAt(lines: Lines, i: nat, first: bool, breaks: bool): (block: Block)
    requires i < |lines| && lines[i].Text?
    ensures block.line == i && Shape(lines, block)
  {
    if lines[i].heading.Some? then
      Heading(i, lines[i].heading.value, lines[i].heading.value == 1 && breaks && !first)
    else if lines[i].fence then
      var body := FenceFrom(lines, i + 1);
      CodeBlock(i, body, if body < |lines| then body + 1 else body)
    else if StartsTable(lines, i) then Table(i, RowsEnd(lines, i + 2))
    else if lines[i].IsItem() then
      var kind := lines[i].marker.value;
      List(i, ListEnd(lines, i, kind), kind, ItemsFrom(lines, i, kind))
    else if lines[i].figure then Figure(i)
    else Paragraph(i, ParagraphEnd(lines, i + 1))
  }

  function BlocksFrom(lines: Lines, i: nat, first: bool, breaks: bool): seq<Block>
    requires i <= |lines|
    decreases |lines| - i
  {
    if i == |lines| then []
    else if lines[i].Blank? then BlocksFrom(lines, i + 1, first, breaks)
    else
      var block := BlockAt(lines, i, first, breaks);
      [block] + BlocksFrom(lines, block.End(), first && !block.Heading?, breaks)
  }

  // ----- no line is lost or read twice -----

  predicate Disjoint(blocks: seq<Block>, low: nat, high: nat) {
    blocks != [] ==>
      low <= blocks[0].line < blocks[0].End() <= high && Disjoint(blocks[1..], blocks[0].End(), high)
  }

  lemma {:induction false} BlocksAreDisjoint(lines: Lines, i: nat, first: bool, breaks: bool, low: nat)
    requires low <= i <= |lines|
    ensures Disjoint(BlocksFrom(lines, i, first, breaks), low, |lines|)
    decreases |lines| - i
  {
    if i == |lines| {
    } else if lines[i].Blank? {
      BlocksAreDisjoint(lines, i + 1, first, breaks, low);
    } else {
      var block := BlockAt(lines, i, first, breaks);
      BlocksAreDisjoint(lines, block.End(), first && !block.Heading?, breaks, block.End());
    }
  }

  /** How many of the blocks own a line. */
  function Owners(blocks: seq<Block>, j: nat): nat {
    if blocks == [] then 0 else (if blocks[0].Owns(j) then 1 else 0) + Owners(blocks[1..], j)
  }

  lemma {:induction false} NoOwnerBefore(blocks: seq<Block>, low: nat, high: nat, j: nat)
    requires Disjoint(blocks, low, high) && j < low
    ensures Owners(blocks, j) == 0
  {
    if blocks != [] {
      NoOwnerBefore(blocks[1..], blocks[0].End(), high, j);
    }
  }

  /** Every line that is not blank belongs to exactly one block, and every line to at most one. */
  lemma {:induction false} EveryLineHasOneOwner(lines: Lines, i: nat, first: bool, breaks: bool, j: nat)
    requires i <= j < |lines|
    ensures Owners(BlocksFrom(lines, i, first, breaks), j) <= 1
    ensures lines[j].Text? ==> Owners(BlocksFrom(lines, i, first, breaks), j) == 1
    decreases |lines| - i
  {
    if lines[i].Blank? {
      if i < j {
        EveryLineHasOneOwner(lines, i + 1, first, breaks, j);
      } else {
        BlocksAreDisjoint(lines, i + 1, first, breaks, i + 1);
        NoOwnerBefore(BlocksFrom(lines, i + 1, first, breaks), i + 1, |lines|, j);
      }
    } else {
      var block := BlockAt(lines, i, first, breaks);
      var end, later := block.End(), first && !block.Heading?;
      if j < end {
        BlocksAreDisjoint(lines, end, later, breaks, end);
        NoOwnerBefore(BlocksFrom(lines, end, later, breaks), end, |lines|, j);
      } else {
        EveryLineHasOneOwner(lines, end, later, breaks, j);
      }
    }
  }

  predicate Shapes(lines: Lines, blocks: seq<Block>) {
    forall k | 0 <= k < |blocks| :: Shape(lines, blocks[k])
  }

  lemma {:induction false} BlocksHaveShape(lines: Lines, i: nat, first: bool, breaks: bool)
    requires i <= |lines|
    ensures Shapes(lines, BlocksFrom(lines, i, first, breaks))
    decreases |lines| - i
  {
    if i == |lines| {
    } else if lines[i].Blank? {
      BlocksHaveShape(lines, i + 1, first, breaks);
    } else {
      var block := BlockAt(lines, i, first, breaks);
      BlocksHaveShape(lines, block.End(), first && !block.Heading?, breaks);
    }
  }

  // ----- the parse is the only one -----

  /** The same block but for page breaks. */
  predicate SameBlock(a: Block, b: Block) {
    if a.Heading? && b.Heading? then a.line == b.line && a.level == b.level else a == b
  }

  /** Blocks that start where the previous one ended, blank lines aside. */
  predicate Follows(lines: Lines, blocks: seq<Block>, i: nat) {
    if i > |lines| then false
    else if blocks == [] then forall k | i <= k < |lines| :: lines[k].Blank?
    else
      && i <= blocks[0].line && (forall k | i <= k < blocks[0].line && k < |lines| :: lines[k].Blank?)
      && Follows(lines, blocks[1..], blocks[0].End())
  }

  lemma ShapeIsUnique(lines: Lines, a: Block, b: Block)
    requires Shape(lines, a) && Shape(lines, b) && a.line == b.line
    ensures SameBlock(a, b) && a.End() == b.End()
  {
  }

  predicate SameBlocks(a: seq<Block>, b: seq<Block>) {
    |a| == |b| && forall k | 0 <= k < |a| :: SameBlock(a[k], b[k])
  }

  /** Any way of cutting the lines into blocks of the right shapes is the scanner's. */
  lemma {:induction false} ParseIsUnique(lines: Lines, blocks: seq<Block>, i: nat, first: bool, breaks: bool)
    requires Shapes(lines, blocks) && Follows(lines, blocks, i)
    ensures i <= |lines| && SameBlocks(blocks, BlocksFrom(lines, i, first, breaks))
    decreases |lines| - i
  {
    if i == |lines| {
    } else if lines[i].Blank? {
      ParseIsUnique(lines, blocks, i + 1, first, breaks);
    } else {
      var block := BlockAt(lines, i, first, breaks);
      ShapeIsUnique(lines, blocks[0], block);
      ParseIsUnique(lines, blocks[1..], block.End(), first && !block.Heading?, breaks);
    }
  }

  lemma {:induction false} BlocksFollow(lines: Lines, i: nat, first: bool, breaks: bool)
    requires i <= |lines|
    ensures Follows(lines, BlocksFrom(lines, i, first, breaks), i)
    decreases |lines| - i
  {
    if i == |lines| {
    } else if lines[i].Blank? {
      BlocksFollow(lines, i + 1, first, breaks);
    } else {
      var block := BlockAt(lines, i, first, breaks);
      BlocksFollow(lines, block.End(), first && !block.Heading?, breaks);
    }
  }

  /** A way of cutting all lines into blocks of the right shapes, one after the other. */
  predicate IsCut(lines: Lines, blocks: seq<Block>) {
    Shapes(lines, blocks) && Follows(lines, blocks, 0)
  }

  /** Every document has exactly one such cut, and it is what the scanner returns. */
  lemma ParseIsTheOnlyCut(lines: Lines, breaks: bool)
    ensures IsCut(lines, BlocksFrom(lines, 0, true, breaks))
    ensures forall blocks | IsCut(lines, blocks) :: SameBlocks(blocks, BlocksFrom(lines, 0, true, breaks))
  {
    BlocksHaveShape(lines, 0, true, breaks);
    BlocksFollow(lines, 0, true, breaks);
    forall blocks | IsCut(lines, blocks)
      ensures SameBlocks(blocks, BlocksFrom(lines, 0, true, breaks))
    {
      ParseIsUnique(lines, blocks, 0, true, breaks);
    }
  }

  // ----- page breaks -----

  function TopHeadings(blocks: seq<Block>): nat {
    if blocks == [] then 0 else (if blocks[0].Heading? && blocks[0].level == 1 then 1 else 0) + TopHeadings(blocks[1..])
  }

  function PageBreaks(blocks: seq<Block>): nat {
    if blocks == [] then 0 else (if blocks[0].Heading? && blocks[0].pageBreak then 1 else 0) + PageBreaks(blocks[1..])
  }

  predicate OpensWithTop(blocks: seq<Block>) {
    blocks != [] && if blocks[0].Heading? then blocks[0].level == 1 else OpensWithTop(blocks[1..])
  }

  /** With page breaks on, every top heading gets one except a top heading that is the first of all headings. */
  lemma {:induction false} BreaksBeforeTopHeadings(lines: Lines, i: nat, first: bool)
    requires i <= |lines|
    ensures var blocks := BlocksFrom(lines, i, first, true);
            PageBreaks(blocks) + (if first && OpensWithTop(blocks) then 1 else 0) == TopHeadings(blocks)
    decreases |lines| - i
  {
    if i == |lines| {
    } else if lines[i].Blank? {
      BreaksBeforeTopHeadings(lines, i + 1, first);
    } else {
      var block := BlockAt(lines, i, first, true);
      BreaksBeforeTopHeadings(lines, block.End(), first && !block.Heading?);
    }
  }

  // ----- the scanner -----

  method ParseBlocks(lines: Lines, pageBreakHeadings: bool) returns (blocks: seq<Block>)
    ensures blocks == BlocksFrom(lines, 0, true, pageBreakHeadings)
  {
    blocks := [];
    var index, firstHeading := 0, true;
    while index < |lines|
      invariant 0 <= index <= |lines|
      invariant blocks + BlocksFrom(lines, index, firstHeading, pageBreakHeadings)
             == BlocksFrom(lines, 0, true, pageBreakHeadings)
      decreases |lines| - index
    {
      if lines[index].Blank? {
        index := index + 1;
        continue;
      }
      var block := ParseBlock(lines, index, firstHeading, pageBreakHeadings);
      firstHeading := firstHeading && !block.Heading?;
      Regroup(blocks, [block], BlocksFrom(lines, block.End(), firstHeading, pageBreakHeadings));
      blocks := blocks + [block];
      index := block.End();
    }
  }

  /** The body of the scanner's loop at a line that is not blank. */
  method ParseBlock(lines: Lines, start: nat, firstHeading: bool, pageBreakHeadings: bool) returns (block: Block)
    requires start < |lines| && lines[start].Text?
    ensures block == BlockAt(lines, start, firstHeading, pageBreakHeadings)
  {
    var line, index := lines[start], start;
    if line.heading.Some? {
      var level := line.heading.value;
      return Heading(start, level, level == 1 && pageBreakHeadings && !firstHeading);
    }
    if line.fence {
      index := index + 1;
      while index < |lines| && !lines[index].IsFence()
        invariant start < index <= |lines|
        invariant forall k | start < k < index :: !lines[k].IsFence()
      {
        index := index + 1;
      }
      return CodeBlock(start, index, if index < |lines| then index + 1 else index);
    }
    if line.IsRow() && index + 1 < |lines| && lines[index + 1].IsSeparator() {
      index := index + 2;
      while index < |lines| && lines[index].IsRow()
        invariant start + 2 <= index <= |lines|
        invariant forall k | start + 2 <= k < index :: lines[k].IsRow()
      {
        index := index + 1;
      }
      return Table(start, index);
    }
    if line.IsItem() {
      var items: seq<Item>;
      items, index := ConsumeList(lines, index);
      return List(start, index, line.marker.value, items);
    }
    if line.figure {
      return Figure(start);
    }
    index := index + 1;
    while index < |lines|
      invariant start < index <= |lines|
      invariant forall k | start < k < index :: !StopsParagraph(lines, k)
    {
      if StopsParagraph(lines, index) {
        break;
      }
      index := index + 1;
    }
    block := Paragraph(start, index);
  }
}
