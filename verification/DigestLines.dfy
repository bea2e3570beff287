/** The lines of a digest in its messages (app/notify_format.py). */
module DigestLines {
  import opened Common
  import opened Text
  import opened Packing

  // ---------------------------------------------------------------- lines of a text

  function NonEmpty(parts: seq<string>): seq<string> {
    if parts == [] then []
    else
      var rest, last := NonEmpty(parts[..|parts| - 1]), parts[|parts| - 1];
      if last == "" then rest else rest + [last]
  }

  /** A text split at its line ends, empty lines left out. */
  function Lines(text: string): seq<string> {
    NonEmpty(Split(text, '\n'))
  }

  /** The lines of all messages in order. */
  function LinesOf(messages: seq<string>): seq<string> {
    if messages == [] then [] else LinesOf(messages[..|messages| - 1]) + Lines(messages[|messages| - 1])
  }

  /** The lines of all blocks in order. */
  function AllLines(blocks: seq<seq<string>>): seq<string> {
    if blocks == [] then [] else AllLines(blocks[..|blocks| - 1]) + blocks[|blocks| - 1]
  }

  /** Lines that show, each on one line and short enough for a message. */
  ghost predicate Clean(block: seq<string>, limit: nat) {
    block != [] && forall i :: 0 <= i < |block| ==> 0 < |block[i]| <= limit && '\n' !in block[i]
  }

  ghost predicate AllClean(blocks: seq<seq<string>>, limit: nat) {
    forall i :: 0 <= i < |blocks| ==> Clean(blocks[i], limit)
  }

  lemma {:induction false} SplitConcat(a: string, b: string, c: char)
    ensures Split(a + [c] + b, c) == Split(a, c) + Split(b, c)
  {
    hide Extended;
    var s := a + [c] + b;
    if a == "" {
      assert s[1..] == b;
    } else {
      SplitConcat(a[1..], b, c);
      assert s[1..] == a[1..] + [c] + b && s[0] == a[0];
      SplitFirstChar(s, c);
      SplitFirstChar(a, c);
      Prefixed(if a[0] == c then None else Some(a[0]), Split(a[1..], c), Split(b, c));
    }
  }

  /** The parts with one more character in front, or with one more part when that was the separator. */
  function Extended(x: Option<char>, parts: seq<string>): seq<string>
    requires parts != []
  {
    match x case None => [""] + parts case Some(ch) => [[ch] + parts[0]] + parts[1..]
  }

  lemma SplitFirstChar(s: string, c: char)
    requires s != ""
    ensures Split(s, c) == Extended(if s[0] == c then None else Some(s[0]), Split(s[1..], c))
  {
  }

  lemma Prefixed(x: Option<char>, a: seq<string>, b: seq<string>)
    requires a != []
    ensures Extended(x, a + b) == Extended(x, a) + b
  {
    assert (a + b)[1..] == a[1..] + b;
  }

  lemma {:induction false} NonEmptyConcat(a: seq<string>, b: seq<string>)
    ensures NonEmpty(a + b) == NonEmpty(a) + NonEmpty(b)
  {
    if b == [] {
      assert a + b == a;
    } else {
      NonEmptyConcat(a, b[..|b| - 1]);
      assert (a + b)[..|a + b| - 1] == a + b[..|b| - 1];
    }
  }

  lemma LinesConcat(a: string, b: string)
    ensures Lines(a + "\n" + b) == Lines(a) + Lines(b)
  {
    SplitConcat(a, b, '\n');
    NonEmptyConcat(Split(a, '\n'), Split(b, '\n'));
  }

  /** One line end or two, the lines are the same. */
  lemma LinesAcross(a: string, sep: string, b: string)
    requires sep == "\n" || sep == "\n\n"
    ensures Lines(a + sep + b) == Lines(a) + Lines(b)
  {
    if sep == "\n" {
      LinesConcat(a, b);
    } else {
      LinesConcat(a + "\n", b);
      LinesConcat(a, "");
      assert a + "\n\n" + b == a + "\n" + "\n" + b;
      assert a + "\n" == a + "\n" + "" && NonEmpty([""]) == [] && Lines("") == [];
    }
  }

  lemma OneLine(line: string)
    requires line != "" && '\n' !in line
    ensures Lines(line) == [line]
  {
    SplitPiece(line, '\n');
    KeepsAll([line]);
  }

  /** Split at the line ends, a block's text gives back the block. */
  lemma {:induction false} BlockSplits(block: seq<string>, limit: nat)
    requires Clean(block, limit)
    ensures Split(JoinLines(block), '\n') == block
  {
    hide Split;
    var n := |block| - 1;
    SplitPiece(block[n], '\n');
    assert block == block[..n] + [block[n]];
    if n > 0 {
      BlockSplits(block[..n], limit);
      SplitConcat(JoinLines(block[..n]), block[n], '\n');
    }
  }

  lemma BlockLines(block: seq<string>, limit: nat)
    requires Clean(block, limit)
    ensures Lines(JoinLines(block)) == block
  {
    BlockSplits(block, limit);
    KeepsAll(block);
  }

  lemma {:induction false} KeepsAll(parts: seq<string>)
    requires forall i :: 0 <= i < |parts| ==> parts[i] != ""
    ensures NonEmpty(parts) == parts
  {
    if parts != [] {
      KeepsAll(parts[..|parts| - 1]);
    }
  }

  // ---------------------------------------------------------------- lines of pieces

  function PieceLines(pieces: seq<Piece>): seq<string> {
    if pieces == [] then [] else PieceLines(pieces[..|pieces| - 1]) + Lines(pieces[|pieces| - 1].text)
  }

  ghost predicate LineSeps(pieces: seq<Piece>) {
    forall i :: 0 <= i < |pieces| ==> pieces[i].sep == "\n" || pieces[i].sep == "\n\n"
  }

  lemma PieceLinesSnoc(a: seq<Piece>, p: Piece)
    ensures PieceLines(a + [p]) == PieceLines(a) + Lines(p.text)
  {
    hide Lines;
    assert (a + [p])[..|a|] == a;
  }

  lemma PieceLinesStep(a: seq<Piece>, b: seq<Piece>, p: Piece)
    requires PieceLines(a + b) == PieceLines(a) + PieceLines(b)
    ensures PieceLines(a + (b + [p])) == PieceLines(a) + PieceLines(b + [p])
  {
    hide Lines, PieceLines;
    PieceLinesSnoc(a + b, p);
    PieceLinesSnoc(b, p);
    assert a + (b + [p]) == a + b + [p];
  }

  lemma {:induction false} PieceLinesConcat(a: seq<Piece>, b: seq<Piece>)
    ensures PieceLines(a + b) == PieceLines(a) + PieceLines(b)
  {
    hide Lines;
    if b == [] {
      assert a + b == a;
    } else {
      PieceLinesConcat(a, b[..|b| - 1]);
      PieceLinesStep(a, b[..|b| - 1], b[|b| - 1]);
      assert b == b[..|b| - 1] + [b[|b| - 1]];
    }
  }

  lemma PieceLinesOne(p: Piece)
    ensures PieceLines([p]) == Lines(p.text)
  {
    hide Lines;
    assert [p][..0] == [];
  }

  lemma {:induction false} RenderedLines(group: seq<Piece>)
    requires LineSeps(group)
    ensures Lines(Render(group)) == PieceLines(group)
  {
    hide Lines;
    if group == [] {
      NoLines();
    } else {
      var init, p := group[..|group| - 1], group[|group| - 1];
      assert group == init + [p];
      if init == [] {
        PieceLinesOne(p);
      } else {
        RenderedLines(init);
        RenderOneMore(init, p);
        LinesAcross(Render(init), p.sep, p.text);
      }
    }
  }

  lemma NoLines()
    ensures Lines("") == []
  {
    assert [""][..0] == [];
  }

  lemma {:induction false} MessageLines(groups: seq<seq<Piece>>)
    requires LineSeps(Flatten(groups))
    ensures LinesOf(RenderAll(groups)) == PieceLines(Flatten(groups))
  {
    hide Lines, Render;
    if groups != [] {
      var init, last := groups[..|groups| - 1], groups[|groups| - 1];
      var front := Flatten(init);
      assert Flatten(groups) == front + last;
      forall i | 0 <= i < |front| ensures front[i].sep == "\n" || front[i].sep == "\n\n" {
        assert Flatten(groups)[i] == front[i];
      }
      forall i | 0 <= i < |last| ensures last[i].sep == "\n" || last[i].sep == "\n\n" {
        assert Flatten(groups)[|front| + i] == last[i];
      }
      MessageLines(init);
      RenderedLines(last);
      PieceLinesConcat(front, last);
    }
  }

  // ---------------------------------------------------------------- pieces of blocks

  /** Pieces that a message can hold, set off by line ends. */
  ghost predicate Fine(pieces: seq<Piece>, limit: nat) {
    AllFit(pieces, limit) && LineSeps(pieces)
  }

  lemma FineConcat(a: seq<Piece>, b: seq<Piece>, limit: nat)
    requires Fine(a, limit) && Fine(b, limit)
    ensures Fine(a + b, limit)
  {
  }

  lemma OneFine(p: Piece, limit: nat)
    requires 0 < |p.text| <= limit && (p.sep == "\n" || p.sep == "\n\n")
    ensures Fine([p], limit)
  {
  }

  lemma {:induction false} LinePiecesFine(lines: seq<string>, limit: nat)
    requires forall i :: 0 <= i < |lines| ==> 0 < |lines[i]| <= limit && '\n' !in lines[i]
    ensures Fine(LinePieces(lines), limit) && PieceLines(LinePieces(lines)) == lines
  {
    hide Lines, Fine, PieceLines;
    if lines == [] {
      NothingFine(limit);
    } else {
      var n := |lines| - 1;
      LinePiecesFine(lines[..n], limit);
      var p := Piece(lines[n], "\n");
      OneLine(lines[n]);
      PieceLinesOne(p);
      PieceLinesConcat(LinePieces(lines[..n]), [p]);
      OneFine(p, limit);
      FineConcat(LinePieces(lines[..n]), [p], limit);
      assert lines == lines[..n] + [lines[n]];
    }
  }

  lemma {:induction false} TextNotEmpty(block: seq<string>)
    requires block != [] && forall i :: 0 <= i < |block| ==> block[i] != ""
    ensures JoinLines(block) != ""
  {
  }

  lemma BlockPiecesFine(block: seq<string>, limit: nat)
    requires Clean(block, limit)
    ensures Fine(BlockPieces(block, limit), limit) && PieceLines(BlockPieces(block, limit)) == block
  {
    hide Lines, JoinLines, LinePieces, PieceLines, Fine;
    if |JoinLines(block)| <= limit {
      TextNotEmpty(block);
      BlockLines(block, limit);
      OneFine(Piece(JoinLines(block), "\n\n"), limit);
      PieceLinesOne(Piece(JoinLines(block), "\n\n"));
    } else {
      var first := Piece(block[0], "\n\n");
      LinePiecesFine(block[1..], limit);
      OneLine(block[0]);
      PieceLinesOne(first);
      OneFine(first, limit);
      FineConcat([first], LinePieces(block[1..]), limit);
      PieceLinesConcat([first], LinePieces(block[1..]));
      assert block == [block[0]] + block[1..];
    }
  }

  lemma {:induction false} PiecesFine(blocks: seq<seq<string>>, limit: nat)
    requires AllClean(blocks, limit)
    ensures Fine(Pieces(blocks, limit), limit) && PieceLines(Pieces(blocks, limit)) == AllLines(blocks)
  {
    hide Clean, Fine, BlockPieces, PieceLines;
    if blocks == [] {
      NothingFine(limit);
    } else {
      var n := |blocks| - 1;
      PiecesFine(blocks[..n], limit);
      BlockPiecesFine(blocks[n], limit);
      FineConcat(Pieces(blocks[..n], limit), BlockPieces(blocks[n], limit), limit);
      PieceLinesConcat(Pieces(blocks[..n], limit), BlockPieces(blocks[n], limit));
    }
  }

  lemma NothingFine(limit: nat)
    ensures Fine([], limit) && PieceLines([]) == []
  {
  }

  // ---------------------------------------------------------------- the laws

  /** For any blocks of showing lines that each fit a message: the messages, taken apart at the line ends, give
      all lines of all blocks, in order and once each. */
  lemma NoLineIsLost(blocks: seq<seq<string>>, limit: nat)
    requires AllClean(blocks, limit)
    ensures LinesOf(Packed(Pieces(blocks, limit), limit)) == AllLines(blocks)
  {
    hide Packed, Greedy, Flatten, RenderAll, LinesOf, PieceLines, AllLines, Pieces, AllClean;
    var pieces := Pieces(blocks, limit);
    PiecesFine(blocks, limit);
    PackingIsLossless(pieces, limit);
    MessageLines(Greedy(pieces, limit));
  }

  // ---------------------------------------------------------------- what stands between

  function JoinAll(texts: seq<string>, sep: string): string {
    if texts == [] then ""
    else if |texts| == 1 then texts[0]
    else JoinAll(texts[..|texts| - 1], sep) + sep + texts[|texts| - 1]
  }

  function Texts(pieces: seq<Piece>): seq<string> {
    if pieces == [] then [] else Texts(pieces[..|pieces| - 1]) + [pieces[|pieces| - 1].text]
  }

  lemma JoinSnoc(texts: seq<string>, last: string, sep: string)
    requires texts != []
    ensures JoinAll(texts + [last], sep) == JoinAll(texts, sep) + sep + last
  {
    assert (texts + [last])[..|texts|] == texts;
  }

  lemma {:induction false} JoinConcat(a: seq<string>, b: seq<string>, sep: string)
    requires a != [] && b != []
    ensures JoinAll(a + b, sep) == JoinAll(a, sep) + sep + JoinAll(b, sep)
  {
    var n := |b| - 1;
    assert a + b == a + b[..n] + [b[n]];
    JoinSnoc(a + b[..n], b[n], sep);
    if n == 0 {
      assert a + b[..n] == a;
    } else {
      JoinConcat(a, b[..n], sep);
      JoinSnoc(b[..n], b[n], sep);
      assert b == b[..n] + [b[n]];
      Regroup(JoinAll(a, sep) + sep, JoinAll(b[..n], sep), sep, b[n]);
    }
  }

  lemma Regroup(a: string, b: string, c: string, d: string)
    ensures a + b + c + d == a + (b + c + d)
  {
  }

  /** All pieces but the first stand after `sep`. */
  ghost predicate SepIs(pieces: seq<Piece>, sep: string) {
    forall i :: 0 < i < |pieces| ==> pieces[i].sep == sep
  }

  lemma {:induction false} RenderJoins(group: seq<Piece>, sep: string)
    requires SepIs(group, sep)
    ensures Render(group) == JoinAll(Texts(group), sep) && |Texts(group)| == |group|
  {
    if group != [] {
      var n := |group| - 1;
      RenderJoins(group[..n], sep);
      assert group == group[..n] + [group[n]];
      if n > 0 {
        RenderOneMore(group[..n], group[n]);
        JoinSnoc(Texts(group[..n]), group[n].text, sep);
      } else {
        assert Texts(group) == [group[0].text];
      }
    }
  }

  lemma {:induction false} TextsConcat(a: seq<Piece>, b: seq<Piece>)
    ensures Texts(a + b) == Texts(a) + Texts(b)
  {
    if b == [] {
      assert a + b == a;
    } else {
      TextsConcat(a, b[..|b| - 1]);
      assert (a + b)[..|a + b| - 1] == a + b[..|b| - 1];
    }
  }

  ghost predicate NoneHollow(groups: seq<seq<Piece>>) {
    forall i :: 0 <= i < |groups| ==> groups[i] != []
  }

  lemma {:induction false} MessagesJoin(groups: seq<seq<Piece>>, sep: string)
    requires NoneHollow(groups) && SepIs(Flatten(groups), sep)
    ensures JoinAll(RenderAll(groups), sep) == JoinAll(Texts(Flatten(groups)), sep)
    ensures |RenderAll(groups)| == |groups|
  {
    hide Render, JoinAll, Texts;
    if groups == [] {
      NoTexts();
    } else {
      var init, last := groups[..|groups| - 1], groups[|groups| - 1];
      var front := Flatten(init);
      assert Flatten(groups) == front + last;
      PartsSep(front, last, sep);
      MessagesJoin(init, sep);
      RenderJoins(last, sep);
      TextsConcat(front, last);
      if init == [] {
        assert front == [] && front + last == last;
        assert RenderAll(groups) == [Render(last)];
        JoinOne(Render(last), sep);
      } else {
        FirstIsThere(init);
        RenderJoins(front, sep);
        JoinSnoc(RenderAll(init), Render(last), sep);
        JoinConcat(Texts(front), Texts(last), sep);
      }
    }
  }

  lemma NoTexts()
    ensures Texts([]) == []
  {
  }

  lemma JoinOne(text: string, sep: string)
    ensures JoinAll([text], sep) == text
  {
  }

  lemma PartsSep(a: seq<Piece>, b: seq<Piece>, sep: string)
    requires SepIs(a + b, sep)
    ensures SepIs(a, sep) && SepIs(b, sep)
  {
    forall i | 0 < i < |a| ensures a[i].sep == sep {
      assert (a + b)[i] == a[i];
    }
    forall i | 0 < i < |b| ensures b[i].sep == sep {
      assert (a + b)[|a| + i] == b[i];
    }
  }

  lemma {:induction false} FirstIsThere(groups: seq<seq<Piece>>)
    requires NoneHollow(groups) && groups != []
    ensures Flatten(groups) != []
  {
    assert groups[|groups| - 1] != [];
  }

  lemma PackedJoins(pieces: seq<Piece>, limit: nat, sep: string)
    requires AllFit(pieces, limit) && SepIs(pieces, sep)
    ensures JoinAll(Packed(pieces, limit), sep) == JoinAll(Texts(pieces), sep)
  {
    hide Packed, Greedy, JoinAll, Texts, RenderAll, AllFit, SepIs;
    PackingIsLossless(pieces, limit);
    GreedyNotHollow(pieces, limit);
    MessagesJoin(Greedy(pieces, limit), sep);
  }

  lemma {:induction false} GreedyNotHollow(pieces: seq<Piece>, limit: nat)
    ensures NoneHollow(Greedy(pieces, limit))
  {
    if pieces != [] {
      GreedyNotHollow(pieces[..|pieces| - 1], limit);
    }
  }

  function BlockTexts(blocks: seq<seq<string>>): seq<string> {
    if blocks == [] then [] else BlockTexts(blocks[..|blocks| - 1]) + [JoinLines(blocks[|blocks| - 1])]
  }

  ghost predicate BlocksFit(blocks: seq<seq<string>>, limit: nat) {
    forall i :: 0 <= i < |blocks| ==> 0 < |JoinLines(blocks[i])| <= limit
  }

  /** Pieces that fit, all set off by a blank line. */
  ghost predicate Paragraphs(pieces: seq<Piece>, limit: nat) {
    AllFit(pieces, limit) && forall i :: 0 <= i < |pieces| ==> pieces[i].sep == "\n\n"
  }

  lemma ParagraphMore(pieces: seq<Piece>, p: Piece, limit: nat)
    requires Paragraphs(pieces, limit) && 0 < |p.text| <= limit && p.sep == "\n\n"
    ensures Paragraphs(pieces + [p], limit)
  {
  }

  lemma NoParagraphs(limit: nat)
    ensures Paragraphs([], limit)
  {
  }

  lemma {:induction false} WholeBlocks(blocks: seq<seq<string>>, limit: nat)
    requires BlocksFit(blocks, limit)
    ensures Paragraphs(Pieces(blocks, limit), limit) && Texts(Pieces(blocks, limit)) == BlockTexts(blocks)
  {
    hide JoinLines, Paragraphs, Texts;
    if blocks == [] {
      NoParagraphs(limit);
      NoTexts();
    } else {
      var n := |blocks| - 1;
      WholeBlocks(blocks[..n], limit);
      var before, p := Pieces(blocks[..n], limit), Piece(JoinLines(blocks[n]), "\n\n");
      assert BlockPieces(blocks[n], limit) == [p];
      ParagraphMore(before, p, limit);
      TextsConcat(before, [p]);
      FirstText(p);
    }
  }

  /** Blocks that each fit are set off by a blank line, within a message and from one message to the next. */
  lemma BlankLineBetweenBlocks(blocks: seq<seq<string>>, limit: nat)
    requires BlocksFit(blocks, limit)
    ensures JoinAll(Packed(Pieces(blocks, limit), limit), "\n\n") == JoinAll(BlockTexts(blocks), "\n\n")
  {
    hide JoinAll, Packed, Pieces, Texts, BlockTexts, AllFit;
    WholeBlocks(blocks, limit);
    PackedJoins(Pieces(blocks, limit), limit, "\n\n");
  }

  lemma {:induction false} LinePiecesSay(lines: seq<string>)
    ensures Texts(LinePieces(lines)) == lines && |LinePieces(lines)| == |lines|
    ensures forall i :: 0 <= i < |lines| ==> LinePieces(lines)[i].sep == "\n"
  {
    if lines != [] {
      var n := |lines| - 1;
      LinePiecesSay(lines[..n]);
      var before := LinePieces(lines[..n]);
      assert (before + [Piece(lines[n], "\n")])[..|before|] == before;
      assert lines == lines[..n] + [lines[n]];
    }
  }

  lemma {:induction false} JoinLinesIsJoin(block: seq<string>)
    ensures JoinLines(block) == JoinAll(block, "\n")
  {
    if |block| > 1 {
      JoinLinesIsJoin(block[..|block| - 1]);
    }
  }

  /** A block too large for one message is cut only between its lines. */
  lemma LargeBlockIsWhole(block: seq<string>, limit: nat)
    requires Clean(block, limit) && |JoinLines(block)| > limit
    ensures JoinAll(Packed(Pieces([block], limit), limit), "\n") == JoinLines(block)
  {
    hide JoinAll, Packed, Texts, JoinLines, LinePieces, Pieces, AllFit, LineSeps, BlockPieces;
    var first, rest := Piece(block[0], "\n\n"), LinePieces(block[1..]);
    LargePieces(block, limit);
    LinePiecesSay(block[1..]);
    BlockPiecesFine(block, limit);
    PackedJoins([first] + rest, limit, "\n");
    TextsConcat([first], rest);
    FirstText(first);
    assert block == [block[0]] + block[1..];
    JoinLinesIsJoin(block);
  }

  lemma LargePieces(block: seq<string>, limit: nat)
    requires block != [] && |JoinLines(block)| > limit
    ensures Pieces([block], limit) == BlockPieces(block, limit) == [Piece(block[0], "\n\n")] + LinePieces(block[1..])
  {
    assert [block][..0] == [];
  }

  lemma FirstText(p: Piece)
    ensures Texts([p]) == [p.text]
  {
    assert [p][..0] == [];
  }
}
