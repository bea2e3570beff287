/** Greedy packing of a digest into messages, `_pack` (app/notify_format.py). */
module Packing {

  /** A text and what separates it from the text before it in the same message. */
  datatype Piece = Piece(text: string, sep: string)

  function JoinLines(block: seq<string>): string {
    if block == [] then ""
    else if |block| == 1 then block[0]
    else JoinLines(block[..|block| - 1]) + "\n" + block[|block| - 1]
  }

  function LinePieces(lines: seq<string>): seq<Piece> {
    if lines == [] then [] else LinePieces(lines[..|lines| - 1]) + [Piece(lines[|lines| - 1], "\n")]
  }

  /** A block that fits is one piece; a larger one is split into its lines. Blocks are set off by a blank line. */
  function BlockPieces(block: seq<string>, limit: nat): seq<Piece> {
    if |JoinLines(block)| <= limit || block == [] then [Piece(JoinLines(block), "\n\n")]
    else [Piece(block[0], "\n\n")] + LinePieces(block[1..])
  }

  function Pieces(blocks: seq<seq<string>>, limit: nat): seq<Piece> {
    if blocks == [] then [] else Pieces(blocks[..|blocks| - 1], limit) + BlockPieces(blocks[|blocks| - 1], limit)
  }

  // ---------------------------------------------------------------- the algorithm

  /** Finished messages and the one being filled. */
  datatype State = State(messages: seq<string>, current: string)

  function Add(st: State, p: Piece, limit: nat): State {
    var candidate := if st.current != "" then st.current + p.sep + p.text else p.text;
    if |candidate| <= limit then st.(current := candidate)
    else
      State(if st.current != "" then st.messages + [st.current] else st.messages,
            if |p.text| <= limit then p.text else p.text[..limit])
  }

  function AddAll(pieces: seq<Piece>, limit: nat): State {
    if pieces == [] then State([], "")
    else Add(AddAll(pieces[..|pieces| - 1], limit), pieces[|pieces| - 1], limit)
  }

  function Packed(pieces: seq<Piece>, limit: nat): seq<string> {
    var st := AddAll(pieces, limit);
    if st.current != "" then st.messages + [st.current] else st.messages
  }

  method Pack(blocks: seq<seq<string>>, limit: nat) returns (result: seq<string>)
    ensures result == Packed(Pieces(blocks, limit), limit)
  {
    hide Add, JoinLines, AddAll, LinePieces;
    var st := State([], "");
    assert AddAll([], limit) == st by {
      NothingAdded(limit);
    }
    for n := 0 to |blocks|
      invariant st == AddAll(Pieces(blocks[..n], limit), limit)
    {
      ghost var done := Pieces(blocks[..n], limit);
      assert blocks[..n + 1][..n] == blocks[..n];
      var text := JoinLines(blocks[n]);
      if |text| <= limit || blocks[n] == [] {
        AddOne(done, Piece(text, "\n\n"), limit);
        st := Add(st, Piece(text, "\n\n"), limit);
      } else {
        st := AddLines(st, blocks[n], limit, done);
      }
    }
    assert blocks[..|blocks|] == blocks;
    result := if st.current != "" then st.messages + [st.current] else st.messages;
  }

  /** A block too large for one message, line by line. */
  method AddLines(before: State, block: seq<string>, limit: nat, ghost done: seq<Piece>) returns (st: State)
    requires block != [] && before == AddAll(done, limit)
    ensures st == AddAll(done + ([Piece(block[0], "\n\n")] + LinePieces(block[1..])), limit)
  {
    hide Add, AddAll, JoinLines;
    ghost var first := [Piece(block[0], "\n\n")];
    AddOne(done, first[0], limit);
    st := Add(before, Piece(block[0], "\n\n"), limit);
    assert done + (first + LinePieces([])) == done + first;
    for i := 1 to |block|
      invariant st == AddAll(done + (first + LinePieces(block[1..i])), limit)
    {
      ghost var added := done + (first + LinePieces(block[1..i]));
      assert block[1..i + 1][..i - 1] == block[1..i];
      assert added + [Piece(block[i], "\n")] == done + (first + LinePieces(block[1..i + 1]));
      AddOne(added, Piece(block[i], "\n"), limit);
      st := Add(st, Piece(block[i], "\n"), limit);
    }
    assert block[1..|block|] == block[1..];
  }

  lemma NothingAdded(limit: nat)
    ensures AddAll([], limit) == State([], "")
  {
  }

  lemma AddOne(pieces: seq<Piece>, p: Piece, limit: nat)
    ensures AddAll(pieces + [p], limit) == Add(AddAll(pieces, limit), p, limit)
  {
    assert (pieces + [p])[..|pieces|] == pieces;
  }

  // ---------------------------------------------------------------- bounded

  lemma {:induction false} StateBounded(pieces: seq<Piece>, limit: nat)
    ensures var st := AddAll(pieces, limit);
      |st.current| <= limit && forall i :: 0 <= i < |st.messages| ==> 0 < |st.messages[i]| <= limit
  {
    if pieces != [] {
      StateBounded(pieces[..|pieces| - 1], limit);
    }
  }

  /** Whatever the blocks, every message is non-empty and within the limit. */
  lemma MessagesBounded(blocks: seq<seq<string>>, limit: nat, i: nat)
    requires i < |Packed(Pieces(blocks, limit), limit)|
    ensures 0 < |Packed(Pieces(blocks, limit), limit)[i]| <= limit
  {
    hide Pieces, AddAll;
    StateBounded(Pieces(blocks, limit), limit);
  }

  // ---------------------------------------------------------------- lossless

  /** A message made of these pieces: each separator stands before its piece, except at the start. */
  function Render(group: seq<Piece>): string {
    if group == [] then ""
    else if |group| == 1 then group[0].text
    else Render(group[..|group| - 1]) + group[|group| - 1].sep + group[|group| - 1].text
  }

  function RenderAll(groups: seq<seq<Piece>>): seq<string> {
    if groups == [] then [] else RenderAll(groups[..|groups| - 1]) + [Render(groups[|groups| - 1])]
  }

  function Flatten(groups: seq<seq<Piece>>): seq<Piece> {
    if groups == [] then [] else Flatten(groups[..|groups| - 1]) + groups[|groups| - 1]
  }

  /** Groups as the greedy rule forms them. */
  function Greedy(pieces: seq<Piece>, limit: nat): seq<seq<Piece>> {
    if pieces == [] then []
    else
      Placed(Greedy(pieces[..|pieces| - 1], limit), pieces[|pieces| - 1], limit)
  }

  /** Into the last group if it still fits there, else into a group of its own. */
  function Placed(groups: seq<seq<Piece>>, p: Piece, limit: nat): seq<seq<Piece>> {
    if groups == [] then [[p]]
    else
      var filled := groups[|groups| - 1] + [p];
      if |Render(filled)| <= limit then groups[..|groups| - 1] + [filled] else groups + [[p]]
  }

  ghost predicate AllFit(pieces: seq<Piece>, limit: nat) {
    forall i :: 0 <= i < |pieces| ==> 0 < |pieces[i].text| <= limit
  }

  lemma {:induction false} FlattenLast(groups: seq<seq<Piece>>, last: seq<Piece>)
    ensures Flatten(groups + [last]) == Flatten(groups) + last
    ensures RenderAll(groups + [last]) == RenderAll(groups) + [Render(last)]
  {
    assert (groups + [last])[..|groups|] == groups;
  }

  lemma RenderOneMore(group: seq<Piece>, p: Piece)
    requires group != []
    ensures Render(group + [p]) == Render(group) + p.sep + p.text
  {
    assert (group + [p])[..|group|] == group;
  }

  /** The state that stands for non-empty greedy groups: all but the last are finished messages. */
  ghost predicate Stands(groups: seq<seq<Piece>>, st: State) {
    if groups == [] then st == State([], "")
    else
      && st == State(RenderAll(groups[..|groups| - 1]), Render(groups[|groups| - 1]))
      && st.current != "" && groups[|groups| - 1] != []
  }

  lemma SinglePiece(p: Piece)
    ensures Flatten([[p]]) == [p] && Render([p]) == p.text
  {
    var one := [[p]];
    assert one[..0] == [];
    assert Flatten(one) == Flatten([]) + one[0];
  }

  lemma PlacedStands(groups: seq<seq<Piece>>, st: State, p: Piece, limit: nat)
    requires Stands(groups, st) && 0 < |p.text| <= limit
    ensures Stands(Placed(groups, p, limit), Add(st, p, limit))
    ensures Placed(groups, p, limit) != []
  {
    if groups == [] {
      assert [[p]][..0] == [];
    } else {
      var front, last := groups[..|groups| - 1], groups[|groups| - 1];
      RenderOneMore(last, p);
      assert groups == front + [last];
      FlattenLast(front, last);
      assert (groups + [[p]])[..|groups|] == groups;
      assert (front + [last + [p]])[..|front|] == front;
    }
  }

  lemma PlacedFlattens(groups: seq<seq<Piece>>, p: Piece, limit: nat)
    ensures Flatten(Placed(groups, p, limit)) == Flatten(groups) + [p]
  {
    hide Render;
    if groups == [] {
      SinglePiece(p);
    } else {
      var front, last := groups[..|groups| - 1], groups[|groups| - 1];
      assert groups == front + [last];
      FlattenLast(front, last);
      FlattenLast(front, last + [p]);
      FlattenLast(groups, [p]);
      assert Flatten(front) + last + [p] == Flatten(front) + (last + [p]);
    }
  }

  lemma {:induction false} GreedyIsState(pieces: seq<Piece>, limit: nat)
    requires AllFit(pieces, limit)
    ensures Flatten(Greedy(pieces, limit)) == pieces && Stands(Greedy(pieces, limit), AddAll(pieces, limit))
    ensures Greedy(pieces, limit) == [] ==> pieces == []
  {
    hide Placed, Add, Stands;
    if pieces == [] {
      EmptyStands();
    } else {
      var init, p := pieces[..|pieces| - 1], pieces[|pieces| - 1];
      GreedyIsState(init, limit);
      PlacedStands(Greedy(init, limit), AddAll(init, limit), p, limit);
      PlacedFlattens(Greedy(init, limit), p, limit);
      assert pieces == init + [p];
    }
  }

  lemma EmptyStands()
    ensures Stands([], State([], ""))
  {
  }

  /** Pieces that fit are all there, in order and once each, joined by their own separators: the messages
      are the greedy groups, rendered. */
  lemma PackingIsLossless(pieces: seq<Piece>, limit: nat)
    requires AllFit(pieces, limit)
    ensures Flatten(Greedy(pieces, limit)) == pieces
    ensures Packed(pieces, limit) == RenderAll(Greedy(pieces, limit))
  {
    hide Greedy, AddAll;
    GreedyIsState(pieces, limit);
    var groups := Greedy(pieces, limit);
    if groups != [] {
      assert groups == groups[..|groups| - 1] + [groups[|groups| - 1]];
      FlattenLast(groups[..|groups| - 1], groups[|groups| - 1]);
    }
  }

  ghost predicate NoneEmpty(pieces: seq<Piece>) {
    forall i :: 0 <= i < |pieces| ==> pieces[i].text != ""
  }

  /** The messages are some grouping of the pieces, all of them, in order and once each. */
  ghost predicate Lossless(pieces: seq<Piece>, limit: nat) {
    exists groups :: Flatten(groups) == pieces && RenderAll(groups) == Packed(pieces, limit)
  }

  lemma {:induction false} RenderedAtLeast(group: seq<Piece>, p: Piece)
    requires p in group
    ensures |p.text| <= |Render(group)|
  {
    var init, last := group[..|group| - 1], group[|group| - 1];
    if init != [] {
      RenderOneMore(init, last);
      assert group == init + [last];
      if p != last {
        RenderedAtLeast(init, p);
      }
    }
  }

  /** Every piece of a grouping is in one of its messages. */
  lemma {:induction false} PieceIsRendered(groups: seq<seq<Piece>>, p: Piece)
    requires p in Flatten(groups)
    ensures exists m :: m in RenderAll(groups) && |p.text| <= |m|
  {
    hide Render;
    var init, last := groups[..|groups| - 1], groups[|groups| - 1];
    if p in last {
      RenderedAtLeast(last, p);
      assert Render(last) in RenderAll(groups);
    } else {
      PieceIsRendered(init, p);
      var m :| m in RenderAll(init) && |p.text| <= |m|;
      assert m in RenderAll(groups);
    }
  }

  lemma PackedFits(pieces: seq<Piece>, limit: nat, m: string)
    requires m in Packed(pieces, limit)
    ensures |m| <= limit
  {
    hide AddAll;
    StateBounded(pieces, limit);
  }

  /** Packing pieces with a text is lossless exactly when each of them fits into a message of its own. */
  lemma LosslessIffAllFit(pieces: seq<Piece>, limit: nat)
    requires NoneEmpty(pieces)
    ensures Lossless(pieces, limit) <==> AllFit(pieces, limit)
  {
    hide Packed, Greedy, Render, RenderAll, Flatten;
    if AllFit(pieces, limit) {
      PackingIsLossless(pieces, limit);
    }
    if Lossless(pieces, limit) {
      var groups :| Flatten(groups) == pieces && RenderAll(groups) == Packed(pieces, limit);
      forall i | 0 <= i < |pieces| ensures |pieces[i].text| <= limit {
        PieceIsRendered(groups, pieces[i]);
        var m :| m in RenderAll(groups) && |pieces[i].text| <= |m|;
        PackedFits(pieces, limit, m);
      }
    }
  }

  /** The least case of a loss: one piece that is too long is cut. */
  lemma OversizedPieceIsCut(p: Piece, limit: nat)
    requires |p.text| > limit > 0
    ensures Packed([p], limit) == [p.text[..limit]]
    ensures !Lossless([p], limit)
  {
    AddOne([], p, limit);
    assert [] + [p] == [p];
    assert [p][0] == p;
    LosslessIffAllFit([p], limit);
  }

  // ---------------------------------------------------------------- optimal

  /** Some way to put the pieces, in order, into messages within the limit. */
  ghost predicate IsPacking(groups: seq<seq<Piece>>, pieces: seq<Piece>, limit: nat) {
    Flatten(groups) == pieces && forall i :: 0 <= i < |groups| ==> groups[i] != [] && |Render(groups[i])| <= limit
  }

  lemma {:induction false} PrefixRendersShorter(group: seq<Piece>, p: Piece)
    ensures |Render(group)| <= |Render(group + [p])|
  {
    if group != [] {
      RenderOneMore(group, p);
    }
  }

  lemma {:induction false} SuffixRendersShorter(head: seq<Piece>, tail: seq<Piece>)
    ensures |Render(tail)| <= |Render(head + tail)|
    decreases |tail|
  {
    if tail != [] {
      var init, p := tail[..|tail| - 1], tail[|tail| - 1];
      SuffixRendersShorter(head, init);
      assert head + tail == (head + init) + [p] && tail == init + [p];
      if head + init != [] {
        RenderOneMore(head + init, p);
        if init != [] {
          RenderOneMore(init, p);
        } else {
          assert tail == [p];
        }
      }
    }
  }

  /** Greedy is never behind: it has fewer groups, or as many and a last group that is no longer. */
  ghost predicate Ahead(greedy: seq<seq<Piece>>, other: seq<seq<Piece>>) {
    || |greedy| < |other|
    || (|greedy| == |other| && (greedy != [] ==> |greedy[|greedy| - 1]| <= |other[|other| - 1]|))
  }

  /** Two groups that both end the same sequence: the shorter is a suffix of the longer. */
  lemma ShorterIsSuffix(a: seq<Piece>, short: seq<Piece>, b: seq<Piece>, long: seq<Piece>)
    requires a + short == b + long && |short| <= |long|
    ensures long == long[..|long| - |short|] + short
  {
    var whole := a + short;
    assert whole[|whole| - |short|..] == short;
    assert whole[|whole| - |long|..] == long;
  }

  lemma GreedyAppends(groups: seq<seq<Piece>>, others: seq<seq<Piece>>, h: seq<Piece>, p: Piece, limit: nat)
    requires groups != [] && Flatten(groups) == Flatten(others) + h
    requires |groups[|groups| - 1]| <= |h| && |Render(h + [p])| <= limit
    ensures |Render(groups[|groups| - 1] + [p])| <= limit
  {
    var front, last := groups[..|groups| - 1], groups[|groups| - 1];
    assert groups == front + [last];
    FlattenLast(front, last);
    ShorterIsSuffix(Flatten(front), last, Flatten(others), h);
    var head := h[..|h| - |last|];
    assert h + [p] == head + (last + [p]);
    SuffixRendersShorter(head, last + [p]);
  }

  lemma LastOfConcat(a: seq<Piece>, h: seq<Piece>, init: seq<Piece>, p: Piece)
    requires h != [] && a + h == init + [p]
    ensures h == h[..|h| - 1] + [p] && a + h[..|h| - 1] == init
  {
    var whole := a + h;
    assert h[|h| - 1] == whole[|init|] == p;
    assert whole[..|init|] == a + h[..|h| - 1];
    assert (init + [p])[..|init|] == init;
  }

  /** Without its last piece a packing is one of the rest. */
  lemma PackingWithoutLast(front: seq<seq<Piece>>, rest: seq<Piece>, p: Piece, limit: nat)
    requires IsPacking(front + [rest + [p]], Flatten(front) + (rest + [p]), limit)
    ensures IsPacking(if rest == [] then front else front + [rest], Flatten(front) + rest, limit)
  {
    hide Render, Flatten;
    var others := front + [rest + [p]];
    forall i | 0 <= i < |front| ensures front[i] != [] && |Render(front[i])| <= limit {
      assert front[i] == others[i];
    }
    assert others[|front|] == rest + [p];
    PrefixRendersShorter(rest, p);
    FlattenLast(front, rest);
    assert rest == [] ==> Flatten(front) + rest == Flatten(front);
  }

  /** Taking the last piece out of a packing leaves a packing of the rest. */
  lemma LastPieceOut(others: seq<seq<Piece>>, init: seq<Piece>, p: Piece, limit: nat)
    returns (front: seq<seq<Piece>>, rest: seq<Piece>)
    requires IsPacking(others, init + [p], limit)
    ensures others == front + [rest + [p]] && Flatten(front) + rest == init
    ensures IsPacking(if rest == [] then front else front + [rest], init, limit)
  {
    hide Render;
    assert others != [];
    front := others[..|others| - 1];
    var h := others[|others| - 1];
    rest := h[..|h| - 1];
    assert others == front + [h];
    FlattenLast(front, h);
    LastOfConcat(Flatten(front), h, init, p);
    PackingWithoutLast(front, rest, p, limit);
  }

  lemma {:induction false} GreedyStaysAhead(pieces: seq<Piece>, limit: nat, others: seq<seq<Piece>>)
    requires AllFit(pieces, limit) && IsPacking(others, pieces, limit)
    ensures Ahead(Greedy(pieces, limit), others)
    decreases |pieces|
  {
    hide Render, IsPacking, Flatten;
    if pieces != [] {
      var init, p := pieces[..|pieces| - 1], pieces[|pieces| - 1];
      assert pieces == init + [p];
      var front, rest := LastPieceOut(others, init, p, limit);
      GreedyIsState(init, limit);
      var groups := Greedy(init, limit);
      if rest == [] {
        GreedyStaysAhead(init, limit, front);
      } else {
        GreedyStaysAhead(init, limit, front + [rest]);
        if |groups| == |others| {
          PackingFits(others, pieces, limit);
          GreedyAppends(groups, front, rest, p, limit);
        }
      }
    }
  }

  lemma PackingFits(groups: seq<seq<Piece>>, pieces: seq<Piece>, limit: nat)
    requires IsPacking(groups, pieces, limit) && groups != []
    ensures |Render(groups[|groups| - 1])| <= limit
  {
  }

  lemma {:induction false} RenderAllLength(groups: seq<seq<Piece>>)
    ensures |RenderAll(groups)| == |groups|
  {
    if groups != [] {
      RenderAllLength(groups[..|groups| - 1]);
    }
  }

  /** No packing of the same pieces in the same order uses fewer messages. */
  lemma PackingIsOptimal(pieces: seq<Piece>, limit: nat, others: seq<seq<Piece>>)
    requires AllFit(pieces, limit) && IsPacking(others, pieces, limit)
    ensures |Packed(pieces, limit)| <= |others|
  {
    PackingIsLossless(pieces, limit);
    RenderAllLength(Greedy(pieces, limit));
    GreedyStaysAhead(pieces, limit, others);
  }
}
