/** `extract_canvas_shortcodes`: taking the embed shortcodes out of a text. The matches of
    the two regular expressions are inputs. */
module Shortcodes {
  import opened Options
  import opened Sorting
  import Fences

  /** A match of one of the expressions and the preview its attributes make, if any. */
  datatype Match<P> = Match(start: nat, end: nat, preview: Option<P>)

  /** What `finditer` yields: matches in the text, not empty, in order and disjoint. */
  ghost predicate Found<P>(text: string, ms: seq<Match<P>>) {
    && (forall i :: 0 <= i < |ms| ==> ms[i].start < ms[i].end <= |text|)
    && (forall i, j :: 0 <= i < j < |ms| ==> ms[i].end <= ms[j].start)
  }

  predicate InFence(spans: seq<(nat, nat)>, at: nat) {
    exists i :: 0 <= i < |spans| && spans[i].0 <= at < spans[i].1
  }

  /** The place is before or after every span. */
  predicate Outside(spans: seq<(nat, nat)>, at: nat) {
    forall i :: 0 <= i < |spans| ==> at < spans[i].0 || spans[i].1 <= at
  }

  function Unfenced<P>(ms: seq<Match<P>>, spans: seq<(nat, nat)>): seq<Match<P>> {
    if ms == [] then []
    else (if InFence(spans, ms[0].start) then [] else [ms[0]]) + Unfenced(ms[1..], spans)
  }

  lemma {:induction false} UnfencedMember<P>(ms: seq<Match<P>>, spans: seq<(nat, nat)>, m: Match<P>)
    ensures m in Unfenced(ms, spans) <==> m in ms && !InFence(spans, m.start)
  {
    if ms != [] {
      UnfencedMember(ms[1..], spans, m);
      assert ms == [ms[0]] + ms[1..];
    }
  }

  /** A stretch of the original text, kept or removed. */
  datatype Piece = Piece(start: nat, end: nat, kept: bool)

  /** The pieces cover the text up to `to` without gap or overlap. */
  ghost predicate Tiles(pieces: seq<Piece>, to: nat) {
    && (pieces == [] ==> to == 0)
    && (pieces != [] ==> pieces[0].start == 0 && pieces[|pieces| - 1].end == to)
    && (forall i :: 0 <= i < |pieces| ==> pieces[i].start <= pieces[i].end <= to)
    && (forall i, j :: 0 <= i < j < |pieces| ==> pieces[i].end <= pieces[j].start)
    && (forall i, j :: 0 <= i < j < |pieces| && j == i + 1 ==> pieces[i].end == pieces[j].start)
  }

  function TextOf(text: string, p: Piece): string {
    if p.start <= p.end <= |text| then text[p.start..p.end] else ""
  }

  /** All pieces put together. */
  ghost function Whole(text: string, pieces: seq<Piece>): string {
    if pieces == [] then "" else Whole(text, pieces[..|pieces| - 1]) + TextOf(text, pieces[|pieces| - 1])
  }

  /** The kept pieces put together. */
  ghost function Kept(text: string, pieces: seq<Piece>): string {
    if pieces == [] then ""
    else
      var p := pieces[|pieces| - 1];
      Kept(text, pieces[..|pieces| - 1]) + if p.kept then TextOf(text, p) else ""
  }

  ghost function Removed(pieces: seq<Piece>): seq<Piece> {
    if pieces == [] then []
    else
      var p := pieces[|pieces| - 1];
      Removed(pieces[..|pieces| - 1]) + if p.kept then [] else [p]
  }

  /** Without its last piece a tiling ends where that piece starts. */
  lemma TilesPrefix(pieces: seq<Piece>, to: nat)
    requires Tiles(pieces, to) && pieces != []
    ensures var k := |pieces| - 1; pieces[k].end == to && pieces[k].start <= to && Tiles(pieces[..k], pieces[k].start)
  {
    var k := |pieces| - 1;
    if k > 0 {
      assert pieces[k - 1].end == pieces[k].start;
      forall i | 0 <= i < k ensures pieces[i].end <= pieces[k].start { assert pieces[i].end <= pieces[k].start; }
    }
  }

  /** Pieces that tile the text make up the text again. */
  lemma {:induction false} TilesMakeWhole(text: string, pieces: seq<Piece>, to: nat)
    requires Tiles(pieces, to) && to <= |text|
    ensures Whole(text, pieces) == text[..to]
  {
    if pieces != [] {
      var k := |pieces| - 1;
      var p := pieces[k];
      TilesPrefix(pieces, to);
      TilesMakeWhole(text, pieces[..k], p.start);
      assert Whole(text, pieces) == text[..p.start] + text[p.start..to] == text[..to];
    }
  }

  lemma TileOne(pieces: seq<Piece>, to: nat, p: Piece)
    requires Tiles(pieces, to) && p.start == to <= p.end
    ensures Tiles(pieces + [p], p.end)
  {
  }

  lemma AppendPiece(text: string, pieces: seq<Piece>, p: Piece)
    ensures Kept(text, pieces + [p]) == Kept(text, pieces) + if p.kept then TextOf(text, p) else ""
    ensures Removed(pieces + [p]) == Removed(pieces) + if p.kept then [] else [p]
  {
    assert (pieces + [p])[..|pieces|] == pieces;
  }

  // ---------- which matches are used ----------

  /** Where the last match used ends. */
  function EndOf<P>(used: seq<Match<P>>): nat {
    if used == [] then 0 else used[|used| - 1].end
  }

  /** The matches used: each one that does not start inside the one used before it. */
  function Chosen<P>(ms: seq<Match<P>>): seq<Match<P>> {
    if ms == [] then []
    else
      var before, m := Chosen(ms[..|ms| - 1]), ms[|ms| - 1];
      if m.start < EndOf(before) then before else before + [m]
  }

  /** The previews of the matches used that have one. */
  function Previews<P>(used: seq<Match<P>>): seq<P> {
    if used == [] then []
    else
      var m := used[|used| - 1];
      Previews(used[..|used| - 1]) + if m.preview.Some? then [m.preview.value] else []
  }

  /** The stretches of the matches used that have a preview. */
  ghost function Cuts<P>(used: seq<Match<P>>): seq<Piece> {
    if used == [] then []
    else
      var m := used[|used| - 1];
      Cuts(used[..|used| - 1]) + if m.preview.Some? then [Piece(m.start, m.end, false)] else []
  }

  /** The match was used, or starts inside one that was. */
  ghost predicate UsedOrInside<P>(m: Match<P>, used: seq<Match<P>>) {
    exists u :: u in used && u.start <= m.start < u.end
  }

  ghost predicate Disjoint<P>(used: seq<Match<P>>) {
    forall i, j :: 0 <= i < j < |used| ==> used[i].end <= used[j].start
  }

  ghost predicate ByStart<P>(ms: seq<Match<P>>) {
    && (forall i :: 0 <= i < |ms| ==> ms[i].start < ms[i].end)
    && (forall i, j :: 0 <= i < j < |ms| ==> ms[i].start <= ms[j].start)
  }

  /** The matches used come from the list, and do not overlap. */
  lemma {:induction false} ChosenDisjoint<P>(ms: seq<Match<P>>)
    requires forall i :: 0 <= i < |ms| ==> ms[i].start < ms[i].end
    ensures Disjoint(Chosen(ms)) && forall i :: 0 <= i < |Chosen(ms)| ==>
            Chosen(ms)[i] in ms && Chosen(ms)[i].end <= EndOf(Chosen(ms))
  {
    if ms != [] {
      var n := |ms| - 1;
      ChosenDisjoint(ms[..n]);
      assert ms == ms[..n] + [ms[n]];
    }
  }

  lemma MoreUsed<P>(m: Match<P>, before: seq<Match<P>>, u: Match<P>)
    requires UsedOrInside(m, before)
    ensures UsedOrInside(m, before + [u])
  {
    var v :| v in before && v.start <= m.start < v.end;
    assert v in before + [u];
  }

  /** Of matches in order of their starts, every one was used or starts inside one that was. */
  lemma {:induction false} ChosenCovers<P>(ms: seq<Match<P>>, k: nat)
    requires ByStart(ms) && k < |ms|
    ensures UsedOrInside(ms[k], Chosen(ms))
  {
    var n := |ms| - 1;
    var before, m := Chosen(ms[..n]), ms[n];
    if m.start < EndOf(before) {
      if k < n {
        ChosenCovers(ms[..n], k);
      } else {
        ChosenDisjoint(ms[..n]);
        var last := before[|before| - 1];
        assert last in ms[..n] && last in before;
      }
    } else if k < n {
      ChosenCovers(ms[..n], k);
      MoreUsed(ms[k], before, m);
    } else {
      assert m in before + [m];
    }
  }

  /** Of matches in order of their starts, those used are disjoint, and every match was
      used or starts inside one that was. */
  lemma ChosenAccounts<P>(ms: seq<Match<P>>)
    requires ByStart(ms)
    ensures Disjoint(Chosen(ms)) && (forall u :: u in Chosen(ms) ==> u in ms)
    ensures forall m :: m in ms ==> UsedOrInside(m, Chosen(ms))
  {
    ChosenDisjoint(ms);
    forall m | m in ms ensures UsedOrInside(m, Chosen(ms)) {
      var k :| 0 <= k < |ms| && ms[k] == m;
      ChosenCovers(ms, k);
    }
  }

  /** There are as many previews as cuts; the i-th of each come from one match used, and
      every match used with a preview is cut. */
  lemma {:induction false} CutsHavePreviews<P>(used: seq<Match<P>>)
    ensures |Cuts(used)| == |Previews(used)|
    ensures forall i :: 0 <= i < |Cuts(used)| ==>
            Match(Cuts(used)[i].start, Cuts(used)[i].end, Some(Previews(used)[i])) in used
    ensures forall u :: u in used && u.preview.Some? ==> Piece(u.start, u.end, false) in Cuts(used)
  {
    if used != [] {
      var k := |used| - 1;
      CutsHavePreviews(used[..k]);
      assert used == used[..k] + [used[k]];
      if used[k].preview.Some? {
        assert used[k] == Match(used[k].start, used[k].end, Some(used[k].preview.value));
      }
    }
  }

  // ---------- the loop ----------

  /** What the loop knows before match n: the text up to the cursor is tiled, and what was
      removed are the cuts of the matches used so far. */
  ghost predicate Progress<P>(text: string, ms: seq<Match<P>>, n: nat, pieces: seq<Piece>, cursor: nat,
                              stripped: string, previews: seq<P>) {
    && n <= |ms| && cursor == EndOf(Chosen(ms[..n])) <= |text|
    && Tiles(pieces, cursor) && Kept(text, pieces) == stripped
    && Removed(pieces) == Cuts(Chosen(ms[..n])) && previews == Previews(Chosen(ms[..n]))
  }

  lemma ChosenNext<P>(ms: seq<Match<P>>, n: nat)
    requires n < |ms|
    ensures var before := Chosen(ms[..n]);
            Chosen(ms[..n + 1]) == if ms[n].start < EndOf(before) then before else before + [ms[n]]
  {
    assert ms[..n + 1][..n] == ms[..n];
  }

  lemma UsedNext<P>(used: seq<Match<P>>, m: Match<P>)
    ensures EndOf(used + [m]) == m.end
    ensures Previews(used + [m]) == Previews(used) + if m.preview.Some? then [m.preview.value] else []
    ensures Cuts(used + [m]) == Cuts(used) + if m.preview.Some? then [Piece(m.start, m.end, false)] else []
  {
    assert (used + [m])[..|used|] == used;
  }

  lemma AddPiece(text: string, pieces: seq<Piece>, cursor: nat, to: nat, kept: bool)
    requires cursor <= to <= |text| && Tiles(pieces, cursor)
    ensures var more := pieces + [Piece(cursor, to, kept)];
            && Tiles(more, to)
            && Kept(text, more) == Kept(text, pieces) + (if kept then text[cursor..to] else "")
            && Removed(more) == Removed(pieces) + if kept then [] else [Piece(cursor, to, false)]
  {
    TileOne(pieces, cursor, Piece(cursor, to, kept));
    AppendPiece(text, pieces, Piece(cursor, to, kept));
  }

  lemma UseMatch<P>(text: string, ms: seq<Match<P>>, n: nat, pieces: seq<Piece>, cursor: nat, stripped: string,
                    previews: seq<P>)
    requires Progress(text, ms, n, pieces, cursor, stripped, previews) && n < |ms|
    requires cursor <= ms[n].start < ms[n].end <= |text|
    ensures var m := ms[n];
            var p := pieces + [Piece(cursor, m.start, true)] + [Piece(m.start, m.end, m.preview.None?)];
            var s := stripped + text[cursor..m.start];
            if m.preview.None? then Progress(text, ms, n + 1, p, m.end, s + text[m.start..m.end], previews)
            else Progress(text, ms, n + 1, p, m.end, s, previews + [m.preview.value])
  {
    var m := ms[n];
    var before := pieces + [Piece(cursor, m.start, true)];
    AddPiece(text, pieces, cursor, m.start, true);
    AddPiece(text, before, m.start, m.end, m.preview.None?);
    assert EndOf(Chosen(ms[..n + 1])) == m.end && Chosen(ms[..n + 1]) == Chosen(ms[..n]) + [m] by { ChosenNext(ms, n); }
    UsedNext(Chosen(ms[..n]), m);
  }

  lemma SkipMatch<P>(text: string, ms: seq<Match<P>>, n: nat, pieces: seq<Piece>, cursor: nat, stripped: string,
                     previews: seq<P>)
    requires Progress(text, ms, n, pieces, cursor, stripped, previews) && n < |ms| && ms[n].start < cursor
    ensures Progress(text, ms, n + 1, pieces, cursor, stripped, previews)
  {
    ChosenNext(ms, n);
  }

  /** The rest of the text is kept. */
  lemma KeepRest<P>(text: string, ms: seq<Match<P>>, pieces: seq<Piece>, cursor: nat, stripped: string,
                    previews: seq<P>)
    requires Progress(text, ms, |ms|, pieces, cursor, stripped, previews)
    ensures previews == Previews(Chosen(ms))
    ensures var all := pieces + [Piece(cursor, |text|, true)];
            && Tiles(all, |text|) && Whole(text, all) == text && Kept(text, all) == stripped + text[cursor..]
            && Removed(all) == Cuts(Chosen(ms))
  {
    var all := pieces + [Piece(cursor, |text|, true)];
    assert ms[..|ms|] == ms;
    AddPiece(text, pieces, cursor, |text|, true);
    assert text[cursor..|text|] == text[cursor..];
    assert Whole(text, all) == text by {
      TilesMakeWhole(text, all, |text|);
      assert text[..|text|] == text;
    }
  }

  /** The loop over the sorted matches and the rest of the text: the text without the
      matches used that have a preview, and the previews of those. */
  method StripMatches<P>(text: string, ms: seq<Match<P>>)
      returns (stripped: string, previews: seq<P>, ghost pieces: seq<Piece>)
    requires forall i :: 0 <= i < |ms| ==> ms[i].start < ms[i].end <= |text|
    ensures previews == Previews(Chosen(ms))
    ensures Tiles(pieces, |text|) && Whole(text, pieces) == text && Kept(text, pieces) == stripped
    ensures Removed(pieces) == Cuts(Chosen(ms))
  {
    stripped, previews, pieces := "", [], [];
    var cursor: nat := 0;
    for n := 0 to |ms|
      invariant Progress(text, ms, n, pieces, cursor, stripped, previews)
    {
      var m := ms[n];
      if m.start < cursor {
        SkipMatch(text, ms, n, pieces, cursor, stripped, previews);
      } else {
        UseMatch(text, ms, n, pieces, cursor, stripped, previews);
        stripped := stripped + text[cursor..m.start];
        pieces := pieces + [Piece(cursor, m.start, true)];
        pieces := pieces + [Piece(m.start, m.end, m.preview.None?)];
        if m.preview.None? {
          stripped := stripped + text[m.start..m.end];
        } else {
          previews := previews + [m.preview.value];
        }
        cursor := m.end;
      }
    }
    KeepRest(text, ms, pieces, cursor, stripped, previews);
    stripped := stripped + text[cursor..];
    pieces := pieces + [Piece(cursor, |text|, true)];
  }

  /** The matches outside every fence, in order of their starts; the loop sees these. */
  function Candidates<P(!new)>(spans: seq<(nat, nat)>, blockMatches: seq<Match<P>>,
                               selfClosing: seq<Match<P>>): seq<Match<P>> {
    Sort(Unfenced(blockMatches, spans) + Unfenced(selfClosing, spans), (a: Match<P>, b: Match<P>) => a.start <= b.start)
  }

  lemma CandidatesAre<P(!new)>(text: string, spans: seq<(nat, nat)>, blockMatches: seq<Match<P>>,
                               selfClosing: seq<Match<P>>)
    requires Found(text, blockMatches) && Found(text, selfClosing)
    ensures var ms := Candidates(spans, blockMatches, selfClosing);
            && ByStart(ms) && (forall i :: 0 <= i < |ms| ==> ms[i].end <= |text|)
            && forall m :: m in ms <==> (m in blockMatches || m in selfClosing) && Outside(spans, m.start)
  {
    var all := Unfenced(blockMatches, spans) + Unfenced(selfClosing, spans);
    forall m: Match<P> ensures m in all <==> (m in blockMatches || m in selfClosing) && !InFence(spans, m.start) {
      UnfencedMember(blockMatches, spans, m);
      UnfencedMember(selfClosing, spans, m);
    }
    SortedMatches(text, all, Candidates(spans, blockMatches, selfClosing));
  }

  /** Of a block shortcode and a self-closing one that start at the same place the block
      comes first, as its expression is tried first. */
  lemma BlockFirst<P(!new)>(spans: seq<(nat, nat)>, blockMatches: seq<Match<P>>, selfClosing: seq<Match<P>>,
                            b: Match<P>, c: Match<P>)
    requires b in blockMatches && c in selfClosing && b.start == c.start && Outside(spans, b.start)
    ensures Precedes(Candidates(spans, blockMatches, selfClosing), b, c)
  {
    var first, second := Unfenced(blockMatches, spans), Unfenced(selfClosing, spans);
    UnfencedMember(blockMatches, spans, b);
    UnfencedMember(selfClosing, spans, c);
    var i :| 0 <= i < |first| && first[i] == b;
    var j :| 0 <= j < |second| && second[j] == c;
    assert (first + second)[i] == b && (first + second)[|first| + j] == c;
    SortStable(first + second, (x: Match<P>, y: Match<P>) => x.start <= y.start, i, |first| + j);
  }

  /** `extract_canvas_shortcodes` before its final blank-line collapse. Nothing of the text
      is lost or duplicated: kept and removed pieces interleave to the text, and what is
      removed are the matches used that have a preview. */
  method ExtractShortcodes<P(!new)>(text: string, blockMatches: seq<Match<P>>, selfClosing: seq<Match<P>>)
      returns (stripped: string, previews: seq<P>, spans: seq<(nat, nat)>, ghost pieces: seq<Piece>)
    requires Found(text, blockMatches) && Found(text, selfClosing)
    ensures Fences.AreFenceSpans(text, Fences.LinesOf(text), Fences.FencesOf(text), spans)
    ensures previews == Previews(Chosen(Candidates(spans, blockMatches, selfClosing)))
    ensures Tiles(pieces, |text|) && Whole(text, pieces) == text && Kept(text, pieces) == stripped
    ensures Removed(pieces) == Cuts(Chosen(Candidates(spans, blockMatches, selfClosing)))
  {
    spans := Fences.ScanFenceSpans(text);
    var ms := Unfenced(blockMatches, spans) + Unfenced(selfClosing, spans);
    ms := Sort(ms, (a: Match<P>, b: Match<P>) => a.start <= b.start);
    CandidatesAre(text, spans, blockMatches, selfClosing);
    stripped, previews, pieces := StripMatches(text, ms);
  }

  /** What the extraction removes: one stretch per preview, each a match outside every
      fence; the matches used are disjoint, each with a preview is removed, and every match
      outside the fences was used or starts inside one that was. */
  lemma RemovedExactly<P(!new)>(text: string, spans: seq<(nat, nat)>, blockMatches: seq<Match<P>>,
                                selfClosing: seq<Match<P>>)
    requires Found(text, blockMatches) && Found(text, selfClosing)
    ensures var used := Chosen(Candidates(spans, blockMatches, selfClosing));
            && |Cuts(used)| == |Previews(used)| && Disjoint(used)
            && (forall i :: 0 <= i < |Cuts(used)| ==>
                  var m := Match(Cuts(used)[i].start, Cuts(used)[i].end, Some(Previews(used)[i]));
                  (m in blockMatches || m in selfClosing) && Outside(spans, m.start))
            && (forall u :: u in used && u.preview.Some? ==> Piece(u.start, u.end, false) in Cuts(used))
            && forall m :: (m in blockMatches || m in selfClosing) && Outside(spans, m.start) ==> UsedOrInside(m, used)
  {
    var ms := Candidates(spans, blockMatches, selfClosing);
    CandidatesAre(text, spans, blockMatches, selfClosing);
    ChosenAccounts(ms);
    CutsHavePreviews(Chosen(ms));
    forall i | 0 <= i < |Cuts(Chosen(ms))|
      ensures var m := Match(Cuts(Chosen(ms))[i].start, Cuts(Chosen(ms))[i].end, Some(Previews(Chosen(ms))[i]));
              (m in blockMatches || m in selfClosing) && Outside(spans, m.start)
    {
      assert Match(Cuts(Chosen(ms))[i].start, Cuts(Chosen(ms))[i].end, Some(Previews(Chosen(ms))[i])) in Chosen(ms);
    }
  }

  lemma SortedMatches<P(!new)>(text: string, ms: seq<Match<P>>, sorted: seq<Match<P>>)
    requires forall m :: m in ms ==> m.start < m.end <= |text|
    requires sorted == Sort(ms, (a: Match<P>, b: Match<P>) => a.start <= b.start)
    ensures ByStart(sorted) && (forall m :: m in sorted <==> m in ms)
    ensures forall i :: 0 <= i < |sorted| ==> sorted[i].start < sorted[i].end <= |text|
  {
    var le := (a: Match<P>, b: Match<P>) => a.start <= b.start;
    SortSorts(ms, le);
    SortMembers(ms, le);
    forall i, j | 0 <= i < j < |sorted| ensures sorted[i].start <= sorted[j].start {
      assert le(sorted[i], sorted[j]);
    }
    forall i | 0 <= i < |sorted| ensures sorted[i].start < sorted[i].end <= |text| {
      assert sorted[i] in sorted;
    }
  }
}
