/** Laws of the pattern language: when two patterns may be concatenated, and the round trip
    of token lists through their printed form (server/log.cpp, LogFormatter::init). */
module PatternLaws {
  import opened LogPattern
  import opened Strings

  // ----- Concatenating patterns -----

  /** The condition under which q may be written after p without changing the meaning of
      either, in terms of the end of p and the first characters of q. */
  ghost predicate Seam(p: string, q: string) {
    var a := ScanPattern(p);
    if a.tail != "" then
      '%' !in q
    else if a.pieces == [] then
      true
    else
      match a.pieces[|a.pieces| - 1]
      case Directive(name, _, braced) => braced || Ends(name, q)
      case _ => q == ""
  }

  lemma CanonicalIntro(p: Piece, rest: seq<Piece>, tail: string)
    requires Fits(p, Print(rest, tail)) && Canonical(rest, tail)
    requires p.Run? ==> rest != [] && !rest[0].Run?
    ensures Canonical([p] + rest, tail)
  {}

  lemma {:induction false} CanonicalAppend(ps: seq<Piece>, qs: seq<Piece>, tail: string)
    requires Canonical(ps, "") && Canonical(qs, tail)
    requires ps != [] ==> !ps[|ps| - 1].Run? && Fits(ps[|ps| - 1], Print(qs, tail))
    ensures Canonical(ps + qs, tail)
    decreases |ps|
  {
    hide Fits, Print, Source;
    if ps == [] {
      assert ps + qs == qs;
    } else {
      var rest := ps[1..];
      assert rest != [] ==> rest[|rest| - 1] == ps[|ps| - 1];
      CanonicalAppend(rest, qs, tail);
      AppendStep(ps[0], rest, qs, tail);
      assert ps == [ps[0]] + rest;
    }
  }

  lemma AppendStep(p: Piece, rest: seq<Piece>, qs: seq<Piece>, tail: string)
    requires Fits(p, Print(rest, "")) && Canonical(rest, "")
    requires if rest == [] then !p.Run? && Fits(p, Print(qs, tail)) else p.Run? ==> !rest[0].Run?
    requires Canonical(rest + qs, tail)
    ensures Canonical([p] + rest + qs, tail)
  {
    assert [p] + rest + qs == [p] + (rest + qs);
    if rest == [] {
      assert rest + qs == qs;
    } else {
      PrintAppend(rest, qs, tail);
      FitsFurther(p, rest, Print(qs, tail));
      assert (rest + qs)[0] == rest[0];
    }
    CanonicalIntro(p, rest + qs, tail);
  }

  /** More text behind a non-empty list does not disturb the piece in front of it. */
  lemma FitsFurther(p: Piece, rest: seq<Piece>, more: string)
    requires rest != [] && Canonical(rest, "") && Fits(p, Print(rest, ""))
    ensures Fits(p, Print(rest, more))
  {}

  /** The last piece of a canonical list is a directive that fits in front of the tail. */
  lemma {:induction false} LastPieceFits(ps: seq<Piece>, qs: seq<Piece>, tail: string)
    requires Canonical(ps + qs, tail) && ps != []
    ensures Fits(ps[|ps| - 1], Print(qs, tail))
    ensures qs == [] ==> !ps[|ps| - 1].Run?
    decreases |ps|
  {
    assert (ps + qs)[1..] == ps[1..] + qs;
    if |ps| == 1 {
      assert ps[1..] + qs == qs;
    } else {
      LastPieceFits(ps[1..], qs, tail);
    }
  }

  /** Only the last text of a canonical list is free of percent signs. */
  lemma {:induction false} TailChange(ps: seq<Piece>, tail: string, tail': string)
    requires Canonical(ps, tail) && tail != "" && tail <= tail' && '%' !in tail'
    ensures Canonical(ps, tail')
    decreases |ps|
  {
    if ps != [] {
      TailChange(ps[1..], tail, tail');
      PrintAppend(ps[1..], [], tail);
      PrintAppend(ps[1..], [], tail');
      assert Print(ps[1..], tail') == Print(ps[1..], "") + tail';
      assert Print(ps[1..], tail) == Print(ps[1..], "") + tail;
    }
  }

  lemma {:induction false} DropTail(ps: seq<Piece>, tail: string)
    requires Canonical(ps, tail)
    ensures Canonical(ps, "")
    decreases |ps|
  {
    if ps != [] {
      DropTail(ps[1..], tail);
      PrintAppend(ps[1..], [], tail);
    }
  }

  /** Concatenation of patterns, exactly: the pieces of p + q are those of p followed by
      those of q if and only if the seam holds. */
  lemma ConcatenationIsExact(p: string, q: string)
    ensures ScanPattern(p + q).pieces == ScanPattern(p).pieces + ScanPattern(q).pieces
            <==> Seam(p, q)
  {
    var a, b, c := ScanPattern(p), ScanPattern(q), ScanPattern(p + q);
    ScanIsCanonical(p);
    ScanIsCanonical(q);
    ScanIsCanonical(p + q);
    if Seam(p, q) {
      SeamSuffices(p, q);
    }
    if c.pieces == a.pieces + b.pieces {
      SeamIsNeeded(p, q);
    }
  }

  lemma NoPercentNoPieces(q: string)
    requires '%' !in q
    ensures ScanPattern(q) == Scan([], q)
  {
    PrintThenScan([], q);
  }

  lemma SeamSuffices(p: string, q: string)
    requires Seam(p, q)
    ensures ScanPattern(p + q).pieces == ScanPattern(p).pieces + ScanPattern(q).pieces
  {
    var a, b := ScanPattern(p), ScanPattern(q);
    ScanIsCanonical(p);
    if a.tail != "" {
      NoPercentNoPieces(q);
      PlainTextIsAdded(a.pieces, a.tail, q);
      assert a.pieces + b.pieces == a.pieces;
    } else {
      ScanIsCanonical(q);
      if a.pieces != [] {
        assert a.pieces + [] == a.pieces;
        LastPieceFits(a.pieces, [], "");
      }
      PiecesAreAdded(a.pieces, b.pieces, b.tail);
    }
  }

  lemma {:induction false} PrintTail(ps: seq<Piece>, tail: string, more: string)
    ensures Print(ps, tail + more) == Print(ps, tail) + more
  {
    if ps != [] {
      PrintTail(ps[1..], tail, more);
      Reassociate(Source(ps[0]), Print(ps[1..], tail), more);
    }
  }

  lemma PlainTextIsAdded(ps: seq<Piece>, tail: string, q: string)
    requires Canonical(ps, tail) && tail != "" && '%' !in q
    ensures ScanPattern(Print(ps, tail) + q).pieces == ps
  {
    TailIsPlain(ps, tail);
    TailChange(ps, tail, tail + q);
    PrintThenScan(ps, tail + q);
    PrintTail(ps, tail, q);
  }

  lemma PiecesAreAdded(ps: seq<Piece>, qs: seq<Piece>, tail: string)
    requires Canonical(ps, "") && Canonical(qs, tail)
    requires ps != [] ==> !ps[|ps| - 1].Run? && Fits(ps[|ps| - 1], Print(qs, tail))
    ensures ScanPattern(Print(ps, "") + Print(qs, tail)).pieces == ps + qs
  {
    CanonicalAppend(ps, qs, tail);
    PrintAppend(ps, qs, tail);
    PrintAppend(ps, [], Print(qs, tail));
    PrintThenScan(ps + qs, tail);
  }

  lemma SeamIsNeeded(p: string, q: string)
    requires ScanPattern(p + q).pieces == ScanPattern(p).pieces + ScanPattern(q).pieces
    ensures Seam(p, q)
  {
    var a, b, c := ScanPattern(p), ScanPattern(q), ScanPattern(p + q);
    ScanIsCanonical(p);
    ScanIsCanonical(q);
    ScanIsCanonical(p + q);
    PrintAppend(a.pieces, b.pieces, c.tail);
    CancelHead(a.pieces, a.tail, q, Print(b.pieces, c.tail));
    if a.tail != "" {
      TailIsPlain(a.pieces, a.tail);
      if b.pieces == [] {
        TailIsPlain(c.pieces, c.tail);
      } else {
        TailStaysOut(a.tail, b.pieces, b.tail, c.tail);
      }
    } else if a.pieces != [] {
      LastPieceFits(a.pieces, b.pieces, c.tail);
      assert a.pieces + [] == a.pieces;
      LastPieceFits(a.pieces, [], a.tail);
    }
  }

  lemma CancelHead(ps: seq<Piece>, tail: string, q: string, behind: string)
    requires Print(ps, tail) + q == Print(ps, behind)
    ensures tail + q == behind
  {
    PrintAppend(ps, [], tail);
    PrintAppend(ps, [], behind);
    CancelPrefix(Print(ps, ""), tail, q, behind);
  }

  lemma CancelPrefix(head: string, a: string, b: string, c: string)
    requires head + a + b == head + c
    ensures a + b == c
  {
    assert (head + a + b)[|head|..] == a + b;
    assert (head + c)[|head|..] == c;
  }

  lemma {:induction false} TailIsPlain(ps: seq<Piece>, tail: string)
    requires Canonical(ps, tail)
    ensures '%' !in tail
    decreases |ps|
  {
    if ps != [] {
      TailIsPlain(ps[1..], tail);
    }
  }

  /** Plain text in front of a list with a directive in it cannot move behind the list. */
  lemma TailStaysOut(plain: string, ps: seq<Piece>, tail: string, tail': string)
    requires plain != "" && '%' !in plain && ps != [] && Canonical(ps, tail)
    ensures plain + Print(ps, tail) != Print(ps, tail')
  {
    PrintAppend(ps, [], tail);
    PrintAppend(ps, [], tail');
    var body := Print(ps, "");
    HasPercent(ps, tail);
    var m := IndexOf(body, '%');
    IndexOfIs(body + tail', '%', m);
    IndexOfIs(plain + (body + tail), '%', |plain| + m);
  }

  lemma HasPercent(ps: seq<Piece>, tail: string)
    requires ps != [] && Canonical(ps, tail)
    ensures '%' in Print(ps, "")
  {}
}
