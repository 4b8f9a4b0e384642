/** When the items of two patterns concatenate, exactly (server/log.cpp, LogFormatter::init).

    Items show less than pieces: a format in braces is dropped by every item but the time, and
    a directive whose brace is never closed gives the same item whatever follows. */
module PatternSeams {
  import opened LogPattern
  import opened PatternLaws
  import opened LogFormatting
  import Strings

  /** In terms of the last piece of p, which init is still reading when q comes: pending text
      wants no directive in q, a brace that is not closed wants neither directive nor closing
      brace, and a directive without braces ends at q or takes its format from q without a
      trace. */
  ghost predicate ItemSeam(p: string, q: string) {
    var a := ScanPattern(p);
    if a.tail != "" then
      '%' !in q
    else if a.pieces == [] then
      true
    else
      match a.pieces[|a.pieces| - 1]
      case Directive(name, _, braced) => braced || Ends(name, q) || Absorbs(name, q)
      case _ => '%' !in q && '}' !in q
  }

  /** q starts with a format that the item of the directive does not show, and has the same
      items without it. */
  ghost predicate Absorbs(name: string, q: string) {
    && q != "" && q[0] == '{'
    && var close := Strings.IndexOf(q, '}');
       && close < |q|
       && (name == "d" ==> q[1..close] == "" || q[1..close] == DEFAULT_TIME_FORMAT)
       && Items(q[close + 1..]) == Items(q)
  }

  // ----- Different tokens, different items -----

  lemma ErrorText(a: string, b: string)
    ensures "<<error_format %" + a + ">>" == "<<error_format %" + b + ">>" ==> |a| == |b|
  {
    assert |"<<error_format %" + a + ">>"| == 18 + |a|;
    assert |"<<error_format %" + b + ">>"| == 18 + |b|;
  }

  lemma LongerNameShows(name: string, longer: string, fmt: string)
    requires |name| < |longer|
    ensures MakeItem(Field(name, "")) != MakeItem(Field(longer, fmt))
  {
    ErrorText(name, longer);
    assert |longer| == 1 ==> name == "";
  }

  lemma BrokenShows(name: string, fmt: string)
    ensures MakeItem(Field(name, fmt)) != MakeItem(Text(PATTERN_ERROR))
  {
    assert ("<<error_format %" + name + ">>")[2] == 'e' && PATTERN_ERROR[2] == 'p';
  }

  lemma FormatShows(name: string, fmt: string)
    ensures MakeItem(Field(name, fmt)) == MakeItem(Field(name, ""))
            <==> (name == "d" ==> fmt == "" || fmt == DEFAULT_TIME_FORMAT)
  {}

  lemma NamelessShows(text: string)
    requires text != "" && text[0] == '%'
    ensures MakeItem(Text(text)) != MakeItem(Field("", ""))
  {
    assert ("<<error_format %" + "" + ">>")[0] == '<';
  }

  // ----- Cutting a canonical list in front of its last directive -----

  /** `head` ends with a directive or is empty, and `text` is the text in front of the last
      directive. */
  ghost predicate Cut(ps: seq<Piece>, head: seq<Piece>, text: string, last: Piece) {
    && ps == head + (Flush(text) + [last]) && !last.Run? && PercentsLast(text)
    && Canonical(head, "") && (head != [] ==> !head[|head| - 1].Run?)
    && (head != [] ==> Fits(head[|head| - 1], text + Source(last)))
  }

  lemma FitsByFirstChar(p: Piece, rest: string, other: string)
    requires Fits(p, rest) && rest != "" && other != "" && rest[0] == other[0]
    ensures Fits(p, other)
  {}

  lemma {:induction false} PrefixIsCanonical(ps: seq<Piece>, qs: seq<Piece>, tail: string)
    requires Canonical(ps + qs, tail) && (ps != [] ==> !ps[|ps| - 1].Run?)
    ensures Canonical(ps, "")
    decreases |ps|
  {
    if ps != [] {
      var rest := ps[1..];
      assert (ps + qs)[1..] == rest + qs && (ps + qs)[0] == ps[0];
      assert rest != [] ==> rest[|rest| - 1] == ps[|ps| - 1] && (rest + qs)[0] == rest[0];
      PrefixIsCanonical(rest, qs, tail);
      PrefixStep(ps[0], rest, qs, tail);
      assert ps == [ps[0]] + rest;
    }
  }

  lemma PrefixStep(p: Piece, rest: seq<Piece>, qs: seq<Piece>, tail: string)
    requires Fits(p, Print(rest + qs, tail)) && Canonical(rest, "")
    requires if rest == [] then !p.Run? else p.Run? ==> !rest[0].Run?
    ensures Canonical([p] + rest, "")
  {
    if rest != [] {
      PrintAppend(rest, qs, tail);
      assert Source(rest[0]) != "" by {
        assert Fits(rest[0], Print(rest[1..], ""));
      }
      assert Print(rest, "")[0] == Source(rest[0])[0];
      assert Print(rest + qs, tail)[0] == Source(rest[0])[0];
      FitsByFirstChar(p, Print(rest + qs, tail), Print(rest, ""));
    }
    CanonicalIntro(p, rest, "");
  }

  lemma CutBefore(ps: seq<Piece>) returns (head: seq<Piece>, text: string)
    requires Canonical(ps, "") && ps != []
    ensures Cut(ps, head, text, ps[|ps| - 1])
  {
    hide Canonical, Fits, Cut;
    var last := |ps| - 1;
    assert ps + [] == ps;
    LastPieceFits(ps, [], "");
    if last > 0 && ps[last - 1].Run? {
      head, text := ps[..last - 1], ps[last - 1].text;
      assert ps == head + ([Run(text)] + [ps[last]]);
      CutAtRun(head, text, ps[last]);
    } else {
      head, text := ps[..last], "";
      assert ps == head + [ps[last]];
      CutAtDirective(head, ps[last]);
    }
  }

  lemma CutAtRun(head: seq<Piece>, text: string, last: Piece)
    requires Canonical(head + ([Run(text)] + [last]), "") && !last.Run?
    ensures Cut(head + ([Run(text)] + [last]), head, text, last)
  {
    hide Canonical, Fits, PercentsLast, Print, Source;
    RunIsInside(head, Run(text), [last]);
    CutHead(head, [Run(text)] + [last]);
    PrintOne(text, last);
  }

  lemma CutAtDirective(head: seq<Piece>, last: Piece)
    requires Canonical(head + [last], "") && !last.Run? && (head != [] ==> !head[|head| - 1].Run?)
    ensures Cut(head + [last], head, "", last)
  {
    hide Canonical, Fits, Print, Source;
    CutHead(head, [last]);
    PrintOne("", last);
    assert Flush("") + [last] == [last];
  }

  lemma PrintOne(text: string, last: Piece)
    ensures Print(Flush(text) + [last], "") == text + Source(last)
  {
    assert [last][1..] == [] && Print([last], "") == Source(last) + "";
    if text != "" {
      assert ([Run(text)] + [last])[1..] == [last];
    } else {
      assert Flush(text) + [last] == [last];
    }
  }

  lemma CutHead(head: seq<Piece>, rest: seq<Piece>)
    requires Canonical(head + rest, "") && (head != [] ==> !head[|head| - 1].Run?)
    ensures Canonical(head, "") && (head != [] ==> Fits(head[|head| - 1], Print(rest, "")))
  {
    PrefixIsCanonical(head, rest, "");
    if head != [] {
      LastPieceFits(head, rest, "");
    }
  }

  /** A run stands behind a directive, if behind anything. */
  lemma {:induction false} RunIsInside(head: seq<Piece>, run: Piece, rest: seq<Piece>)
    requires run.Run? && Canonical(head + ([run] + rest), "")
    ensures head != [] ==> !head[|head| - 1].Run?
    ensures run.text != "" && PercentsLast(run.text)
    decreases |head|
  {
    hide PercentsLast, BrokenShape, Ends, Print, Source;
    var all := head + ([run] + rest);
    if head == [] {
      assert all[0] == run && Fits(run, Print(all[1..], ""));
    } else {
      assert all[1..] == head[1..] + ([run] + rest) && all[0] == head[0];
      RunIsInside(head[1..], run, rest);
      if |head| == 1 {
        assert all[1] == run;
      }
    }
  }

  // ----- Scanning on from a cut -----

  lemma PrintOfCut(ps: seq<Piece>, head: seq<Piece>, text: string, last: Piece, q: string)
    requires ps == head + (Flush(text) + [last])
    ensures Print(ps, "") + q == Print(head, "") + (text + (Source(last) + q))
  {
    PrintAppend(head, Flush(text) + [last], "");
    PrintAppend(head, [], text + Source(last));
    PrintOne(text, last);
    Strings.Reassociate(text, Source(last), q);
    Strings.Reassociate(Print(head, ""), text + Source(last), q);
  }

  lemma ScanBehindHead(head: seq<Piece>, x: string)
    requires Canonical(head, "") && (head != [] ==> !head[|head| - 1].Run? && Fits(head[|head| - 1], x))
    ensures ScanPattern(Print(head, "") + x).pieces == head + ScanPattern(x).pieces
  {
    ScanIsCanonical(x);
    var b := ScanPattern(x);
    hide ScanPattern, Canonical, Fits;
    PiecesAreAdded(head, b.pieces, b.tail);
  }

  predicate Open(last: Piece) {
    Source(last) != "" && Source(last)[0] == '%'
  }

  /** The pieces of p + q are those in front of the cut, and those of what is behind it. */
  lemma ScanFromCut(ps: seq<Piece>, head: seq<Piece>, text: string, last: Piece, q: string)
    requires Cut(ps, head, text, last) && Open(last)
    ensures ScanPattern(Print(ps, "") + q).pieces == head + ScanFrom(Source(last) + q, text).pieces
  {
    var rest := Source(last) + q;
    if head != [] {
      FitsByFirstChar(head[|head| - 1], text + Source(last), text + rest);
    }
    hide Canonical, Fits, Print, ScanFrom, Source;
    PrintOfCut(ps, head, text, last, q);
    ScanBehindHead(head, text + rest);
    RunIsCollected(text, rest, "");
    assert "" + text == text;
  }

  lemma ItemsOfThree(head: seq<Piece>, text: string, d: Piece, more: seq<Piece>)
    ensures MakeItems(ToTokens(head + (Flush(text) + [d] + more)))
            == MakeItems(ToTokens(head + Flush(text))) + [MakeItem(ToToken(d))] + MakeItems(ToTokens(more))
  {
    assert head + (Flush(text) + [d] + more) == (head + Flush(text)) + ([d] + more);
    ItemsAppend(head + Flush(text), [d] + more);
    ItemsAppend([d], more);
    assert MakeItems(ToTokens([d])) == [MakeItem(ToToken(d))];
  }

  /** The items concatenate across an open directive exactly if the directive that is read in
      the end gives the item of the one in p, and what it leaves of q the items of q. */
  lemma OpenSeam(ps: seq<Piece>, head: seq<Piece>, text: string, last: Piece, q: string)
    requires Cut(ps, head, text, last) && Open(last)
    requires var s := Source(last) + q; !(|s| > 1 && s[1] == '%')
    ensures var s := Source(last) + q;
            var d := DirectiveAt(s);
            && |Source(d)| <= |s|
            && (MakeItems(ToTokens(ScanPattern(Print(ps, "") + q).pieces)) == MakeItems(ToTokens(ps)) + Items(q)
                <==> MakeItem(ToToken(d)) == MakeItem(ToToken(last)) && Items(s[|Source(d)|..]) == Items(q))
  {
    var s := Source(last) + q;
    var d := DirectiveAt(s);
    DirectiveIsPrefix(s);
    ScanFromCut(ps, head, text, last, q);
    hide DirectiveAt, Source, Cut, MakeItem;
    var after := s[|Source(d)|..];
    ItemsOfThree(head, text, d, ScanPattern(after).pieces);
    assert Flush(text) + [last] + [] == Flush(text) + [last];
    ItemsOfThree(head, text, last, []);
    var front := MakeItems(ToTokens(head + Flush(text)));
    CompareItems(front, MakeItem(ToToken(d)), Items(after), MakeItem(ToToken(last)), Items(q));
    assert MakeItems(ToTokens([])) == [];
  }

  lemma CompareItems(front: seq<FormatItem>, a: FormatItem, rest: seq<FormatItem>, b: FormatItem, bs: seq<FormatItem>)
    ensures front + [a] + rest == front + [b] + [] + bs <==> a == b && rest == bs
  {
    var x, y := front + [a] + rest, front + [b] + [] + bs;
    if x == y {
      assert x[|front|] == a && y[|front|] == b;
      assert x[|front| + 1..] == rest && y[|front| + 1..] == bs;
    }
  }

  // ----- Text that is pending when a directive comes -----

  /** Pending text goes in front of the first piece. */
  lemma {:induction false} PendingComesFirst(x: string, pending: string, lit: string)
    requires '%' in x && pending != ""
    ensures var u, v := ScanFrom(x, lit).pieces, ScanFrom(x, pending + lit).pieces;
            u != [] && (if u[0].Run? then v == [Run(pending + u[0].text)] + u[1..] else v == [Run(pending)] + u)
    decreases |x|
  {
    if x[0] != '%' || (|x| > 1 && x[1] == '%') {
      PendingComesFirst(x[1..], pending, lit + [x[0]]);
      Strings.Reassociate(pending, lit, [x[0]]);
    } else {
      DirectiveIsPrefix(x);
      assert !DirectiveAt(x).Run?;
      if lit == "" {
        assert pending + lit == pending;
      }
    }
  }

  /** The items of two lists that go on after the same head with different first items. */
  lemma FirstItemShows(head: seq<Piece>, a: seq<Piece>, b: seq<Piece>, bs: seq<FormatItem>)
    requires a != [] && b != [] && MakeItem(ToToken(a[0])) != MakeItem(ToToken(b[0]))
    ensures MakeItems(ToTokens(head + a)) != MakeItems(ToTokens(head + b)) + bs
  {
    ItemsAppend(head, a);
    ItemsAppend(head, b);
    var n := |head|;
    assert MakeItems(ToTokens(head + a))[n] == MakeItem(ToToken(a[0]));
    assert (MakeItems(ToTokens(head + b)) + bs)[n] == MakeItem(ToToken(b[0]));
  }

  /** The pieces in front of pending text are cut off there, and fit in front of more. */
  lemma PendingIsCut(p: string, q: string)
    requires ScanPattern(p).tail != ""
    ensures var a := ScanPattern(p);
            && Canonical(a.pieces, "") && '%' !in a.tail && Print(a.pieces, "") + a.tail == p
            && (a.pieces != [] ==> !a.pieces[|a.pieces| - 1].Run? && Fits(a.pieces[|a.pieces| - 1], a.tail + q))
  {
    ScanIsCanonical(p);
    var a := ScanPattern(p);
    hide ScanPattern, Canonical;
    TailIsPlain(a.pieces, a.tail);
    DropTail(a.pieces, a.tail);
    PrintAppend(a.pieces, [], a.tail);
    if a.pieces != [] {
      assert a.pieces + [] == a.pieces;
      LastPieceFits(a.pieces, [], a.tail);
      FitsByFirstChar(a.pieces[|a.pieces| - 1], a.tail, a.tail + q);
    }
  }

  lemma PendingIsScanned(p: string, q: string)
    requires ScanPattern(p).tail != "" && '%' in q
    ensures ScanPattern(p + q).pieces == ScanPattern(p).pieces + ScanFrom(q, ScanPattern(p).tail).pieces
  {
    var a := ScanPattern(p);
    PendingIsCut(p, q);
    hide Canonical, Fits, ScanFrom, ScanPattern, Source, Print;
    ScanBehindHead(a.pieces, a.tail + q);
    Strings.Reassociate(Print(a.pieces, ""), a.tail, q);
    RunIsCollected(a.tail, q, "");
    ScanPatternIs(a.tail + q);
    assert "" + a.tail == a.tail;
  }

  lemma ScanPatternIs(x: string)
    ensures ScanPattern(x) == ScanFrom(x, "")
  {}

  lemma PendingItemsShow(head: seq<Piece>, pending: string, u: seq<Piece>, v: seq<Piece>)
    requires pending != "" && u != []
    requires if u[0].Run? then v == [Run(pending + u[0].text)] + u[1..] else v == [Run(pending)] + u
    ensures MakeItems(ToTokens(head + v)) != MakeItems(ToTokens(head)) + MakeItems(ToTokens(u))
  {
    var x, y := MakeItems(ToTokens(head + v)), MakeItems(ToTokens(head)) + MakeItems(ToTokens(u));
    if u[0].Run? {
      assert |pending + u[0].text| > |u[0].text|;
      assert x[|head|] == StringItem(pending + u[0].text) && y[|head|] == StringItem(u[0].text);
    } else {
      assert |x| == |y| + 1;
    }
  }

  lemma PendingTextShows(p: string, q: string)
    requires ScanPattern(p).tail != "" && '%' in q
    ensures Items(p + q) != Items(p) + Items(q)
  {
    var tail := ScanPattern(p).tail;
    PendingIsScanned(p, q);
    ScanPatternIs(q);
    assert tail + "" == tail;
    PendingComesFirst(q, tail, "");
    hide ScanFrom, ScanPattern, MakeItems, ToTokens;
    PendingItemsShow(ScanPattern(p).pieces, tail, ScanPattern(q).pieces, ScanFrom(q, tail).pieces);
  }

  /** A lone percent sign in front of a directive: the two signs make text. */
  lemma DoublePercentShows(ps: seq<Piece>, head: seq<Piece>, text: string, q: string)
    requires Cut(ps, head, text, Directive("", "", false)) && q != "" && q[0] == '%'
    ensures MakeItems(ToTokens(ScanPattern(Print(ps, "") + q).pieces)) != MakeItems(ToTokens(ps)) + Items(q)
  {
    var last := Directive("", "", false);
    assert Source(last) == "%";
    ScanFromCut(ps, head, text, last, q);
    var x := "%" + q;
    assert x[1..] == q;
    assert ScanFrom(x, text) == ScanFrom(q, text + ['%']);
    assert text + ['%'] + "" == text + ['%'];
    PendingComesFirst(q, text + ['%'], "");
    var c := ScanFrom(q, text + ['%']).pieces;
    assert c[0].Run? && text + ['%'] <= c[0].text;
    hide ScanFrom, ScanPattern, Canonical, Fits, Cut, Source;
    var d := Flush(text) + [last];
    if text == "" {
      assert d[0] == last && c[0].text[0] == '%';
      NamelessShows(c[0].text);
    } else {
      assert d[0] == Run(text) && |c[0].text| > |text|;
    }
    FirstItemShows(head, c, d, Items(q));
  }

  // ----- A directive without braces that q goes on with -----

  lemma NameGoesOn(name: string, q: string)
    requires (forall i :: 0 <= i < |name| ==> IsNameChar(name[i])) && q != "" && IsNameChar(q[0])
    ensures var d := DirectiveAt(['%'] + name + q);
            d.Broken? || (d.Directive? && |d.name| > |name|)
  {
    var s := ['%'] + name + q;
    assert s[1..] == name + q;
    var k := NameLength(name + q);
    assert forall i :: 0 <= i <= |name| ==> IsNameChar((name + q)[i]);
    assert k > |name|;
  }

  lemma BraceParts(q: string, close: nat)
    requires 0 < close < |q| && q[0] == '{' && q[close] == '}'
    ensures q == "{" + q[1..close] + "}" + q[close + 1..]
  {}

  lemma BraceCloses(name: string, q: string, close: nat)
    requires forall i :: 0 <= i < |name| ==> IsNameChar(name[i])
    requires 0 < close < |q| && q[0] == '{' && q[close] == '}' && forall i :: 0 <= i < close ==> q[i] != '}'
    ensures var s := ['%'] + name + q;
            var d := DirectiveAt(s);
            d == Directive(name, q[1..close], true) && |Source(d)| <= |s| && s[|Source(d)|..] == q[close + 1..]
  {
    var fmt, rest := q[1..close], q[close + 1..];
    BracedIsReadBack(name, fmt, rest);
    BraceParts(q, close);
    hide DirectiveAt, IsNameChar;
    var front := Source(Directive(name, fmt, true));
    Strings.Reassociate(['%'] + name, "{" + fmt + "}", rest);
    assert ['%'] + name + q == front + rest;
    assert (front + rest)[|front|..] == rest;
  }

  lemma BraceStays(name: string, q: string)
    requires forall i :: 0 <= i < |name| ==> IsNameChar(name[i])
    requires q != "" && q[0] == '{' && '}' !in q
    ensures DirectiveAt(['%'] + name + q) == Broken(['%'] + name + q)
  {
    hide NameLength, Strings.IndexOf;
    var s, k := ['%'] + name + q, 1 + |name|;
    assert s[1..] == name + q;
    NameThenBrace(name, q);
    assert s[k + 1..] == q[1..];
    Strings.IndexOfIs(q[1..], '}', |q| - 1);
  }

  lemma BraceOpens(name: string, q: string)
    requires (forall i :: 0 <= i < |name| ==> IsNameChar(name[i])) && q != "" && q[0] == '{'
    ensures var s, close := ['%'] + name + q, Strings.IndexOf(q, '}');
            var d := DirectiveAt(s);
            if close == |q| then d == Broken(s)
            else d == Directive(name, q[1..close], true) && |Source(d)| <= |s| && s[|Source(d)|..] == q[close + 1..]
  {
    hide Strings.IndexOf, DirectiveAt, Source;
    var close := Strings.IndexOf(q, '}');
    if close == |q| {
      BraceStays(name, q);
    } else {
      BraceCloses(name, q, close);
    }
  }

  /** The names of directives are name characters. */
  lemma LastDirective(ps: seq<Piece>)
    requires Canonical(ps, "") && ps != []
    ensures Fits(ps[|ps| - 1], "") && !ps[|ps| - 1].Run? && Open(ps[|ps| - 1])
  {
    assert ps + [] == ps;
    LastPieceFits(ps, [], "");
  }

  lemma AbsorbsExactly(name: string, q: string)
    requires q != "" && q[0] == '{'
    ensures var close := Strings.IndexOf(q, '}');
            Absorbs(name, q) <==>
              && close < |q| && MakeItem(Field(name, q[1..close])) == MakeItem(Field(name, ""))
              && Items(q[close + 1..]) == Items(q)
  {
    hide Items, MakeItem, Strings.IndexOf;
    var close := Strings.IndexOf(q, '}');
    if close < |q| {
      FormatShows(name, q[1..close]);
    }
  }

  /** Which item is made in the end, if q starts with a brace, and what is left of q. */
  lemma BraceItem(name: string, q: string)
    requires (forall i :: 0 <= i < |name| ==> IsNameChar(name[i])) && q != "" && q[0] == '{'
    ensures var s := ['%'] + name + q;
            var d := DirectiveAt(s);
            && |Source(d)| <= |s|
            && (MakeItem(ToToken(d)) == MakeItem(Field(name, "")) && Items(s[|Source(d)|..]) == Items(q)
                <==> Absorbs(name, q))
  {
    BraceOpens(name, q);
    BrokenShows(name, "");
    AbsorbsExactly(name, q);
    hide DirectiveAt, Items, Strings.IndexOf, MakeItem, IsNameChar, Absorbs;
    var s := ['%'] + name + q;
    assert Source(Broken(s)) == s;
    hide Source;
    if Strings.IndexOf(q, '}') == |q| {
      assert ToToken(DirectiveAt(s)) == Text(PATTERN_ERROR);
    }
  }

  lemma BraceSeam(ps: seq<Piece>, head: seq<Piece>, text: string, name: string, q: string)
    requires Cut(ps, head, text, Directive(name, "", false)) && Fits(Directive(name, "", false), "")
    requires q != "" && q[0] == '{'
    ensures MakeItems(ToTokens(ScanPattern(Print(ps, "") + q).pieces)) == MakeItems(ToTokens(ps)) + Items(q)
            <==> Absorbs(name, q)
  {
    SourceOfOpen(name, q);
    OpenSeam(ps, head, text, Directive(name, "", false), q);
    BraceItem(name, q);
    hide Cut, ScanPattern, ToTokens, MakeItems, MakeItem, DirectiveAt, Source, Items, Open, Fits, Absorbs, Print;
  }

  lemma SourceOfOpen(name: string, q: string)
    requires forall i :: 0 <= i < |name| ==> IsNameChar(name[i])
    ensures Open(Directive(name, "", false))
    ensures var s := Source(Directive(name, "", false)) + q;
            && s == ['%'] + name + q
            && (|s| > 1 && s[1] == '%' <==> name == "" && q != "" && q[0] == '%')
  {
    assert ['%'] + name + "" == ['%'] + name;
    assert name != "" ==> (['%'] + name + q)[1] == name[0];
  }

  lemma NameSeam(ps: seq<Piece>, head: seq<Piece>, text: string, name: string, q: string)
    requires Cut(ps, head, text, Directive(name, "", false)) && Fits(Directive(name, "", false), "")
    requires q != "" && IsNameChar(q[0])
    ensures MakeItems(ToTokens(ScanPattern(Print(ps, "") + q).pieces)) != MakeItems(ToTokens(ps)) + Items(q)
  {
    SourceOfOpen(name, q);
    OpenSeam(ps, head, text, Directive(name, "", false), q);
    NameGoesOn(name, q);
    BrokenShows(name, "");
    hide Cut, ScanPattern, ToTokens, MakeItems, Source, Items, DirectiveAt, MakeItem, Open, Fits;
    var d := DirectiveAt(['%'] + name + q);
    if d.Directive? {
      LongerNameShows(name, d.name, d.fmt);
    }
  }

  // ----- A brace that is never closed -----

  lemma BrokenGoesOn(source: string, q: string)
    requires BrokenShape(source)
    ensures var d := DirectiveAt(source + q);
            if '}' in q then d.Directive? else d == Broken(source + q)
    ensures !(|source + q| > 1 && (source + q)[1] == '%')
  {
    var k, s := 1 + NameLength(source[1..]), source + q;
    assert source[k] == source[1..][k - 1];
    forall i | 0 <= i < k - 1 ensures IsNameChar(s[1..][i]) {
      assert s[1..][i] == source[1..][i];
    }
    NameLengthIs(s[1..], k - 1);
    assert s[k + 1..] == source[k + 1..] + q;
    if '}' in q {
      var close := |source| - k - 1 + Strings.IndexOf(q, '}');
      Strings.IndexOfIs(source[k + 1..] + q, '}', close);
    } else {
      Strings.IndexOfIs(source[k + 1..] + q, '}', |s| - k - 1);
    }
    assert s[1] == source[1];
    assert k == 1 ==> source[1] == '{';
    assert k > 1 ==> IsNameChar(source[1..][0]);
  }

  lemma NoItems(q: string)
    ensures Items(q) == [] <==> '%' !in q
  {
    ScanIsCanonical(q);
    if '%' !in q {
      NoPercentNoPieces(q);
    } else if ScanPattern(q).pieces == [] {
      TailIsPlain([], q);
    }
    assert |Items(q)| == |ScanPattern(q).pieces|;
  }

  lemma BrokenSeam(ps: seq<Piece>, head: seq<Piece>, text: string, source: string, q: string)
    requires Cut(ps, head, text, Broken(source)) && BrokenShape(source)
    ensures MakeItems(ToTokens(ScanPattern(Print(ps, "") + q).pieces)) == MakeItems(ToTokens(ps)) + Items(q)
            <==> '%' !in q && '}' !in q
  {
    BrokenGoesOn(source, q);
    OpenSeam(ps, head, text, Broken(source), q);
    NoItems(q);
    NoItems("");
    hide Cut, ScanPattern, MakeItem, ToTokens, MakeItems, Items;
    var d := DirectiveAt(source + q);
    if d.Directive? {
      BrokenShows(d.name, d.fmt);
    }
  }

  /** Concatenation of patterns as their items show it, exactly. */
  lemma ItemsConcatenateExactly(p: string, q: string)
    ensures Items(p + q) == Items(p) + Items(q) <==> ItemSeam(p, q)
  {
    var a := ScanPattern(p);
    if Seam(p, q) {
      ConcatenationIsExact(p, q);
      ItemsAppend(a.pieces, ScanPattern(q).pieces);
    }
    if a.tail != "" {
      if '%' in q {
        PendingTextShows(p, q);
      }
    } else if a.pieces != [] {
      ScanIsCanonical(p);
      var last := a.pieces[|a.pieces| - 1];
      LastDirective(a.pieces);
      var head, text := CutBefore(a.pieces);
      match last
      case Directive(name, _, braced) =>
        if !braced && !Ends(name, q) {
          if q[0] == '{' {
            BraceSeam(a.pieces, head, text, name, q);
          } else if IsNameChar(q[0]) {
            NameSeam(a.pieces, head, text, name, q);
          } else {
            DoublePercentShows(a.pieces, head, text, q);
          }
        }
      case Broken(source) => BrokenSeam(a.pieces, head, text, source, q);
    }
  }

  /** Across such a seam the output for every event is concatenated. */
  lemma FormattingIsCompositional<E>(p: string, q: string, field: (char, string, E) -> string, event: E)
    requires ItemSeam(p, q)
    ensures FormatAll(Items(p + q), field, event)
            == FormatAll(Items(p), field, event) + FormatAll(Items(q), field, event)
  {
    ItemsConcatenateExactly(p, q);
    FormatAppend(Items(p), Items(q), field, event);
  }
}
