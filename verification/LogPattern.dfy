/** The pattern language of LogFormatter (server/log.cpp).

    A pattern is cut into pieces: runs of literal text, directives `%name` or `%name{fmt}`,
    and a broken directive whose brace is never closed.  `ScanFrom` is the recursive
    specification of the nested loop in LogFormatter::init; LogFormatter.dfy proves the loop
    against it.  `ScanIsCanonical` and `PrintThenScan` together say that scanning is a
    bijection between strings and canonical piece lists. */
module LogPattern {
  import opened Strings

  datatype Piece =
    | Run(text: string)
    | Directive(name: string, fmt: string, braced: bool)
    | Broken(source: string)

  /** `tail` is the literal text after the last directive, which init never pushes. */
  datatype Scan = Scan(pieces: seq<Piece>, tail: string)

  // ----- Character classes and searches -----

  predicate IsAlpha(c: char) {
    'a' <= c <= 'z' || 'A' <= c <= 'Z'
  }

  /** Characters the inner loop steps over before it has seen an opening brace. */
  predicate IsNameChar(c: char) {
    IsAlpha(c) || c == '}'
  }

  function NameLength(s: string): (k: nat)
    ensures k <= |s|
    ensures forall i :: 0 <= i < k ==> IsNameChar(s[i])
    ensures k < |s| ==> !IsNameChar(s[k])
  {
    if s == [] || !IsNameChar(s[0]) then 0 else 1 + NameLength(s[1..])
  }

  // ----- The specification of the scanner -----

  /** The directive that starts at s[0] == '%'. */
  function DirectiveAt(s: string): Piece
    requires s != [] && s[0] == '%'
  {
    var k := 1 + NameLength(s[1..]);
    if k == |s| || s[k] != '{' then
      Directive(s[1..k], "", false)
    else
      var close := k + 1 + IndexOf(s[k + 1..], '}');
      if close == |s| then Broken(s) else Directive(s[1..k], s[k + 1..close], true)
  }

  /** A directive is a prefix of the text it is read from, and nothing in it is lost. */
  lemma DirectiveIsPrefix(s: string)
    requires s != [] && s[0] == '%'
    ensures var d := DirectiveAt(s);
            !d.Run? && 0 < |Source(d)| <= |s| && Source(d) == s[..|Source(d)|]
  {
    hide NameLength, IndexOf;
    var k := 1 + NameLength(s[1..]);
    UnbracedSource(s, k);
    if k < |s| && s[k] == '{' {
      var close := k + 1 + IndexOf(s[k + 1..], '}');
      if close < |s| {
        assert s[close] == s[k + 1..][close - k - 1];
        BracedSource(s, k, close);
      }
    }
  }

  lemma UnbracedSource(s: string, k: nat)
    requires 0 < k <= |s| && s[0] == '%'
    ensures Source(Directive(s[1..k], "", false)) == s[..k]
  {
    assert ['%'] + s[1..k] + "" == s[..k];
  }

  lemma BracedSource(s: string, k: nat, close: nat)
    requires 0 < k < close < |s| && s[0] == '%' && s[k] == '{' && s[close] == '}'
    ensures Source(Directive(s[1..k], s[k + 1..close], true)) == s[..close + 1]
  {
    assert ['%'] + s[1..k] == s[..k];
    assert "{" + s[k + 1..close] + "}" == s[k..close + 1];
    assert s[..k] + s[k..close + 1] == s[..close + 1];
  }

  /** Scans s with the literal text `lit` already collected. */
  function ScanFrom(s: string, lit: string): Scan
    decreases |s|
  {
    if s == [] then
      Scan([], lit)
    else if s[0] != '%' then
      ScanFrom(s[1..], lit + [s[0]])
    else if |s| > 1 && s[1] == '%' then
      ScanFrom(s[1..], lit + ['%'])
    else
      var d := DirectiveAt(s);
      DirectiveIsPrefix(s);
      var rest := ScanFrom(s[|Source(d)|..], "");
      Scan(Flush(lit) + [d] + rest.pieces, rest.tail)
  }

  function ScanPattern(s: string): Scan {
    ScanFrom(s, "")
  }

  function Flush(lit: string): seq<Piece> {
    if lit == "" then [] else [Run(lit)]
  }

  // ----- Printing -----

  function Source(p: Piece): string {
    match p
    case Run(text) => text
    case Directive(name, fmt, braced) => ['%'] + name + (if braced then "{" + fmt + "}" else "")
    case Broken(source) => source
  }

  function Print(ps: seq<Piece>, tail: string): string {
    if ps == [] then tail else Source(ps[0]) + Print(ps[1..], tail)
  }

  lemma {:induction false} PrintAppend(ps: seq<Piece>, qs: seq<Piece>, tail: string)
    ensures Print(ps, tail) == Print(ps, "") + tail
    ensures Print(ps + qs, tail) == Print(ps, Print(qs, tail))
  {
    if ps == [] {
      assert ps + qs == qs;
    } else {
      assert (ps + qs)[1..] == ps[1..] + qs;
      PrintAppend(ps[1..], qs, tail);
    }
  }

  // ----- Canonical piece lists -----

  /** In a literal run a percent sign is only ever followed by percent signs. */
  ghost predicate PercentsLast(t: string) {
    forall i, j :: 0 <= i < j < |t| && t[i] == '%' ==> t[j] == '%'
  }

  ghost predicate BrokenShape(s: string) {
    && s != [] && s[0] == '%'
    && var k := 1 + NameLength(s[1..]);
       k < |s| && s[k] == '{' && '}' !in s[k + 1..]
  }

  /** After an unbraced directive called `name` the text `rest` is not drawn into it. */
  predicate Ends(name: string, rest: string) {
    || rest == ""
    || (!IsNameChar(rest[0]) && rest[0] != '{' && (name == "" ==> rest[0] != '%'))
  }

  ghost predicate Fits(p: Piece, rest: string) {
    match p
    case Run(text) => text != "" && PercentsLast(text)
    case Directive(name, fmt, braced) =>
      && (forall i :: 0 <= i < |name| ==> IsNameChar(name[i]))
      && (if braced then '}' !in fmt else fmt == "" && Ends(name, rest))
    case Broken(source) => rest == "" && BrokenShape(source)
  }

  ghost predicate Canonical(ps: seq<Piece>, tail: string) {
    if ps == [] then
      '%' !in tail
    else
      && Fits(ps[0], Print(ps[1..], tail))
      && (ps[0].Run? ==> |ps| > 1 && !ps[1].Run?)
      && Canonical(ps[1..], tail)
  }

  lemma DirectiveFits(s: string)
    requires s != [] && s[0] == '%' && !(|s| > 1 && s[1] == '%')
    ensures |Source(DirectiveAt(s))| <= |s|
    ensures Fits(DirectiveAt(s), s[|Source(DirectiveAt(s))|..])
  {
    DirectiveIsPrefix(s);
    var k := 1 + NameLength(s[1..]);
    var d := DirectiveAt(s);
    forall i | 0 <= i < k - 1 ensures IsNameChar(s[1..k][i]) {
      assert s[1..k][i] == s[1..][i];
    }
    if k < |s| {
      assert s[k] == s[1..][k - 1];
      if s[k] != '{' {
        assert |Source(d)| == k;
        assert k == 1 ==> s[1..k] == "";
      }
    }
  }

  lemma CanonicalDirective(d: Piece, ps: seq<Piece>, tail: string)
    requires !d.Run? && Fits(d, Print(ps, tail)) && Canonical(ps, tail)
    ensures Canonical([d] + ps, tail) && Print([d] + ps, tail) == Source(d) + Print(ps, tail)
  {
    hide Fits, Source;
    assert ([d] + ps)[1..] == ps;
  }

  lemma CanonicalRun(lit: string, ds: seq<Piece>, tail: string)
    requires lit != "" && PercentsLast(lit) && ds != [] && !ds[0].Run? && Canonical(ds, tail)
    ensures Canonical([Run(lit)] + ds, tail) && Print([Run(lit)] + ds, tail) == lit + Print(ds, tail)
  {
    hide PercentsLast, BrokenShape, Ends;
    assert ([Run(lit)] + ds)[1..] == ds;
  }

  /** A run and a directive in front of a canonical list. */
  lemma CanonicalCons(lit: string, d: Piece, ps: seq<Piece>, tail: string)
    requires PercentsLast(lit)
    requires !d.Run? && Fits(d, Print(ps, tail)) && Canonical(ps, tail)
    ensures Canonical(Flush(lit) + [d] + ps, tail)
    ensures Print(Flush(lit) + [d] + ps, tail) == lit + (Source(d) + Print(ps, tail))
  {
    CanonicalDirective(d, ps, tail);
    hide Canonical, Print, Fits, PercentsLast, Source;
    if lit == "" {
      assert Flush(lit) + [d] + ps == [d] + ps;
    } else {
      CanonicalRun(lit, [d] + ps, tail);
      assert Flush(lit) + [d] + ps == [Run(lit)] + ([d] + ps);
    }
  }

  lemma DirectiveStep(s: string, lit: string)
    requires PercentsLast(lit)
    requires s != [] && s[0] == '%' && !(|s| > 1 && s[1] == '%')
    requires |Source(DirectiveAt(s))| <= |s|
    requires var after := s[|Source(DirectiveAt(s))|..];
             var r := ScanFrom(after, "");
             Canonical(r.pieces, r.tail) && Print(r.pieces, r.tail) == "" + after
    ensures var r := ScanFrom(s, lit);
            Canonical(r.pieces, r.tail) && Print(r.pieces, r.tail) == lit + s
  {
    var d := DirectiveAt(s);
    DirectiveIsPrefix(s);
    DirectiveFits(s);
    var after := s[|Source(d)|..];
    var rest := ScanFrom(after, "");
    assert "" + after == after;
    assert Source(d) + after == s;
    CanonicalCons(lit, d, rest.pieces, rest.tail);
  }

  lemma Shift(lit: string, s: string)
    requires s != []
    ensures lit + [s[0]] + s[1..] == lit + s
  {}

  /** Every scan is canonical and prints back to the text scanned. */
  lemma {:induction false} ScanFromIsCanonical(s: string, lit: string)
    requires PercentsLast(lit)
    requires lit != "" && lit[|lit| - 1] == '%' ==> s != [] && s[0] == '%'
    ensures var r := ScanFrom(s, lit);
            Canonical(r.pieces, r.tail) && Print(r.pieces, r.tail) == lit + s
    decreases |s|
  {
    if s == [] {
      assert lit + s == lit;
    } else if s[0] != '%' {
      ScanFromIsCanonical(s[1..], lit + [s[0]]);
      Shift(lit, s);
    } else if |s| > 1 && s[1] == '%' {
      ScanFromIsCanonical(s[1..], lit + [s[0]]);
      Shift(lit, s);
    } else {
      DirectiveIsPrefix(s);
      ScanFromIsCanonical(s[|Source(DirectiveAt(s))|..], "");
      DirectiveStep(s, lit);
    }
  }

  lemma ScanIsCanonical(s: string)
    ensures Canonical(ScanPattern(s).pieces, ScanPattern(s).tail)
    ensures Print(ScanPattern(s).pieces, ScanPattern(s).tail) == s
  {
    ScanFromIsCanonical(s, "");
  }

  /** A run in front of a percent sign is collected into the literal text as it stands. */
  lemma {:induction false} RunIsCollected(t: string, rest: string, lit: string)
    requires PercentsLast(t)
    requires '%' in t ==> rest != [] && rest[0] == '%'
    ensures ScanFrom(t + rest, lit) == ScanFrom(rest, lit + t)
    decreases |t|
  {
    if t == [] {
      assert t + rest == rest && lit + t == lit;
    } else {
      assert (t + rest)[1..] == t[1..] + rest;
      assert t[0] == '%' && |t| == 1 ==> (t + rest)[1] == rest[0];
      RunIsCollected(t[1..], rest, lit + [t[0]]);
      assert lit + [t[0]] + t[1..] == lit + t;
    }
  }

  lemma NameLengthIs(s: string, k: nat)
    requires k <= |s| && forall i :: 0 <= i < k ==> IsNameChar(s[i])
    requires k < |s| ==> !IsNameChar(s[k])
    ensures NameLength(s) == k
  {}

  /** A directive that fits in front of `rest` is read back from its own source. */
  lemma DirectiveIsReadBack(d: Piece, rest: string)
    requires !d.Run? && Fits(d, rest)
    ensures var s := Source(d) + rest;
            s[0] == '%' && !(|s| > 1 && s[1] == '%') && DirectiveAt(s) == d
  {
    match d
    case Directive(name, fmt, braced) =>
      if braced {
        BracedIsReadBack(name, fmt, rest);
      } else {
        UnbracedIsReadBack(name, rest);
      }
    case Broken(source) =>
      assert source + rest == source;
      var k := 1 + NameLength(source[1..]);
      IndexOfIs(source[k + 1..], '}', |source| - k - 1);
      assert k == 1 ==> source[1] == '{';
  }

  lemma UnbracedIsReadBack(name: string, rest: string)
    requires forall i :: 0 <= i < |name| ==> IsNameChar(name[i])
    requires Ends(name, rest)
    ensures var s := ['%'] + name + "" + rest;
            !(|s| > 1 && s[1] == '%') && DirectiveAt(s) == Directive(name, "", false)
  {
    var s := ['%'] + name + "" + rest;
    assert s[1..] == name + rest;
    NameLengthIs(name + rest, |name|);
    assert s[1..1 + |name|] == name;
  }

  lemma BracedIsReadBack(name: string, fmt: string, rest: string)
    requires forall i :: 0 <= i < |name| ==> IsNameChar(name[i])
    requires '}' !in fmt
    ensures var s := ['%'] + name + ("{" + fmt + "}") + rest;
            !(|s| > 1 && s[1] == '%') && DirectiveAt(s) == Directive(name, fmt, true)
  {
    var s := ['%'] + name + ("{" + fmt + "}") + rest;
    var k := 1 + |name|;
    NameThenBrace(name, "{" + fmt + "}" + rest);
    FormatThenBrace(fmt, rest);
    assert s[1..] == name + ("{" + fmt + "}" + rest);
    assert s[k + 1..] == fmt + ("}" + rest);
    assert s[1..k] == name;
    assert s[k + 1..k + 1 + |fmt|] == fmt;
  }

  lemma NameThenBrace(name: string, more: string)
    requires forall i :: 0 <= i < |name| ==> IsNameChar(name[i])
    requires more != "" && !IsNameChar(more[0])
    ensures NameLength(name + more) == |name|
  {
    NameLengthIs(name + more, |name|);
  }

  lemma FormatThenBrace(fmt: string, rest: string)
    requires '}' !in fmt
    ensures IndexOf(fmt + ("}" + rest), '}') == |fmt|
  {
    IndexOfIs(fmt + ("}" + rest), '}', |fmt|);
  }

  /** The converse of ScanIsCanonical: scanning undoes printing on every canonical list. */
  lemma {:induction false} PrintThenScan(ps: seq<Piece>, tail: string)
    requires Canonical(ps, tail)
    ensures ScanPattern(Print(ps, tail)) == Scan(ps, tail)
    decreases |ps|
  {
    if ps == [] {
      RunIsCollected(tail, "", "");
      assert tail + "" == tail;
    } else if ps[0].Run? {
      assert ps[1..][0] == ps[1];
      DirectiveThenScan(ps[1..], tail, ps[0].text);
      RunThenScan(ps, tail);
    } else {
      DirectiveThenScan(ps, tail, "");
      assert Flush("") + ps == ps;
    }
  }

  lemma RunThenScan(ps: seq<Piece>, tail: string)
    requires |ps| > 1 && ps[0].Run? && !ps[1].Run?
    requires ps[0].text != "" && PercentsLast(ps[0].text)
    requires Fits(ps[1..][0], Print(ps[1..][1..], tail))
    requires ScanFrom(Print(ps[1..], tail), ps[0].text) == Scan(Flush(ps[0].text) + ps[1..], tail)
    ensures ScanPattern(Print(ps, tail)) == Scan(ps, tail)
  {
    var text := ps[0].text;
    DirectiveIsReadBack(ps[1], Print(ps[1..][1..], tail));
    RunIsCollected(text, Print(ps[1..], tail), "");
    assert "" + text == text;
    assert Flush(text) + ps[1..] == ps;
  }

  lemma {:induction false} DirectiveThenScan(ps: seq<Piece>, tail: string, lit: string)
    requires Canonical(ps, tail) && ps != [] && !ps[0].Run?
    ensures ScanFrom(Print(ps, tail), lit) == Scan(Flush(lit) + ps, tail)
    decreases |ps|, 0
  {
    var rest := Print(ps[1..], tail);
    var s := Print(ps, tail);
    DirectiveIsReadBack(ps[0], rest);
    assert s[|Source(ps[0])|..] == rest;
    PrintThenScan(ps[1..], tail);
    assert Flush(lit) + [ps[0]] + ps[1..] == Flush(lit) + ps;
  }
}
