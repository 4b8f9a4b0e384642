/** LogFormatter (server/log.h, server/log.cpp): the pattern tokens, the format items made
    from them, and the class whose init loop builds both. */
module LogFormatting {
  import opened LogPattern
  import opened Strings
  import opened PatternLaws

  // ----- Tokens: the (text, format, kind) tuples that init collects -----

  datatype Token = Text(text: string) | Field(name: string, fmt: string)

  const PATTERN_ERROR := "<<pattern_error>>"

  function ToToken(p: Piece): Token {
    match p
    case Run(text) => Text(text)
    case Directive(name, fmt, _) => Field(name, fmt)
    case Broken(_) => Text(PATTERN_ERROR)
  }

  function ToTokens(ps: seq<Piece>): seq<Token> {
    seq(|ps|, i requires 0 <= i < |ps| => ToToken(ps[i]))
  }

  function Tokens(pattern: string): seq<Token> {
    ToTokens(ScanPattern(pattern).pieces)
  }

  /** Names of letters and closing braces, formats without a closing brace, and literal text
      that is not empty, not adjacent to other text, not last, and whose percent signs, if
      any, are at its end. */
  ghost predicate CanonicalTokens(ts: seq<Token>) {
    forall i :: 0 <= i < |ts| ==> TokenFits(ts, i)
  }

  ghost predicate TokenFits(ts: seq<Token>, i: nat)
    requires i < |ts|
  {
    match ts[i]
    case Text(text) => text != "" && PercentsLast(text) && i + 1 < |ts| && ts[i + 1].Field?
    case Field(name, fmt) => (forall k :: 0 <= k < |name| ==> IsNameChar(name[k])) && '}' !in fmt
  }

  /** Writes every directive with braces when `always` holds, and otherwise only those with a
      format or with a name that the following text would run into. */
  function ToPieces(ts: seq<Token>, always: bool): seq<Piece> {
    if ts == [] then
      []
    else
      var rest := ToPieces(ts[1..], always);
      match ts[0]
      case Text(text) => [Run(text)] + rest
      case Field(name, fmt) =>
        [Directive(name, fmt, always || fmt != "" || !Ends(name, Print(rest, "")))] + rest
  }

  function PrintTokens(ts: seq<Token>, always: bool): string {
    Print(ToPieces(ts, always), "")
  }

  lemma {:induction false} PiecesOfTokens(ts: seq<Token>, always: bool)
    requires CanonicalTokens(ts)
    ensures Canonical(ToPieces(ts, always), "")
    ensures ToTokens(ToPieces(ts, always)) == ts
  {
    if ts != [] {
      assert TokenFits(ts, 0);
      forall i | 0 <= i < |ts[1..]| ensures TokenFits(ts[1..], i) {
        assert TokenFits(ts, i + 1);
      }
      PiecesOfTokens(ts[1..], always);
      var ps, rest := ToPieces(ts, always), ToPieces(ts[1..], always);
      assert |rest| == |ts| - 1;
      CanonicalIntro(ps[0], rest, "");
      forall i | 0 <= i < |ts| ensures ToToken(ps[i]) == ts[i] {
        if i > 0 {
          assert ToTokens(rest)[i - 1] == ts[1..][i - 1];
        }
      }
    }
  }

  /** Printing a canonical token list, in either style, and parsing it gives it back. */
  lemma TokenRoundTrip(ts: seq<Token>, always: bool)
    requires CanonicalTokens(ts)
    ensures Tokens(PrintTokens(ts, always)) == ts
  {
    PiecesOfTokens(ts, always);
    PrintThenScan(ToPieces(ts, always), "");
  }

  // ----- Format items -----

  /** `FieldItem('d', f)` is the time item; the other items drop their format. */
  datatype FormatItem = StringItem(text: string) | FieldItem(directive: char, fmt: string)

  const DEFAULT_TIME_FORMAT := "%Y-%m-%d %H:%M:%S"

  function MakeItem(t: Token): FormatItem {
    match t
    case Text(text) => StringItem(text)
    case Field(name, fmt) =>
      if name == "d" then
        FieldItem('d', if fmt == "" then DEFAULT_TIME_FORMAT else fmt)
      else if |name| == 1 && name[0] in "mprctnflTF" then
        FieldItem(name[0], "")
      else
        StringItem("<<error_format %" + name + ">>")
  }

  function MakeItems(ts: seq<Token>): seq<FormatItem> {
    seq(|ts|, i requires 0 <= i < |ts| => MakeItem(ts[i]))
  }

  function Items(pattern: string): seq<FormatItem> {
    MakeItems(Tokens(pattern))
  }

  /** The text of one item: `field` stands for the values that come from the event. */
  function ItemText<E>(item: FormatItem, field: (char, string, E) -> string, event: E): string {
    match item
    case StringItem(text) => text
    case FieldItem(directive, fmt) =>
      if directive == 'n' then "\n" else if directive == 'T' then "\t" else field(directive, fmt, event)
  }

  function FormatAll<E>(items: seq<FormatItem>, field: (char, string, E) -> string, event: E): string {
    if items == [] then ""
    else ItemText(items[0], field, event) + FormatAll(items[1..], field, event)
  }

  lemma {:induction false} FormatAppend<E>(a: seq<FormatItem>, b: seq<FormatItem>,
                                           field: (char, string, E) -> string, event: E)
    ensures FormatAll(a + b, field, event) == FormatAll(a, field, event) + FormatAll(b, field, event)
  {
    if a == [] {
      assert a + b == b;
    } else {
      assert (a + b)[1..] == a[1..] + b;
      FormatAppend(a[1..], b, field, event);
    }
  }

  lemma ItemsAppend(a: seq<Piece>, b: seq<Piece>)
    ensures MakeItems(ToTokens(a + b)) == MakeItems(ToTokens(a)) + MakeItems(ToTokens(b))
  {}

  /** init does not clear the item list.  After setPattern a formatter has the items of a
      fresh one exactly when its previous pattern had no percent sign. */
  lemma SetPatternIsFreshExactly(previous: string, pattern: string)
    ensures Items(previous) + Items(pattern) == Items(pattern) <==> '%' !in previous
  {
    var r := ScanPattern(previous);
    ScanIsCanonical(previous);
    if '%' !in previous {
      NoPercentNoPieces(previous);
      assert Items(previous) == [];
    } else {
      assert |Items(previous)| == |r.pieces|;
      assert |Items(previous) + Items(pattern)| == |r.pieces| + |Items(pattern)|;
    }
  }

  // ----- The class -----

  /** Facts about the inner loop's variables when it has read an opening brace at `open`. */
  lemma BracedDirective(s: string, i: nat, open: nat, j: nat)
    requires i < open < j < |s| && s[i] == '%' && s[open] == '{' && s[j] == '}'
    requires forall k :: i < k < open ==> IsNameChar(s[k])
    requires forall k :: open < k < j ==> s[k] != '}'
    ensures DirectiveAt(s[i..]) == Directive(s[i + 1..open], s[open + 1..j], true)
    ensures |Source(DirectiveAt(s[i..]))| == j + 1 - i
  {
    hide NameLength, IndexOf;
    var t := s[i..];
    NameLengthIs(t[1..], open - i - 1);
    IndexOfIs(t[open - i + 1..], '}', j - open - 1);
    assert t[1..open - i] == s[i + 1..open];
    assert t[open - i + 1..j - i] == s[open + 1..j];
  }

  lemma BrokenDirective(s: string, i: nat, open: nat)
    requires i < open < |s| && s[i] == '%' && s[open] == '{'
    requires forall k :: i < k < open ==> IsNameChar(s[k])
    requires forall k :: open < k < |s| ==> s[k] != '}'
    ensures DirectiveAt(s[i..]) == Broken(s[i..])
    ensures |Source(DirectiveAt(s[i..]))| == |s| - i
  {
    hide NameLength, IndexOf;
    var t := s[i..];
    NameLengthIs(t[1..], open - i - 1);
    IndexOfIs(t[open - i + 1..], '}', |s| - open - 1);
  }

  lemma UnbracedDirective(s: string, i: nat, j: nat)
    requires i < j <= |s| && s[i] == '%'
    requires forall k :: i < k < j ==> IsNameChar(s[k])
    requires j < |s| ==> !IsNameChar(s[j]) && s[j] != '{'
    ensures DirectiveAt(s[i..]) == Directive(s[i + 1..j], "", false)
    ensures |Source(DirectiveAt(s[i..]))| == j - i
  {
    hide NameLength, IndexOf;
    var t := s[i..];
    NameLengthIs(t[1..], j - i - 1);
    assert t[1..j - i] == s[i + 1..j];
  }

  ghost function Remaining(s: string, i: nat, literal: string): seq<Token> {
    ToTokens(ScanFrom(if i <= |s| then s[i..] else "", literal).pieces)
  }

  lemma RemainingAtStart(s: string)
    ensures Tokens(s) == Remaining(s, 0, "")
  {
    assert s[0..] == s;
  }

  lemma RemainingAtEnd(s: string, i: nat, literal: string)
    requires i >= |s|
    ensures Remaining(s, i, literal) == []
  {}

  lemma LiteralStep(s: string, i: nat, literal: string)
    requires i < |s| && (s[i] != '%' || (i + 1 < |s| && s[i + 1] == '%'))
    ensures Remaining(s, i, literal) == Remaining(s, i + 1, literal + [s[i]])
  {}

  lemma TokenStep(s: string, i: nat, j: nat, token: Token, literal: string, vec: seq<Token>)
    requires i < |s| && s[i] == '%' && !(i + 1 < |s| && s[i + 1] == '%')
    requires i <= j <= |s| && token == ToToken(DirectiveAt(s[i..]))
    requires |Source(DirectiveAt(s[i..]))| == if j < |s| then j + 1 - i else |s| - i
    ensures vec + Remaining(s, i, literal)
            == (if literal == "" then vec else vec + [Text(literal)]) + [token] + Remaining(s, j + 1, "")
  {
    var rest := s[i..];
    var d := DirectiveAt(rest);
    var after := if j + 1 <= |s| then s[j + 1..] else "";
    assert rest[|Source(d)|..] == after;
    FlushedTokens(literal, d, ScanFrom(after, "").pieces, vec);
  }

  lemma FlushedTokens(literal: string, d: Piece, more: seq<Piece>, vec: seq<Token>)
    ensures vec + ToTokens(Flush(literal) + [d] + more)
            == (if literal == "" then vec else vec + [Text(literal)]) + [ToToken(d)] + ToTokens(more)
  {}

  class LogFormatter {
    var pattern: string
    var items: seq<FormatItem>

    constructor (pattern: string)
      ensures this.pattern == pattern && items == Items(pattern)
    {
      this.pattern := pattern;
      this.items := [];
      new;
      Init();
    }

    /** Changes the pattern and parses it, keeping the items of the previous one. */
    method SetPattern(pattern: string)
      modifies this
      ensures this.pattern == pattern && items == old(items) + Items(pattern)
    {
      this.pattern := pattern;
      Init();
    }

    method Format<E>(field: (char, string, E) -> string, event: E) returns (text: string)
      ensures text == FormatAll(items, field, event)
    {
      text := "";
      var k := 0;
      while k < |items|
        invariant 0 <= k <= |items|
        invariant text + FormatAll(items[k..], field, event) == FormatAll(items, field, event)
      {
        assert items[k..][1..] == items[k + 1..];
        Reassociate(text, ItemText(items[k], field, event), FormatAll(items[k + 1..], field, event));
        text := text + ItemText(items[k], field, event);
        k := k + 1;
      }
    }

    /** Parses the pattern into tokens and appends one item for each. */
    method Init()
      modifies this`items
      ensures items == old(items) + Items(pattern)
    {
      var vec := Collect();
      var k := 0;
      while k < |vec|
        invariant 0 <= k <= |vec|
        invariant items == old(items) + MakeItems(vec[..k])
      {
        assert vec[..k + 1] == vec[..k] + [vec[k]];
        items := items + [MakeItem(vec[k])];
        k := k + 1;
      }
      assert vec[..k] == vec;
    }

    /** The outer loop of init: `Remaining` is what the specification still has to add. */
    method Collect() returns (vec: seq<Token>)
      ensures vec == Tokens(pattern)
    {
      vec := [];
      var literal := "";
      var i := 0;
      hide Remaining, Tokens, ToTokens, ToToken, DirectiveAt, Source;
      RemainingAtStart(pattern);
      while i < |pattern|
        invariant 0 <= i <= |pattern| + 1
        invariant Tokens(pattern) == vec + Remaining(pattern, i, literal)
        decreases |pattern| + 1 - i
      {
        if pattern[i] != '%' {
          LiteralStep(pattern, i, literal);
          literal := literal + [pattern[i]];
          i := i + 1;
          continue;
        }
        if i + 1 < |pattern| && pattern[i + 1] == '%' {
          LiteralStep(pattern, i, literal);
          literal := literal + "%";
          i := i + 1;
          continue;
        }
        var j, token := ReadDirective(i);
        TokenStep(pattern, i, j, token, literal, vec);
        if literal != "" {
          vec := vec + [Text(literal)];
          literal := "";
        }
        vec := vec + [token];
        i := j + 1;
      }
      RemainingAtEnd(pattern, i, literal);
    }

    /** The inner loop of init, from the percent sign at i.  Seeing an opening brace only
        changes `status`, so the loop's measure is lexicographic. */
    method ReadDirective(i: nat) returns (j: nat, token: Token)
      requires i < |pattern| && pattern[i] == '%'
      ensures i <= j <= |pattern|
      ensures token == ToToken(DirectiveAt(pattern[i..]))
      ensures |Source(DirectiveAt(pattern[i..]))| == if j < |pattern| then j + 1 - i else |pattern| - i
    {
      hide DirectiveAt, Source;
      ghost var expected := DirectiveAt(pattern[i..]);
      j := i + 1;
      var status, fmtBegin, name, fmt := 0, 0, "", "";
      while j < |pattern|
        invariant i < j <= |pattern|
        invariant status == 0 || status == 1
        invariant fmt == ""
        invariant status == 0 ==> name == "" && forall k :: i < k < j ==> IsNameChar(pattern[k])
        invariant status == 1 ==> i + 1 < fmtBegin <= j + 1 && fmtBegin <= |pattern|
        invariant status == 1 ==> pattern[fmtBegin - 1] == '{' && name == pattern[i + 1..fmtBegin - 1]
        invariant status == 1 ==> forall k :: i < k < fmtBegin - 1 ==> IsNameChar(pattern[k])
        invariant status == 1 ==> forall k :: fmtBegin <= k < j ==> pattern[k] != '}'
        decreases |pattern| - j, 1 - status
      {
        if status == 0 && !IsAlpha(pattern[j]) && pattern[j] != '{' && pattern[j] != '}' {
          UnbracedDirective(pattern, i, j);
          name := pattern[i + 1..j];
          assert ToToken(expected) == Field(name, fmt) && |Source(expected)| == j - i;
          j := j - 1;
          break;
        }
        if status == 0 && pattern[j] == '{' {
          name := pattern[i + 1..j];
          status := 1;
          fmtBegin := j + 1;
          continue;
        }
        if status == 1 && pattern[j] == '}' {
          BracedDirective(pattern, i, fmtBegin - 1, j);
          status := 2;
          fmt := pattern[fmtBegin..j];
          assert ToToken(expected) == Field(name, fmt) && |Source(expected)| == j + 1 - i;
          break;
        }
        j := j + 1;
      }
      if j == |pattern| {
        if status == 0 {
          UnbracedDirective(pattern, i, j);
        } else {
          BrokenDirective(pattern, i, fmtBegin - 1);
        }
      }
      if j == |pattern| && j - i - 1 > 0 {
        name := pattern[i + 1..j];
      }
      if status == 1 {
        token := Text(PATTERN_ERROR);
      } else {
        token := Field(name, fmt);
      }
    }
  }
}
