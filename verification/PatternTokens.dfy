/** What the pattern language is made of, letter by letter: which characters belong to the name
    of a directive, and which name makes which item (server/log.cpp, LogFormatter::init). */
module PatternTokens {
  import opened LogPattern
  import opened LogFormatting

  /** A letter, or a closing brace that no opening one precedes. */
  predicate NameLetter(c: char) {
    'a' <= c <= 'z' || 'A' <= c <= 'Z' || c == '}'
  }

  predicate IsName(name: string) {
    name != "" && forall i :: 0 <= i < |name| ==> NameLetter(name[i])
  }

  // ----- Putting canonical lists together -----

  /** What may follow a directive without braces. */
  predicate EndsName(rest: string) {
    rest != "" ==> !NameLetter(rest[0]) && rest[0] != '{'
  }

  lemma DirectiveStands(name: string, fmt: string, braced: bool, rest: string)
    requires IsName(name) && if braced then '}' !in fmt else fmt == "" && EndsName(rest)
    ensures Fits(Directive(name, fmt, braced), rest)
    ensures Source(Directive(name, fmt, braced)) == "%" + name + if braced then "{" + fmt + "}" else ""
  {}

  /** A directive in front of a canonical list. */
  lemma DirectiveFirst(name: string, fmt: string, braced: bool, ps: seq<Piece>, tail: string)
    requires Canonical(ps, tail)
    requires IsName(name) && if braced then '}' !in fmt else fmt == "" && EndsName(Print(ps, tail))
    ensures var all := [Directive(name, fmt, braced)] + ps;
            && Canonical(all, tail)
            && Print(all, tail) == "%" + name + (if braced then "{" + fmt + "}" else "") + Print(ps, tail)
  {
    DirectiveStands(name, fmt, braced, Print(ps, tail));
    hide Canonical, Print, Fits, Source, IsName, EndsName;
    CanonicalDirective(Directive(name, fmt, braced), ps, tail);
  }

  /** Text in front of a canonical list that starts with a directive. */
  lemma TextFirst(text: string, ps: seq<Piece>, tail: string)
    requires Canonical(ps, tail) && ps != [] && !ps[0].Run? && text != "" && '%' !in text
    ensures Canonical([Run(text)] + ps, tail) && Print([Run(text)] + ps, tail) == text + Print(ps, tail)
  {
    hide Canonical, Print;
    CanonicalRun(text, ps, tail);
  }

  lemma ReadBack(ps: seq<Piece>, tail: string)
    requires Canonical(ps, tail)
    ensures Tokens(Print(ps, tail)) == ToTokens(ps)
  {
    hide Canonical, Print;
    PrintThenScan(ps, tail);
  }

  lemma NothingLeft(tail: string)
    requires '%' !in tail
    ensures Canonical([], tail) && Print([], tail) == tail
  {}

  // ----- Patterns and their tokens -----

  /** A directive with any name of letters, alone and with a format. */
  lemma DirectiveIsRead(name: string, fmt: string)
    requires IsName(name) && '}' !in fmt
    ensures Tokens("%" + name) == [Field(name, "")]
    ensures Tokens("%" + name + "{" + fmt + "}") == [Field(name, fmt)]
  {
    hide Canonical, Print, IsName;
    var plain, braced := Directive(name, "", false), Directive(name, fmt, true);
    NothingLeft("");
    DirectiveFirst(name, "", false, [], "");
    ReadBack([plain] + [], "");
    assert "%" + name + "" + "" == "%" + name && [plain] + [] == [plain];
    assert ToTokens([plain]) == [Field(name, "")];
    DirectiveFirst(name, fmt, true, [], "");
    ReadBack([braced] + [], "");
    assert "%" + name + ("{" + fmt + "}") + "" == "%" + name + "{" + fmt + "}" && [braced] + [] == [braced];
    assert ToTokens([braced]) == [Field(name, fmt)];
  }

  /** A name ends at the next percent sign, and at the first character that is no letter and no
      brace; the text from there to the next directive is literal. */
  lemma NameEnds(name: string, text: string, more: string)
    requires IsName(name) && IsName(more)
    requires '%' !in text && EndsName(text)
    ensures Tokens("%" + name + text + "%" + more)
            == if text == "" then [Field(name, ""), Field(more, "")] else [Field(name, ""), Text(text), Field(more, "")]
  {
    hide Canonical, Print, IsName, NameLetter;
    var first, second := Directive(name, "", false), Directive(more, "", false);
    NothingLeft("");
    DirectiveFirst(more, "", false, [], "");
    var last := [second] + [];
    assert last == [second] && Print(last, "") == "%" + more;
    if text == "" {
      PercentEndsName("%" + more);
      DirectiveFirst(name, "", false, last, "");
      ReadBack([first] + last, "");
      assert "%" + name + "" + ("%" + more) == "%" + name + text + "%" + more;
      assert ToTokens([first] + last) == [Field(name, ""), Field(more, "")];
    } else {
      TextFirst(text, last, "");
      var behind := [Run(text)] + last;
      DirectiveFirst(name, "", false, behind, "");
      ReadBack([first] + behind, "");
      assert "%" + name + "" + (text + ("%" + more)) == "%" + name + text + "%" + more;
      assert ToTokens([first] + behind) == [Field(name, ""), Text(text), Field(more, "")];
    }
  }

  lemma PercentEndsName(rest: string)
    requires rest != "" && rest[0] == '%'
    ensures EndsName(rest)
  {}

  /** Text in front of a directive is literal; text behind the last one is lost. */
  lemma TextIsRead(before: string, name: string, after: string)
    requires before != "" && '%' !in before && IsName(name) && '%' !in after && EndsName(after)
    ensures Tokens(before + "%" + name + after) == [Text(before), Field(name, "")]
  {
    hide Canonical, Print, IsName, EndsName;
    var d := Directive(name, "", false);
    NothingLeft(after);
    DirectiveFirst(name, "", false, [], after);
    var last := [d] + [];
    assert last == [d];
    TextFirst(before, last, after);
    ReadBack([Run(before)] + last, after);
    assert before + ("%" + name + "" + after) == before + "%" + name + after;
    assert ToTokens([Run(before)] + last) == [Text(before), Field(name, "")];
  }

  /** Letter by letter: for every name of letters, every format, and every other character. */
  lemma LettersMakeNames(name: string, fmt: string, c: char)
    requires name != "" && forall i :: 0 <= i < |name| ==> 'a' <= name[i] <= 'z' || 'A' <= name[i] <= 'Z'
    requires '}' !in fmt
    requires !('a' <= c <= 'z') && !('A' <= c <= 'Z') && c != '{' && c != '}' && c != '%'
    ensures Tokens("%" + name) == [Field(name, "")]
    ensures Tokens("%" + name + "{" + fmt + "}") == [Field(name, fmt)]
    ensures Tokens("%" + name + "%m") == [Field(name, ""), Field("m", "")]
    ensures Tokens("%" + name + [c] + "%m") == [Field(name, ""), Text([c]), Field("m", "")]
  {
    assert NameLetter('m') && !NameLetter(c) && IsName(name) && IsName("m");
    EndsAt(c);
    hide *;
    DirectiveIsRead(name, fmt);
    NameEnds(name, "", "m");
    NameEnds(name, [c], "m");
    AppendM("%" + name + "");
    AppendM("%" + name + [c]);
    assert "%" + name + "" == "%" + name;
  }

  lemma EndsAt(c: char)
    requires !NameLetter(c) && c != '{'
    ensures EndsName([c]) && EndsName("")
  {}

  lemma AppendM(front: string)
    ensures front + "%" + "m" == front + "%m"
  {}

  /** A closing brace that no opening one precedes belongs to the name. */
  lemma BraceInName(a: string, b: string)
    requires forall i :: 0 <= i < |a| ==> 'a' <= a[i] <= 'z' || 'A' <= a[i] <= 'Z'
    requires forall i :: 0 <= i < |b| ==> 'a' <= b[i] <= 'z' || 'A' <= b[i] <= 'Z'
    ensures Tokens("%" + (a + "}" + b)) == [Field(a + "}" + b, "")]
  {
    var name := a + "}" + b;
    forall i | 0 <= i < |name| ensures NameLetter(name[i]) {
      assert name[i] == if i < |a| then a[i] else if i == |a| then '}' else b[i - |a| - 1];
    }
    DirectiveIsRead(name, "");
  }

  // ----- The table of items -----

  lemma ItemsOfOne(name: string, fmt: string)
    requires IsName(name) && '}' !in fmt
    ensures Items("%" + name) == [MakeItem(Field(name, ""))]
    ensures Items("%" + name + "{" + fmt + "}") == [MakeItem(Field(name, fmt))]
  {
    DirectiveIsRead(name, fmt);
  }

  lemma FormatOne<E>(item: FormatItem, field: (char, string, E) -> string, event: E)
    ensures FormatAll([item], field, event) == ItemText(item, field, event)
  {
    assert [item][1..] == [];
  }

  /** The text that a single directive makes, with and without a format: eight names give a value
      of the event, whatever the format; `d` gives the time in its format, or in the default one;
      `n` and `T` give a line end and a tab; any other name is reported. */
  lemma TableOfItems<E>(name: string, fmt: string, field: (char, string, E) -> string, event: E)
    requires name != "" && forall i :: 0 <= i < |name| ==> 'a' <= name[i] <= 'z' || 'A' <= name[i] <= 'Z'
    requires '}' !in fmt
    ensures var plain, formatted := FormatAll(Items("%" + name), field, event),
                                    FormatAll(Items("%" + name + "{" + fmt + "}"), field, event);
            if name in {"m", "p", "r", "c", "t", "f", "l", "F"} then plain == formatted == field(name[0], "", event)
            else if name == "d" then
              && plain == field('d', "%Y-%m-%d %H:%M:%S", event)
              && formatted == field('d', if fmt == "" then "%Y-%m-%d %H:%M:%S" else fmt, event)
            else if name == "n" then plain == formatted == "\n"
            else if name == "T" then plain == formatted == "\t"
            else plain == formatted == "<<error_format %" + name + ">>"
  {
    assert IsName(name);
    ItemsOfOne(name, fmt);
    hide Items, IsName, NameLetter;
    FormatOne(MakeItem(Field(name, "")), field, event);
    FormatOne(MakeItem(Field(name, fmt)), field, event);
    hide FormatAll;
    OneItem(name, "", field, event);
    OneItem(name, fmt, field, event);
  }

  lemma OneItem<E>(name: string, fmt: string, field: (char, string, E) -> string, event: E)
    requires name != ""
    ensures ItemText(MakeItem(Field(name, fmt)), field, event)
            == if name in {"m", "p", "r", "c", "t", "f", "l", "F"} then field(name[0], "", event)
               else if name == "d" then field('d', if fmt == "" then "%Y-%m-%d %H:%M:%S" else fmt, event)
               else if name == "n" then "\n"
               else if name == "T" then "\t"
               else "<<error_format %" + name + ">>"
  {
    if |name| == 1 {
      assert name == [name[0]];
    }
  }

  /** A brace that is never closed is reported. */
  lemma UnclosedBraceIsReported(name: string, fmt: string)
    requires IsName(name) && '}' !in fmt
    ensures Items("%" + name + "{" + fmt) == [StringItem("<<pattern_error>>")]
  {
    var source := "%" + name + "{" + fmt;
    BrokenIsCanonical(source, name, fmt);
    hide Canonical, Print, IsName;
    ReadBack([Broken(source)], "");
    assert ToTokens([Broken(source)]) == [Text("<<pattern_error>>")];
  }

  lemma BrokenIsCanonical(source: string, name: string, fmt: string)
    requires IsName(name) && '}' !in fmt && source == "%" + name + "{" + fmt
    ensures Canonical([Broken(source)], "") && Print([Broken(source)], "") == source
  {
    assert source[1..] == name + ("{" + fmt);
    NameThenBrace(name, "{" + fmt);
    assert source[|name| + 2..] == fmt;
    hide NameLength;
    assert BrokenShape(source);
    hide BrokenShape;
    CanonicalDirective(Broken(source), [], "");
    assert [Broken(source)] + [] == [Broken(source)];
  }
}
