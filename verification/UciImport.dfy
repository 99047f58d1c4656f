/** What holds of every imported package, and when export followed by import is exact. */
module UciImport {
  import opened UciText
  import opened UciTree
  import opened UciPackage
  import opened UciTokens
  import opened UciFile
  import opened UciRoundTrip

  // ---------- printed lines hold no newline ----------

  /** Characters no valid name, type or value contains, nor any text printed around them. */
  predicate NeverPrinted(c: char) {
    c == '\n' || c == '\0'
  }

  predicate OptionWithout(o: Option, c: char) {
    c !in o.name &&
    match o.value
    case Str(s) => c !in s
    case List(items) => forall i | i in items :: c !in i
  }

  predicate SectionWithout(s: Section, c: char) {
    c !in s.typ && (s.anonymous || c !in s.name) && forall o | o in s.options :: OptionWithout(o, c)
  }

  lemma {:induction false} QuoteWithout(s: string, c: char)
    requires c !in s && NeverPrinted(c)
    ensures c !in Escape(s) && c !in Quote(s)
  {
    if s != "" {
      QuoteWithout(s[1..], c);
      assert s[0] in s;
    }
  }

  lemma ValidWithout(s: string, c: char)
    requires NeverPrinted(c)
    ensures ValidName(s) || ValidType(s) || ValidText(s) ==> c !in s
  {
    assert !TypeChar(c) && !NameChar(c) && !TextChar(c);
  }

  lemma LineWithout(indent: string, word: string, a: string, b: string, c: char)
    requires c !in indent && c !in word && c !in a && c !in b && NeverPrinted(c)
    ensures c !in Line(indent, word, TwoQuoted(a, b)) && c !in Line(indent, word, Quote(a))
  {
    QuoteWithout(a, c);
    QuoteWithout(b, c);
  }

  lemma {:induction false} ItemsWithout(name: string, items: seq<string>, c: char)
    requires c !in name && NeverPrinted(c) && forall i | i in items :: c !in i
    ensures forall l | l in ItemLines(name, items) :: c !in l
  {
    if items != [] {
      LineWithout("\t", "list", name, items[0], c);
      ItemsWithout(name, items[1..], c);
    }
  }

  lemma {:induction false} OptionsWithout(options: seq<Option>, c: char)
    requires NeverPrinted(c) && forall o | o in options :: OptionWithout(o, c)
    ensures forall l | l in OptionsLines(options) :: c !in l
  {
    if options != [] {
      var o := options[0];
      assert OptionWithout(o, c);
      match o.value {
        case Str(v) => LineWithout("\t", "option", o.name, v, c);
        case List(items) => ItemsWithout(o.name, items, c);
      }
      OptionsWithout(options[1..], c);
    }
  }

  lemma {:induction false} TreeWithout(t: Tree, c: char)
    requires NeverPrinted(c) && forall s | s in t :: SectionWithout(s, c)
    ensures forall l | l in TreeLines(t) :: c !in l
  {
    if t != [] {
      var s := t[0];
      assert SectionWithout(s, c);
      LineWithout("", "config", s.typ, if s.anonymous then "" else s.name, c);
      OptionsWithout(s.options, c);
      TreeWithout(t[1..], c);
    }
  }

  lemma TreeNewlineFree(t: Tree)
    requires forall s | s in t :: SectionExportable(s)
    ensures forall l | l in TreeLines(t) :: NewlineFree(l)
  {
    forall s | s in t ensures SectionWithout(s, '\n') {
      assert SectionExportable(s);
      ValidWithout(s.typ, '\n');
      ValidWithout(s.name, '\n');
      forall o | o in s.options ensures OptionWithout(o, '\n') {
        assert OptionOk(o);
        ValidWithout(o.name, '\n');
      }
    }
    TreeWithout(t, '\n');
  }

  /** Import undoes export: every section and option comes back in order, one-element
      lists stay lists, and only anonymous sections get a fresh name. */
  lemma ImportExport(t: Tree)
    requires Exportable(t)
    ensures Import(Export(t)) == Ok(Normal(t))
  {
    var lines := TreeLines(t);
    TreeNewlineFree(t);
    SplitUnlines(lines + [""], "");
    assert Unlines(lines + [""]) + "" == Export(t);
    assert SplitLines("") == [""];
    ImportTreeLines(t);
    var c := ImportLines(EMPTY, lines).value;
    BlankLine(c);
    assert ImportLines(c, [""]) == Ok(c) by { FirstLine(c, "", []); EmptyConcat([""]); }
    ImportConcat(EMPTY, lines, [""]);
    ImportConcat(EMPTY, lines + [""], [""]);
  }

  // ---------- invariants of import ----------

  predicate ContextOk(c: Context) {
    && NoClash(c.tree)
    && forall k | 0 <= k < |c.tree| ::
        && SectionExportable(c.tree[k])
        && (c.tree[k].name == "" ==> c.cur == Some(k) && k == |c.tree| - 1 && c.tree[k].anonymous)
        && (c.tree[k].name != "" ==> ValidName(c.tree[k].name))
  }

  predicate AllNamed(t: Tree) {
    forall k | 0 <= k < |t| :: t[k].name != ""
  }

  lemma FixupOk(c: Context)
    requires ContextOk(c)
    ensures ContextOk(Fixup(c)) && AllNamed(Fixup(c).tree)
  {
    if c.cur.Some? {
      var s := c.tree[c.cur.value];
      GeneratedNameInjective(c.n + 1, SectionHash(s.typ, s.options), 0, 0);
    }
  }

  lemma OpenSectionOk(c: Context, typ: string, name: string)
    requires ContextOk(c) && AllNamed(c.tree) && ValidType(typ) && (name != "" ==> ValidName(name))
    ensures ContextOk(OpenSection(c, typ, name))
  {
    assert name == "" ==> FindSection(c.tree, name) == |c.tree|;
  }

  predicate OptionsOk(options: seq<Option>) {
    UniqueOptions(options) && forall o | o in options :: OptionOk(o)
  }

  lemma WithoutKeeps(options: seq<Option>, k: nat)
    requires OptionsOk(options) && k < |options|
    ensures OptionsOk(Without(options, k))
    ensures forall o | o in Without(options, k) :: o.name != options[k].name
  {
    hide OptionOk;
  }

  lemma AppendKeeps(options: seq<Option>, o: Option)
    requires OptionsOk(options) && OptionOk(o) && forall x | x in options :: x.name != o.name
    ensures OptionsOk(options + [o])
  {
    hide OptionOk;
  }

  lemma SetOptionKeeps(options: seq<Option>, name: string, value: string)
    requires OptionsOk(options) && ValidName(name) && NewlineFree(value)
    ensures OptionsOk(SetOption(options, name, value))
  {
    hide OptionsOk, Without, ValidName, NewlineFree;
    var k := FindOption(options, name);
    var o := Option(name, Str(value));
    if k == |options| {
      AppendKeeps(options, o);
    } else {
      WithoutKeeps(options, k);
      AppendKeeps(Without(options, k), o);
    }
  }

  lemma AddListOptionKeeps(options: seq<Option>, name: string, value: string)
    requires OptionsOk(options) && ValidName(name) && NewlineFree(value)
    ensures OptionsOk(AddListOption(options, name, value))
  {
    hide Without, ValidName, NewlineFree;
    var k := FindOption(options, name);
    if k == |options| {
      AppendKeeps(options, Option(name, List([value])));
    } else {
      assert OptionOk(options[k]);
      match options[k].value
      case Str(s) =>
        WithoutKeeps(options, k);
        AppendKeeps(Without(options, k), Option(name, List([s, value])));
      case List(items) =>
        var o := Option(name, List(items + [value]));
        assert forall i | 0 <= i < |options| :: options[k := o][i].name == options[i].name;
    }
  }

  lemma WithOptionsOk(c: Context, options: seq<Option>)
    requires ContextOk(c) && c.cur.Some? && OptionsOk(options)
    ensures ContextOk(WithOptions(c, options))
  {
  }

  lemma OptionCommandOk(c: Context, s: string, list: bool)
    requires ContextOk(c) && NewlineFree(s) && OptionCommand(c, s, list).Ok?
    ensures ContextOk(OptionCommand(c, s, list).value.0) && NewlineFree(OptionCommand(c, s, list).value.1)
  {
    var name := NextArg(s, true, true).value;
    NextArgChars(s, true, true);
    var value := NextArg(name.rest, false, false).value;
    NextArgChars(name.rest, false, false);
    AssertEolChars(value.rest);
    var options := c.tree[c.cur.value].options;
    SetOptionKeeps(options, name.value, value.value);
    AddListOptionKeeps(options, name.value, value.value);
    WithOptionsOk(c, if list then AddListOption(options, name.value, value.value)
                     else SetOption(options, name.value, value.value));
  }

  lemma ConfigCommandOk(c: Context, s: string)
    requires ContextOk(c) && NewlineFree(s) && ConfigCommand(c, s).Ok?
    ensures ContextOk(ConfigCommand(c, s).value.0) && NewlineFree(ConfigCommand(c, s).value.1)
  {
    var typ := NextArg(s, true, false).value;
    NextArgChars(s, true, false);
    var name := NextArg(typ.rest, false, true).value;
    NextArgChars(typ.rest, false, true);
    AssertEolChars(name.rest);
    FixupOk(c);
    OpenSectionOk(Fixup(c), typ.value, name.value);
  }

  lemma RunCommandOk(c: Context, word: string, args: string)
    requires ContextOk(c) && NewlineFree(args) && RunCommand(c, word, args).Ok?
    ensures ContextOk(RunCommand(c, word, args).value.0) && NewlineFree(RunCommand(c, word, args).value.1)
  {
    if word == "p" || word == "package" {
      NextArgChars(args, true, true);
      AssertEolChars(NextArg(args, true, true).value.rest);
    } else if word == "c" || word == "config" {
      ConfigCommandOk(c, args);
    } else {
      OptionCommandOk(c, args, !(word == "o" || word == "option"));
    }
  }

  lemma {:induction false} ParseLineOk(c: Context, s: string)
    requires ContextOk(c) && NewlineFree(s) && ParseLine(c, s).Ok?
    ensures ContextOk(ParseLine(c, s).value)
    decreases |s|
  {
    hide RunCommand, ContextOk, WordEnd, SkipBlanks;
    var s1 := SkipBlanks(s);
    if s1 != "" && s1[0] != '#' {
      var k := WordEnd(s1);
      var args := if k == |s1| then "" else s1[k + 1..];
      RunCommandOk(c, s1[..k], args);
      var done := RunCommand(c, s1[..k], args).value;
      ParseLineOk(done.0, done.1);
    }
  }

  lemma {:induction false} ImportLinesOk(c: Context, lines: seq<string>)
    requires ContextOk(c) && ImportLines(c, lines).Ok? && forall l | l in lines :: NewlineFree(l)
    ensures ContextOk(ImportLines(c, lines).value)
    decreases |lines|
  {
    if lines != [] {
      ParseLineOk(c, lines[0]);
      ImportLinesOk(ParseLine(c, lines[0]).value, lines[1..]);
    }
  }

  /** Every imported package has valid names and types, unique option names, nonempty
      lists, values of one line, and no named section with an earlier section's name. */
  lemma ImportOk(text: string)
    requires Import(text).Ok?
    ensures var t := Import(text).value.tree;
      NoClash(t) && TreeOk(t) && forall s | s in t :: SectionExportable(s)
  {
    ImportLinesOk(EMPTY, SplitLines(text));
    FixupOk(ImportLines(EMPTY, SplitLines(text)).value);
  }

  /** The condition for the round trip is exact. */
  lemma ImportExportExactly(t: Tree)
    ensures Import(Export(t)) == Ok(Normal(t)) <==> Exportable(t)
  {
    if Exportable(t) {
      ImportExport(t);
    } else if Import(Export(t)) == Ok(Normal(t)) {
      ImportOk(Export(t));
      NormalKeeps(t);
      forall i | 0 <= i < |t| ensures SectionExportable(t[i]) {
        var s := Normal(t).tree[i];
        assert SectionExportable(s);
        assert s.(name := "") == t[i].(name := "");
      }
    }
  }
}
