/** No NUL gets into a package that is read from files without one, so what a commit
    writes can be read again as a C string. */
module UciNul {
  import opened UciText
  import opened UciTree
  import opened UciPackage
  import opened UciJournal
  import opened UciReplay
  import opened UciTokens
  import opened UciFile
  import opened UciImport
  import opened UciParser

  predicate NulFree(t: Tree) {
    forall s | s in t :: SectionWithout(s, '\0')
  }

  predicate OptionsNulFree(options: seq<Option>) {
    forall o | o in options :: OptionWithout(o, '\0')
  }

  lemma SetNulFree(options: seq<Option>, name: string, value: string)
    requires OptionsNulFree(options) && '\0' !in name && '\0' !in value
    ensures OptionsNulFree(SetOption(options, name, value))
    ensures OptionsNulFree(AddListOption(options, name, value))
  {
    var k := FindOption(options, name);
    if k < |options| {
      assert OptionWithout(options[k], '\0');
    }
  }

  // ---------- reading the file ----------

  lemma OpenNulFree(c: Context, typ: string, name: string)
    requires NulFree(c.tree) && '\0' !in typ && '\0' !in name
    ensures NulFree(Fixup(c).tree) && NulFree(OpenSection(c, typ, name).tree)
  {
    if c.cur.Some? {
      var s := c.tree[c.cur.value];
      assert SectionWithout(s, '\0');
      GeneratedNameInjective(c.n + 1, SectionHash(s.typ, s.options), 0, 0);
      ValidWithout(NameFor(c.n + 1, s), '\0');
    }
    var k := FindSection(c.tree, name);
    if k < |c.tree| {
      assert SectionWithout(c.tree[k], '\0');
    }
  }

  lemma OptionCommandNulFree(c: Context, s: string, list: bool)
    requires NulFree(c.tree) && '\0' !in s && OptionCommand(c, s, list).Ok?
    ensures var r := OptionCommand(c, s, list).value; NulFree(r.0.tree) && '\0' !in r.1
  {
    var name := NextArg(s, true, true).value;
    NextArgChars(s, true, true);
    var value := NextArg(name.rest, false, false).value;
    NextArgChars(name.rest, false, false);
    AssertEolChars(value.rest);
    var section := c.tree[c.cur.value];
    assert SectionWithout(section, '\0');
    SetNulFree(section.options, name.value, value.value);
  }

  lemma CommandNulFree(c: Context, word: string, args: string)
    requires NulFree(c.tree) && '\0' !in args && RunCommand(c, word, args).Ok?
    ensures var r := RunCommand(c, word, args).value; NulFree(r.0.tree) && '\0' !in r.1
  {
    if word == "p" || word == "package" {
      NextArgChars(args, true, true);
      AssertEolChars(NextArg(args, true, true).value.rest);
    } else if word == "c" || word == "config" {
      ConfigCommandNulFree(c, args);
    } else {
      OptionCommandNulFree(c, args, !(word == "o" || word == "option"));
    }
  }

  lemma ConfigCommandNulFree(c: Context, s: string)
    requires NulFree(c.tree) && '\0' !in s && ConfigCommand(c, s).Ok?
    ensures var r := ConfigCommand(c, s).value; NulFree(r.0.tree) && '\0' !in r.1
  {
    var typ := NextArg(s, true, false).value;
    NextArgChars(s, true, false);
    var name := NextArg(typ.rest, false, true).value;
    NextArgChars(typ.rest, false, true);
    AssertEolChars(name.rest);
    OpenNulFree(c, typ.value, name.value);
    OpenNulFree(Fixup(c), typ.value, name.value);
  }

  lemma {:induction false} LineNulFree(c: Context, s: string)
    requires NulFree(c.tree) && '\0' !in s && ParseLine(c, s).Ok?
    ensures NulFree(ParseLine(c, s).value.tree)
    decreases |s|
  {
    hide RunCommand, NulFree, WordEnd, SkipBlanks;
    var s1 := SkipBlanks(s);
    if s1 != "" && s1[0] != '#' {
      var k := WordEnd(s1);
      var args := if k == |s1| then "" else s1[k + 1..];
      CommandNulFree(c, s1[..k], args);
      var done := RunCommand(c, s1[..k], args).value;
      LineNulFree(done.0, done.1);
    }
  }

  lemma {:induction false} LinesNulFree(c: Context, lines: seq<string>)
    requires NulFree(c.tree) && (forall l | l in lines :: '\0' !in l) && ImportLines(c, lines).Ok?
    ensures NulFree(ImportLines(c, lines).value.tree)
    decreases |lines|
  {
    if lines != [] {
      LineNulFree(c, lines[0]);
      LinesNulFree(ParseLine(c, lines[0]).value, lines[1..]);
    }
  }

  /** A text without a NUL imports to names, types and values without one. */
  lemma ImportNulFree(text: string)
    requires '\0' !in text && Import(text).Ok?
    ensures NulFree(Import(text).value.tree)
  {
    LinesWithout(text, '\0');
    LinesNulFree(EMPTY, SplitLines(text));
    OpenNulFree(ImportLines(EMPTY, SplitLines(text)).value, "", "");
  }

  // ---------- replaying the journal ----------

  lemma EditNulFree(st: State, e: Edit)
    requires NulFree(st.tree) && !e.AddSection? && Spelled(e) && Replayable(st, e) && Perform(st, e).Ok?
    ensures NulFree(Perform(st, e).value.state.tree)
  {
    hide SetOption, AddListOption, ValidName, ValidType, ValidText, Unchanged;
    var k := FindSection(st.tree, e.section);
    ValidWithout(e.section, '\0');
    match e {
      case SetValue(_, o, v) =>
        ValidWithout(v, '\0');
        if k < |st.tree| {
          assert SectionWithout(st.tree[k], '\0');
          if o.Some? {
            ValidWithout(o.value, '\0');
            SetNulFree(st.tree[k].options, o.value, v);
          }
        }
      case AddToList(_, o, v) =>
        ValidWithout(o, '\0');
        ValidWithout(v, '\0');
        assert SectionWithout(st.tree[k], '\0');
        SetNulFree(st.tree[k].options, o, v);
      case Delete(_, o) =>
        assert SectionWithout(st.tree[k], '\0');
      case RenameTo(_, o, v) =>
        ValidWithout(v, '\0');
        assert SectionWithout(st.tree[k], '\0');
        if o.Some? {
          RenamedOption(st.tree[k].options, FindOption(st.tree[k].options, o.value), v);
        }
    }
  }

  lemma RenamedOption(options: seq<Option>, k: nat, name: string)
    requires OptionsNulFree(options) && k < |options| && '\0' !in name
    ensures OptionsNulFree(options[k := options[k].(name := name)])
  {
    assert OptionWithout(options[k], '\0');
  }

  lemma StepNulFree(name: string, st: State, line: string)
    requires NulFree(st.tree)
    ensures NulFree(ReplayStep(name, st, line).tree)
  {
    hide Perform, Spelled, Replayable, SectionWithout;
    var u := ParseTuple(line);
    ParsedEdit(st, line);
    if u.Ok? && EditOf(u.value).Ok? && Perform(st, EditOf(u.value).value).Ok? {
      EditNulFree(st, EditOf(u.value).value);
      MarkNulFree(Perform(st, EditOf(u.value).value).value.state.tree, u.value.section);
    }
  }

  lemma MarkNulFree(t: Tree, section: string)
    requires NulFree(t)
    ensures NulFree(MarkAnonymous(t, section))
  {
    var k := FindSection(t, section);
    if k < |t| {
      assert SectionWithout(t[k], '\0');
    }
  }

  /** Whatever the journal holds: its names and values are checked before they are used. */
  lemma {:induction false} ReplayNulFree(name: string, st: State, lines: seq<string>)
    requires NulFree(st.tree)
    ensures NulFree(ReplayLines(name, st, lines).tree)
    decreases |lines|
  {
    if lines != [] {
      StepNulFree(name, st, lines[0]);
      ReplayNulFree(name, ReplayStep(name, st, lines[0]), lines[1..]);
    }
  }

  // ---------- writing the file ----------

  lemma {:induction false} UnlinesNulFree(lines: seq<string>)
    requires forall l | l in lines :: '\0' !in l
    ensures '\0' !in Unlines(lines)
  {
    if lines != [] {
      UnlinesNulFree(lines[1..]);
      assert '\0' !in lines[0] + "\n";
    }
  }

  lemma ExportNulFree(t: Tree)
    requires NulFree(t)
    ensures '\0' !in Export(t)
  {
    TreeWithout(t, '\0');
    UnlinesNulFree(TreeLines(t) + [""]);
  }

  /** What is read from a file without a NUL and any journal prints as such a file. */
  lemma RewrittenNulFree(name: string, file: string, journal: string)
    requires '\0' !in file && Import(file).Ok?
    ensures '\0' !in Export(Replay(name, Import(file).value, journal).tree)
  {
    ImportNulFree(file);
    ReplayNulFree(name, Import(file).value, SplitLines(journal));
    ExportNulFree(Replay(name, Import(file).value, journal).tree);
  }
}
