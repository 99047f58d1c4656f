/** Committing keeps what a reader sees. */
module UciCommit {
  import opened UciText
  import opened UciTree
  import opened UciPackage
  import opened UciJournal
  import opened UciReplay
  import opened UciRevert
  import opened UciFile
  import opened UciRoundTrip
  import opened UciImport
  import opened UciNormalForm
  import opened UciStore

  /** Equal but for the generated names of anonymous sections. */
  predicate SameUpToNames(a: Tree, b: Tree) {
    |a| == |b| &&
    forall i | 0 <= i < |a| :: a[i].(name := "") == b[i].(name := "") && (a[i].anonymous || a[i] == b[i])
  }

  /** What a tree must satisfy for its file to say the same: distinct option names in
      every section, and no named section called like an earlier one, counting the names
      the next reader will generate. Renaming never checks either. */
  predicate Committable(t: Tree) {
    (forall s | s in t :: UniqueOptions(s.options)) && NoClash(Normal(t).tree)
  }

  lemma CommittableExportable(t: Tree)
    requires TreeOk(t)
    ensures Exportable(t) <==> Committable(t)
  {
    if Exportable(t) {
      forall s | s in t ensures UniqueOptions(s.options) {
        assert SectionExportable(s);
      }
    }
    if Committable(t) {
      forall s | s in t ensures SectionExportable(s) {
        assert SectionOk(s);
      }
    }
  }

  lemma {:induction false} NormalUpToNames(a: Tree, b: Tree)
    requires SameUpToNames(a, b)
    ensures Normal(a) == Normal(b)
  {
    if a != [] {
      var k := |a| - 1;
      var x, y := a[k], b[k];
      assert SameUpToNames(a[..k], b[..k]);
      NormalUpToNames(a[..k], b[..k]);
      assert x.typ == x.(name := "").typ == y.typ && x.options == x.(name := "").options == y.options;
      assert x.anonymous == x.(name := "").anonymous == y.anonymous;
      var m := Normal(a[..k]).n + 2;
      assert x.(name := NameFor(m, x)) == x.(name := "").(name := NameFor(m, x)) == y.(name := NameFor(m, y));
    }
  }

  // ---------- counting sections ----------

  predicate SameShape(c: Context, c': Context) {
    |c.tree| == |c'.tree| && c.redefined == c'.redefined
  }

  lemma {:induction false} ImportPrefix(c: Context, a: seq<string>, b: seq<string>)
    requires ImportLines(c, a + b).Ok?
    ensures ImportLines(c, a).Ok?
    decreases |a|
  {
    if a != [] {
      assert (a + b)[1..] == a[1..] + b && (a + b)[0] == a[0];
      ImportPrefix(ParseLine(c, a[0]).value, a[1..], b);
    }
  }

  lemma OptionLineShape(c: Context, name: string, value: string, list: bool)
    requires ValidName(name)
    ensures var r := ParseLine(c, Line("\t", if list then "list" else "option", TwoQuoted(name, value)));
      r.Ok? ==> SameShape(c, r.value)
  {
    if c.cur.Some? {
      ParseOptionLine(c, name, value, list);
    } else {
      NoSectionNoOption(c, name, value, list);
    }
  }

  lemma {:induction false} ItemLinesShape(c: Context, name: string, items: seq<string>)
    requires ValidName(name) && ImportLines(c, ItemLines(name, items)).Ok?
    ensures SameShape(c, ImportLines(c, ItemLines(name, items)).value)
    decreases |items|
  {
    if items != [] {
      OptionLineShape(c, name, items[0], true);
      var lines := ItemLines(name, items);
      assert lines[1..] == ItemLines(name, items[1..]);
      ItemLinesShape(ParseLine(c, lines[0]).value, name, items[1..]);
    }
  }

  lemma {:induction false} OptionLinesShape(c: Context, options: seq<Option>)
    requires (forall o | o in options :: OptionOk(o)) && ImportLines(c, OptionsLines(options)).Ok?
    ensures SameShape(c, ImportLines(c, OptionsLines(options)).value)
    decreases |options|
  {
    if options != [] {
      var o := options[0];
      assert OptionOk(o);
      var first, rest := OptionLines(o), OptionsLines(options[1..]);
      ImportPrefix(c, first, rest);
      ImportConcat(c, first, rest);
      match o.value {
        case Str(v) =>
          OptionLineShape(c, o.name, v, false);
          assert first[1..] == [];
        case List(items) => ItemLinesShape(c, o.name, items);
      }
      OptionLinesShape(ImportLines(c, first).value, options[1..]);
    }
  }

  lemma SectionLinesShape(c: Context, s: Section)
    requires SectionOk(s) && ImportLines(c, SectionLines(s)).Ok?
    ensures var c' := ImportLines(c, SectionLines(s)).value;
      |c'.tree| <= |c.tree| + 1 && (|c'.tree| == |c.tree| + 1 ==> c'.redefined == c.redefined)
  {
    var body := OptionsLines(s.options);
    BlankLine(c);
    ParseConfigLine(c, s);
    TwoFirst("", ConfigLine(s), body);
    FirstLine(c, "", [ConfigLine(s)] + body);
    FirstLine(c, ConfigLine(s), body);
    OptionLinesShape(ParseLine(c, ConfigLine(s)).value, s.options);
  }

  /** A file in which some section line found an existing section holds fewer sections. */
  lemma {:induction false} TreeLinesShape(t: Tree, lines: seq<string>)
    requires TreeOk(t) && lines == TreeLines(t) && ImportLines(EMPTY, lines).Ok?
    ensures var c := ImportLines(EMPTY, lines).value;
      |c.tree| <= |t| && (|c.tree| == |t| ==> c.redefined == {})
  {
    hide ImportLines, TreeLines, SectionLines, SectionOk;
    if t == [] {
      NoTreeLines();
    } else {
      var before, s := t[..|t| - 1], t[|t| - 1];
      assert t == before + [s];
      TreeLinesSnoc(before, s);
      var first := TreeLines(before);
      AppendedShape(first, s);
      TreeLinesShape(before, first);
    }
  }

  lemma NoTreeLines()
    ensures TreeLines([]) == [] && ImportLines(EMPTY, []) == Ok(EMPTY)
  {
  }

  lemma AppendedShape(lines: seq<string>, s: Section)
    requires SectionOk(s) && ImportLines(EMPTY, lines + SectionLines(s)).Ok?
    ensures ImportLines(EMPTY, lines).Ok?
    ensures var c, c' := ImportLines(EMPTY, lines).value, ImportLines(EMPTY, lines + SectionLines(s)).value;
      |c'.tree| <= |c.tree| + 1 && (|c'.tree| == |c.tree| + 1 ==> c'.redefined == c.redefined)
  {
    ImportPrefix(EMPTY, lines, SectionLines(s));
    ImportConcat(EMPTY, lines, SectionLines(s));
    SectionLinesShape(ImportLines(EMPTY, lines).value, s);
  }

  lemma ExportedText(t: Tree)
    requires forall s | s in t :: SectionExportable(s)
    ensures SplitLines(Export(t)) == TreeLines(t) + ["", ""]
  {
    TreeNewlineFree(t);
    SplitUnlines(TreeLines(t) + [""], "");
    EmptyConcat(Export(t));
    assert SplitLines("") == [""];
    Assoc(TreeLines(t), [""], [""]);
  }

  lemma TwoBlankLines(c: Context)
    ensures ImportLines(c, ["", ""]) == Ok(c)
  {
    BlankLine(c);
    FirstLine(c, "", [""]);
    FirstLine(c, "", []);
    EmptyConcat([""]);
  }

  /** If reading an exported tree gives as many sections, nothing was merged. */
  lemma UnmergedIsPlain(t: Tree)
    requires TreeOk(t) && (forall s | s in t :: SectionExportable(s))
    requires Import(Export(t)).Ok? && |Import(Export(t)).value.tree| == |t|
    ensures PlainText(Export(t))
  {
    ExportedText(t);
    ImportPrefix(EMPTY, TreeLines(t), ["", ""]);
    ImportConcat(EMPTY, TreeLines(t), ["", ""]);
    var c := ImportLines(EMPTY, TreeLines(t)).value;
    TwoBlankLines(c);
    TreeLinesShape(t, TreeLines(t));
  }

  // ---------- the view across a commit ----------

  lemma ViewOk(name: string, file: string, journal: string)
    requires View(name, file, journal).Ok?
    ensures TreeOk(View(name, file, journal).value.tree)
  {
    ImportOk(file);
    ReplayKeepsOk(name, Import(file).value, SplitLines(journal));
  }

  lemma EmptyJournal(name: string, st: State)
    ensures Replay(name, st, "") == st
  {
    assert SplitLines("") == [""];
    assert ReplayLines(name, st, [""]) == ReplayLines(name, st, []);
  }

  /** Reading back the file of an exported view. */
  lemma ExportKeepsView(t: Tree)
    requires TreeOk(t)
    ensures Import(Export(t)).Ok? && SameUpToNames(Import(Export(t)).value.tree, t) <==> Committable(t)
  {
    if Committable(t) {
      CommittableExportable(t);
      ImportExport(t);
      NormalKeeps(t);
    } else if Import(Export(t)).Ok? && SameUpToNames(Import(Export(t)).value.tree, t) {
      var w := Import(Export(t)).value;
      ImportOk(Export(t));
      forall i | 0 <= i < |t| ensures SectionExportable(t[i]) {
        assert SectionExportable(w.tree[i]) && SectionOk(t[i]);
        assert w.tree[i].options == w.tree[i].(name := "").options == t[i].(name := "").options == t[i].options;
      }
      UnmergedIsPlain(t);
      ImportIsNormal(Export(t));
      NormalUpToNames(w.tree, t);
    }
  }

  /** For any text that imports, the export reproduces the import exactly when the names and
      the counter are those its sections get by place and content; texts that reopen no
      generated name are of this kind. */
  lemma NormalFormExactly(text: string)
    requires Import(text).Ok?
    ensures var p := Import(text).value; Import(Export(p.tree)) == Ok(p) <==> Normal(p.tree) == p
    ensures PlainText(text) ==> Normal(Import(text).value.tree) == Import(text).value
  {
    var p := Import(text).value;
    ImportOk(text);
    if Normal(p.tree) == p {
      ImportExport(p.tree);
    }
    if Import(Export(p.tree)) == Ok(p) {
      UnmergedIsPlain(p.tree);
      ImportIsNormal(Export(p.tree));
    }
    if PlainText(text) {
      ImportIsNormal(text);
    }
  }

  // ---------- a text that is not reproduced ----------

  /** The name the first section of type z gets while it has no options. */
  function FirstName(): string {
    NameFor(2, NewSection("", "z"))
  }

  /** A section without a name, reopened by the name it got, and given an option. */
  function ReopeningLines(): seq<string> {
    [ConfigLine(Section("", "z", true, [])), ConfigLine(Section(FirstName(), "z", false, [])),
     Line("\t", "option", TwoQuoted("a", "b"))]
  }

  const REOPENED: seq<Option> := [Option("a", Str("b"))]

  /** Reading z, a and b through the string hash. */
  lemma OneCharHash(hash: Maybe<nat>, c: char)
    requires c as int < 128 && (hash.Some? ==> hash.value < 0x100_0000)
    ensures Djb(hash, [c]) == (if hash.None? then 5381 else hash.value) * 33 + c as int
  {
    var h := if hash.None? then 5381 else hash.value;
    assert HashChars((h * 33 + c as int) % WORD, [c][1..]) == (h * 33 + c as int) % WORD;
    assert CharValue(c) == c as int;
  }

  lemma HashOfOne(hash: nat, name: string, text: string)
    requires hash < WORD
    ensures HashOptions(hash, [Option(name, Str(text))]) == Djb(Some(Djb(Some(hash), name)), text)
    ensures HashOptions(hash, []) == hash
    ensures forall items :: HashOptions(hash, [Option(name, List(items))]) == Djb(Some(hash), name)
  {
    hide Djb;
    forall items ensures HashOptions(hash, [Option(name, List(items))]) == Djb(Some(hash), name) {
      assert [Option(name, List(items))][1..] == [];
    }
    assert [Option(name, Str(text))][1..] == [];
  }

  lemma TheTwoHashes()
    ensures SectionHash("z", []) == 177695 && SectionHash("z", REOPENED) == 193513154
  {
    hide Djb, HashOptions;
    OneCharHash(None, 'z');
    OneCharHash(Some(177695), 'a');
    OneCharHash(Some(5864032), 'b');
    HashOfOne(177695, "a", "b");
  }

  lemma OptionChangesName()
    ensures ValidName(FirstName()) && NameFor(2, Section("", "z", true, REOPENED)) != FirstName()
  {
    hide SectionHash, GeneratedName, ValidName;
    TheTwoHashes();
    GeneratedNameInjective(2, 177695, 2, 193513154);
  }

  lemma ReopeningImports()
    requires ValidName(FirstName())
    ensures ImportLines(EMPTY, ReopeningLines())
         == Ok(Context([Section(FirstName(), "z", true, REOPENED)], 2, Some(0), {0}))
  {
    var g := FirstName();
    var open, named := Section("", "z", true, []), Section(g, "z", true, []);
    var c1 := Context([open], 1, Some(0), {});
    var c2 := Context([named], 2, Some(0), {0});
    hide Fixup, OpenSection, NameFor, ParseLine, ImportLines, SetOption, WithOptions, FirstName, TwoQuoted, Line;
    FirstTurn();
    SecondTurn();
    ThirdTurn();
    ParseConfigLine(EMPTY, open);
    ParseConfigLine(c1, Section(g, "z", false, []));
    ParseOptionLine(c2, "a", "b", false);
    var lines := ReopeningLines();
    ThreeLines(EMPTY, lines[0], lines[1], lines[2]);
  }

  lemma ThreeLines(c: Context, one: string, two: string, three: string)
    requires ParseLine(c, one).Ok? && ParseLine(ParseLine(c, one).value, two).Ok?
    requires ParseLine(ParseLine(ParseLine(c, one).value, two).value, three).Ok?
    ensures ImportLines(c, [one, two, three]) == ParseLine(ParseLine(ParseLine(c, one).value, two).value, three)
  {
    hide ParseLine;
    var c1 := ParseLine(c, one).value;
    FirstLine(c, one, [two, three]);
    FirstLine(c1, two, [three]);
    FirstLine(ParseLine(c1, two).value, three, []);
    assert [one] + [two, three] == [one, two, three] && [two] + [three] == [two, three] && [three] + [] == [three];
  }

  lemma FirstTurn()
    ensures OpenSection(Fixup(EMPTY), "z", "") == Context([Section("", "z", true, [])], 1, Some(0), {})
  {
  }

  lemma SecondTurn()
    ensures var c := Context([Section("", "z", true, [])], 1, Some(0), {});
      OpenSection(Fixup(c), "z", FirstName()) == Context([Section(FirstName(), "z", true, [])], 2, Some(0), {0})
  {
    var c := Context([Section("", "z", true, [])], 1, Some(0), {});
    var t := [Section(FirstName(), "z", true, [])];
    assert Fixup(c).tree == t;
    FoundSection(t, FirstName(), 0);
    assert t[0 := t[0].(typ := "z")] == t;
  }

  lemma ThirdTurn()
    ensures var c := Context([Section(FirstName(), "z", true, [])], 2, Some(0), {0});
      WithOptions(c, SetOption([], "a", "b")) == Context([Section(FirstName(), "z", true, REOPENED)], 2, Some(0), {0})
  {
    assert [] + REOPENED == REOPENED;
  }

  /** Where it fails: the option changes the name the section gets by its content, so the
      export, which leaves generated names out, is read back under another name. */
  lemma ReopenedIsRenamed()
    ensures var text := Unlines(ReopeningLines());
      Import(text).Ok? && Import(Export(Import(text).value.tree)) != Import(text)
  {
    hide ReopeningLines, FirstName, Export, SectionHash, GeneratedName, Normal, ImportLines, SplitLines, Unlines;
    var lines := ReopeningLines();
    var s := Section(FirstName(), "z", true, REOPENED);
    var c := Context([s], 2, Some(0), {0});
    OptionChangesName();
    ReopeningImports();
    ReopeningText();
    LastLineBlank(lines, c);
    NormalFormExactly(Unlines(lines));
    NormalOfOne(s);
  }

  lemma LastLineBlank(lines: seq<string>, c: Context)
    requires ImportLines(EMPTY, lines) == Ok(c)
    ensures ImportLines(EMPTY, lines + [""]) == Ok(c)
  {
    ImportConcat(EMPTY, lines, [""]);
    BlankLine(c);
    FirstLine(c, "", []);
    EmptyConcat([""]);
  }

  lemma ReopeningText()
    requires ValidName(FirstName())
    ensures SplitLines(Unlines(ReopeningLines())) == ReopeningLines() + [""]
  {
    hide FirstName, Line, ValidName;
    var lines := ReopeningLines();
    ValidWithout(FirstName(), '\n');
    LineWithout("", "config", "z", "", '\n');
    LineWithout("", "config", "z", FirstName(), '\n');
    LineWithout("\t", "option", "a", "b", '\n');
    SplitUnlines(lines, "");
    assert Unlines(lines) + "" == Unlines(lines) && SplitLines("") == [""];
  }

  lemma NormalOfOne(s: Section)
    requires s.anonymous
    ensures Normal([s]) == State([s.(name := NameFor(2, s))], 2)
  {
    assert [s][..0] == [];
    assert Normal([]) == State([], 0);
    assert [] + [s.(name := NameFor(2, s))] == [s.(name := NameFor(2, s))];
  }

  /** The files after a commit: if there was something to fold in, the journal is empty, and
      the file alone says the tree exactly when that is committable; otherwise both are as
      they were. */
  predicate Folded(files: (string, string), t: Tree, some: bool, were: (string, string)) {
    if some then
      && files.1 == ""
      && (Import(files.0).Ok? && SameUpToNames(Import(files.0).value.tree, t) <==> Committable(t))
    else files == were
  }

  /** Commit keeps what a reader sees, up to generated names, exactly when the tree is
      committable or there was nothing to fold in; and what there was is in the file. */
  lemma CommitKeepsView(name: string, file: string, journal: string)
    requires View(name, file, journal).Ok?
    ensures CommitFiles(name, file, journal).Ok?
    ensures var v := View(name, file, journal).value;
      var files := CommitFiles(name, file, journal).value;
      var v' := View(name, files.0, files.1);
      && (v'.Ok? && SameUpToNames(v'.value.tree, v.tree)
          <==> !SomeLineApplies(name, Import(file).value, journal) || Committable(v.tree))
      && Folded(files, v.tree, SomeLineApplies(name, Import(file).value, journal), (file, journal))
  {
    CommitWrites(name, file, journal);
    var v := View(name, file, journal).value;
    ViewOk(name, file, journal);
    ExportKeepsView(v.tree);
    if Import(Export(v.tree)).Ok? {
      EmptyJournal(name, Import(Export(v.tree)).value);
    }
  }

  /** Commits a package and loads it again from the files the commit left. The loaded
      tree is what a reader saw before, up to generated names, exactly when that was
      committable or the journal had nothing to apply. */
  method CommitThenLoad(store: Store, p: Package) returns (r: Result<Package>)
    requires '\0' !in store.file
    modifies store, p`history
    ensures p.history == [] && '\0' !in store.file
    ensures var saved := old(store.journal) + JournalText(p.name, old(p.history));
      match View(p.name, old(store.file), saved)
      case Err(x) => r == Err(x) && store.file == old(store.file) && store.journal == saved
      case Ok(v) =>
        var some := SomeLineApplies(p.name, Import(old(store.file)).value, saved);
        && (r.Ok? && SameUpToNames(r.value.sections, v.tree) <==> !some || Committable(v.tree))
        && Folded((store.file, store.journal), v.tree, some, (old(store.file), saved))
  {
    hide SameUpToNames, Committable, Import, Replay, SomeLineApplies, Folded, JournalText;
    ghost var file := store.file;
    ghost var saved := store.journal + JournalText(p.name, p.history);
    r := store.Commit(p);
    if r.Ok? {
      CommitKeepsView(p.name, file, saved);
      r := store.Load(p.name);
    }
  }

  lemma ReplayAppended(name: string, st: State, lines: seq<string>, more: seq<string>)
    requires forall l | l in lines + more :: NewlineFree(l)
    ensures Replay(name, st, Unlines(lines) + Unlines(more))
         == Replay(name, Replay(name, st, Unlines(lines)), Unlines(more))
  {
    assert forall l | l in lines :: l in lines + more;
    assert forall l | l in more :: l in lines + more;
    UnlinesConcat(lines, more);
    ReplayText(name, st, lines + more);
    ReplayText(name, st, lines);
    ReplayText(name, ReplayLines(name, st, lines), more);
    ReplayConcat(name, st, lines, more);
  }

  /** A reader of the saved files sees the edited tree. */
  lemma SavedView(name: string, file: string, lines: seq<string>, es: seq<Edit>)
    requires PlainPackage(name) && forall l | l in lines :: NewlineFree(l)
    requires View(name, file, Unlines(lines)).Ok?
    requires SessionReplayable(Live(View(name, file, Unlines(lines)).value, []), es)
    ensures var end := Run(Live(View(name, file, Unlines(lines)).value, []), es);
      var v := View(name, file, Unlines(lines) + JournalText(name, end.journal));
      && v.Ok? && v.value.tree == end.state.tree
      && AppliedLines(name, Import(file).value, SplitLines(Unlines(lines) + JournalText(name, end.journal)))
         == AppliedLines(name, Import(file).value, lines) + |end.journal|
  {
    hide AppliedLines, SessionReplayable, Import;
    var st, st0 := View(name, file, Unlines(lines)).value, Import(file).value;
    var more := PrintRecords(name, Run(Live(st, []), es).journal);
    NothingPrinted(name, st);
    SessionReplays(name, st, es);
    SessionReplaysFrom(name, Live(st, []), es, st);
    ReplayAppended(name, st0, lines, more);
    UnlinesConcat(lines, more);
    AppliedText(name, st0, lines + more);
    AppliedConcat(name, st0, lines, more);
    ReplayText(name, st0, lines);
  }

  lemma NothingPrinted(name: string, st: State)
    ensures PrintRecords(name, []) == [] && ReplayLines(name, st, []) == st && AppliedLines(name, st, []) == 0
  {
  }

  /** A whole session: load a package from its files, edit it, commit, and load again.
      The reader finds the edited tree, up to generated names, exactly when it is
      committable or there was nothing to apply. A session that recorded anything is in the
      file after the commit, and its journal is empty. */
  lemma EditCommitReload(name: string, file: string, lines: seq<string>, es: seq<Edit>)
    requires PlainPackage(name) && forall l | l in lines :: NewlineFree(l)
    requires View(name, file, Unlines(lines)).Ok?
    requires SessionReplayable(Live(View(name, file, Unlines(lines)).value, []), es)
    ensures var end := Run(Live(View(name, file, Unlines(lines)).value, []), es);
      var saved := Unlines(lines) + JournalText(name, end.journal);
      && View(name, file, saved).Ok? && View(name, file, saved).value.tree == end.state.tree
      && var files := CommitFiles(name, file, saved).value;
         var v' := View(name, files.0, files.1);
         var some := end.journal != [] || SomeLineApplies(name, Import(file).value, Unlines(lines));
         && (v'.Ok? && SameUpToNames(v'.value.tree, end.state.tree) <==> !some || Committable(end.state.tree))
         && Folded(files, end.state.tree, some, (file, saved))
  {
    hide AppliedLines, Applies, Import, SessionReplayable, Committable, SameUpToNames, Folded, CommitFiles;
    var end := Run(Live(View(name, file, Unlines(lines)).value, []), es);
    var saved := Unlines(lines) + JournalText(name, end.journal);
    SavedView(name, file, lines, es);
    CommitKeepsView(name, file, saved);
    AppliedText(name, Import(file).value, lines);
    SomeApplied(name, Import(file).value, SplitLines(Unlines(lines)));
    SomeApplied(name, Import(file).value, SplitLines(saved));
  }

  lemma SplitSaved(lines: seq<string>, more: seq<string>)
    requires (forall l | l in lines :: NewlineFree(l)) && forall l | l in more :: NewlineFree(l)
    ensures SplitLines(Unlines(lines) + Unlines(more)) == lines + (more + [""])
  {
    EmptyConcat(Unlines(more));
    SplitUnlines(lines, Unlines(more));
    SplitUnlines(more, "");
    assert SplitLines("") == [""];
  }

  /** A whole session that ends in a revert: load a package from its files, edit it, save,
      revert a part and load again. The reader finds the replay of exactly the lines and
      the records of the session that are not selected, in their order, if the journal that
      was loaded parses; otherwise nothing is reverted, and the reader finds the edited tree. */
  lemma EditRevertReload(name: string, file: string, lines: seq<string>, es: seq<Edit>,
                         onSection: Maybe<string>, onOption: Maybe<string>)
    requires PlainPackage(name) && forall l | l in lines :: NewlineFree(l)
    requires View(name, file, Unlines(lines)).Ok?
    requires SessionReplayable(Live(View(name, file, Unlines(lines)).value, []), es)
    ensures var end := Run(Live(View(name, file, Unlines(lines)).value, []), es);
      var left := Unselected(lines, onSection, onOption)
          + PrintRecords(name, Remaining(end.journal, onSection, onOption));
      var v := View(name, file, Filter(Unlines(lines) + JournalText(name, end.journal), onSection, onOption));
      if AllParse(lines) then v == Ok(ReplayLines(name, Import(file).value, left))
      else v.Ok? && v.value.tree == end.state.tree
  {
    hide View, SessionReplayable, PlainPackage, Filter, ReplayLines, PrintRecords, RecordOk, ParseTuple, Unselected;
    assert Import(file).Ok? by { ViewImports(name, file, Unlines(lines)); }
    var end := Run(Live(View(name, file, Unlines(lines)).value, []), es);
    SessionRecords(Live(View(name, file, Unlines(lines)).value, []), es);
    SavedLines(name, end.journal, onSection, onOption);
    var more := PrintRecords(name, end.journal);
    SplitSaved(lines, more);
    UnselectedConcat(lines, more + [""], onSection, onOption);
    BothParse(lines, more + [""]);
    var saved := Unlines(lines) + JournalText(name, end.journal);
    RevertReplays(name, Import(file).value, saved, onSection, onOption);
    ViewIs(name, file, Filter(saved, onSection, onOption));
    ViewIs(name, file, saved);
    SavedView(name, file, lines, es);
  }

  lemma ViewImports(name: string, file: string, journal: string)
    requires View(name, file, journal).Ok?
    ensures Import(file).Ok?
  {
  }

  lemma ViewIs(name: string, file: string, journal: string)
    requires Import(file).Ok?
    ensures View(name, file, journal) == Ok(Replay(name, Import(file).value, journal))
  {
  }

  lemma BothParse(a: seq<string>, b: seq<string>)
    requires AllParse(b)
    ensures AllParse(a + b) <==> AllParse(a)
  {
  }

  /** A concrete tree an edit can reach and a commit cannot keep: one section was given
      the name of an earlier one, and reading the file back merges the two. */
  lemma RenameCanMerge()
    ensures var lan, wan := Section("lan", "zone", false, []), Section("wan", "zone", false, []);
      && TreeOk([lan, wan])
      && Perform(State([lan, wan], 2), RenameTo("wan", None, "lan")).Ok?
      && !Committable(Perform(State([lan, wan], 2), RenameTo("wan", None, "lan")).value.state.tree)
  {
    var lan, wan := Section("lan", "zone", false, []), Section("wan", "zone", false, []);
    FoundSection([lan, wan], "wan", 1);
    assert wan.name[0] == 'w' && lan.name[0] == 'l';
    var t := [lan, lan];
    assert Perform(State([lan, wan], 2), RenameTo("wan", None, "lan")).value.state.tree == t;
    NormalKeeps(t);
    assert Normal(t).tree[0].name == Normal(t).tree[1].name;
  }

  /** Edits other than a rename keep option names distinct in every section. */
  lemma UniqueKept(st: State, e: Edit)
    requires !e.RenameTo? && Perform(st, e).Ok? && forall s | s in st.tree :: UniqueOptions(s.options)
    ensures forall s | s in Perform(st, e).value.state.tree :: UniqueOptions(s.options)
  {
    if !e.AddSection? {
      var k := FindSection(st.tree, e.section);
      if k < |st.tree| {
        var options := st.tree[k].options;
        assert UniqueOptions(options);
        forall j | 0 <= j < |options| ensures UniqueOptions(Without(options, j)) {
        }
        match e
        case SetValue(_, o, v) => if o.Some? { UniqueSet(options, o.value, v); }
        case AddToList(_, o, v) => UniqueAdd(options, o, v);
        case _ =>
      }
    }
  }

  lemma UniqueSet(options: seq<Option>, name: string, value: string)
    requires UniqueOptions(options)
    ensures UniqueOptions(SetOption(options, name, value))
  {
  }

  lemma UniqueAdd(options: seq<Option>, name: string, value: string)
    requires UniqueOptions(options)
    ensures UniqueOptions(AddListOption(options, name, value))
  {
  }

  /** Reverting a whole package brings back the file, if every journal line parses. */
  lemma RevertAllRestoresFile(name: string, file: string, journal: string)
    requires AllParse(SplitLines(journal))
    ensures View(name, file, Filter(journal, None, None)) == Import(file)
  {
    RevertAll(journal);
    if Import(file).Ok? {
      EmptyJournal(name, Import(file).value);
    }
  }
}
