/** The files behind a package: the configuration file and the journal of saved but
    uncommitted edits. Loading reads both, committing folds the journal into the file. */
module UciStore {
  import opened UciText
  import opened UciTree
  import opened UciPackage
  import opened UciTokens
  import opened UciJournal
  import opened UciReplay
  import opened UciRevert
  import opened UciFile
  import opened UciRoundTrip
  import opened UciImport
  import opened UciNormalForm
  import opened UciParser
  import opened UciNul

  /** What a reader of the two files sees. */
  function View(name: string, file: string, journal: string): Result<State> {
    var st :- Import(file);
    Ok(Replay(name, st, journal))
  }

  /** The two files after a commit, given the journal with the unsaved records in it. */
  function CommitFiles(name: string, file: string, journal: string): Result<(string, string)> {
    var st :- Import(file);
    if AppliedLines(name, st, SplitLines(journal)) == 0 then Ok((file, journal))
    else Ok((Export(Replay(name, st, journal).tree), ""))
  }

  /** Some line of the journal applies when its turn comes. */
  predicate SomeLineApplies(name: string, st: State, journal: string) {
    exists k: nat | k < |SplitLines(journal)| :: Applies(name, st, SplitLines(journal), k)
  }

  /** When a commit writes the file: exactly when some line applies. */
  lemma CommitWrites(name: string, file: string, journal: string)
    requires Import(file).Ok?
    ensures CommitFiles(name, file, journal)
         == Ok(if SomeLineApplies(name, Import(file).value, journal)
               then (Export(Replay(name, Import(file).value, journal).tree), "") else (file, journal))
  {
    SomeApplied(name, Import(file).value, SplitLines(journal));
  }

  /** Prints every section, its type quoted, its name only when it is not anonymous. */
  method ExportPackage(p: Package, header: bool) returns (out: string)
    ensures out == (if header then Line("", "package", Quote(p.name)) + "\n" else "") + Export(p.sections)
  {
    hide Unlines, TreeLines, SectionLines, Escape;
    out := "";
    if header {
      var name := EscapeString(p.name);
      out := Line("", "package", "'" + name + "'") + "\n";
    }
    ghost var start := out;
    var t := p.sections;
    for i := 0 to |t|
      invariant out + Unlines(TreeLines(t[i..])) == start + Unlines(TreeLines(t))
    {
      var body := ExportSection(t[i]);
      MoreSections(t, i);
      Assoc(out, body, Unlines(TreeLines(t[i + 1..])));
      out := out + body;
    }
    assert t[|t|..] == [];
    NoMoreSections();
    EmptyConcat(out);
    UnlinesConcat(TreeLines(t), [""]);
    Assoc(start, Unlines(TreeLines(t)), "\n");
    OneLine("");
    out := out + "\n";
  }

  lemma MoreSections(t: Tree, i: nat)
    requires i < |t|
    ensures Unlines(TreeLines(t[i..])) == Unlines(SectionLines(t[i])) + Unlines(TreeLines(t[i + 1..]))
  {
    assert t[i..][0] == t[i] && t[i..][1..] == t[i + 1..];
    UnlinesConcat(SectionLines(t[i]), TreeLines(t[i + 1..]));
  }

  lemma NoMoreSections()
    ensures Unlines(TreeLines([])) == ""
  {
  }

  lemma OneLine(line: string)
    ensures Unlines([line]) == line + "\n"
  {
    EmptyConcat(line + "\n");
    assert Unlines([]) == "";
  }

  lemma HeaderText(s: Section)
    ensures Unlines(["", ConfigLine(s)]) == "\n" + (ConfigLine(s) + "\n")
  {
    OneLine("");
    OneLine(ConfigLine(s));
    UnlinesConcat([""], [ConfigLine(s)]);
    assert [""] + [ConfigLine(s)] == ["", ConfigLine(s)];
  }

  method ExportHeader(s: Section) returns (out: string)
    ensures out == Unlines(["", ConfigLine(s)])
  {
    hide Unlines, Escape;
    var typ := EscapeString(s.typ);
    var args := "'" + typ + "'";
    if !s.anonymous {
      var name := EscapeString(s.name);
      args := args + (" " + ("'" + name + "'"));
    }
    out := "\n" + (Line("", "config", args) + "\n");
    HeaderText(s);
  }

  lemma MoreOptions(options: seq<Option>, i: nat)
    requires i < |options|
    ensures Unlines(OptionsLines(options[i..]))
         == Unlines(OptionLines(options[i])) + Unlines(OptionsLines(options[i + 1..]))
  {
    assert options[i..][0] == options[i] && options[i..][1..] == options[i + 1..];
    UnlinesConcat(OptionLines(options[i]), OptionsLines(options[i + 1..]));
  }

  lemma NoMoreOptions()
    ensures Unlines(OptionsLines([])) == ""
  {
  }

  method ExportSection(s: Section) returns (out: string)
    ensures out == Unlines(SectionLines(s))
  {
    hide Unlines, OptionsLines, OptionLines, ConfigLine;
    out := ExportHeader(s);
    ghost var start := out;
    for i := 0 to |s.options|
      invariant out + Unlines(OptionsLines(s.options[i..])) == start + Unlines(OptionsLines(s.options))
    {
      var body := ExportOption(s.options[i]);
      MoreOptions(s.options, i);
      Assoc(out, body, Unlines(OptionsLines(s.options[i + 1..])));
      out := out + body;
    }
    assert s.options[|s.options|..] == [];
    NoMoreOptions();
    EmptyConcat(out);
    UnlinesConcat(["", ConfigLine(s)], OptionsLines(s.options));
  }

  method ExportOption(o: Option) returns (out: string)
    ensures out == Unlines(OptionLines(o))
  {
    var name := EscapeString(o.name);
    match o.value
    case Str(v) =>
      var value := EscapeString(v);
      out := Line("\t", "option", "'" + name + "'" + (" " + ("'" + value + "'"))) + "\n";
      OneLine(OptionLines(o)[0]);
    case List(items) =>
      out := "";
      for i := 0 to |items|
        invariant out + Unlines(ItemLines(o.name, items[i..])) == Unlines(ItemLines(o.name, items))
      {
        var item := EscapeString(items[i]);
        var line := Line("\t", "list", "'" + name + "'" + (" " + ("'" + item + "'")));
        assert items[i..][0] == items[i] && items[i..][1..] == items[i + 1..];
        UnlinesConcat([line], ItemLines(o.name, items[i + 1..]));
        OneLine(line);
        Assoc(out, line + "\n", Unlines(ItemLines(o.name, items[i + 1..])));
        out := out + (line + "\n");
      }
      EmptyConcat(out);
  }

  class Store {
    var file: string
    var journal: string

    constructor (file: string, journal: string)
      ensures this.file == file && this.journal == journal
    {
      this.file, this.journal := file, journal;
    }

    /** Parses the file and applies the journal, without touching either. */
    method Load(name: string) returns (r: Result<Package>)
      requires '\0' !in file
      ensures match View(name, file, journal)
              case Ok(st) => r.Ok? && fresh(r.value) && r.value.name == name && r.value.GetState() == st
                             && r.value.history == [] && r.value.hasHistory
              case Err(x) => r == Err(x)
    {
      r := ImportText(name, file);
      if r.Ok? {
        r.value.hasHistory := true;
        var _ := ParseHistory(r.value, journal);
      }
    }

    /** Appends the unsaved records of the package to the journal. */
    method SavePackage(p: Package)
      modifies this`journal, p`history
      ensures journal == old(journal) + JournalText(p.name, old(p.history)) && p.history == []
    {
      if p.history == [] {
        EmptyConcat(journal);
        return;
      }
      journal := Save(p, journal);
    }

    /** Saves, reloads the file under its lock, folds the journal in and empties it. A
        file that does not parse, or a journal of which nothing applies, is left alone. */
    method Commit(p: Package) returns (r: Result<Package>)
      requires '\0' !in file
      modifies this, p`history
      ensures p.history == [] && '\0' !in file
      ensures var saved := old(journal) + JournalText(p.name, old(p.history));
        match CommitFiles(p.name, old(file), saved)
        case Ok(files) =>
          && (file, journal) == files
          && r.Ok? && Ok(r.value.GetState()) == View(p.name, old(file), saved)
        case Err(x) => r == Err(x) && file == old(file) && journal == saved
      ensures var saved := old(journal) + JournalText(p.name, old(p.history));
        Import(old(file)).Ok? ==>
          if SomeLineApplies(p.name, Import(old(file)).value, saved)
          then journal == "" && file == Export(r.value.sections)
          else journal == saved && file == old(file)
    {
      hide Import, Replay, Export, SomeLineApplies, AppliedLines, JournalText;
      ghost var saved := journal + JournalText(p.name, p.history);
      if Import(file).Ok? {
        CommitWrites(p.name, file, saved);
      }
      SavePackage(p);
      r := ImportText(p.name, file);
      if r.Err? {
        return;
      }
      r.value.hasHistory := true;
      var changes := ParseHistory(r.value, journal);
      if changes == 0 {
        return;
      }
      RewrittenNulFree(p.name, file, journal);
      journal := "";
      file := ExportPackage(r.value, false);
      assert file == "" + Export(r.value.sections);
      EmptyConcat(Export(r.value.sections));
    }

    /** Saves, drops the selected records from the journal and loads again. */
    method Revert(p: Package, section: Maybe<string>, option: Maybe<string>) returns (r: Result<Package>)
      requires '\0' !in file
      modifies this`journal, p`history
      ensures var saved := old(journal) + JournalText(p.name, old(p.history));
        journal == Filter(saved, section, option)
      ensures match View(p.name, file, journal)
              case Ok(st) => r.Ok? && r.value.GetState() == st
              case Err(x) => r == Err(x)
    {
      SavePackage(p);
      journal := FilterHistory(journal, section, option);
      r := Load(p.name);
    }
  }
}
