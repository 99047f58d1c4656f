/** The journal: one text line per edit, printed when a package is saved, replayed
    over the configuration file when it is loaded, and filtered when reverting. */
module UciJournal {
  import opened UciText
  import opened UciTree
  import opened UciPackage

  // ---------- printing ----------

  function Prefix(cmd: Command): string {
    match cmd
    case Remove => "-"
    case Rename => "@"
    case Add => "+"
    case ListAdd => "|"
    case Change => ""
  }

  function PrintRecord(package: string, r: Record): string {
    Prefix(r.cmd) + package + "." + r.section
    + (if r.option.Some? then "." + r.option.value else "")
    + (if r.cmd == Remove then "" else "=" + if r.value.Some? then r.value.value else "")
  }

  /** The records as they stand in a journal, of an option and of a section. */
  lemma RecordsInText(p: string, s: string, o: string, v: string)
    ensures PrintRecord(p, Record(Change, s, Some(o), Some(v))) == p + "." + s + "." + o + "=" + v
    ensures PrintRecord(p, Record(ListAdd, s, Some(o), Some(v))) == "|" + p + "." + s + "." + o + "=" + v
    ensures PrintRecord(p, Record(Rename, s, Some(o), Some(v))) == "@" + p + "." + s + "." + o + "=" + v
    ensures PrintRecord(p, Record(Remove, s, Some(o), None)) == "-" + p + "." + s + "." + o
  {
  }

  lemma SectionRecordsInText(p: string, s: string, v: string)
    ensures PrintRecord(p, Record(Change, s, None, Some(v))) == p + "." + s + "=" + v
    ensures PrintRecord(p, Record(Add, s, None, Some(v))) == "+" + p + "." + s + "=" + v
    ensures PrintRecord(p, Record(Rename, s, None, Some(v))) == "@" + p + "." + s + "=" + v
    ensures PrintRecord(p, Record(Remove, s, None, None)) == "-" + p + "." + s
  {
  }

  function PrintRecords(package: string, rs: seq<Record>): seq<string> {
    if rs == [] then [] else [PrintRecord(package, rs[0])] + PrintRecords(package, rs[1..])
  }

  /** Appends the unsaved records to the journal text and drains them. */
  method Save(p: Package, journal: string) returns (journal': string)
    modifies p`history
    ensures journal' == journal + Unlines(PrintRecords(p.name, old(p.history)))
    ensures p.history == []
  {
    journal' := journal;
    ghost var all := PrintRecords(p.name, p.history);
    while p.history != []
      invariant journal' + Unlines(PrintRecords(p.name, p.history)) == journal + Unlines(all)
      decreases |p.history|
    {
      var r := p.history[0];
      ghost var rest := Unlines(PrintRecords(p.name, p.history[1..]));
      var line := PrintRecord(p.name, r);
      Assoc(journal', line + "\n", rest);
      journal' := journal' + (line + "\n");
      p.history := p.history[1..];
    }
    assert Unlines(PrintRecords(p.name, p.history)) == "";
  }

  // ---------- parsing ----------

  /** A path such as package.section.option=value, split but not looked up. */
  datatype Path = Path(package: string, section: Maybe<string>, option: Maybe<string>, value: Maybe<string>)

  function Fields(s: string): (fs: seq<string>)
    ensures fs != [] && forall f | f in fs :: '.' !in f
    ensures forall f, c | f in fs && c in f :: c in s
    decreases |s|
  {
    var k := IndexOf(s, '.', 0);
    if k == |s| then [s] else [s[..k]] + Fields(s[k + 1..])
  }

  function ParsePath(s: string): Result<Path> {
    var k := IndexOf(s, '=', 0);
    var value := if k == |s| then None else Some(s[k + 1..]);
    var fs := Fields(s[..k]);
    if |fs| > 3 || !ValidType(fs[0]) then Err(Parse)
    else if |fs| == 3 && !ValidName(fs[2]) then Err(Parse)
    else if value.Some? && !ValidText(value.value) then Err(Parse)
    else Ok(Path(fs[0], if |fs| > 1 then Some(fs[1]) else None, if |fs| > 2 then Some(fs[2]) else None, value))
  }

  datatype Tuple = Tuple(cmd: Command, package: string, section: string, option: Maybe<string>, value: Maybe<string>)

  function CommandOf(line: string): Command {
    if line == "" then Change
    else match line[0]
      case '-' => Remove
      case '@' => Rename
      case '+' => Add
      case '|' => ListAdd
      case _ => Change
  }

  function ParseTuple(line: string): Result<Tuple> {
    var cmd := CommandOf(line);
    var path :- ParsePath(if cmd == Change then line else line[1..]);
    if path.section.None? || !ValidName(path.section.value) then Err(Invalid)
    else if cmd == Rename && (path.value.None? || !ValidName(path.value.value)) then Err(Invalid)
    else if cmd == ListAdd && path.option.None? then Err(Invalid)
    else Ok(Tuple(cmd, path.package, path.section.value, path.option, path.value))
  }

  // ---------- replaying ----------

  /** The edit a journal line asks for; a missing value is refused by the edit itself. */
  function EditOf(u: Tuple): Result<Edit> {
    match u.cmd
    case Remove => Ok(Delete(u.section, u.option))
    case Rename => if u.value.None? then Err(Invalid) else Ok(RenameTo(u.section, u.option, u.value.value))
    case ListAdd =>
      if u.option.None? || u.value.None? then Err(Invalid)
      else Ok(AddToList(u.section, u.option.value, u.value.value))
    case _ => if u.value.None? then Err(Invalid) else Ok(SetValue(u.section, u.option, u.value.value))
  }

  function MarkAnonymous(t: Tree, section: string): Tree {
    var k := FindSection(t, section);
    if k == |t| then t else t[k := t[k].(anonymous := true)]
  }

  function ReplayTuple(st: State, u: Tuple): Result<State> {
    var e :- EditOf(u);
    var o :- Perform(st, e);
    Ok(if u.cmd == Add && u.option.None? then o.state.(tree := MarkAnonymous(o.state.tree, u.section)) else o.state)
  }

  function ReplayLine(name: string, st: State, line: string): Result<State> {
    var u :- ParseTuple(line);
    if u.package != name then Err(Parse) else ReplayTuple(st, u)
  }

  /** A line that does not apply is skipped, and blank lines are not looked at. */
  function ReplayStep(name: string, st: State, line: string): State {
    if line == "" then st
    else match ReplayLine(name, st, line)
      case Ok(st') => st'
      case Err(_) => st
  }

  function ReplayLines(name: string, st: State, lines: seq<string>): State
    decreases |lines|
  {
    if lines == [] then st else ReplayLines(name, ReplayStep(name, st, lines[0]), lines[1..])
  }

  /** How many lines applied. */
  function AppliedLines(name: string, st: State, lines: seq<string>): nat
    decreases |lines|
  {
    if lines == [] then 0
    else if lines[0] == "" then AppliedLines(name, st, lines[1..])
    else match ReplayLine(name, st, lines[0])
      case Ok(st') => 1 + AppliedLines(name, st', lines[1..])
      case Err(_) => AppliedLines(name, st, lines[1..])
  }

  function Replay(name: string, st: State, journal: string): State {
    ReplayLines(name, st, SplitLines(journal))
  }

  method MarkSectionAnonymous(p: Package, section: string)
    modifies p`sections
    ensures p.sections == MarkAnonymous(old(p.sections), section)
  {
    var k := p.LookupSection(section);
    if k < |p.sections| {
      p.sections := p.sections[k := p.sections[k].(anonymous := true)];
    }
  }

  /** Applies one line to the package, without recording it again. */
  method ParseHistoryLine(p: Package, line: string) returns (r: Result<bool>)
    modifies p
    ensures p.hasHistory == old(p.hasHistory) && p.history == old(p.history)
    ensures match ReplayLine(p.name, old(p.GetState()), line)
            case Ok(st) => r.Ok? && p.GetState() == st
            case Err(x) => r == Err(x) && p.GetState() == old(p.GetState())
  {
    var parsed := ParseTuple(line);
    if parsed.Err? {
      return Err(parsed.error);
    }
    var u := parsed.value;
    if u.package != p.name {
      return Err(Parse);
    }
    if u.cmd != Remove && u.value.None? {
      return Err(Invalid);
    }
    match u.cmd {
      case Rename => r := p.RenameElement(u.section, u.option, u.value.value, true);
      case Remove => r := p.DeleteElement(u.section, u.option, true);
      case ListAdd => r := p.AddList(u.section, u.option.value, u.value.value, true);
      case _ =>
        r := p.Set(u.section, u.option, u.value.value, true);
    }
    if r.Ok? && u.cmd == Add && u.option.None? {
      MarkSectionAnonymous(p, u.section);
    }
  }

  /** Returns the number of changes that were successfully parsed. */
  method ParseHistory(p: Package, journal: string) returns (changes: nat)
    modifies p
    ensures p.hasHistory == old(p.hasHistory) && p.history == old(p.history)
    ensures p.GetState() == Replay(p.name, old(p.GetState()), journal)
    ensures changes == AppliedLines(p.name, old(p.GetState()), SplitLines(journal))
  {
    var lines := SplitLines(journal);
    changes := 0;
    ghost var st := p.GetState();
    for i := 0 to |lines|
      invariant p.hasHistory == old(p.hasHistory) && p.history == old(p.history)
      invariant ReplayLines(p.name, p.GetState(), lines[i..]) == ReplayLines(p.name, st, lines)
      invariant changes + AppliedLines(p.name, p.GetState(), lines[i..]) == AppliedLines(p.name, st, lines)
    {
      assert lines[i..][1..] == lines[i + 1..];
      if lines[i] != "" {
        var r := ParseHistoryLine(p, lines[i]);
        if r.Ok? {
          changes := changes + 1;
        }
      }
    }
  }

  // ---------- the record format ----------

  /** Names the path syntax cannot confuse with anything else. */
  predicate PlainPackage(name: string) {
    ValidType(name) && '.' !in name && '=' !in name && CommandOf(name) == Change
  }

  /** The condition for records of one command: only a change has no character of its own
      in front, so only there can the first character of the name be taken for one. */
  predicate Carries(package: string, cmd: Command) {
    ValidType(package) && '.' !in package && '=' !in package && (cmd == Change ==> CommandOf(package) == Change)
  }

  /** What the lookup that precedes an edit guarantees of a record, plus the two
      conditions only the replay checks: a valid new name, and an option for a list. */
  predicate RecordOk(r: Record) {
    && ValidName(r.section)
    && (r.option.Some? ==> ValidName(r.option.value))
    && (r.value.None? <==> r.cmd == Remove)
    && (r.value.Some? ==> ValidText(r.value.value))
    && (r.cmd == Rename ==> ValidName(r.value.value))
    && (r.cmd == ListAdd ==> r.option.Some?)
  }

  function TupleOf(package: string, r: Record): Tuple {
    Tuple(r.cmd, package, r.section, r.option, r.value)
  }

  lemma NoDot(name: string)
    requires ValidName(name)
    ensures '.' !in name && '=' !in name && '\n' !in name
  {
  }

  lemma FieldsStep(a: string, rest: string)
    requires '.' !in a
    ensures Fields(a + "." + rest) == [a] + Fields(rest)
    ensures Fields(a) == [a]
  {
    var s := a + "." + rest;
    IndexOfUnique(s, '.', |a|);
    assert s[..|a|] == a && s[|a| + 1..] == rest;
    IndexOfUnique(a, '.', |a|);
  }

  /** The path part of a printed record. */
  function PrintPath(package: string, section: string, option: Maybe<string>): string {
    package + "." + section + (if option.Some? then "." + option.value else "")
  }

  function ValuePart(value: Maybe<string>): string {
    if value.Some? then "=" + value.value else ""
  }

  lemma PathFields(package: string, section: string, option: Maybe<string>)
    requires '.' !in package && '=' !in package && ValidName(section) && (option.Some? ==> ValidName(option.value))
    ensures '=' !in PrintPath(package, section, option)
    ensures Fields(PrintPath(package, section, option))
         == [package, section] + if option.Some? then [option.value] else []
  {
    hide Fields, ValidName;
    NoDot(section);
    FieldsStep(package, section);
    FieldsStep(section, "");
    TwoParts(package, section);
    if option.Some? {
      var o := option.value;
      NoDot(o);
      FieldsStep(o, "");
      FieldsStep(section, o);
      FieldsStep(package, section + "." + o);
      TwoParts(section, o);
      TwoParts(package, section + "." + o);
      ThreeParts(package, section, o);
    } else {
      EmptyConcat(package + "." + section);
      EmptyConcat([package, section]);
    }
  }

  lemma TwoParts(a: string, b: string)
    ensures a + "." + b == a + ("." + b)
    ensures '=' !in a && '=' !in b ==> '=' !in a + "." + b
  {
  }

  lemma ThreeParts(a: string, b: string, c: string)
    ensures a + "." + b + ("." + c) == a + "." + (b + "." + c)
    ensures [a] + ([b] + [c]) == [a, b] + [c]
  {
    assert a + "." + b + ("." + c) == a + "." + b + "." + c;
  }

  lemma PathWithValue(path: string, value: Maybe<string>)
    requires '=' !in path
    ensures var s := path + ValuePart(value);
      var k := IndexOf(s, '=', 0);
      k == |path| && s[..k] == path && (k < |s| <==> value.Some?) && (value.Some? ==> s[k + 1..] == value.value)
  {
    var s := path + ValuePart(value);
    assert s[..|path|] == path && (value.Some? ==> s[|path|] == '=');
    assert forall i | 0 <= i < |path| :: s[i] == path[i];
    IndexOfUnique(s, '=', |path|);
    ValueBehind(path, value);
  }

  lemma ValueBehind(path: string, value: Maybe<string>)
    ensures var s := path + ValuePart(value);
      (|path| < |s| <==> value.Some?) && (value.Some? ==> s[|path| + 1..] == value.value)
  {
  }

  /** Parsing a printed record gives the record back. */
  lemma PrintParse(package: string, r: Record)
    requires PlainPackage(package) && RecordOk(r)
    ensures ParseTuple(PrintRecord(package, r)) == Ok(TupleOf(package, r))
    ensures NewlineFree(PrintRecord(package, r)) && PrintRecord(package, r) != ""
  {
    CarriedParse(package, r);
    PrintedNewlineFree(package, r);
  }

  lemma CarriedParse(package: string, r: Record)
    requires Carries(package, r.cmd) && RecordOk(r)
    ensures ParseTuple(PrintRecord(package, r)) == Ok(TupleOf(package, r))
    ensures PrintRecord(package, r) != ""
  {
    PrintedForm(package, r);
    ParsePrintedPath(package, r);
    PrintedCommand(package, r.cmd, PrintPath(package, r.section, r.option) + ValuePart(r.value));
  }

  lemma ParsePrintedPath(package: string, r: Record)
    requires Carries(package, r.cmd) && RecordOk(r)
    ensures ParsePath(PrintPath(package, r.section, r.option) + ValuePart(r.value))
         == Ok(Path(package, Some(r.section), r.option, r.value))
  {
    PathFields(package, r.section, r.option);
    PathWithValue(PrintPath(package, r.section, r.option), r.value);
  }

  lemma PrintedCommand(package: string, cmd: Command, body: string)
    requires package != "" && body != "" && body[0] == package[0]
    requires cmd == Change ==> CommandOf(package) == Change
    ensures CommandOf(Prefix(cmd) + body) == cmd
    ensures (if cmd == Change then Prefix(cmd) + body else (Prefix(cmd) + body)[1..]) == body
  {
  }

  lemma PrintedForm(package: string, r: Record)
    requires r.value.None? <==> r.cmd == Remove
    ensures PrintRecord(package, r)
         == Prefix(r.cmd) + (PrintPath(package, r.section, r.option) + ValuePart(r.value))
  {
  }

  lemma PrintedNewlineFree(package: string, r: Record)
    requires ValidType(package) && RecordOk(r)
    ensures NewlineFree(PrintRecord(package, r))
  {
    NoDot(r.section);
    if r.option.Some? {
      NoDot(r.option.value);
    }
    assert !TypeChar('\n') && !TextChar('\n');
  }

  /** The condition on the package name is exact for every command: a record is read back
      as itself if and only if the name carries it. */
  lemma ReadsBackExactly(package: string, r: Record)
    requires RecordOk(r)
    ensures ParseTuple(PrintRecord(package, r)) == Ok(TupleOf(package, r)) <==> Carries(package, r.cmd)
  {
    if Carries(package, r.cmd) {
      CarriedParse(package, r);
    } else {
      PrintedForm(package, r);
      ParsedPackage(PrintRecord(package, r));
    }
  }

  /** A plain package name carries every record, and only a plain one does. */
  lemma PlainPackageExact(package: string)
    ensures PlainPackage(package)
         <==> forall r: Record | RecordOk(r) :: ParseTuple(PrintRecord(package, r)) == Ok(TupleOf(package, r))
  {
    if PlainPackage(package) {
      forall r: Record | RecordOk(r) ensures ParseTuple(PrintRecord(package, r)) == Ok(TupleOf(package, r)) {
        PrintParse(package, r);
      }
    } else {
      var r := Record(Change, "lan", None, Some("zone"));
      assert RecordOk(r);
      ReadsBackExactly(package, r);
    }
  }

  /** Where it fails: a record about a section of a package whose name has a dot reads back
      as one about an option of another package. */
  lemma DottedPackageMisread(a: string, b: string, r: Record)
    requires Carries(a, r.cmd) && ValidName(b) && RecordOk(r) && r.option.None?
    ensures ParseTuple(PrintRecord(a + "." + b, r)) == Ok(Tuple(r.cmd, a, b, Some(r.section), r.value))
  {
    hide ParseTuple, PrintRecord, PrintPath, ValuePart, Carries;
    var r' := Record(r.cmd, b, Some(r.section), r.value);
    PrintedForm(a + "." + b, r);
    PrintedForm(a, r');
    DottedPath(a, b, r.section);
    SectionAsOption(r, b);
    CarriedParse(a, r');
  }

  lemma SectionAsOption(r: Record, section: string)
    requires RecordOk(r) && ValidName(section)
    ensures RecordOk(Record(r.cmd, section, Some(r.section), r.value))
  {
  }

  lemma DottedPath(a: string, b: string, section: string)
    ensures PrintPath(a + "." + b, section, None) == PrintPath(a, b, Some(section))
  {
    EmptyConcat(a + "." + b + "." + section);
    Assoc(a + "." + b, ".", section);
  }

  /** A record about an option of such a package has one part too many, and is refused. */
  lemma DottedOptionRefused(a: string, b: string, r: Record)
    requires Carries(a, r.cmd) && ValidName(b) && RecordOk(r) && r.option.Some?
    ensures ParseTuple(PrintRecord(a + "." + b, r)).Err?
  {
    hide PrintRecord, PrintPath, ValuePart, ValidName, Fields;
    var package := a + "." + b;
    var path := PrintPath(package, r.section, r.option);
    PrintedForm(package, r);
    FourFields(a, b, r.section, r.option.value);
    PathWithValue(path, r.value);
    PathStarts(a, b, r.section, r.option, r.value);
    PrintedCommand(package, r.cmd, path + ValuePart(r.value));
  }

  lemma PathStarts(a: string, b: string, section: string, option: Maybe<string>, value: Maybe<string>)
    requires a != ""
    ensures var package := a + "." + b;
      var body := PrintPath(package, section, option) + ValuePart(value);
      && package != "" && body != "" && body[0] == package[0]
      && (CommandOf(a) == Change ==> CommandOf(package) == Change)
  {
  }

  lemma FourFields(a: string, b: string, section: string, option: string)
    requires '.' !in a && '=' !in a && ValidName(b) && ValidName(section) && ValidName(option)
    ensures var path := PrintPath(a + "." + b, section, Some(option));
      '=' !in path && Fields(path) == [a, b, section, option]
  {
    hide Fields, ValidName;
    var rest := PrintPath(b, section, Some(option));
    NoDot(b);
    PathFields(b, section, Some(option));
    FieldsStep(a, rest);
    TwoParts(a, rest);
    assert PrintPath(a + "." + b, section, Some(option)) == a + "." + rest;
    assert [a] + ([b, section] + [option]) == [a, b, section, option];
  }

  /** A parsed package name is always one the path syntax can carry. */
  lemma ParsedPackage(line: string)
    ensures var u := ParseTuple(line);
      u.Ok? ==>
        && ValidType(u.value.package) && '.' !in u.value.package && '=' !in u.value.package
        && (u.value.cmd == Change ==> line != "" && u.value.package[0] == line[0])
  {
    var body := if CommandOf(line) == Change then line else line[1..];
    var head := body[..IndexOf(body, '=', 0)];
    var fs := Fields(head);
    assert fs[0] in fs;
    assert fs[0] != "" ==> head != "" && fs[0][0] == head[0];
  }
}
