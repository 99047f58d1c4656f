/** Replaying the journal of a session gives the tree the session built. */
module UciReplay {
  import opened UciText
  import opened UciTree
  import opened UciEdits
  import opened UciPackage
  import opened UciJournal

  /** A loaded package in memory with the records it has not saved yet. */
  datatype Live = Live(state: State, journal: seq<Record>)

  /** A refused edit changes nothing. */
  function Step(l: Live, e: Edit): Live {
    match Perform(l.state, e)
    case Ok(o) => Live(o.state, l.journal + o.notes)
    case Err(_) => l
  }

  function Run(l: Live, es: seq<Edit>): Live
    decreases |es|
  {
    if es == [] then l else Run(Step(l, es[0]), es[1..])
  }

  /** What parsing the path of an edit has already checked. The type given to a new
      anonymous section does not come from a path and may be any string. */
  predicate Spelled(e: Edit) {
    match e
    case SetValue(s, o, v) => ValidName(s) && (o.Some? ==> ValidName(o.value)) && ValidText(v)
    case AddToList(s, o, v) => ValidName(s) && ValidName(o) && ValidText(v)
    case Delete(s, o) => ValidName(s) && (o.Some? ==> ValidName(o.value))
    case RenameTo(s, o, v) => ValidName(s) && (o.Some? ==> ValidName(o.value)) && ValidText(v)
    case AddSection(_) => true
  }

  /** What the replay needs and the live edit does not check. */
  predicate Replayable(st: State, e: Edit) {
    match e
    case RenameTo(_, _, v) => ValidName(v)
    case AddSection(typ) => ValidType(typ) && !HasSection(st.tree, GeneratedFor(st, typ))
    case _ => true
  }

  /** Every edit of the session that is carried out is replayable where it happens. */
  predicate SessionReplayable(l: Live, es: seq<Edit>)
    decreases |es|
  {
    es == [] ||
    (Spelled(es[0])
     && (Perform(l.state, es[0]).Ok? ==> Replayable(l.state, es[0]))
     && SessionReplayable(Step(l, es[0]), es[1..]))
  }

  function JournalText(package: string, rs: seq<Record>): string {
    Unlines(PrintRecords(package, rs))
  }

  // ---------- replay over concatenations ----------

  lemma {:induction false} ReplayConcat(name: string, st: State, a: seq<string>, b: seq<string>)
    ensures ReplayLines(name, st, a + b) == ReplayLines(name, ReplayLines(name, st, a), b)
    decreases |a|
  {
    if a == [] {
      assert a + b == b;
    } else {
      assert (a + b)[1..] == a[1..] + b;
      ReplayConcat(name, ReplayStep(name, st, a[0]), a[1..], b);
    }
  }

  lemma {:induction false} AppliedConcat(name: string, st: State, a: seq<string>, b: seq<string>)
    ensures AppliedLines(name, st, a + b)
         == AppliedLines(name, st, a) + AppliedLines(name, ReplayLines(name, st, a), b)
    decreases |a|
  {
    hide ReplayLine;
    if a == [] {
      assert a + b == b;
    } else {
      assert (a + b)[0] == a[0] && (a + b)[1..] == a[1..] + b;
      AppliedConcat(name, ReplayStep(name, st, a[0]), a[1..], b);
    }
  }

  lemma OneApplied(name: string, st: State, line: string)
    ensures AppliedLines(name, st, [line]) == if line != "" && ReplayLine(name, st, line).Ok? then 1 else 0
  {
    assert [line][1..] == [];
  }

  /** The line is one that applies when its turn comes. */
  predicate Applies(name: string, st: State, lines: seq<string>, k: nat)
    requires k < |lines|
  {
    lines[k] != "" && ReplayLine(name, ReplayLines(name, st, lines[..k]), lines[k]).Ok?
  }

  /** The count of a replay is the number of lines that apply when their turn comes. */
  lemma {:induction false} AppliedExactly(name: string, st: State, lines: seq<string>)
    ensures AppliedLines(name, st, lines) == |set k: nat | k < |lines| && Applies(name, st, lines, k)|
    decreases |lines|
  {
    hide ReplayLine, ReplayLines, AppliedLines;
    var places := set k: nat | k < |lines| && Applies(name, st, lines, k);
    if lines == [] {
      assert places == {};
      NothingApplied(name, st);
    } else {
      var before, last := lines[..|lines| - 1], lines[|lines| - 1];
      var earlier := set k: nat | k < |before| && Applies(name, st, before, k);
      assert lines == before + [last];
      AppliedExactly(name, st, before);
      AppliedConcat(name, st, before, [last]);
      OneApplied(name, ReplayLines(name, st, before), last);
      assert forall k: nat | k < |before| :: before[..k] == lines[..k] && before[k] == lines[k];
      assert places == if Applies(name, st, lines, |before|) then earlier + {|before|} else earlier;
    }
  }

  lemma NothingApplied(name: string, st: State)
    ensures AppliedLines(name, st, []) == 0
  {
  }

  lemma SomeApplied(name: string, st: State, lines: seq<string>)
    ensures AppliedLines(name, st, lines) > 0 <==> exists k: nat | k < |lines| :: Applies(name, st, lines, k)
  {
    hide Applies, AppliedLines;
    var places := set k: nat | k < |lines| && Applies(name, st, lines, k);
    AppliedExactly(name, st, lines);
    if k: nat :| k < |lines| && Applies(name, st, lines, k) {
      assert k in places;
    } else {
      assert places == {};
    }
  }

  lemma ReplayText(name: string, st: State, lines: seq<string>)
    requires forall l | l in lines :: NewlineFree(l)
    ensures Replay(name, st, Unlines(lines)) == ReplayLines(name, st, lines)
  {
    SplitUnlines(lines, "");
    assert Unlines(lines) + "" == Unlines(lines);
    assert SplitLines("") == [""];
    ReplayConcat(name, st, lines, [""]);
  }

  lemma {:induction false} PrintRecordsConcat(package: string, a: seq<Record>, b: seq<Record>)
    ensures PrintRecords(package, a + b) == PrintRecords(package, a) + PrintRecords(package, b)
  {
    if a == [] {
      assert a + b == b;
    } else {
      assert (a + b)[1..] == a[1..] + b;
      PrintRecordsConcat(package, a[1..], b);
    }
  }

  // ---------- one edit ----------

  /** A record of a well-spelled replayable edit is one the format can carry, and its
      parsed form is the same edit again. */
  lemma RecordOfEdit(st: State, e: Edit, n: nat)
    requires Spelled(e) && Perform(st, e).Ok? && Replayable(st, e)
    ensures var notes := Perform(st, e).value.notes;
      |notes| <= 1 &&
      forall r | r in notes :: RecordOk(r) &&
        forall package :: ReplayTuple(State(st.tree, n), TupleOf(package, r)).Ok? &&
          ReplayTuple(State(st.tree, n), TupleOf(package, r)).value.tree == Perform(st, e).value.state.tree
  {
    hide SetTree, AddListTree, DeleteTree, RenameTree, Unchanged, GeneratedName, FindSection;
    if e.AddSection? {
      RecordOfAddition(st, e.typ, n);
    }
  }

  lemma RecordOfAddition(st: State, typ: string, n: nat)
    requires ValidType(typ) && !HasSection(st.tree, GeneratedFor(st, typ))
    ensures var r := Record(Add, GeneratedFor(st, typ), None, Some(typ));
      RecordOk(r) && forall package ::
        ReplayTuple(State(st.tree, n), TupleOf(package, r)) == Ok(State(WithNewSection(st, typ).tree, n + 1))
  {
    hide GeneratedName;
    GeneratedNameInjective(st.n + 2, SectionHash(typ, []), 0, 0);
    ValidTypeIsText(typ);
    forall package
      ensures ReplayTuple(State(st.tree, n), TupleOf(package, Record(Add, GeneratedFor(st, typ), None, Some(typ))))
                           == Ok(State(WithNewSection(st, typ).tree, n + 1)) {
      AdditionOf(State(st.tree, n), TupleOf(package, Record(Add, GeneratedFor(st, typ), None, Some(typ))));
    }
  }

  lemma OneRecord(name: string, st: State, r: Record)
    ensures PrintRecords(name, [r]) == [PrintRecord(name, r)]
    ensures ReplayLines(name, st, PrintRecords(name, [r])) == ReplayStep(name, st, PrintRecord(name, r))
  {
    assert [r][1..] == [];
    var lines := [PrintRecord(name, r)];
    assert PrintRecords(name, []) == [];
    assert PrintRecords(name, [r]) == lines + [] == lines;
    assert lines[1..] == [];
  }

  /** Replaying the text of one record applies it, or changes nothing if it is refused. */
  lemma ReplayOne(name: string, st: State, r: Record)
    requires PlainPackage(name) && RecordOk(r)
    ensures Replay(name, st, JournalText(name, [r]))
         == match ReplayTuple(st, TupleOf(name, r)) case Ok(st') => st' case Err(_) => st
  {
    PrintParse(name, r);
    OneRecord(name, st, r);
    ReplayText(name, st, PrintRecords(name, [r]));
  }

  /** Replaying what a replayable edit printed does to any equal tree what the edit did. */
  lemma EditReplays(name: string, st: State, e: Edit, n: nat)
    requires PlainPackage(name) && Spelled(e)
    requires Perform(st, e).Ok? && Replayable(st, e)
    ensures var o := Perform(st, e).value;
      && (forall l | l in PrintRecords(name, o.notes) :: NewlineFree(l))
      && ReplayLines(name, State(st.tree, n), PrintRecords(name, o.notes)).tree == o.state.tree
      && AppliedLines(name, State(st.tree, n), PrintRecords(name, o.notes)) == |o.notes|
  {
    var o := Perform(st, e).value;
    RecordOfEdit(st, e, n);
    if o.notes == [] {
      UnchangedSet(st, e);
    } else {
      var r := o.notes[0];
      PrintParse(name, r);
      OneRecord(name, State(st.tree, n), r);
      OneApplied(name, State(st.tree, n), PrintRecord(name, r));
    }
  }

  lemma UnchangedSet(st: State, e: Edit)
    requires Perform(st, e).Ok? && Perform(st, e).value.notes == []
    ensures Perform(st, e).value.state.tree == st.tree
  {
    var k := FindSection(st.tree, e.section);
    assert st.tree[k].(options := st.tree[k].options) == st.tree[k];
  }

  /** A set of an option is recorded exactly when it changes the package; everything else
      that is carried out is recorded, once. */
  lemma RecordedExactly(st: State, e: Edit)
    requires Perform(st, e).Ok?
    ensures |Perform(st, e).value.notes| <= 1
    ensures Perform(st, e).value.notes == []
       <==> e.SetValue? && e.option.Some? && Perform(st, e).value.state.tree == st.tree
  {
    hide SetOption, AddListOption, GeneratedName;
    if e.SetValue? && e.option.Some? {
      var k := FindSection(st.tree, e.section);
      var s := st.tree[k];
      SetChanges(s.options, e.option.value, e.value);
      SameOptions(st.tree, k, SetOption(s.options, e.option.value, e.value));
    }
  }

  lemma SameOptions(t: Tree, k: nat, options: seq<Option>)
    requires k < |t|
    ensures t[k := t[k].(options := options)] == t <==> options == t[k].options
  {
    var t' := t[k := t[k].(options := options)];
    assert t'[k].options == options;
  }

  /** Records of another package are not applied. */
  lemma OtherPackageSkipped(name: string, other: string, st: State, r: Record)
    requires Carries(other, r.cmd) && RecordOk(r) && other != name
    ensures ReplayStep(name, st, PrintRecord(other, r)) == st
  {
    hide ParseTuple, PrintRecord, Carries, RecordOk;
    CarriedParse(other, r);
  }

  // ---------- invariants of replay ----------

  lemma UpdateKeepsOk(t: Tree, k: nat, s: Section)
    requires TreeOk(t) && k < |t| && SectionOk(s)
    ensures TreeOk(t[k := s])
  {
  }

  lemma RenameKeepsOk(t: Tree, section: string, option: Maybe<string>, value: string)
    requires TreeOk(t) && ValidName(value)
    ensures RenameTree(t, section, option, value).Ok? ==> TreeOk(RenameTree(t, section, option, value).value)
  {
    var k := FindSection(t, section);
    if RenameTree(t, section, option, value).Ok? {
      var s := t[k];
      assert SectionOk(s);
      if option.Some? {
        var j := FindOption(s.options, option.value);
        assert OptionOk(s.options[j]);
        UpdateKeepsOk(t, k, s.(options := s.options[j := s.options[j].(name := value)]));
      } else {
        UpdateKeepsOk(t, k, s.(name := value, anonymous := false));
      }
    }
  }

  lemma DeleteKeepsOk(t: Tree, section: string, option: Maybe<string>)
    requires TreeOk(t)
    ensures DeleteTree(t, section, option).Ok? ==> TreeOk(DeleteTree(t, section, option).value)
  {
    var k := FindSection(t, section);
    if DeleteTree(t, section, option).Ok? && option.Some? {
      var s := t[k];
      assert SectionOk(s);
      UpdateKeepsOk(t, k, s.(options := Without(s.options, FindOption(s.options, option.value))));
    }
  }

  lemma PerformKeepsOk(st: State, e: Edit)
    requires TreeOk(st.tree) && Spelled(e) && Replayable(st, e)
    ensures Perform(st, e).Ok? ==> TreeOk(Perform(st, e).value.state.tree)
  {
    match e
    case SetValue(s, o, v) =>
      var k := FindSection(st.tree, s);
      if k < |st.tree| {
        assert SectionOk(st.tree[k]);
        if o.Some? {
          SetOptionOk(st.tree[k].options, o.value, v);
        }
      }
    case AddToList(s, o, v) =>
      var k := FindSection(st.tree, s);
      if k < |st.tree| {
        assert SectionOk(st.tree[k]);
        AddListOptionOk(st.tree[k].options, o, v);
      }
    case Delete(s, o) => DeleteKeepsOk(st.tree, s, o);
    case RenameTo(s, o, v) => RenameKeepsOk(st.tree, s, o, v);
    case AddSection(typ) =>
      var s := NewSection("", typ);
      GeneratedNameInjective(st.n + 2, SectionHash(s.typ, s.options), 0, 0);
  }

  lemma ParsedEdit(st: State, line: string)
    ensures var u := ParseTuple(line);
      u.Ok? && EditOf(u.value).Ok? ==> Spelled(EditOf(u.value).value) && Replayable(st, EditOf(u.value).value)
  {
  }

  lemma ReplayLineKeepsOk(name: string, st: State, line: string)
    requires TreeOk(st.tree)
    ensures TreeOk(ReplayStep(name, st, line).tree)
  {
    var u := ParseTuple(line);
    ParsedEdit(st, line);
    if u.Ok? && EditOf(u.value).Ok? && Perform(st, EditOf(u.value).value).Ok? {
      PerformKeepsOk(st, EditOf(u.value).value);
      MarkKeepsOk(Perform(st, EditOf(u.value).value).value.state.tree, u.value.section);
    }
  }

  lemma MarkKeepsOk(t: Tree, section: string)
    requires TreeOk(t)
    ensures TreeOk(MarkAnonymous(t, section))
  {
    var k := FindSection(t, section);
    if k < |t| {
      assert SectionOk(t[k]);
    }
  }

  /** Whatever the journal holds, replaying it keeps names and types valid and lists
      nonempty. */
  lemma {:induction false} ReplayKeepsOk(name: string, st: State, lines: seq<string>)
    requires TreeOk(st.tree)
    ensures TreeOk(ReplayLines(name, st, lines).tree)
    decreases |lines|
  {
    if lines != [] {
      ReplayLineKeepsOk(name, st, lines[0]);
      ReplayKeepsOk(name, ReplayStep(name, st, lines[0]), lines[1..]);
    }
  }

  // ---------- exactness ----------

  lemma NotReplayableShows(st: State, e: Edit)
    requires TreeOk(st.tree) && Spelled(e) && Perform(st, e).Ok?
    requires match e case RenameTo(_, _, v) => !ValidName(v) case AddSection(typ) => !ValidType(typ) case _ => false
    ensures !TreeOk(Perform(st, e).value.state.tree)
  {
    var t := Perform(st, e).value.state.tree;
    match e
    case RenameTo(s, o, v) =>
      var k := FindSection(st.tree, s);
      assert t[k] in t;
      if o.Some? {
        var j := FindOption(st.tree[k].options, o.value);
        assert t[k].options[j] in t[k].options;
      }
    case AddSection(typ) =>
      assert t[|t| - 1] in t;
  }

  /** For one edit on a well-formed tree the condition is exact: replaying the printed
      record reproduces the edit if and only if the edit is replayable. */
  lemma EditReplaysExactly(name: string, st: State, e: Edit, n: nat)
    requires PlainPackage(name) && Spelled(e) && TreeOk(st.tree) && Perform(st, e).Ok?
    ensures Replay(name, State(st.tree, n), JournalText(name, Perform(st, e).value.notes)).tree
            == Perform(st, e).value.state.tree
      <==> Replayable(st, e)
  {
    var o := Perform(st, e).value;
    var text := JournalText(name, o.notes);
    var st' := State(st.tree, n);
    if Replayable(st, e) {
      EditReplays(name, st, e, n);
      ReplayText(name, st', PrintRecords(name, o.notes));
    } else if e.AddSection? && ValidType(e.typ) {
      GeneratedNameInjective(st.n + 2, SectionHash(e.typ, []), 0, 0);
      TakenNameUpdates(name, st', GeneratedFor(st, e.typ), e.typ);
    } else {
      ReplayKeepsOk(name, st', SplitLines(text));
      NotReplayableShows(st, e);
    }
  }

  lemma TakenNameUpdates(name: string, st: State, g: string, typ: string)
    requires PlainPackage(name) && ValidType(typ) && ValidName(g) && HasSection(st.tree, g)
    ensures |Replay(name, st, JournalText(name, [Record(Add, g, None, Some(typ))])).tree| == |st.tree|
  {
    var r := Record(Add, g, None, Some(typ));
    ReplayOne(name, st, r);
    SetTaken(st, TupleOf(name, r));
  }

  lemma SetTaken(st: State, u: Tuple)
    requires u.cmd == Add && u.option.None? && u.value.Some? && HasSection(st.tree, u.section)
    ensures ReplayTuple(st, u).Ok? ==> |ReplayTuple(st, u).value.tree| == |st.tree|
  {
  }

  // ---------- whole sessions ----------

  lemma SessionReplaysFrom(name: string, l: Live, es: seq<Edit>, st: State)
    requires PlainPackage(name) && SessionReplayable(l, es)
    requires forall line | line in PrintRecords(name, l.journal) :: NewlineFree(line)
    requires ReplayLines(name, st, PrintRecords(name, l.journal)).tree == l.state.tree
    requires AppliedLines(name, st, PrintRecords(name, l.journal)) == |l.journal|
    ensures var end := Run(l, es);
      && (forall line | line in PrintRecords(name, end.journal) :: NewlineFree(line))
      && ReplayLines(name, st, PrintRecords(name, end.journal)).tree == end.state.tree
      && AppliedLines(name, st, PrintRecords(name, end.journal)) == |end.journal|
    decreases |es|
  {
    if es != [] {
      var next := Step(l, es[0]);
      if Perform(l.state, es[0]).Ok? {
        var o := Perform(l.state, es[0]).value;
        var now := ReplayLines(name, st, PrintRecords(name, l.journal));
        EditReplays(name, l.state, es[0], now.n);
        PrintRecordsConcat(name, l.journal, o.notes);
        ReplayConcat(name, st, PrintRecords(name, l.journal), PrintRecords(name, o.notes));
        AppliedConcat(name, st, PrintRecords(name, l.journal), PrintRecords(name, o.notes));
      }
      SessionReplaysFrom(name, next, es[1..], st);
    }
  }

  /** Journal replay equals live editing: for every session on a loaded package,
      replaying the journal text it saves over the same package rebuilds its tree. */
  lemma SessionReplays(name: string, start: State, es: seq<Edit>)
    requires PlainPackage(name) && SessionReplayable(Live(start, []), es)
    ensures var end := Run(Live(start, []), es);
      && Replay(name, start, JournalText(name, end.journal)).tree == end.state.tree
      && AppliedLines(name, start, SplitLines(JournalText(name, end.journal))) == |end.journal|
  {
    SessionReplaysFrom(name, Live(start, []), es, start);
    var lines := PrintRecords(name, Run(Live(start, []), es).journal);
    ReplayText(name, start, lines);
    AppliedText(name, start, lines);
  }

  lemma AppliedText(name: string, st: State, lines: seq<string>)
    requires forall l | l in lines :: NewlineFree(l)
    ensures AppliedLines(name, st, SplitLines(Unlines(lines))) == AppliedLines(name, st, lines)
  {
    hide ReplayLine;
    SplitUnlines(lines, "");
    EmptyConcat(Unlines(lines));
    assert SplitLines("") == [""];
    AppliedConcat(name, st, lines, [""]);
    OneApplied(name, ReplayLines(name, st, lines), "");
  }

  /** Every record of a session is one the format can carry. */
  lemma SessionRecords(l: Live, es: seq<Edit>)
    requires SessionReplayable(l, es) && forall r | r in l.journal :: RecordOk(r)
    ensures forall r | r in Run(l, es).journal :: RecordOk(r)
    decreases |es|
  {
    if es != [] {
      if Perform(l.state, es[0]).Ok? {
        RecordOfEdit(l.state, es[0], 0);
      }
      SessionRecords(Step(l, es[0]), es[1..]);
    }
  }

  /** Sessions keep trees well formed: valid names and types, no empty list. */
  lemma SessionKeepsOk(l: Live, es: seq<Edit>)
    requires TreeOk(l.state.tree) && SessionReplayable(l, es)
    ensures TreeOk(Run(l, es).state.tree)
    decreases |es|
  {
    if es != [] {
      if Perform(l.state, es[0]).Ok? {
        PerformKeepsOk(l.state, es[0]);
      }
      SessionKeepsOk(Step(l, es[0]), es[1..]);
    }
  }

  // ---------- generated names run into each other ----------

  /** A replayed addition counts once, where the live one counted twice. */
  lemma ReplayedAddition(name: string, st: State, g: string, typ: string)
    requires PlainPackage(name) && ValidType(typ) && ValidName(g) && !HasSection(st.tree, g)
    ensures ReplayStep(name, st, PrintRecord(name, Record(Add, g, None, Some(typ))))
         == State(st.tree + [Section(g, typ, true, [])], st.n + 1)
  {
    hide PlainPackage, ParseTuple, ReplayTuple, ValidType;
    var r := Record(Add, g, None, Some(typ));
    ValidTypeIsText(typ);
    PrintParse(name, r);
    AdditionOf(st, TupleOf(name, r));
  }

  lemma AdditionOf(st: State, u: Tuple)
    requires u.cmd == Add && u.option.None? && u.value.Some? && ValidType(u.value.value)
         && !HasSection(st.tree, u.section)
    requires u.section != ""
    ensures ReplayTuple(st, u) == Ok(State(st.tree + [Section(u.section, u.value.value, true, [])], st.n + 1))
  {
    var t := st.tree + [NewSection(u.section, u.value.value)];
    FoundSection(t, u.section, |st.tree|);
    assert MarkAnonymous(t, u.section) == st.tree + [Section(u.section, u.value.value, true, [])];
  }

  lemma ValidTypeIsText(s: string)
    requires ValidType(s)
    ensures ValidText(s)
  {
  }

  function AddNote(st: State, typ: string): Record {
    Record(Add, GeneratedFor(st, typ), None, Some(typ))
  }

  function Added(st: State, typ: string): Section {
    Section(GeneratedFor(st, typ), typ, true, [])
  }

  lemma StepAddition(l: Live, typ: string)
    ensures Step(l, AddSection(typ))
         == Live(State(l.state.tree + [Added(l.state, typ)], l.state.n + 2), l.journal + [AddNote(l.state, typ)])
  {
  }

  /** The names generated at different counts differ. */
  lemma GeneratedApart(a: State, b: State, typ: string)
    ensures ValidName(GeneratedFor(a, typ))
    ensures GeneratedFor(a, typ) == GeneratedFor(b, typ) <==> a.n == b.n
  {
    var h := SectionHash(typ, []);
    GeneratedNameInjective(a.n + 2, h, b.n + 2, h);
  }

  lemma RunTwo(l: Live, a: Edit, b: Edit)
    ensures Run(l, [a, b]) == Step(Step(l, a), b)
  {
    assert [a, b][1..] == [b] && [b][1..] == [];
    var m := Step(l, a);
    assert Run(m, [b]) == Run(Step(m, b), []);
  }

  lemma ReplayTwo(name: string, st: State, a: Record, b: Record)
    requires PlainPackage(name) && RecordOk(a) && RecordOk(b)
    ensures Replay(name, st, JournalText(name, [a, b]))
         == ReplayStep(name, ReplayStep(name, st, PrintRecord(name, a)), PrintRecord(name, b))
  {
    hide PlainPackage, ReplayStep;
    PrintRecordsConcat(name, [a], [b]);
    OneRecord(name, st, a);
    OneRecord(name, ReplayStep(name, st, PrintRecord(name, a)), b);
    PrintParse(name, a);
    PrintParse(name, b);
    ReplayText(name, st, PrintRecords(name, [a, b]));
    assert [a] + [b] == [a, b];
    ReplayConcat(name, st, PrintRecords(name, [a]), PrintRecords(name, [b]));
  }

  /** Ordinary use meets a taken name. Two sections of a type are added to an empty
      package, saved and loaded again: the tree is the same, but the counter stands at two
      and not at four, so the next section of that type gets the name of the second one,
      and its addition is lost when it is saved and loaded. */
  lemma ThirdAdditionIsLost(name: string, typ: string)
    requires PlainPackage(name) && ValidType(typ)
    ensures var live := Run(Live(State([], 0), []), [AddSection(typ), AddSection(typ)]);
      var loaded := Replay(name, State([], 0), JournalText(name, live.journal));
      var third := Step(Live(loaded, []), AddSection(typ));
      && loaded.tree == live.state.tree && |loaded.tree| == 2 && loaded.n == 2 && live.state.n == 4
      && !Replayable(loaded, AddSection(typ))
      && |third.state.tree| == 3
      && |Replay(name, loaded, JournalText(name, third.journal)).tree| == 2
  {
    hide PlainPackage, GeneratedFor, ReplayStep, Step, Perform;
    var s0 := State([], 0);
    var l0 := Live(s0, []);
    StepAddition(l0, typ);
    var l1 := Step(l0, AddSection(typ));
    StepAddition(l1, typ);
    RunTwo(l0, AddSection(typ), AddSection(typ));
    var live := Run(l0, [AddSection(typ), AddSection(typ)]);
    var g1, g2 := GeneratedFor(s0, typ), GeneratedFor(l1.state, typ);
    GeneratedApart(s0, l1.state, typ);
    GeneratedApart(l1.state, s0, typ);
    ValidTypeIsText(typ);
    assert live.journal == [AddNote(s0, typ), AddNote(l1.state, typ)];
    ReplayTwo(name, s0, AddNote(s0, typ), AddNote(l1.state, typ));
    ReplayedAddition(name, s0, g1, typ);
    assert s0.tree + [Added(s0, typ)] == [Added(s0, typ)];
    FoundSection([Added(s0, typ)], g2, 1);
    ReplayedAddition(name, State([Added(s0, typ)], 1), g2, typ);
    var loaded := Replay(name, s0, JournalText(name, live.journal));
    assert loaded == State([Added(s0, typ), Added(l1.state, typ)], 2);
    assert live.state.tree == loaded.tree;
    GeneratedApart(loaded, l1.state, typ);
    FoundSection(loaded.tree, g2, 1);
    StepAddition(Live(loaded, []), typ);
    var third := Step(Live(loaded, []), AddSection(typ));
    assert third.journal == [AddNote(loaded, typ)];
    TakenNameUpdates(name, loaded, g2, typ);
  }
}
