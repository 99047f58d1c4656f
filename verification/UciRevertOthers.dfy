/** A revert leaves alone what it was not asked for. */
module UciRevertOthers {
  import opened UciText
  import opened UciTree
  import opened UciEdits
  import opened UciPackage
  import opened UciJournal
  import opened UciReplay
  import opened UciRevert

  // ---------- editing beside an option ----------

  lemma FoundInOthers(options: seq<Option>, name: string, other: string)
    requires other != name
    ensures var k, rest := FindOption(options, other), Others(options, name);
      var j := FindOption(rest, other);
      && (k == |options| <==> j == |rest|)
      && (k < |options| ==>
            && rest[j] == options[k]
            && Others(options[..k], name) == rest[..j] && Others(options[k + 1..], name) == rest[j + 1..])
  {
    hide Others;
    var k := FindOption(options, other);
    if k == |options| {
      NoneAmongOthers(options, name, other);
      FoundOption(Others(options, name), other, |Others(options, name)|);
    } else {
      var a, b := Others(options[..k], name), Others(options[k + 1..], name);
      OthersAround(options, k, name);
      OthersOfOne(options[k], name);
      NoneAmongOthers(options[..k], name, other);
      FoundOption(a + [options[k]] + b, other, |a|);
      assert (a + [options[k]] + b)[..|a|] == a && (a + [options[k]] + b)[|a| + 1..] == b;
    }
  }

  lemma {:induction false} NoneAmongOthers(options: seq<Option>, name: string, other: string)
    requires forall i | 0 <= i < |options| :: options[i].name != other
    ensures forall i | 0 <= i < |Others(options, name)| :: Others(options, name)[i].name != other
  {
    if options != [] {
      NoneAmongOthers(options[1..], name, other);
    }
  }

  lemma ValueInOthers(options: seq<Option>, name: string, other: string)
    requires other != name
    ensures ValueOf(Others(options, name), other) == ValueOf(options, other)
  {
    FoundInOthers(options, name, other);
  }

  lemma WithoutBeside(options: seq<Option>, name: string, other: string)
    requires other != name && FindOption(options, other) < |options|
    ensures var k, rest := FindOption(options, other), Others(options, name);
      && FindOption(rest, other) < |rest|
      && Others(Without(options, k), name) == Without(rest, FindOption(rest, other))
  {
    hide Others;
    FoundInOthers(options, name, other);
    OthersAround(options, FindOption(options, other), name);
  }

  /** Setting or extending another option is the same with this one in between and without. */
  lemma SetBeside(options: seq<Option>, name: string, other: string, value: string)
    requires other != name
    ensures Others(SetOption(options, other, value), name) == SetOption(Others(options, name), other, value)
  {
    hide Others, Without;
    var k, o := FindOption(options, other), Option(other, Str(value));
    FoundInOthers(options, name, other);
    OthersOfOne(o, name);
    OthersConcat(options, [o], name);
    if k < |options| {
      WithoutBeside(options, name, other);
      OthersConcat(Without(options, k), [o], name);
    }
  }

  lemma AddBeside(options: seq<Option>, name: string, other: string, item: string)
    requires other != name
    ensures Others(AddListOption(options, other, item), name) == AddListOption(Others(options, name), other, item)
  {
    hide Others, Without;
    var k := FindOption(options, other);
    FoundInOthers(options, name, other);
    if k == |options| {
      AppendBeside(options, name, Option(other, List([item])));
    } else {
      match options[k].value
      case Str(s) =>
        WithoutBeside(options, name, other);
        AppendBeside(Without(options, k), name, Option(other, List([s, item])));
      case List(items) => ChangeBeside(options, name, Option(other, List(items + [item])));
    }
  }

  lemma AppendBeside(options: seq<Option>, name: string, o: Option)
    requires o.name != name
    ensures Others(options + [o], name) == Others(options, name) + [o]
  {
    OthersConcat(options, [o], name);
    OthersOfOne(o, name);
  }

  lemma ChangeBeside(options: seq<Option>, name: string, o: Option)
    requires o.name != name && FindOption(options, o.name) < |options|
    ensures var rest := Others(options, name);
      FindOption(rest, o.name) < |rest|
      && Others(options[FindOption(options, o.name) := o], name) == rest[FindOption(rest, o.name) := o]
  {
    hide Others;
    FoundInOthers(options, name, o.name);
    OthersAround(options, FindOption(options, o.name), name);
    OthersOfOne(o, name);
  }

  /** Whatever is done to an option, the others are as they were. */
  lemma OthersStay(options: seq<Option>, name: string, value: string)
    ensures Others(SetOption(options, name, value), name) == Others(options, name)
    ensures Others(AddListOption(options, name, value), name) == Others(options, name)
    ensures FindOption(options, name) < |options| ==>
      Others(Without(options, FindOption(options, name)), name) == Others(options, name)
  {
    hide Others, Without;
    var k := FindOption(options, name);
    OneMore(options, Option(name, Str(value)));
    OneMore(options, Option(name, List([value])));
    if k < |options| {
      OthersAround(options, k, name);
      OthersOfOne(options[k], name);
      EmptyConcat(Others(options[..k], name));
      OneMore(Without(options, k), Option(name, Str(value)));
      match options[k].value
      case Str(s) => OneMore(Without(options, k), Option(name, List([s, value])));
      case List(items) => OthersOfOne(Option(name, List(items + [value])), name);
    }
  }

  lemma OneMore(options: seq<Option>, o: Option)
    ensures Others(options + [o], o.name) == Others(options, o.name)
  {
    OthersConcat(options, [o], o.name);
    OthersOfOne(o, o.name);
    EmptyConcat(Others(options, o.name));
  }

  // ---------- trees that differ in one option ----------

  predicate SameBut(a: Section, b: Section, option: string) {
    a.(options := []) == b.(options := []) && Others(a.options, option) == Others(b.options, option)
  }

  /** Equal but for the option in sections of the name. */
  predicate AlikeBut(t: Tree, u: Tree, section: string, option: string) {
    |t| == |u| && forall i | 0 <= i < |t| :: SameBut(t[i], u[i], option) && (t[i].name != section ==> t[i] == u[i])
  }

  lemma AlikeAt(t: Tree, u: Tree, section: string, option: string, k: nat)
    requires AlikeBut(t, u, section, option) && k < |t|
    ensures |t| == |u| && t[k].name == u[k].name && t[k].anonymous == u[k].anonymous && t[k].typ == u[k].typ
    ensures Others(t[k].options, option) == Others(u[k].options, option)
    ensures t[k].name != section ==> t[k] == u[k]
  {
    assert t[k].(options := []).name == u[k].(options := []).name;
    assert t[k].(options := []).typ == u[k].(options := []).typ;
    assert t[k].(options := []).anonymous == u[k].(options := []).anonymous;
  }

  lemma AlikeFinds(t: Tree, u: Tree, section: string, option: string, name: string)
    requires AlikeBut(t, u, section, option)
    ensures FindSection(t, name) == FindSection(u, name)
  {
    var k := FindSection(t, name);
    forall i | 0 <= i < |t| ensures t[i].name == u[i].name {
      AlikeAt(t, u, section, option, i);
    }
    FoundSection(u, name, k);
  }

  lemma AlikeItself(t: Tree, section: string, option: string)
    ensures AlikeBut(t, t, section, option)
  {
  }

  lemma AlikeTwice(t: Tree, u: Tree, w: Tree, section: string, option: string)
    requires AlikeBut(t, u, section, option) && AlikeBut(u, w, section, option)
    ensures AlikeBut(t, w, section, option)
  {
    hide SameBut;
    forall i | 0 <= i < |t| ensures SameBut(t[i], w[i], option) && (t[i].name != section ==> t[i] == w[i]) {
      AlikeAt(t, u, section, option, i);
      AlikeAt(u, w, section, option, i);
      SameTwice(t[i], u[i], w[i], option);
    }
  }

  lemma SameTwice(a: Section, b: Section, c: Section, option: string)
    requires SameBut(a, b, option) && SameBut(b, c, option)
    ensures SameBut(a, c, option)
  {
  }

  lemma AlikeUpdate(t: Tree, u: Tree, section: string, option: string, k: nat, a: Section, b: Section)
    requires AlikeBut(t, u, section, option) && k < |t|
    requires SameBut(a, b, option) && (a.name != section ==> a == b)
    ensures AlikeBut(t[k := a], u[k := b], section, option)
  {
    hide SameBut;
  }

  lemma AlikeAppend(t: Tree, u: Tree, section: string, option: string, s: Section)
    requires AlikeBut(t, u, section, option)
    ensures AlikeBut(t + [s], u + [s], section, option)
  {
    hide Others;
  }

  lemma AlikeWithout(t: Tree, u: Tree, section: string, option: string, k: nat)
    requires AlikeBut(t, u, section, option) && k < |t|
    ensures AlikeBut(Without(t, k), Without(u, k), section, option)
  {
    hide SameBut;
  }

  lemma AlikeMarked(t: Tree, u: Tree, section: string, option: string, marked: string)
    requires AlikeBut(t, u, section, option)
    ensures AlikeBut(MarkAnonymous(t, marked), MarkAnonymous(u, marked), section, option)
  {
    hide Others;
    var k := FindSection(t, marked);
    AlikeFinds(t, u, section, option, marked);
    if k < |t| {
      AlikeAt(t, u, section, option, k);
      AlikeUpdate(t, u, section, option, k, t[k].(anonymous := true), u[k].(anonymous := true));
    }
  }

  // ---------- one edit ----------

  function OptionOf(e: Edit): Maybe<string>
    requires !e.AddSection?
  {
    if e.AddToList? then Some(e.listOption) else e.option
  }

  /** The edit renames or deletes the section or renames an option of it. */
  predicate Disturbs(e: Edit, section: string) {
    !e.AddSection? && e.section == section && (e.RenameTo? || (e.Delete? && e.option.None?))
  }

  lemma AboutTheOption(st: State, e: Edit, section: string, option: string)
    requires !e.AddSection? && e.section == section && OptionOf(e) == Some(option) && !Disturbs(e, section)
    requires Perform(st, e).Ok?
    ensures AlikeBut(Perform(st, e).value.state.tree, st.tree, section, option)
  {
    hide Others, SetOption, AddListOption, Without;
    var t := st.tree;
    var k := FindSection(t, section);
    var options := t[k].options;
    AlikeItself(t, section, option);
    OthersStay(options, option, if e.SetValue? then e.value else if e.AddToList? then e.item else "");
    var s := Perform(st, e).value.state.tree[k];
    AlikeUpdate(t, t, section, option, k, s, t[k]);
    assert t[k := t[k]] == t;
  }

  /** Another edit does the same to both trees. */
  lemma EditAlike(st: State, su: State, e: Edit, section: string, option: string)
    requires AlikeBut(st.tree, su.tree, section, option)
    requires !e.AddSection? && !Disturbs(e, section) && !(e.section == section && OptionOf(e) == Some(option))
    ensures Perform(st, e).Ok? == Perform(su, e).Ok?
    ensures Perform(st, e).Ok? ==>
      AlikeBut(Perform(st, e).value.state.tree, Perform(su, e).value.state.tree, section, option)
  {
    hide AlikeBut, Others, SetOption, AddListOption, Without, SameBut, Unchanged, FindSection;
    var t, u := st.tree, su.tree;
    var k := FindSection(t, e.section);
    AlikeFinds(t, u, section, option, e.section);
    SameLength(t, u, section, option);
    if k == |t| {
      if e.SetValue? {
        AlikeAppend(t, u, section, option, NewSection(e.section, e.value));
      }
    } else if OptionOf(e).None? && e.Delete? {
      AlikeWithout(t, u, section, option, k);
    } else {
      SectionAlike(st, su, e, section, option, k);
    }
  }

  lemma SameLength(t: Tree, u: Tree, section: string, option: string)
    requires AlikeBut(t, u, section, option)
    ensures |t| == |u|
  {
  }

  lemma SectionAlike(st: State, su: State, e: Edit, section: string, option: string, k: nat)
    requires AlikeBut(st.tree, su.tree, section, option)
    requires !e.AddSection? && !Disturbs(e, section) && !(e.section == section && OptionOf(e) == Some(option))
    requires k < |st.tree| && k == FindSection(st.tree, e.section) == FindSection(su.tree, e.section)
    requires !(e.Delete? && e.option.None?)
    ensures Perform(st, e).Ok? == Perform(su, e).Ok?
    ensures Perform(st, e).Ok? ==>
      AlikeBut(Perform(st, e).value.state.tree, Perform(su, e).value.state.tree, section, option)
  {
    hide AlikeBut, Others, SetOption, AddListOption, Without, FindSection, Unchanged;
    var t, u := st.tree, su.tree;
    AlikeAt(t, u, section, option, k);
    if e.section != section {
      assert t[k] == u[k];
      if Perform(st, e).Ok? {
        var s := Perform(st, e).value.state.tree[k];
        AlikeUpdate(t, u, section, option, k, s, s);
      }
    } else {
      BesideAlike(t, u, section, option, e, k);
      if Perform(st, e).Ok? {
        AlikeUpdate(t, u, section, option, k, Perform(st, e).value.state.tree[k], Perform(su, e).value.state.tree[k]);
      }
    }
  }

  lemma BesideAlike(t: Tree, u: Tree, section: string, option: string, e: Edit, k: nat)
    requires !e.AddSection? && e.section == section && !Disturbs(e, section) && OptionOf(e) != Some(option)
    requires k < |t| == |u| && Others(t[k].options, option) == Others(u[k].options, option)
    ensures e.Delete? ==>
      var (i, j) := (FindOption(t[k].options, e.option.value), FindOption(u[k].options, e.option.value));
      && (i == |t[k].options| <==> j == |u[k].options|)
      && (i < |t[k].options| ==> Others(Without(t[k].options, i), option) == Others(Without(u[k].options, j), option))
    ensures e.SetValue? && e.option.Some? ==>
      Others(SetOption(t[k].options, e.option.value, e.value), option)
      == Others(SetOption(u[k].options, e.option.value, e.value), option)
    ensures e.AddToList? ==>
      Others(AddListOption(t[k].options, e.listOption, e.item), option)
      == Others(AddListOption(u[k].options, e.listOption, e.item), option)
  {
    hide Others, SetOption, AddListOption, Without;
    match e {
      case SetValue(_, o, v) =>
        if o.Some? {
          SetBeside(t[k].options, option, o.value, v);
          SetBeside(u[k].options, option, o.value, v);
        }
      case AddToList(_, o, v) =>
        AddBeside(t[k].options, option, o, v);
        AddBeside(u[k].options, option, o, v);
      case Delete(_, o) =>
        FoundInOthers(t[k].options, option, o.value);
        FoundInOthers(u[k].options, option, o.value);
        if FindOption(t[k].options, o.value) < |t[k].options| {
          WithoutBeside(t[k].options, option, o.value);
          WithoutBeside(u[k].options, option, o.value);
        }
    }
  }

  // ---------- a journal ----------

  lemma StepAlike(name: string, st: State, su: State, line: string, section: string, option: string)
    requires AlikeBut(st.tree, su.tree, section, option)
    requires LineEdit(name, line).Some? ==> !Disturbs(LineEdit(name, line).value, section)
    ensures SelectedLine(line, Some(section), Some(option)) ==>
      AlikeBut(ReplayStep(name, st, line).tree, su.tree, section, option)
    ensures !SelectedLine(line, Some(section), Some(option)) ==>
      AlikeBut(ReplayStep(name, st, line).tree, ReplayStep(name, su, line).tree, section, option)
  {
    hide AlikeBut, Perform, MarkAnonymous, ParseTuple;
    if LineEdit(name, line).Some? {
      var u := ParseTuple(line).value;
      var e := EditOf(u).value;
      if SelectedLine(line, Some(section), Some(option)) {
        if Perform(st, e).Ok? {
          AboutTheOption(st, e, section, option);
          AlikeTwice(Perform(st, e).value.state.tree, st.tree, su.tree, section, option);
        }
      } else {
        EditAlike(st, su, e, section, option);
        if Perform(st, e).Ok? {
          AlikeMarked(Perform(st, e).value.state.tree, Perform(su, e).value.state.tree, section, option, u.section);
        }
      }
    }
  }

  lemma {:induction false} LinesAlike(name: string, st: State, su: State, lines: seq<string>, section: string,
                                      option: string)
    requires AlikeBut(st.tree, su.tree, section, option)
    requires forall l | l in lines && LineEdit(name, l).Some? :: !Disturbs(LineEdit(name, l).value, section)
    ensures AlikeBut(ReplayLines(name, st, lines).tree,
                     ReplayLines(name, su, Unselected(lines, Some(section), Some(option))).tree, section, option)
    decreases |lines|
  {
    hide AlikeBut, ReplayStep, SelectedLine, LineEdit, Disturbs;
    if lines != [] {
      assert lines[0] in lines && forall l | l in lines[1..] :: l in lines;
      StepAlike(name, st, su, lines[0], section, option);
      var rest := Unselected(lines[1..], Some(section), Some(option));
      assert ([lines[0]] + rest)[1..] == rest;
      BlankStep(name, su);
      var stays := lines[0] != "" && !SelectedLine(lines[0], Some(section), Some(option));
      var su' := if stays then ReplayStep(name, su, lines[0]) else su;
      LinesAlike(name, ReplayStep(name, st, lines[0]), su', lines[1..], section, option);
    }
  }

  lemma BlankStep(name: string, st: State)
    ensures ReplayStep(name, st, "") == st
  {
  }

  lemma AlikeEntries(t: Tree, u: Tree, section: string, option: string)
    requires AlikeBut(t, u, section, option)
    ensures forall s, o | s != section || o != option :: Entry(t, s, o) == Entry(u, s, o)
    ensures forall s | s != section :: Lookup(t, s) == Lookup(u, s)
  {
    hide Others, AlikeBut, FindSection;
    forall s ensures s != section ==> Lookup(t, s) == Lookup(u, s) {
      AlikeFinds(t, u, section, option, s);
      SameLength(t, u, section, option);
      if FindSection(t, s) < |t| {
        AlikeAt(t, u, section, option, FindSection(t, s));
      }
    }
    forall o | o != option ensures Entry(t, section, o) == Entry(u, section, o) {
      AlikeFinds(t, u, section, option, section);
      SameLength(t, u, section, option);
      var k := FindSection(t, section);
      if k < |t| {
        AlikeAt(t, u, section, option, k);
        ValueInOthers(t[k].options, option, o);
        ValueInOthers(u[k].options, option, o);
      }
    }
  }

  /** Reverting one option leaves every other one: if no journal line renames or deletes its
      section or renames one of its options, a reader finds for every other section and
      option what was there before the revert. */
  lemma RevertLeavesOthers(name: string, st: State, journal: string, section: string, option: string)
    requires forall l | l in SplitLines(journal) && LineEdit(name, l).Some? ::
      !Disturbs(LineEdit(name, l).value, section)
    ensures var before := Replay(name, st, journal).tree;
      var after := Replay(name, st, Filter(journal, Some(section), Some(option))).tree;
      && (forall s, o | s != section || o != option :: Entry(after, s, o) == Entry(before, s, o))
      && (forall s | s != section :: Lookup(after, s) == Lookup(before, s))
      && AlikeBut(before, after, section, option)
  {
    hide AlikeBut, LineEdit, Disturbs, Entry, Lookup, AllParse;
    var lines := SplitLines(journal);
    AlikeItself(st.tree, section, option);
    AlikeItself(Replay(name, st, journal).tree, section, option);
    LinesAlike(name, st, st, lines, section, option);
    RevertReplays(name, st, journal, Some(section), Some(option));
    AlikeEntries(Replay(name, st, journal).tree,
                 Replay(name, st, Filter(journal, Some(section), Some(option))).tree, section, option);
  }

  /** The condition is needed: a rename of the option is a record about it, so its revert takes
      the value from the new name. */
  lemma RenamedOptionIsLost()
    ensures var lan := Section("lan", "zone", false, [Option("ip", Str("1"))]);
      var journal := JournalText("net", [Record(Rename, "lan", Some("ip"), Some("addr"))]);
      && Entry(Replay("net", State([lan], 1), journal).tree, "lan", "addr") == Some(Str("1"))
      && Entry(Replay("net", State([lan], 1), Filter(journal, Some("lan"), Some("ip"))).tree, "lan", "addr") == None
  {
    hide Filter, Replay, ParseTuple, PrintRecord;
    var lan := Section("lan", "zone", false, [Option("ip", Str("1"))]);
    var named := lan.(options := [Option("addr", Str("1"))]);
    var r := Record(Rename, "lan", Some("ip"), Some("addr"));
    assert "ip"[0] != "addr"[0];
    FilterKeepsRemaining("net", [r], Some("lan"), Some("ip"));
    assert [r][1..] == [];
    ReplayText("net", State([lan], 1), []);
    ReplayOne("net", State([lan], 1), r);
    RenameTuple("net", State([lan], 1), r);
    FoundSection([lan], "lan", 0);
    FoundOption(lan.options, "ip", 0);
    FoundOption(lan.options, "addr", 1);
    FoundSection([named], "lan", 0);
    FoundOption(named.options, "addr", 0);
    assert lan.options[0 := Option("addr", Str("1"))] == named.options;
    assert [lan][0 := named] == [named];
  }

  // ---------- editing beside a section ----------

  /** The sections that are called something else, in their order. */
  function OtherSections(t: Tree, name: string): Tree {
    if t == [] then []
    else (if t[0].name == name then [] else [t[0]]) + OtherSections(t[1..], name)
  }

  lemma {:induction false} SectionsConcat(a: Tree, b: Tree, name: string)
    ensures OtherSections(a + b, name) == OtherSections(a, name) + OtherSections(b, name)
  {
    if a == [] {
      EmptyConcat(b);
    } else {
      assert (a + b)[1..] == a[1..] + b;
      SectionsConcat(a[1..], b, name);
    }
  }

  lemma SectionsOfOne(s: Section, name: string)
    ensures OtherSections([s], name) == if s.name == name then [] else [s]
  {
    assert [s][1..] == [];
  }

  lemma {:induction false} NoneAmongSections(t: Tree, name: string, other: string)
    requires forall i | 0 <= i < |t| :: t[i].name != other
    ensures forall i | 0 <= i < |OtherSections(t, name)| :: OtherSections(t, name)[i].name != other
  {
    if t != [] {
      NoneAmongSections(t[1..], name, other);
    }
  }

  lemma SectionsAround(t: Tree, k: nat, s: Section, name: string)
    requires k < |t|
    ensures OtherSections(t[k := s], name)
         == OtherSections(t[..k], name) + OtherSections([s], name) + OtherSections(t[k + 1..], name)
    ensures OtherSections(Without(t, k), name) == OtherSections(t[..k], name) + OtherSections(t[k + 1..], name)
  {
    hide OtherSections;
    var a, b := t[..k], t[k + 1..];
    assert t[k := s] == (a + [s]) + b;
    SectionsConcat(a + [s], b, name);
    SectionsConcat(a, [s], name);
    SectionsConcat(a, b, name);
  }

  /** Where a section stands among the others. */
  lemma SectionAmongOthers(t: Tree, name: string, other: string)
    requires other != name
    ensures var k, rest := FindSection(t, other), OtherSections(t, name);
      var j := FindSection(rest, other);
      && (k == |t| <==> j == |rest|)
      && (k < |t| ==>
            && rest[j] == t[k]
            && OtherSections(t[..k], name) == rest[..j] && OtherSections(t[k + 1..], name) == rest[j + 1..])
  {
    hide OtherSections;
    var k := FindSection(t, other);
    if k == |t| {
      NoneAmongSections(t, name, other);
      FoundSection(OtherSections(t, name), other, |OtherSections(t, name)|);
    } else {
      var a, b := OtherSections(t[..k], name), OtherSections(t[k + 1..], name);
      SectionsAround(t, k, t[k], name);
      assert t[k := t[k]] == t;
      SectionsOfOne(t[k], name);
      NoneAmongSections(t[..k], name, other);
      FoundSection(a + [t[k]] + b, other, |a|);
      assert (a + [t[k]] + b)[..|a|] == a && (a + [t[k]] + b)[|a| + 1..] == b;
    }
  }

  lemma LookupAmongOthers(t: Tree, name: string, other: string)
    requires other != name
    ensures Lookup(OtherSections(t, name), other) == Lookup(t, other)
  {
    SectionAmongOthers(t, name, other);
  }

  /** An edit of another section may as well be done on the others only. */
  lemma EditBeside(st: State, e: Edit, name: string, o: State)
    requires !e.AddSection? && e.section != name && o.tree == OtherSections(st.tree, name)
    ensures Perform(st, e).Ok? == Perform(o, e).Ok?
    ensures Perform(st, e).Ok? ==>
      OtherSections(Perform(st, e).value.state.tree, name) == OtherSections(Perform(o, e).value.state.tree, name)
  {
    hide OtherSections, SetOption, AddListOption, Without, FindSection, FindOption, Unchanged;
    var t, u := st.tree, o.tree;
    var k, j := FindSection(t, e.section), FindSection(u, e.section);
    SectionAmongOthers(t, name, e.section);
    if Perform(st, e).Ok? {
      if k == |t| {
        SectionsConcat(t, [NewSection(e.section, e.value)], name);
        SectionsConcat(u, [NewSection(e.section, e.value)], name);
        OthersOfOthers(t, name);
      } else {
        SameUpdate(t, k, name);
        SameUpdate(u, j, name);
        OthersOfOthers(t[..k], name);
        OthersOfOthers(t[k + 1..], name);
        var t' := Perform(st, e).value.state.tree;
        var s := if k < |t'| then t'[k] else t[k];
        SectionsAround(t, k, s, name);
        SectionsAround(u, j, s, name);
      }
    }
  }

  lemma SameUpdate(t: Tree, k: nat, name: string)
    requires k < |t|
    ensures t[k := t[k]] == t
  {
  }

  lemma {:induction false} OthersOfOthers(t: Tree, name: string)
    ensures OtherSections(OtherSections(t, name), name) == OtherSections(t, name)
  {
    if t != [] {
      OthersOfOthers(t[1..], name);
      var rest := OtherSections(t[1..], name);
      EmptyConcat(rest);
      assert ([t[0]] + rest)[1..] == rest;
    }
  }

  /** The edit renames the section. */
  predicate RenamesAway(e: Edit, section: string) {
    e.RenameTo? && e.section == section && e.option.None?
  }

  lemma AboutTheSection(st: State, e: Edit, section: string)
    requires !e.AddSection? && e.section == section && !RenamesAway(e, section) && Perform(st, e).Ok?
    ensures OtherSections(Perform(st, e).value.state.tree, section) == OtherSections(st.tree, section)
  {
    hide OtherSections, SetOption, AddListOption, Without, FindSection, FindOption, Unchanged;
    var t, t' := st.tree, Perform(st, e).value.state.tree;
    var k := FindSection(t, section);
    if k == |t| {
      SectionsConcat(t, [NewSection(section, e.value)], section);
      SectionsOfOne(NewSection(section, e.value), section);
      EmptyConcat(OtherSections(t, section));
    } else {
      var s := if k < |t'| then t'[k] else t[k];
      SectionsAround(t, k, t[k], section);
      SectionsAround(t, k, s, section);
      SameUpdate(t, k, section);
      SectionsOfOne(t[k], section);
      SectionsOfOne(s.(name := section), section);
      EmptyConcat(OtherSections(t[..k], section));
    }
  }

  lemma MarkBeside(t: Tree, u: Tree, marked: string, name: string)
    requires OtherSections(t, name) == OtherSections(u, name)
    ensures OtherSections(MarkAnonymous(t, marked), name) == OtherSections(MarkAnonymous(u, marked), name)
    ensures marked == name ==> OtherSections(MarkAnonymous(t, marked), name) == OtherSections(t, name)
  {
    hide OtherSections, FindSection;
    MarkedOthers(t, marked, name);
    MarkedOthers(u, marked, name);
  }

  lemma MarkedOthers(t: Tree, marked: string, name: string)
    ensures OtherSections(MarkAnonymous(t, marked), name)
         == if marked == name then OtherSections(t, name) else MarkAnonymous(OtherSections(t, name), marked)
  {
    hide OtherSections, FindSection;
    var k := FindSection(t, marked);
    if k < |t| {
      var s := t[k].(anonymous := true);
      SectionsAround(t, k, s, name);
      SectionsAround(t, k, t[k], name);
      SameUpdate(t, k, name);
      SectionsOfOne(s, name);
      SectionsOfOne(t[k], name);
    }
    if marked != name {
      SectionAmongOthers(t, name, marked);
    }
  }

  lemma StepBeside(name: string, st: State, su: State, line: string, section: string)
    requires OtherSections(st.tree, section) == OtherSections(su.tree, section)
    requires LineEdit(name, line).Some? ==> !RenamesAway(LineEdit(name, line).value, section)
    ensures var t := ReplayStep(name, st, line).tree;
      OtherSections(t, section)
      == if SelectedLine(line, Some(section), None) then OtherSections(su.tree, section)
         else OtherSections(ReplayStep(name, su, line).tree, section)
  {
    hide OtherSections, Perform, MarkAnonymous, ParseTuple;
    if LineEdit(name, line).Some? {
      var u := ParseTuple(line).value;
      var e := EditOf(u).value;
      if SelectedLine(line, Some(section), None) {
        if Perform(st, e).Ok? {
          AboutTheSection(st, e, section);
          MarkBeside(Perform(st, e).value.state.tree, Perform(st, e).value.state.tree, section, section);
        }
      } else {
        var o := State(OtherSections(st.tree, section), 0);
        EditBeside(st, e, section, o);
        EditBeside(su, e, section, o);
        if Perform(st, e).Ok? {
          MarkBeside(Perform(st, e).value.state.tree, Perform(su, e).value.state.tree, u.section, section);
        }
      }
    }
  }

  lemma {:induction false} LinesBeside(name: string, st: State, su: State, lines: seq<string>, section: string)
    requires OtherSections(st.tree, section) == OtherSections(su.tree, section)
    requires forall l | l in lines && LineEdit(name, l).Some? :: !RenamesAway(LineEdit(name, l).value, section)
    ensures OtherSections(ReplayLines(name, st, lines).tree, section)
         == OtherSections(ReplayLines(name, su, Unselected(lines, Some(section), None)).tree, section)
    decreases |lines|
  {
    hide OtherSections, ReplayStep, SelectedLine, LineEdit, RenamesAway;
    if lines != [] {
      assert lines[0] in lines && forall l | l in lines[1..] :: l in lines;
      StepBeside(name, st, su, lines[0], section);
      var rest := Unselected(lines[1..], Some(section), None);
      assert ([lines[0]] + rest)[1..] == rest;
      BlankStep(name, su);
      BlankStep(name, st);
      var stays := lines[0] != "" && !SelectedLine(lines[0], Some(section), None);
      var su' := if stays then ReplayStep(name, su, lines[0]) else su;
      LinesBeside(name, ReplayStep(name, st, lines[0]), su', lines[1..], section);
    }
  }

  /** Reverting a section leaves every other one: if no journal line renames it, a reader finds
      all the other sections, in their order, as they were before the revert. */
  lemma RevertLeavesOtherSections(name: string, st: State, journal: string, section: string)
    requires forall l | l in SplitLines(journal) && LineEdit(name, l).Some? ::
      !RenamesAway(LineEdit(name, l).value, section)
    ensures var before := Replay(name, st, journal).tree;
      var after := Replay(name, st, Filter(journal, Some(section), None)).tree;
      && OtherSections(after, section) == OtherSections(before, section)
      && forall s | s != section :: Lookup(after, s) == Lookup(before, s)
  {
    hide OtherSections, LineEdit, RenamesAway, Lookup, AllParse;
    LinesBeside(name, st, st, SplitLines(journal), section);
    RevertReplays(name, st, journal, Some(section), None);
    var before := Replay(name, st, journal).tree;
    var after := Replay(name, st, Filter(journal, Some(section), None)).tree;
    forall s | s != section ensures Lookup(after, s) == Lookup(before, s) {
      LookupAmongOthers(before, section, s);
      LookupAmongOthers(after, section, s);
    }
  }
}
