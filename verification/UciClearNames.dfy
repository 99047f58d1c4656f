/** Which sessions a commit never spoils, by conditions a caller can check before each edit. */
module UciClearNames {
  import opened UciText
  import opened UciTree
  import opened UciPackage
  import opened UciJournal
  import opened UciReplay
  import opened UciFile
  import opened UciRoundTrip
  import opened UciStore
  import opened UciCommit

  /** The name has the form generated names have. */
  predicate LooksGenerated(name: string) {
    |name| >= 9 &&
    var n, h := HexValue(name[3..|name| - 4]), HexValue(name[|name| - 4..]);
    n >= 0 && h >= 0 && name == GeneratedName(n, h)
  }

  lemma GeneratedLooks(n: nat, h: nat)
    ensures LooksGenerated(GeneratedName(n, h))
  {
    hide HexValue, Hex, ZeroPad, ValidName;
    GeneratedNameParts(n, h);
    assert h % 0x1_0000 % 0x1_0000 == h % 0x1_0000;
  }

  predicate Clear(t: Tree, i: nat)
    requires i < |t|
  {
    && UniqueOptions(t[i].options)
    && (!t[i].anonymous ==>
          && !LooksGenerated(t[i].name)
          && forall j | 0 <= j < i && !t[j].anonymous :: t[j].name != t[i].name)
  }

  /** Option names differ within every section, and named sections have distinct names, none
      of them of the generated form. */
  predicate ClearlyNamed(t: Tree) {
    forall i | 0 <= i < |t| :: Clear(t, i)
  }

  lemma {:induction false} NormalGenerates(t: Tree, i: nat)
    requires i < |t| && t[i].anonymous
    ensures |Normal(t).tree| == |t| && LooksGenerated(Normal(t).tree[i].name)
  {
    hide LooksGenerated, GeneratedName;
    var before, s := t[..|t| - 1], t[|t| - 1];
    NormalKeeps(t);
    NormalKeeps(before);
    assert t == before + [s];
    NormalAppend(before, s);
    if i < |before| {
      NormalGenerates(before, i);
    } else {
      GeneratedLooks(Normal(before).n + 2, SectionHash(s.typ, s.options));
    }
  }

  /** Such a tree is committable. */
  lemma ClearIsCommittable(t: Tree)
    requires ClearlyNamed(t)
    ensures Committable(t)
  {
    hide LooksGenerated, UniqueOptions;
    var q := Normal(t).tree;
    NormalKeeps(t);
    forall s | s in t ensures UniqueOptions(s.options) {
      var i :| 0 <= i < |t| && t[i] == s;
      assert Clear(t, i);
    }
    forall i, j | 0 <= i < j < |q| && !q[j].anonymous ensures q[i].name != q[j].name {
      assert q[j].(name := "").anonymous == t[j].(name := "").anonymous;
      assert Clear(t, j);
      if t[i].anonymous {
        NormalGenerates(t, i);
      }
    }
  }

  /** The edit gives no name a named section or another option of the section has, and no
      section a name of the generated form. */
  predicate NamesClearly(t: Tree, e: Edit) {
    match e
    case SetValue(s, None, _) => HasSection(t, s) || !LooksGenerated(s)
    case RenameTo(s, None, v) =>
      !LooksGenerated(v) &&
      forall i | 0 <= i < |t| && i != FindSection(t, s) && !t[i].anonymous :: t[i].name != v
    case RenameTo(s, Some(o), v) =>
      var k := FindSection(t, s);
      k < |t| ==>
        var options := t[k].options;
        forall j | 0 <= j < |options| && j != FindOption(options, o) :: options[j].name != v
    case _ => true
  }

  // ---------- one edit ----------

  /** The section can stand at k. */
  predicate Fits(t: Tree, k: nat, s: Section) {
    && UniqueOptions(s.options)
    && (!s.anonymous ==>
          && !LooksGenerated(s.name)
          && forall i | 0 <= i < |t| && i != k && !t[i].anonymous :: t[i].name != s.name)
  }

  lemma ClearFits(t: Tree, k: nat)
    requires ClearlyNamed(t) && k < |t|
    ensures Fits(t, k, t[k])
  {
    hide LooksGenerated, UniqueOptions;
    assert Clear(t, k);
    forall i | 0 <= i < |t| && i != k && !t[i].anonymous && !t[k].anonymous ensures t[i].name != t[k].name {
      assert Clear(t, i);
    }
  }

  lemma ClearUpdate(t: Tree, k: nat, s: Section)
    requires ClearlyNamed(t) && k < |t|
    ensures ClearlyNamed(t[k := s]) <==> Fits(t, k, s)
  {
    hide LooksGenerated, UniqueOptions;
    var t' := t[k := s];
    if ClearlyNamed(t') {
      ClearFits(t', k);
      forall i | 0 <= i < |t| && i != k && !t[i].anonymous && !s.anonymous ensures t[i].name != s.name {
        assert t'[i] == t[i];
      }
    }
    if Fits(t, k, s) {
      forall i | 0 <= i < |t'| ensures Clear(t', i) {
        assert Clear(t, i);
      }
    }
  }

  lemma ClearAppend(t: Tree, s: Section)
    requires ClearlyNamed(t) && s.options == []
    requires forall i | 0 <= i < |t| :: t[i].name != s.name
    ensures ClearlyNamed(t + [s]) <==> s.anonymous || !LooksGenerated(s.name)
  {
    hide LooksGenerated;
    var t' := t + [s];
    forall i | 0 <= i < |t| ensures Clear(t', i) {
      assert Clear(t, i);
    }
    assert Clear(t', |t|) <==> s.anonymous || !LooksGenerated(s.name);
  }

  lemma ClearWithout(t: Tree, k: nat)
    requires ClearlyNamed(t) && k < |t|
    ensures ClearlyNamed(Without(t, k))
  {
    hide LooksGenerated, UniqueOptions;
    var t' := Without(t, k);
    forall i | 0 <= i < |t'| ensures Clear(t', i) {
      assert Clear(t, if i < k then i else i + 1);
      assert forall j | 0 <= j < i :: t'[j] == t[if j < k then j else j + 1];
    }
  }

  lemma UniqueRename(options: seq<Option>, k: nat, name: string)
    requires UniqueOptions(options) && k < |options|
    ensures UniqueOptions(options[k := options[k].(name := name)])
       <==> forall j | 0 <= j < |options| && j != k :: options[j].name != name
  {
    var options' := options[k := options[k].(name := name)];
    if UniqueOptions(options') {
      forall j | 0 <= j < |options| && j != k ensures options[j].name != name {
        assert options'[j].name != options'[k].name;
      }
    }
  }

  lemma OptionEditClear(t: Tree, k: nat, options: seq<Option>)
    requires ClearlyNamed(t) && k < |t|
    ensures ClearlyNamed(t[k := t[k].(options := options)]) <==> UniqueOptions(options)
  {
    hide ClearlyNamed, LooksGenerated, UniqueOptions;
    ClearFits(t, k);
    ClearUpdate(t, k, t[k].(options := options));
  }

  /** The guard is exact: on a clearly named tree an edit that is carried out keeps names
      clear if and only if it names clearly. */
  lemma EditKeepsClear(st: State, e: Edit)
    requires ClearlyNamed(st.tree) && Perform(st, e).Ok?
    ensures ClearlyNamed(Perform(st, e).value.state.tree) <==> NamesClearly(st.tree, e)
  {
    hide ClearlyNamed, Fits, LooksGenerated, UniqueOptions, SetOption, AddListOption, Without, NameFor;
    var t := st.tree;
    match e {
      case AddSection(typ) => AdditionClear(st, typ);
      case SetValue(s, None, v) => NamedClear(t, s, v);
      case SetValue(s, Some(o), v) =>
        var k := FindSection(t, s);
        ClearOptions(t, k);
        UniqueSet(t[k].options, o, v);
        OptionEditClear(t, k, SetOption(t[k].options, o, v));
      case AddToList(s, o, v) =>
        var k := FindSection(t, s);
        ClearOptions(t, k);
        UniqueAdd(t[k].options, o, v);
        OptionEditClear(t, k, AddListOption(t[k].options, o, v));
      case Delete(s, None) => ClearWithout(t, FindSection(t, s));
      case Delete(s, Some(o)) =>
        var k := FindSection(t, s);
        ClearOptions(t, k);
        UniqueWithout(t[k].options, FindOption(t[k].options, o));
        OptionEditClear(t, k, Without(t[k].options, FindOption(t[k].options, o)));
      case RenameTo(s, None, v) => RenamedClear(t, FindSection(t, s), v);
      case RenameTo(s, Some(o), v) =>
        var k := FindSection(t, s);
        var j := FindOption(t[k].options, o);
        ClearOptions(t, k);
        UniqueRename(t[k].options, j, v);
        OptionEditClear(t, k, t[k].options[j := t[k].options[j].(name := v)]);
    }
  }

  lemma ClearOptions(t: Tree, k: nat)
    requires ClearlyNamed(t) && k < |t|
    ensures UniqueOptions(t[k].options)
  {
    assert Clear(t, k);
  }

  lemma UniqueWithout(options: seq<Option>, k: nat)
    requires UniqueOptions(options) && k < |options|
    ensures UniqueOptions(Without(options, k))
  {
  }

  lemma RenamedClear(t: Tree, k: nat, name: string)
    requires ClearlyNamed(t) && k < |t|
    ensures ClearlyNamed(t[k := t[k].(name := name, anonymous := false)])
       <==> !LooksGenerated(name) && forall i | 0 <= i < |t| && i != k && !t[i].anonymous :: t[i].name != name
  {
    hide ClearlyNamed, LooksGenerated, UniqueOptions;
    ClearOptions(t, k);
    ClearUpdate(t, k, t[k].(name := name, anonymous := false));
  }

  lemma NamedClear(t: Tree, name: string, typ: string)
    requires ClearlyNamed(t) && SetTree(t, name, None, typ).Ok?
    ensures ClearlyNamed(SetTree(t, name, None, typ).value) <==> HasSection(t, name) || !LooksGenerated(name)
  {
    hide ClearlyNamed, LooksGenerated, UniqueOptions;
    var k := FindSection(t, name);
    if k < |t| {
      ClearFits(t, k);
      ClearUpdate(t, k, t[k].(typ := typ));
    } else {
      ClearAppend(t, NewSection(name, typ));
      ShortIsNotGenerated();
    }
  }

  lemma ShortIsNotGenerated()
    ensures !LooksGenerated("")
  {
  }

  lemma AdditionClear(st: State, typ: string)
    requires ClearlyNamed(st.tree)
    ensures ClearlyNamed(WithNewSection(st, typ).tree)
  {
    hide LooksGenerated, NameFor;
    var t, t' := st.tree, WithNewSection(st, typ).tree;
    forall i | 0 <= i < |t'| ensures Clear(t', i) {
      assert i < |t| ==> Clear(t, i);
    }
  }

  // ---------- whole sessions ----------

  /** Every edit that is carried out names clearly where it happens. */
  predicate ClearSession(l: Live, es: seq<Edit>)
    decreases |es|
  {
    es == [] ||
    ((Perform(l.state, es[0]).Ok? ==> NamesClearly(l.state.tree, es[0])) && ClearSession(Step(l, es[0]), es[1..]))
  }

  lemma {:induction false} SessionKeepsClear(l: Live, es: seq<Edit>)
    requires ClearlyNamed(l.state.tree) && ClearSession(l, es)
    ensures ClearlyNamed(Run(l, es).state.tree)
    decreases |es|
  {
    hide ClearlyNamed, NamesClearly, Perform;
    if es != [] {
      if Perform(l.state, es[0]).Ok? {
        EditKeepsClear(l.state, es[0]);
      }
      SessionKeepsClear(Step(l, es[0]), es[1..]);
    }
  }

  /** The commit guarantee without a condition on where the session ends: load a clearly
      named package, edit it naming clearly, commit, and load again. The reader finds the
      edited tree, up to generated names; if anything was recorded it is the file that says
      so, and the journal is empty. */
  lemma ClearSessionCommits(name: string, file: string, lines: seq<string>, es: seq<Edit>)
    requires PlainPackage(name) && forall l | l in lines :: NewlineFree(l)
    requires View(name, file, Unlines(lines)).Ok?
    requires var loaded := Live(View(name, file, Unlines(lines)).value, []);
      ClearlyNamed(loaded.state.tree) && SessionReplayable(loaded, es) && ClearSession(loaded, es)
    ensures var end := Run(Live(View(name, file, Unlines(lines)).value, []), es);
      var saved := Unlines(lines) + JournalText(name, end.journal);
      && CommitFiles(name, file, saved).Ok?
      && var files := CommitFiles(name, file, saved).value;
         var v := View(name, files.0, files.1);
         && v.Ok? && SameUpToNames(v.value.tree, end.state.tree)
         && (end.journal != [] ==>
               files.1 == "" && Import(files.0).Ok? && SameUpToNames(Import(files.0).value.tree, end.state.tree))
  {
    hide View, CommitFiles, ClearlyNamed, SessionReplayable, ClearSession, Run, SameUpToNames, Committable;
    var loaded := Live(View(name, file, Unlines(lines)).value, []);
    SessionKeepsClear(loaded, es);
    ClearIsCommittable(Run(loaded, es).state.tree);
    EditCommitReload(name, file, lines, es);
    CommitKeepsView(name, file, Unlines(lines) + JournalText(name, Run(loaded, es).journal));
  }
}
