/** Importing the text of an export. */
module UciRoundTrip {
  import opened UciText
  import opened UciTree
  import opened UciPackage
  import opened UciTokens
  import opened UciFile

  /** The tree a fresh import numbers: the same sections, with every anonymous one named
      after its place and its content. */
  function Normal(t: Tree): State {
    if t == [] then State([], 0)
    else
      var before, s := Normal(t[..|t| - 1]), t[|t| - 1];
      State(before.tree + [Renamed(before.n, s)], Counted(before.n, s))
  }

  /** A section as it comes out of an import whose counter stood at n before it. */
  function Renamed(n: nat, s: Section): Section {
    if s.anonymous then s.(name := NameFor(n + 2, s)) else s
  }

  function Counted(n: nat, s: Section): nat {
    if s.anonymous then n + 2 else n + 1
  }

  lemma NormalAppend(t: Tree, s: Section)
    ensures Normal(t + [s]) == State(Normal(t).tree + [Renamed(Normal(t).n, s)], Counted(Normal(t).n, s))
  {
    var all := t + [s];
    assert all[..|all| - 1] == t && all[|all| - 1] == s;
  }

  /** No named section has the name of an earlier section. */
  predicate NoClash(t: Tree) {
    forall i, j | 0 <= i < j < |t| && !t[j].anonymous :: t[i].name != t[j].name
  }

  predicate SectionExportable(s: Section) {
    && ValidType(s.typ)
    && (!s.anonymous ==> ValidName(s.name))
    && UniqueOptions(s.options)
    && forall o | o in s.options :: OptionOk(o)
  }

  predicate Exportable(t: Tree) {
    (forall s | s in t :: SectionExportable(s)) && NoClash(Normal(t).tree)
  }

  lemma {:induction false} NormalKeeps(t: Tree)
    ensures var q := Normal(t).tree;
      |q| == |t| &&
      forall i | 0 <= i < |t| ::
        q[i].(name := "") == t[i].(name := "") && (t[i].anonymous ==> ValidName(q[i].name))
        && (!t[i].anonymous ==> q[i] == t[i])
  {
    hide GeneratedName, ValidName;
    if t != [] {
      var before, s := t[..|t| - 1], t[|t| - 1];
      NormalKeeps(before);
      GeneratedNameInjective(Normal(before).n + 2, SectionHash(s.typ, s.options), 0, 0);
    }
  }

  // ---------- one line ----------

  lemma {:induction false} WordEndOf(word: string, args: string)
    requires forall c | c in word :: !IsBlank(c)
    ensures WordEnd(word + " " + args) == |word|
  {
    var line := word + " " + args;
    if word != "" {
      assert line[1..] == word[1..] + " " + args;
      assert line[0] == word[0] && word[0] in word;
      WordEndOf(word[1..], args);
    }
  }

  lemma SkipIndent(indent: string, s: string)
    requires (indent == "" || indent == "\t") && s != "" && !IsBlank(s[0])
    ensures SkipBlanks(indent + s) == s
  {
    assert indent == "" ==> indent + s == s;
    assert indent == "\t" ==> (indent + s)[1..] == s;
    assert SkipBlanks(s) == s;
  }

  /** A printed line runs the command its word names. */
  lemma LineRuns(c: Context, indent: string, word: string, args: string)
    requires indent == "" || indent == "\t"
    requires word != "" && word[0] != '#' && forall x | x in word :: !IsBlank(x)
    ensures ParseLine(c, Line(indent, word, args))
         == match RunCommand(c, word, args)
            case Ok(done) => ParseLine(done.0, done.1)
            case Err(x) => Err(x)
  {
    var s := word + " " + args;
    assert word[0] in word && s[0] == word[0];
    SkipIndent(indent, s);
    WordEndOf(word, args);
    assert s[..|word|] == word && s[|word| + 1..] == args;
  }

  /** A line whose only command leaves nothing unread. */
  lemma OneCommand(c: Context, indent: string, word: string, args: string)
    requires indent == "" || indent == "\t"
    requires word != "" && word[0] != '#' && forall x | x in word :: !IsBlank(x)
    requires RunCommand(c, word, args).Ok? && RunCommand(c, word, args).value.1 == ""
    ensures ParseLine(c, Line(indent, word, args)) == Ok(RunCommand(c, word, args).value.0)
  {
    LineRuns(c, indent, word, args);
    BlankLine(RunCommand(c, word, args).value.0);
  }

  lemma BlankLine(c: Context)
    ensures ParseLine(c, "") == Ok(c)
  {
  }

  lemma EndOfLine()
    ensures RawArg("") == Ok(Token("", "")) && AssertEol("") == Ok("")
  {
  }

  lemma OneQuoted(a: string)
    ensures RawArg(Quote(a)) == Ok(Token(a, ""))
  {
    QuotedArg(a, "");
    assert Quote(a) + "" == Quote(a);
  }

  lemma TwoArgs(a: string, b: string)
    ensures RawArg(TwoQuoted(a, b)) == Ok(Token(a, Quote(b))) && RawArg(Quote(b)) == Ok(Token(b, ""))
  {
    var tail := " " + Quote(b);
    QuotedArg(a, tail);
    assert tail[1..] == Quote(b);
    OneQuoted(b);
  }

  lemma ParseConfigLine(c: Context, s: Section)
    requires ValidType(s.typ) && (!s.anonymous ==> ValidName(s.name))
    ensures ParseLine(c, ConfigLine(s)) == Ok(OpenSection(Fixup(c), s.typ, if s.anonymous then "" else s.name))
  {
    EndOfLine();
    if s.anonymous {
      OneQuoted(s.typ);
      OneCommand(c, "", "config", Quote(s.typ));
    } else {
      TwoArgs(s.typ, s.name);
      OneCommand(c, "", "config", TwoQuoted(s.typ, s.name));
    }
  }

  lemma ParseOptionLine(c: Context, name: string, value: string, list: bool)
    requires c.cur.Some? && ValidName(name)
    ensures var options := c.tree[c.cur.value].options;
      ParseLine(c, Line("\t", if list then "list" else "option", TwoQuoted(name, value)))
      == Ok(WithOptions(c, if list then AddListOption(options, name, value) else SetOption(options, name, value)))
  {
    TwoArgs(name, value);
    EndOfLine();
    OneCommand(c, "\t", if list then "list" else "option", TwoQuoted(name, value));
  }

  lemma NoSectionNoOption(c: Context, name: string, value: string, list: bool)
    requires c.cur.None?
    ensures ParseLine(c, Line("\t", if list then "list" else "option", TwoQuoted(name, value))).Err?
  {
    LineRuns(c, "\t", if list then "list" else "option", TwoQuoted(name, value));
  }

  /** A section line with a third argument is refused. */
  lemma ThreeArgumentsRefused(c: Context, typ: string, name: string, more: string)
    requires more != ""
    ensures ParseLine(c, Line("", "config", Quote(typ) + (" " + TwoQuoted(name, more)))).Err?
  {
    hide RawArg, AssertEol, OpenSection, Fixup, Quote;
    var args := Quote(typ) + (" " + TwoQuoted(name, more));
    QuotedArg(typ, " " + TwoQuoted(name, more));
    assert (" " + TwoQuoted(name, more))[1..] == TwoQuoted(name, more);
    TwoArgs(name, more);
    ExtraRefused(more);
    LineRuns(c, "", "config", args);
  }

  lemma ExtraRefused(more: string)
    requires more != ""
    ensures AssertEol(Quote(more)) == Err(Parse)
  {
    hide RawArg, Quote;
    StartsWithQuote(more);
    OneQuoted(more);
  }

  lemma StartsWithQuote(s: string)
    ensures SkipSpace(Quote(s)) == Ok(Quote(s))
  {
  }

  /** Blank lines and comments between the lines change nothing. */
  lemma IgnoredLine(c: Context, a: seq<string>, line: string, b: seq<string>)
    requires SkipBlanks(line) == "" || SkipBlanks(line)[0] == '#'
    requires ImportLines(c, a).Ok?
    ensures ImportLines(c, a + [line] + b) == ImportLines(c, a + b)
  {
    assert a + [line] + b == a + ([line] + b);
    ImportConcat(c, a, [line] + b);
    ImportConcat(c, a, b);
    FirstLine(ImportLines(c, a).value, line, b);
  }

  // ---------- the lines of a section ----------

  lemma {:induction false} ImportConcat(c: Context, a: seq<string>, b: seq<string>)
    requires ImportLines(c, a).Ok?
    ensures ImportLines(c, a + b) == ImportLines(ImportLines(c, a).value, b)
    decreases |a|
  {
    if a == [] {
      assert a + b == b;
    } else {
      assert (a + b)[1..] == a[1..] + b;
      ImportConcat(ParseLine(c, a[0]).value, a[1..], b);
    }
  }

  lemma FreshOption(done: seq<Option>, name: string)
    requires forall o | o in done :: o.name != name
    ensures FindOption(done, name) == |done|
    ensures forall v :: FindOption(done + [Option(name, v)], name) == |done|
  {
    FoundOption(done, name, |done|);
    forall v ensures FindOption(done + [Option(name, v)], name) == |done| {
      FoundOption(done + [Option(name, v)], name, |done|);
    }
  }

  lemma WithOptionsTwice(c: Context, a: seq<Option>, b: seq<Option>)
    requires c.cur.Some?
    ensures WithOptions(WithOptions(c, a), b) == WithOptions(c, b)
    ensures WithOptions(c, a).tree[c.cur.value].options == a && WithOptions(c, a).cur == c.cur
    ensures WithOptions(c, c.tree[c.cur.value].options) == c
  {
    var k := c.cur.value;
    assert c.tree[k := c.tree[k]] == c.tree;
    assert c.tree[k].(options := c.tree[k].options) == c.tree[k];
  }

  lemma {:induction false} ImportItems(c: Context, done: seq<Option>, name: string, got: seq<string>,
                                       items: seq<string>)
    requires c.cur.Some? && ValidName(name) && forall o | o in done :: o.name != name
    requires got + items != []
    requires c.tree[c.cur.value].options == done + if got == [] then [] else [Option(name, List(got))]
    ensures ImportLines(c, ItemLines(name, items)) == Ok(WithOptions(c, done + [Option(name, List(got + items))]))
    decreases |items|
  {
    if items == [] {
      assert got + items == got;
      WithOptionsTwice(c, [], []);
    } else {
      var got', rest := got + [items[0]], items[1..];
      assert got' + rest == got + items;
      ParseOptionLine(c, name, items[0], true);
      AddsItem(done, name, got, items[0]);
      var after := done + [Option(name, List(got'))];
      WithOptionsTwice(c, after, done + [Option(name, List(got + items))]);
      ImportItems(WithOptions(c, after), done, name, got', rest);
      FirstLine(c, ItemLines(name, items)[0], ItemLines(name, rest));
    }
  }

  lemma FirstLine(c: Context, line: string, rest: seq<string>)
    requires ParseLine(c, line).Ok?
    ensures ImportLines(c, [line] + rest) == ImportLines(ParseLine(c, line).value, rest)
  {
    assert ([line] + rest)[1..] == rest;
  }

  lemma AddsItem(done: seq<Option>, name: string, got: seq<string>, item: string)
    requires forall o | o in done :: o.name != name
    ensures AddListOption(done + if got == [] then [] else [Option(name, List(got))], name, item)
         == done + [Option(name, List(got + [item]))]
  {
    FreshOption(done, name);
    assert [] + [item] == [item];
    assert done + [] == done;
  }

  lemma ImportOption(c: Context, o: Option)
    requires c.cur.Some? && OptionOk(o) && forall x | x in c.tree[c.cur.value].options :: x.name != o.name
    ensures ImportLines(c, OptionLines(o)) == Ok(WithOptions(c, c.tree[c.cur.value].options + [o]))
  {
    var done := c.tree[c.cur.value].options;
    FreshOption(done, o.name);
    match o.value
    case Str(v) =>
      ParseOptionLine(c, o.name, v, false);
      assert OptionLines(o)[1..] == [];
    case List(items) =>
      assert done + [] == done && [] + items == items;
      ImportItems(c, done, o.name, [], items);
  }

  lemma {:induction false} ImportOptions(c: Context, rest: seq<Option>)
    requires c.cur.Some? && (forall o | o in rest :: OptionOk(o))
    requires UniqueOptions(c.tree[c.cur.value].options + rest)
    ensures ImportLines(c, OptionsLines(rest)) == Ok(WithOptions(c, c.tree[c.cur.value].options + rest))
    decreases |rest|
  {
    var done := c.tree[c.cur.value].options;
    if rest == [] {
      WithOptionsTwice(c, done, done);
      assert done + rest == done;
    } else {
      var all := done + rest;
      FreshFirst(done, rest);
      ImportOption(c, rest[0]);
      var next := done + [rest[0]];
      WithOptionsTwice(c, next, all);
      assert next + rest[1..] == all;
      ImportOptions(WithOptions(c, next), rest[1..]);
      ImportConcat(c, OptionLines(rest[0]), OptionsLines(rest[1..]));
    }
  }

  lemma FreshFirst(done: seq<Option>, rest: seq<Option>)
    requires UniqueOptions(done + rest) && rest != []
    ensures forall x | x in done :: x.name != rest[0].name
  {
    forall i | 0 <= i < |done| ensures done[i].name != rest[0].name {
      assert (done + rest)[i] == done[i] && (done + rest)[|done|] == rest[0];
    }
  }

  /** The context after the lines of a section: the section is open and complete, and
      not named yet if it is anonymous. */
  function Opened(q: Tree, n: nat, s: Section): Context {
    Context(q + [s.(name := if s.anonymous then "" else s.name)], n + 1, Some(|q|), {})
  }

  lemma ImportSection(c: Context, s: Section)
    requires SectionExportable(s) && c.redefined == {}
    requires FindSection(Fixup(c).tree, if s.anonymous then "" else s.name) == |c.tree|
    ensures ImportLines(c, SectionLines(s)) == Ok(Opened(Fixup(c).tree, Fixup(c).n, s))
  {
    var f := Fixup(c);
    var c1 := OpenSection(f, s.typ, if s.anonymous then "" else s.name);
    var body := OptionsLines(s.options);
    BlankLine(c);
    ParseConfigLine(c, s);
    TwoFirst("", ConfigLine(s), body);
    FirstLine(c, "", [ConfigLine(s)] + body);
    FirstLine(c, ConfigLine(s), body);
    OpenedAndFilled(f, s);
    EmptyConcat(s.options);
    ImportOptions(c1, s.options);
  }

  lemma TwoFirst<T>(a: T, b: T, rest: seq<T>)
    ensures [a, b] + rest == [a] + ([b] + rest)
  {
  }

  lemma OpenedAndFilled(f: Context, s: Section)
    requires f.redefined == {} && FindSection(f.tree, if s.anonymous then "" else s.name) == |f.tree|
    requires !s.anonymous ==> s.name != ""
    ensures var c := OpenSection(f, s.typ, if s.anonymous then "" else s.name);
      c.cur == Some(|f.tree|) && c.tree[|f.tree|].options == [] && WithOptions(c, s.options) == Opened(f.tree, f.n, s)
  {
  }

  lemma FixupOpened(q: Tree, n: nat, s: Section)
    requires !s.anonymous ==> s.name != ""
    ensures Fixup(Opened(q, n, s))
         == Context(q + [Renamed(n, s)], Counted(n, s), Some(|q|), {})
  {
    var o := Opened(q, n, s);
    assert o.tree[|q|] == s.(name := if s.anonymous then "" else s.name);
    if s.anonymous {
      assert o.tree[|q| := s.(name := NameFor(n + 2, s))] == q + [s.(name := NameFor(n + 2, s))];
      assert NameFor(n + 2, s) == NameFor(n + 2, o.tree[|q|]);
    }
  }

  /** A section may be opened twice; after its third line there is no current section, and
      an option is refused. */
  lemma ThirdHeaderRefused(s: Section, name: string, value: string)
    requires !s.anonymous && ValidType(s.typ) && ValidName(s.name) && ValidName(name)
    ensures var option := Line("\t", "option", TwoQuoted(name, value));
      && ImportLines(EMPTY, [ConfigLine(s), ConfigLine(s), option]).Ok?
      && ImportLines(EMPTY, [ConfigLine(s), ConfigLine(s), ConfigLine(s), option]).Err?
  {
    hide ParseLine, Fixup, OpenSection, WithOptions, SetOption, ValidType, ValidName, ConfigLine, Line;
    var header, option := ConfigLine(s), Line("\t", "option", TwoQuoted(name, value));
    var t := [Section(s.name, s.typ, false, [])];
    var once := Context(t, 1, Some(0), {});
    var twice, thrice := once.(redefined := {0}), Context(t, 1, None, {0});
    HeaderOnce(s);
    HeaderAgain(s, once);
    HeaderAgain(s, twice);
    ParseOptionLine(twice, name, value, false);
    NoSectionNoOption(thrice, name, value, false);
    TwoFirst(header, header, [option]);
    TwoFirst(header, header, [header, option]);
    FirstLine(EMPTY, header, [header] + [option]);
    FirstLine(once, header, [option]);
    FirstLine(EMPTY, header, [header] + [header, option]);
    FirstLine(once, header, [header, option]);
    FirstLine(twice, header, [option]);
  }

  lemma HeaderOnce(s: Section)
    requires !s.anonymous && ValidType(s.typ) && ValidName(s.name)
    ensures ParseLine(EMPTY, ConfigLine(s)) == Ok(Context([Section(s.name, s.typ, false, [])], 1, Some(0), {}))
  {
    hide ParseLine, ConfigLine;
    ParseConfigLine(EMPTY, s);
    EmptyConcat([Section(s.name, s.typ, false, [])]);
    assert EMPTY.tree == [] && s.name != "";
    assert Fixup(EMPTY) == EMPTY && FindSection([], s.name) == 0;
  }

  lemma HeaderAgain(s: Section, c: Context)
    requires !s.anonymous && ValidType(s.typ) && ValidName(s.name)
    requires c.tree == [Section(s.name, s.typ, false, [])] && c.cur == Some(0) && c.redefined <= {0}
    ensures ParseLine(c, ConfigLine(s)) == Ok(Context(c.tree, c.n, if 0 in c.redefined then None else Some(0), {0}))
  {
    hide ParseLine, ConfigLine;
    ParseConfigLine(c, s);
    FoundOnly(c.tree);
    assert c.redefined + {0} == {0};
    assert c.tree[0 := c.tree[0].(typ := s.typ)] == c.tree;
  }

  lemma FoundOnly(t: Tree)
    requires |t| == 1
    ensures FindSection(t, t[0].name) == 0
  {
  }

  // ---------- the lines of a tree ----------

  lemma {:induction false} TreeLinesSnoc(t: Tree, s: Section)
    ensures TreeLines(t + [s]) == TreeLines(t) + SectionLines(s)
  {
    if t == [] {
      assert t + [s] == [s] && [s][1..] == [];
      EmptyConcat(SectionLines(s));
    } else {
      assert (t + [s])[1..] == t[1..] + [s];
      TreeLinesSnoc(t[1..], s);
      Assoc(SectionLines(t[0]), TreeLines(t[1..]), SectionLines(s));
    }
  }

  lemma {:induction false} NormalNamed(t: Tree)
    requires forall s | s in t :: SectionExportable(s)
    ensures |Normal(t).tree| == |t|
    ensures forall i | 0 <= i < |t| :: Normal(t).tree[i].name != ""
  {
    NormalKeeps(t);
    forall i | 0 <= i < |t| ensures Normal(t).tree[i].name != "" {
      assert SectionExportable(t[i]);
    }
  }

  lemma FreshSection(t: Tree, s: Section)
    requires Exportable(t + [s])
    ensures Exportable(t)
    ensures FindSection(Normal(t).tree, if s.anonymous then "" else s.name) == |t|
  {
    assert forall x | x in t :: x in t + [s];
    assert s in t + [s];
    NormalAppend(t, s);
    NormalNamed(t);
    FreshName(Normal(t).tree, Normal(t + [s]).tree[|t|], s);
  }

  lemma FreshName(q: Tree, s': Section, s: Section)
    requires NoClash(q + [s']) && forall i | 0 <= i < |q| :: q[i].name != ""
    requires s'.anonymous == s.anonymous && (!s.anonymous ==> s' == s)
    ensures NoClash(q) && FindSection(q, if s.anonymous then "" else s.name) == |q|
  {
    var all := q + [s'];
    assert forall i | 0 <= i < |q| :: all[i] == q[i];
    assert all[|q|] == s';
    FoundSection(q, if s.anonymous then "" else s.name, |q|);
  }

  lemma {:induction false} ImportTreeLines(t: Tree)
    requires Exportable(t)
    ensures var r := ImportLines(EMPTY, TreeLines(t));
      r.Ok? && r.value.redefined == {} &&
      Fixup(r.value) == Context(Normal(t).tree, Normal(t).n, r.value.cur, {})
  {
    if t != [] {
      var before, s := t[..|t| - 1], t[|t| - 1];
      assert t == before + [s];
      FreshSection(before, s);
      ImportTreeLines(before);
      TreeLinesSnoc(before, s);
      var c := ImportLines(EMPTY, TreeLines(before)).value;
      NormalKeeps(before);
      ImportSection(c, s);
      ImportConcat(EMPTY, TreeLines(before), SectionLines(s));
      FixupOpened(Fixup(c).tree, Fixup(c).n, s);
    }
  }
}
