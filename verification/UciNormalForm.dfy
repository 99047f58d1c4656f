/** Export is a normal form: importing it again reproduces an imported package exactly,
    generated names and counter included. */
module UciNormalForm {
  import opened UciText
  import opened UciTree
  import opened UciPackage
  import opened UciTokens
  import opened UciFile
  import opened UciRoundTrip
  import opened UciImport

  // ---------- how the numbering depends on the tree ----------

  /** Names of anonymous sections do not matter. */
  lemma {:induction false} NormalIgnoresNames(t: Tree, k: nat, name: string)
    requires k < |t| && t[k].anonymous
    ensures Normal(t[k := t[k].(name := name)]) == Normal(t)
  {
    var t' := t[k := t[k].(name := name)];
    var last := |t| - 1;
    if k == last {
      assert t'[..last] == t[..last];
      assert NameFor(Normal(t[..last]).n + 2, t'[last]) == NameFor(Normal(t[..last]).n + 2, t[last]);
    } else {
      assert t'[..last] == t[..last][k := t[k].(name := name)];
      NormalIgnoresNames(t[..last], k, name);
    }
  }

  lemma {:induction false} NormalLength(t: Tree)
    ensures |Normal(t).tree| == |t|
  {
    if t != [] {
      NormalLength(t[..|t| - 1]);
    }
  }

  lemma UpdateAppend<T>(a: seq<T>, x: T, k: nat, v: T)
    requires k < |a|
    ensures (a + [x])[k := v] == a[k := v] + [x]
  {
  }

  /** A change inside a named section changes just that section. */
  lemma {:induction false} NormalUpdate(t: Tree, k: nat, s: Section)
    requires k < |t| && !t[k].anonymous && !s.anonymous
    ensures |Normal(t).tree| == |t|
    ensures Normal(t[k := s]) == State(Normal(t).tree[k := s], Normal(t).n)
  {
    var last := |t| - 1;
    var before, x := t[..last], t[last];
    var m := Normal(before);
    NormalLength(before);
    NormalAppend(before, x);
    assert t == before + [x];
    if k == last {
      assert t[k := s] == before + [s];
      NormalAppend(before, s);
    } else {
      NormalUpdate(before, k, s);
      UpdateAppend(before, x, k, s);
      NormalAppend(before[k := s], x);
      UpdateAppend(m.tree, Renamed(m.n, x), k, s);
    }
  }

  // ---------- the numbering during an import ----------

  /** The import has numbered its sections as a fresh import of their final content would. */
  predicate Numbered(c: Context) {
    && Normal(c.tree) == State(Fixup(c).tree, Fixup(c).n)
    && (c.cur.Some? ==> c.tree[c.cur.value].name == "" || !c.tree[c.cur.value].anonymous)
    && forall k | k in c.redefined :: k < |c.tree|
  }

  /** No config line names a section whose own name was generated. */
  predicate NoReopen(c: Context) {
    forall k | k in c.redefined :: k < |c.tree| && !c.tree[k].anonymous
  }

  predicate Grew(c: Context, c': Context) {
    && c.redefined <= c'.redefined && |c.tree| <= |c'.tree|
    && forall k | 0 <= k < |c.tree| :: c.tree[k].anonymous == c'.tree[k].anonymous
  }

  lemma NumberedFixup(c: Context)
    requires Numbered(c) && ContextOk(c)
    ensures Normal(Fixup(c).tree) == State(Fixup(c).tree, Fixup(c).n)
  {
    if c.cur.Some? && c.tree[c.cur.value].name == "" {
      var s := c.tree[c.cur.value];
      NormalIgnoresNames(c.tree, c.cur.value, NameFor(c.n + 1, s));
    }
  }

  lemma NumberedNew(f: Context, s: Section)
    requires Normal(f.tree) == State(f.tree, f.n) && s.anonymous == (s.name == "")
    ensures var c := Context(f.tree + [s], f.n + 1, Some(|f.tree|), f.redefined);
      Normal(c.tree) == State(Fixup(c).tree, Fixup(c).n)
  {
    NormalAppend(f.tree, s);
    if s.anonymous {
      assert (f.tree + [s])[|f.tree| := s.(name := NameFor(f.n + 2, s))] == f.tree + [s.(name := NameFor(f.n + 2, s))];
    }
  }

  lemma NumberedOpen(f: Context, typ: string, name: string)
    requires Normal(f.tree) == State(f.tree, f.n) && AllNamed(f.tree) && forall k | k in f.redefined :: k < |f.tree|
    requires NoReopen(OpenSection(f, typ, name))
    ensures Numbered(OpenSection(f, typ, name))
  {
    var k := FindSection(f.tree, name);
    if k == |f.tree| {
      NumberedNew(f, NewSection(name, typ));
    } else {
      assert k in OpenSection(f, typ, name).redefined;
      NormalUpdate(f.tree, k, f.tree[k].(typ := typ));
    }
  }

  lemma UpdateLast<T>(a: seq<T>, x: T, v: T)
    ensures (a + [x])[|a| := v] == a + [v]
  {
  }

  lemma AppendEqual<T>(a: seq<T>, b: seq<T>, x: T, y: T)
    requires |a| == |b|
    ensures a + [x] == b + [y] <==> a == b && x == y
  {
    if a + [x] == b + [y] {
      assert a == (a + [x])[..|a|] == (b + [y])[..|b|] == b;
      assert x == (a + [x])[|a|] == (b + [y])[|b|] == y;
    }
  }

  /** An open nameless section is numbered right exactly when the sections before it are. */
  lemma LastNamed(before: Tree, s: Section, n: nat)
    requires s.anonymous
    ensures Normal(before + [s]) == State((before + [s])[|before| := s.(name := NameFor(n + 1, s))], n + 1)
       <==> Normal(before).tree == before && Normal(before).n + 1 == n
  {
    hide *;
    var m := Normal(before);
    NormalAppendNameless(before, s);
    NormalLength(before);
    SameState(m.tree, before, s, s.(name := NameFor(m.n + 2, s)), s.(name := NameFor(n + 1, s)), m.n + 2, n + 1);
  }

  lemma SameState(a: Tree, b: Tree, s: Section, x: Section, y: Section, i: nat, j: nat)
    requires |a| == |b| && (i == j ==> x == y)
    ensures State(a + [x], i) == State((b + [s])[|b| := y], j) <==> a == b && i == j
  {
    UpdateLast(b, s, y);
    AppendEqual(a, b, x, y);
  }

  lemma NormalAppendNameless(before: Tree, s: Section)
    requires s.anonymous
    ensures Normal(before + [s])
         == State(Normal(before).tree + [s.(name := NameFor(Normal(before).n + 2, s))], Normal(before).n + 2)
  {
    hide NameFor, Normal;
    NormalAppend(before, s);
  }

  lemma NumberedOptions(c: Context, options: seq<Option>)
    requires Numbered(c) && ContextOk(c) && c.cur.Some?
    ensures Numbered(WithOptions(c, options))
  {
    hide Normal, NameFor;
    var k := c.cur.value;
    var s := c.tree[k].(options := options);
    if c.tree[k].name == "" {
      OpenIsLast(c);
      var before := c.tree[..k];
      LastNamed(before, c.tree[k], c.n);
      LastNamed(before, s, c.n);
      assert c.tree == before + [c.tree[k]];
      assert c.tree[k := s] == before + [s];
    } else {
      NormalUpdate(c.tree, k, s);
    }
  }

  lemma OpenIsLast(c: Context)
    requires ContextOk(c) && c.cur.Some? && c.tree[c.cur.value].name == ""
    ensures c.cur.value == |c.tree| - 1 && c.tree[c.cur.value].anonymous
  {
  }

  // ---------- over the whole import ----------

  predicate RedefinedIn(c: Context) {
    forall k | k in c.redefined :: k < |c.tree|
  }

  lemma NoReopenBefore(c: Context, c': Context)
    requires Grew(c, c') && NoReopen(c') && RedefinedIn(c)
    ensures NoReopen(c)
  {
  }

  lemma OpenGrows(c: Context, typ: string, name: string)
    requires RedefinedIn(c)
    ensures Grew(c, Fixup(c)) && Grew(c, OpenSection(Fixup(c), typ, name))
         && RedefinedIn(OpenSection(Fixup(c), typ, name))
  {
    assert Grew(Fixup(c), OpenSection(Fixup(c), typ, name));
  }

  /** Sections are numbered as long as none was reopened. */
  predicate Good(c: Context) {
    RedefinedIn(c) && (NoReopen(c) ==> Numbered(c))
  }

  predicate GoodStep(c: Context, c': Context) {
    Good(c') && (NoReopen(c') ==> NoReopen(c))
  }

  lemma NumberedConfig(c: Context, s: string)
    requires ContextOk(c) && Good(c) && ConfigCommand(c, s).Ok?
    ensures GoodStep(c, ConfigCommand(c, s).value.0)
  {
    var typ := NextArg(s, true, false).value;
    var name := NextArg(typ.rest, false, true).value;
    var c' := OpenSection(Fixup(c), typ.value, name.value);
    OpenGrows(c, typ.value, name.value);
    if NoReopen(c') {
      NoReopenBefore(c, c');
      NumberedFixup(c);
      FixupOk(c);
      NumberedOpen(Fixup(c), typ.value, name.value);
    }
  }

  lemma NumberedOption(c: Context, s: string, list: bool)
    requires ContextOk(c) && Good(c) && OptionCommand(c, s, list).Ok?
    ensures GoodStep(c, OptionCommand(c, s, list).value.0)
  {
    var c' := OptionCommand(c, s, list).value.0;
    var options := c'.tree[c.cur.value].options;
    assert c' == WithOptions(c, options);
    if NoReopen(c') {
      NoReopenBefore(c, c');
      NumberedOptions(c, options);
    }
  }

  lemma NumberedCommand(c: Context, word: string, args: string)
    requires ContextOk(c) && NewlineFree(args) && Good(c) && RunCommand(c, word, args).Ok?
    ensures var done := RunCommand(c, word, args).value;
      GoodStep(c, done.0) && ContextOk(done.0) && NewlineFree(done.1)
  {
    RunCommandOk(c, word, args);
    if word == "p" || word == "package" {
    } else if word == "c" || word == "config" {
      NumberedConfig(c, args);
    } else {
      NumberedOption(c, args, !(word == "o" || word == "option"));
    }
  }

  lemma GoodSteps(a: Context, b: Context, c: Context)
    requires GoodStep(a, b) && GoodStep(b, c)
    ensures GoodStep(a, c)
  {
  }

  lemma NextCommand(c: Context, s: string) returns (word: string, args: string)
    requires SkipBlanks(s) != "" && SkipBlanks(s)[0] != '#'
    ensures |args| < |s| && (NewlineFree(s) ==> NewlineFree(args))
    ensures ParseLine(c, s)
         == match RunCommand(c, word, args)
            case Ok(done) => ParseLine(done.0, done.1)
            case Err(x) => Err(x)
  {
    hide RunCommand, WordEnd, SkipBlanks;
    var s1 := SkipBlanks(s);
    var k := WordEnd(s1);
    word, args := s1[..k], if k == |s1| then "" else s1[k + 1..];
  }

  /** Lines keep the numbering while nothing is reopened. */
  lemma {:induction false} NumberedLine(c: Context, s: string)
    requires ContextOk(c) && NewlineFree(s) && Good(c) && ParseLine(c, s).Ok?
    ensures GoodStep(c, ParseLine(c, s).value)
    decreases |s|
  {
    var s1 := SkipBlanks(s);
    if s1 != "" && s1[0] != '#' {
      var word, args := NextCommand(c, s);
      NumberedCommand(c, word, args);
      var done := RunCommand(c, word, args).value;
      NumberedLine(done.0, done.1);
      GoodSteps(c, done.0, ParseLine(c, s).value);
    }
  }

  lemma {:induction false} NumberedLines(c: Context, lines: seq<string>)
    requires ContextOk(c) && ImportLines(c, lines).Ok? && forall l | l in lines :: NewlineFree(l)
    requires Good(c)
    ensures var c' := ImportLines(c, lines).value; NoReopen(c') ==> Numbered(c')
    decreases |lines|
  {
    if lines != [] {
      ParseLineOk(c, lines[0]);
      NumberedLine(c, lines[0]);
      NumberedLines(ParseLine(c, lines[0]).value, lines[1..]);
    }
  }

  /** The text imports, and none of its config lines names a section that has a
      generated name. */
  predicate PlainText(text: string) {
    var r := ImportLines(EMPTY, SplitLines(text));
    r.Ok? && NoReopen(r.value)
  }

  /** Export is a normal form: for every such text, importing its export again gives the
      imported package itself, generated names and counter included. */
  lemma ExportIsNormalForm(text: string)
    requires PlainText(text)
    ensures var p := Import(text).value; Import(Export(p.tree)) == Import(text)
  {
    ImportIsNormal(text);
    ImportOk(text);
    ImportExport(Import(text).value.tree);
  }

  lemma ImportIsNormal(text: string)
    requires PlainText(text)
    ensures Normal(Import(text).value.tree) == Import(text).value
  {
    var c := ImportLines(EMPTY, SplitLines(text)).value;
    NumberedLines(EMPTY, SplitLines(text));
    ImportLinesOk(EMPTY, SplitLines(text));
    NumberedFixup(c);
  }

  // ---------- generated names are distinct ----------

  predicate HasGenerated(s: Section) {
    s.anonymous && s.name != ""
  }

  /** The name was made from a counter value up to n. */
  ghost predicate MadeBy(name: string, n: nat) {
    exists m: nat, h: nat :: m <= n && name == GeneratedName(m, h)
  }

  /** Named anonymous sections have their names from the counter, each from its own value. */
  ghost predicate Issued(t: Tree, n: nat) {
    && (forall i | 0 <= i < |t| && HasGenerated(t[i]) :: MadeBy(t[i].name, n))
    && (forall i, j | 0 <= i < j < |t| && HasGenerated(t[i]) && HasGenerated(t[j]) :: t[i].name != t[j].name)
  }

  /** A name from the next counter value is unlike every name made before. */
  lemma NextNameIsNew(name: string, n: nat, h: nat)
    requires MadeBy(name, n)
    ensures name != GeneratedName(n + 1, h) && MadeBy(name, n + 1)
  {
    var m: nat, g: nat :| m <= n && name == GeneratedName(m, g);
    GeneratedNameInjective(m, g, n + 1, h);
  }

  lemma IssuedFixup(c: Context)
    requires Issued(c.tree, c.n)
    ensures Issued(Fixup(c).tree, Fixup(c).n)
  {
    if c.cur.Some? && c.tree[c.cur.value].name == "" {
      hide GeneratedName;
      var k := c.cur.value;
      var s := c.tree[k];
      var t := Fixup(c).tree;
      forall i | 0 <= i < |t| && i != k && HasGenerated(t[i])
        ensures t[i].name != t[k].name && MadeBy(t[i].name, c.n + 1)
      {
        NextNameIsNew(c.tree[i].name, c.n, SectionHash(s.typ, s.options));
      }
    }
  }

  lemma IssuedLater(t: Tree, n: nat)
    requires Issued(t, n)
    ensures Issued(t, n + 1)
  {
    forall i | 0 <= i < |t| && HasGenerated(t[i]) ensures MadeBy(t[i].name, n + 1) {
      NextNameIsNew(t[i].name, n, 0);
    }
  }

  /** A new section has no generated name yet, and one reopened keeps the name it has. */
  lemma IssuedOpen(c: Context, typ: string, name: string)
    requires Issued(c.tree, c.n)
    ensures var c' := OpenSection(c, typ, name); Issued(c'.tree, c'.n)
  {
    IssuedLater(c.tree, c.n);
  }

  lemma IssuedCommand(c: Context, word: string, args: string)
    requires Issued(c.tree, c.n) && RunCommand(c, word, args).Ok?
    ensures var c' := RunCommand(c, word, args).value.0; Issued(c'.tree, c'.n)
  {
    if word == "p" || word == "package" {
    } else if word == "c" || word == "config" {
      var typ := NextArg(args, true, false).value;
      var name := NextArg(typ.rest, false, true).value;
      IssuedFixup(c);
      IssuedOpen(Fixup(c), typ.value, name.value);
    } else {
      var c' := RunCommand(c, word, args).value.0;
      assert c' == WithOptions(c, c'.tree[c.cur.value].options);
    }
  }

  lemma {:induction false} IssuedLine(c: Context, s: string)
    requires Issued(c.tree, c.n) && ParseLine(c, s).Ok?
    ensures var c' := ParseLine(c, s).value; Issued(c'.tree, c'.n)
    decreases |s|
  {
    hide RunCommand, Issued;
    var s1 := SkipBlanks(s);
    if s1 != "" && s1[0] != '#' {
      var word, args := NextCommand(c, s);
      IssuedCommand(c, word, args);
      var done := RunCommand(c, word, args).value;
      IssuedLine(done.0, done.1);
    }
  }

  lemma {:induction false} IssuedLines(c: Context, lines: seq<string>)
    requires Issued(c.tree, c.n) && ImportLines(c, lines).Ok?
    ensures var c' := ImportLines(c, lines).value; Issued(c'.tree, c'.n)
    decreases |lines|
  {
    if lines != [] {
      IssuedLine(c, lines[0]);
      IssuedLines(ParseLine(c, lines[0]).value, lines[1..]);
    }
  }

  /** Within one import no two anonymous sections get the same name, whatever the text
      calls its other sections and whichever it reopens. */
  lemma ImportNamesDistinct(text: string, i: nat, j: nat)
    requires Import(text).Ok? && i < j < |Import(text).value.tree|
    requires Import(text).value.tree[i].anonymous && Import(text).value.tree[j].anonymous
    ensures Import(text).value.tree[i].name != Import(text).value.tree[j].name
  {
    var c := ImportLines(EMPTY, SplitLines(text)).value;
    IssuedLines(EMPTY, SplitLines(text));
    IssuedFixup(c);
    ImportLinesOk(EMPTY, SplitLines(text));
    FixupOk(c);
  }
}
