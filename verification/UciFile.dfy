/** The configuration file: what export prints and what import makes of a text. */
module UciFile {
  import opened UciText
  import opened UciTree
  import opened UciPackage
  import opened UciTokens

  // ---------- export ----------

  function Line(indent: string, word: string, args: string): string {
    indent + (word + " " + args)
  }

  function TwoQuoted(a: string, b: string): string {
    Quote(a) + (" " + Quote(b))
  }

  function ItemLines(name: string, items: seq<string>): seq<string> {
    if items == [] then []
    else [Line("\t", "list", TwoQuoted(name, items[0]))] + ItemLines(name, items[1..])
  }

  function OptionLines(o: Option): seq<string> {
    match o.value
    case Str(v) => [Line("\t", "option", TwoQuoted(o.name, v))]
    case List(items) => ItemLines(o.name, items)
  }

  function OptionsLines(options: seq<Option>): seq<string> {
    if options == [] then [] else OptionLines(options[0]) + OptionsLines(options[1..])
  }

  function ConfigLine(s: Section): string {
    Line("", "config", if s.anonymous then Quote(s.typ) else TwoQuoted(s.typ, s.name))
  }

  function SectionLines(s: Section): seq<string> {
    ["", ConfigLine(s)] + OptionsLines(s.options)
  }

  function TreeLines(t: Tree): seq<string> {
    if t == [] then [] else SectionLines(t[0]) + TreeLines(t[1..])
  }

  /** The text of an exported package without its header. */
  function Export(t: Tree): string {
    Unlines(TreeLines(t) + [""])
  }

  /** The lines as they stand in a file. */
  lemma LinesInText(a: string, b: string)
    ensures ConfigLine(Section(b, a, false, [])) == "config '" + Escape(a) + "' '" + Escape(b) + "'"
    ensures ConfigLine(Section(b, a, true, [])) == "config '" + Escape(a) + "'"
    ensures OptionLines(Option(a, Str(b))) == ["\toption '" + Escape(a) + "' '" + Escape(b) + "'"]
    ensures OptionLines(Option(a, List([b]))) == ["\tlist '" + Escape(a) + "' '" + Escape(b) + "'"]
  {
    hide Escape, Line;
    assert [b][1..] == [] && ItemLines(a, []) == [];
    PairInText("", "config", "config '", Escape(a), Escape(b));
    PairInText("\t", "option", "\toption '", Escape(a), Escape(b));
    PairInText("\t", "list", "\tlist '", Escape(a), Escape(b));
  }

  lemma PairInText(indent: string, word: string, start: string, x: string, y: string)
    requires start == indent + word + " '"
    ensures Line(indent, word, "'" + x + "'" + (" " + ("'" + y + "'"))) == start + x + "' '" + y + "'"
    ensures Line(indent, word, "'" + x + "'") == start + x + "'"
  {
    assert start == indent + (word + " ") + "'";
    assert "' '" == "'" + (" " + "'");
    Assoc(indent, word + " ", "'" + x + "'");
    Assoc(indent, word + " ", "'" + x + "'" + (" " + ("'" + y + "'")));
    var head := indent + (word + " ");
    assert head + ("'" + x + "'") == start + x + "'";
    assert head + ("'" + x + "'" + (" " + ("'" + y + "'"))) == (start + x + "'") + (" " + ("'" + y + "'"));
    assert (start + x + "'") + (" " + ("'" + y + "'")) == start + x + ("'" + (" " + "'")) + y + "'";
  }

  lemma EscapeInText()
    ensures Escape("it's") == "it'\\''s"
  {
    assert "it's"[1..] == "t's" && "t's"[1..] == "'s" && "'s"[1..] == "s" && "s"[1..] == "";
    assert Escape("s") == "s" && Escape("'s") == "'\\''s" && Escape("t's") == "t'\\''s";
  }

  // ---------- import ----------

  /** `cur` is the section options go to. `redefined` holds the sections whose type was
      already replaced once: redefining one of them again leaves no current section. */
  datatype RawContext = Context(tree: Tree, n: nat, cur: Maybe<nat>, redefined: set<nat>)

  type Context = c: RawContext | c.cur.Some? ==> c.cur.value < |c.tree| witness Context([], 0, None, {})

  /** Names the current section if it has no name yet. */
  function Fixup(c: Context): (c': Context)
    ensures |c'.tree| == |c.tree|
  {
    if c.cur.None? || c.tree[c.cur.value].name != "" then c
    else
      var s := c.tree[c.cur.value];
      c.(tree := c.tree[c.cur.value := s.(name := NameFor(c.n + 1, s))], n := c.n + 1)
  }

  function OpenSection(c: Context, typ: string, name: string): Context {
    var k := FindSection(c.tree, name);
    if k == |c.tree| then Context(c.tree + [NewSection(name, typ)], c.n + 1, Some(k), c.redefined)
    else Context(c.tree[k := c.tree[k].(typ := typ)], c.n,
                 if k in c.redefined then None else Some(k), c.redefined + {k})
  }

  function ConfigCommand(c: Context, s: string): (r: Result<(Context, string)>)
    ensures r.Ok? ==> |r.value.1| <= |s|
  {
    var typ :- NextArg(s, true, false);
    if !ValidType(typ.value) then Err(Parse)
    else
      var name :- NextArg(typ.rest, false, true);
      var rest :- AssertEol(name.rest);
      Ok((OpenSection(Fixup(c), typ.value, name.value), rest))
  }

  function WithOptions(c: Context, options: seq<Option>): Context
    requires c.cur.Some?
  {
    c.(tree := c.tree[c.cur.value := c.tree[c.cur.value].(options := options)])
  }

  function OptionCommand(c: Context, s: string, list: bool): (r: Result<(Context, string)>)
    ensures r.Ok? ==> |r.value.1| <= |s|
  {
    if c.cur.None? then Err(Parse)
    else
      var name :- NextArg(s, true, true);
      var value :- NextArg(name.rest, false, false);
      var rest :- AssertEol(value.rest);
      var options := c.tree[c.cur.value].options;
      Ok((WithOptions(c, if list then AddListOption(options, name.value, value.value)
                         else SetOption(options, name.value, value.value)), rest))
  }

  /** In a single-package import the package line is checked and otherwise ignored. */
  function PackageCommand(c: Context, s: string): (r: Result<(Context, string)>)
    ensures r.Ok? ==> |r.value.1| <= |s|
  {
    var name :- NextArg(s, true, true);
    var rest :- AssertEol(name.rest);
    Ok((c, rest))
  }

  predicate IsBlank(c: char) {
    c == ' ' || c == '\t'
  }

  function SkipBlanks(s: string): (r: string)
    ensures |r| <= |s| && (r != "" ==> !IsBlank(r[0]))
    ensures forall c | c in r :: c in s
  {
    if s != "" && IsBlank(s[0]) then SkipBlanks(s[1..]) else s
  }

  function WordEnd(s: string): (k: nat)
    ensures k <= |s|
  {
    if s == "" || IsBlank(s[0]) then 0 else 1 + WordEnd(s[1..])
  }

  function RunCommand(c: Context, word: string, args: string): (r: Result<(Context, string)>)
    ensures r.Ok? ==> |r.value.1| <= |args|
  {
    if word == "p" || word == "package" then PackageCommand(c, args)
    else if word == "c" || word == "config" then ConfigCommand(c, args)
    else if word == "o" || word == "option" then OptionCommand(c, args, false)
    else if word == "l" || word == "list" then OptionCommand(c, args, true)
    else Err(Parse)
  }

  /** A line is a chain of commands; a comment or the end of the line ends it. */
  function ParseLine(c: Context, s: string): Result<Context>
    decreases |s|
  {
    var s1 := SkipBlanks(s);
    if s1 == "" || s1[0] == '#' then Ok(c)
    else
      var k := WordEnd(s1);
      var done :- RunCommand(c, s1[..k], if k == |s1| then "" else s1[k + 1..]);
      ParseLine(done.0, done.1)
  }

  /** Every command has a short and a long word, and no other word is one. */
  lemma CommandWords(c: Context, word: string, args: string)
    ensures RunCommand(c, "p", args) == RunCommand(c, "package", args) == PackageCommand(c, args)
    ensures RunCommand(c, "c", args) == RunCommand(c, "config", args) == ConfigCommand(c, args)
    ensures RunCommand(c, "o", args) == RunCommand(c, "option", args) == OptionCommand(c, args, false)
    ensures RunCommand(c, "l", args) == RunCommand(c, "list", args) == OptionCommand(c, args, true)
    ensures word !in ["p", "package", "c", "config", "o", "option", "l", "list"]
        ==> RunCommand(c, word, args) == Err(Parse)
  {
    hide PackageCommand, ConfigCommand, OptionCommand;
    var long := ["package", "config", "option", "list"];
    assert long[0][0] == 'p' && long[1][0] == 'c' && long[2][0] == 'o' && long[3][0] == 'l';
  }

  lemma LineStep(c: Context, s: string)
    ensures var s1 := SkipBlanks(s);
      ParseLine(c, s)
      == if s1 == "" || s1[0] == '#' then Ok(c)
         else match RunCommand(c, s1[..WordEnd(s1)], if WordEnd(s1) == |s1| then "" else s1[WordEnd(s1) + 1..])
              case Ok(done) => ParseLine(done.0, done.1)
              case Err(x) => Err(x)
  {
    hide RunCommand, SkipBlanks, WordEnd;
  }

  lemma BlankSkipped(s: string)
    ensures s != "" && IsBlank(s[0]) ==> SkipBlanks(s) == SkipBlanks(s[1..])
    ensures s == "" || !IsBlank(s[0]) ==> SkipBlanks(s) == s
  {
  }

  lemma WordGoesOn(s: string)
    ensures s != "" && !IsBlank(s[0]) ==> WordEnd(s) == 1 + WordEnd(s[1..])
    ensures s == "" || IsBlank(s[0]) ==> WordEnd(s) == 0
  {
  }

  function ImportLines(c: Context, lines: seq<string>): Result<Context>
    decreases |lines|
  {
    if lines == [] then Ok(c)
    else
      var next :- ParseLine(c, lines[0]);
      ImportLines(next, lines[1..])
  }

  const EMPTY: Context := Context([], 0, None, {})

  function Import(text: string): Result<State> {
    var c :- ImportLines(EMPTY, SplitLines(text));
    var f := Fixup(c);
    Ok(State(f.tree, f.n))
  }
}
