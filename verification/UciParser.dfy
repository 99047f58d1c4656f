/** The parser that turns a configuration text into a package, line by line and in the
    line buffer. Its context is the package, the current section, and which sections
    had their type replaced. */
module UciParser {
  import opened UciText
  import opened UciTree
  import opened UciPackage
  import opened UciTokens
  import opened UciLineBuffer
  import opened UciFile

  class Parser {
    const package: Package
    var section: Maybe<nat>
    var redefined: set<nat>

    constructor (package: Package)
      requires package.sections == [] && package.nSection == 0
      ensures this.package == package && Valid() && GetContext() == EMPTY
    {
      this.package := package;
      section, redefined := None, {};
    }

    predicate Valid()
      reads this, package
    {
      section.Some? ==> section.value < |package.sections|
    }

    function GetContext(): Context
      requires Valid()
      reads this, package
    {
      Context(package.sections, package.nSection, section, redefined)
    }

    /** The post-state of a command, and where the line goes on. */
    predicate Ran(r: Result<nat>, buf: array<char>, spec: Result<(Context, string)>)
      reads this, package, buf
    {
      match spec
      case Ok((c, rest)) =>
        r.Ok? && Valid() && GetContext() == c && Readable(buf, r.value) && Unread(buf, r.value) == rest
      case Err(x) => r == Err(x)
    }

    method FixupCurrent()
      requires Valid()
      modifies package`sections, package`nSection
      ensures Valid() && GetContext() == Fixup(old(GetContext()))
    {
      if section.Some? {
        package.FixupSection(section.value);
      }
    }

    method ParsePackage(buf: array<char>, str: nat) returns (r: Result<nat>)
      requires Valid() && Readable(buf, str)
      modifies buf
      ensures Ran(r, buf, PackageCommand(old(GetContext()), old(Unread(buf, str))))
    {
      var name;
      name, r := LastArgument(buf, str, true, true);
    }

    method ParseConfig(buf: array<char>, str: nat) returns (r: Result<nat>)
      requires Valid() && Readable(buf, str)
      modifies this, package`sections, package`nSection, buf
      ensures Ran(r, buf, ConfigCommand(old(GetContext()), old(Unread(buf, str))))
    {
      hide NextArg, AssertEol, OpenSection, Fixup, CStr, HasNul;
      FixupCurrent();
      var typ, next, name;
      ghost var end;
      typ, next, end := NextArgument(buf, str, true, false);
      if typ.Err? {
        return Err(typ.error);
      }
      var typText := ReadString(buf, str);
      var ok := ValidateStr(typText, false);
      if !ok {
        return Err(Parse);
      }
      name, r := LastArgument(buf, next, false, true);
      if r.Ok? {
        Open(typText, name);
      }
    }

    method Open(typ: string, name: string)
      requires Valid() && ValidType(typ)
      modifies this, package`sections, package`nSection
      ensures Valid() && GetContext() == OpenSection(old(GetContext()), typ, name)
    {
      var k := package.LookupSection(name);
      var isNew := k == |package.sections|;
      var _ := package.Assign(name, None, typ);
      if isNew {
        section := Some(k);
      } else {
        // the second replacement of a type does not hand the section back
        section := if k in redefined then None else Some(k);
        redefined := redefined + {k};
      }
    }

    method ParseOption(buf: array<char>, str: nat, list: bool) returns (r: Result<nat>)
      requires Valid() && Readable(buf, str)
      modifies package`sections, package`nSection, buf
      ensures Ran(r, buf, OptionCommand(old(GetContext()), old(Unread(buf, str)), list))
    {
      if section.None? {
        return Err(Parse);
      }
      var name, value;
      name, value, r := ReadOption(buf, str);
      if r.Err? {
        return;
      }
      if list {
        package.AppendToOption(section.value, name, value);
      } else {
        var _ := package.UpdateOption(section.value, name, value);
      }
    }

    /** The name is read back from the buffer after the whole command was parsed. */
    method ReadOption(buf: array<char>, str: nat) returns (name: string, value: string, r: Result<nat>)
      requires Readable(buf, str)
      modifies buf
      ensures match NextArg(old(Unread(buf, str)), true, true)
              case Err(x) => r == Err(x)
              case Ok(n) =>
                match Last(n.rest, false, false)
                case Err(x) => r == Err(x)
                case Ok(v) => r.Ok? && name == n.value && value == v.value
                              && Readable(buf, r.value) && Unread(buf, r.value) == v.rest
    {
      name, value := "", "";
      var at, next;
      ghost var end;
      at, next, end := NextArgument(buf, str, true, true);
      if at.Err? {
        r := Err(at.error);
        return;
      }
      ghost var before := buf[..];
      assert before[str..] == buf[str..];
      value, r := LastArgument(buf, next, false, false);
      if r.Err? {
        return;
      }
      ArgumentKept(before, buf[..], str, end, next);
      assert buf[..][str..] == buf[str..];
      name := ReadString(buf, str);
    }

    method RunWord(buf: array<char>, word: string, args: nat) returns (r: Result<nat>)
      requires Valid() && Readable(buf, args)
      modifies this, package`sections, package`nSection, buf
      ensures Ran(r, buf, RunCommand(old(GetContext()), word, old(Unread(buf, args))))
    {
      if word == "p" || word == "package" {
        r := ParsePackage(buf, args);
      } else if word == "c" || word == "config" {
        r := ParseConfig(buf, args);
      } else if word == "o" || word == "option" {
        r := ParseOption(buf, args, false);
      } else if word == "l" || word == "list" {
        r := ParseOption(buf, args, true);
      } else {
        r := Err(Parse);
      }
    }

    /** Parses a complete line, splitting up commands combined by ';'. */
    method ParseBuffer(buf: array<char>) returns (r: Result<bool>)
      requires Valid() && Readable(buf, 0)
      modifies this, package`sections, package`nSection, buf
      ensures match ParseLine(old(GetContext()), old(Unread(buf, 0)))
              case Ok(c) => r.Ok? && Valid() && GetContext() == c
              case Err(x) => r == Err(x)
    {
      hide ParseLine, RunCommand, SkipBlanks, WordEnd, CStr, HasNul;
      var at := 0;
      ghost var all := ParseLine(GetContext(), Unread(buf, 0));
      while true
        invariant Valid() && Readable(buf, at)
        invariant ParseLine(GetContext(), Unread(buf, at)) == all
        decreases |Unread(buf, at)|
      {
        LineStep(GetContext(), Unread(buf, at));
        var word, args := NextWord(buf, at);
        if word == "" || word[0] == '#' {
          return Ok(true);
        }
        var done := RunWord(buf, word, args);
        if done.Err? {
          return Err(done.error);
        }
        at := done.value;
      }
    }
  }

  method SkipBlankChars(buf: array<char>, str: nat) returns (start: nat)
    requires Readable(buf, str)
    ensures Readable(buf, start) && Unread(buf, start) == SkipBlanks(Unread(buf, str))
  {
    hide SkipBlanks, CStr, HasNul;
    start := str;
    while buf[start] != '\0' && IsBlank(buf[start])
      invariant Readable(buf, start)
      invariant SkipBlanks(Unread(buf, start)) == SkipBlanks(Unread(buf, str))
      decreases buf.Length - start
    {
      UnreadStep(buf, start);
      BlankSkipped(Unread(buf, start));
      start := start + 1;
    }
    UnreadEnd(buf, start);
    if buf[start] != '\0' {
      UnreadStep(buf, start);
    }
    BlankSkipped(Unread(buf, start));
  }

  /** Cuts the next word off the line; the empty word stands for the end of the line. */
  method NextWord(buf: array<char>, str: nat) returns (word: string, args: nat)
    requires Readable(buf, str)
    modifies buf
    ensures Readable(buf, args)
    ensures var s := SkipBlanks(old(Unread(buf, str)));
      if s == "" then word == ""
      else word == s[..WordEnd(s)] && word != ""
           && Unread(buf, args) == if WordEnd(s) == |s| then "" else s[WordEnd(s) + 1..]
  {
    hide SkipBlanks, WordEnd, CStr, HasNul;
    var start := SkipBlankChars(buf, str);
    ghost var s := Unread(buf, start);
    var end := start;
    while buf[end] != '\0' && !IsBlank(buf[end])
      invariant start <= end && Readable(buf, start) && Readable(buf, end)
      invariant s == Unread(buf, start) && |s| - |Unread(buf, end)| == end - start
      invariant WordEnd(s) == end - start + WordEnd(Unread(buf, end))
      invariant s[end - start..] == Unread(buf, end)
      decreases buf.Length - end
    {
      UnreadStep(buf, end);
      WordGoesOn(Unread(buf, end));
      assert s[end - start..][1..] == s[end + 1 - start..];
      end := end + 1;
    }
    UnreadEnd(buf, end);
    if buf[end] != '\0' {
      UnreadStep(buf, end);
    }
    WordGoesOn(Unread(buf, end));
    word, args := CutWord(buf, start, end);
  }

  /** Writes the terminator over the blank behind a word. */
  method CutWord(buf: array<char>, start: nat, end: nat) returns (word: string, args: nat)
    requires start <= end && Readable(buf, start) && Readable(buf, end)
    requires end - start <= |Unread(buf, start)| && Unread(buf, start)[end - start..] == Unread(buf, end)
    modifies buf
    ensures word == old(Unread(buf, start))[..end - start]
    ensures Readable(buf, args) && Unread(buf, args) == if old(buf[end]) == '\0' then "" else old(Unread(buf, end))[1..]
  {
    hide CStr, HasNul;
    word, args := buf[start..end], end;
    UnreadEnd(buf, end);
    CStrPrefix(buf[start..], end - start);
    assert buf[start..][..end - start] == word;
    if buf[end] != '\0' {
      UnreadStep(buf, end);
      args := end + 1;
      ghost var rest := buf[args..];
      buf[end] := '\0';
      assert buf[args..] == rest;
    }
  }

  /** The line as the reader leaves it in the buffer. */
  method LoadLine(line: string) returns (buf: array<char>)
    requires '\0' !in line
    ensures fresh(buf) && Readable(buf, 0) && Unread(buf, 0) == line
  {
    buf := new char[|line| + 1](_ => '\0');
    for i := 0 to |line|
      invariant buf[..i] == line[..i] && buf[|line|] == '\0'
    {
      buf[i] := line[i];
    }
    assert buf[0..] == buf[..] && buf[0..][..|line|] == line;
    CStrIs(buf[0..], |line|);
  }

  /** Imports a text into a new package. */
  method ImportText(name: string, text: string) returns (r: Result<Package>)
    requires '\0' !in text
    ensures match Import(text)
            case Ok(st) => r.Ok? && fresh(r.value) && r.value.name == name && r.value.GetState() == st
                           && r.value.history == [] && !r.value.hasHistory
            case Err(x) => r == Err(x)
  {
    var package := new Package(name);
    var parser := new Parser(package);
    var lines := SplitLines(text);
    LinesWithout(text, '\0');
    for i := 0 to |lines|
      invariant fresh(package) && fresh(parser) && parser.package == package && parser.Valid()
      invariant package.history == [] && !package.hasHistory
      invariant ImportLines(parser.GetContext(), lines[i..]) == ImportLines(EMPTY, lines)
    {
      var line := lines[i];
      assert line in lines;
      assert lines[i..][0] == line && lines[i..][1..] == lines[i + 1..];
      if line != "" {
        var buf := LoadLine(line);
        var done := parser.ParseBuffer(buf);
        if done.Err? {
          return Err(done.error);
        }
      }
    }
    parser.FixupCurrent();
    return Ok(package);
  }

  lemma {:induction false} LinesWithout(text: string, c: char)
    requires c !in text
    ensures forall l | l in SplitLines(text) :: c !in l
    decreases |text|
  {
    var k := IndexOf(text, '\n', 0);
    if k < |text| {
      LinesWithout(text[k + 1..], c);
    }
  }
}
