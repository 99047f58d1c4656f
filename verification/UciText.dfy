/** Character classes, validators and line splitting used by every part of the
    configuration store. C strings are modelled as `string`; a NULL pointer, where
    the program gives it a meaning, as an explicit `None` or as the empty string. */
module UciText {

  datatype Maybe<+T> = None | Some(value: T)

  /** The error codes the library throws. `Continuation` marks a backslash at the
      end of a line, whose line joining is not part of this model. */
  datatype Error = Invalid | NotFound | Parse | Continuation

  datatype Result<+T> = Ok(value: T) | Err(error: Error) {
    predicate IsFailure() {
      Err?
    }

    function PropagateFailure<U>(): Result<U>
      requires Err?
    {
      Err(error)
    }

    function Extract(): T
      requires Ok?
    {
      value
    }
  }

  predicate IsAlnum(c: char) {
    '0' <= c <= '9' || 'a' <= c <= 'z' || 'A' <= c <= 'Z'
  }

  predicate IsSpace(c: char) {
    c == ' ' || 9 <= c as int <= 13
  }

  predicate NameChar(c: char) {
    IsAlnum(c) || c == '_'
  }

  predicate TypeChar(c: char) {
    NameChar(c) || 33 <= c as int <= 126
  }

  predicate TextChar(c: char) {
    32 <= c as int || c == '\t'
  }

  /** Type characters are the visible ones of ASCII; of the control characters a text may
      hold the tab only; a space is what separates arguments. */
  lemma CharacterClasses(c: char)
    ensures TypeChar(c) <==> '!' <= c <= '~'
    ensures TextChar(c) <==> c == '\t' || c >= ' '
    ensures IsSpace(c) <==> c in "\t\n\U{000b}\U{000c}\r "
    ensures NameChar(c) <==> c in "0123456789_" || 'a' <= c <= 'z' || 'A' <= c <= 'Z'
  {
  }

  predicate ValidName(s: string) {
    s != "" && forall c | c in s :: NameChar(c)
  }

  /** Section types and package names share one rule. */
  predicate ValidType(s: string) {
    s != "" && forall c | c in s :: TypeChar(c)
  }

  predicate ValidText(s: string) {
    forall c | c in s :: TextChar(c)
  }

  /** The validator walks the string once and stops at the first bad character. */
  method ValidateStr(str: string, name: bool) returns (ok: bool)
    ensures ok <==> if name then ValidName(str) else ValidType(str)
  {
    if str == "" {
      return false;
    }
    for i := 0 to |str|
      invariant forall c | c in str[..i] :: TypeChar(c) && (name ==> NameChar(c))
    {
      var c := str[i];
      if !IsAlnum(c) && c != '_' {
        if name || c as int < 33 || c as int > 126 {
          assert c in str;
          return false;
        }
      }
      assert str[..i + 1] == str[..i] + [c];
    }
    assert str[..|str|] == str;
    return true;
  }

  method ValidateText(str: string) returns (ok: bool)
    ensures ok <==> ValidText(str)
  {
    for i := 0 to |str|
      invariant forall c | c in str[..i] :: TextChar(c)
    {
      var c := str[i];
      if c == '\r' || c == '\n' || (c as int < 32 && c != '\t') {
        assert c in str;
        return false;
      }
      assert str[..i + 1] == str[..i] + [c];
    }
    assert str[..|str|] == str;
    return true;
  }

  /** Sequence equalities the solver only sees when asked. */
  lemma EmptyConcat<T>(a: seq<T>)
    ensures a + [] == a && [] + a == a
  {
  }

  lemma Assoc<T>(a: seq<T>, b: seq<T>, c: seq<T>)
    ensures a + b + c == a + (b + c)
  {
  }

  // ---------- searching and splitting ----------

  /** Position of the first `c` at or after `from`, or the length when there is none. */
  function IndexOf(s: string, c: char, from: nat): (k: nat)
    requires from <= |s|
    ensures from <= k <= |s|
    ensures k < |s| ==> s[k] == c
    ensures forall i | from <= i < k :: s[i] != c
    decreases |s| - from
  {
    if from == |s| || s[from] == c then from else IndexOf(s, c, from + 1)
  }

  lemma IndexOfUnique(s: string, c: char, k: nat)
    requires k <= |s| && (k < |s| ==> s[k] == c)
    requires forall i | 0 <= i < k :: s[i] != c
    ensures IndexOf(s, c, 0) == k
  {
  }

  predicate NewlineFree(s: string) {
    '\n' !in s
  }

  /** The lines a reader of the text meets, newline characters removed. */
  function SplitLines(text: string): (lines: seq<string>)
    ensures lines != []
    ensures forall l | l in lines :: NewlineFree(l)
    decreases |text|
  {
    var k := IndexOf(text, '\n', 0);
    if k == |text| then [text] else [text[..k]] + SplitLines(text[k + 1..])
  }

  /** The text that prints each line followed by a newline. */
  function Unlines(lines: seq<string>): string {
    if lines == [] then "" else lines[0] + "\n" + Unlines(lines[1..])
  }

  lemma SplitLine(line: string, rest: string)
    requires NewlineFree(line)
    ensures SplitLines(line + "\n" + rest) == [line] + SplitLines(rest)
  {
    var text := line + "\n" + rest;
    IndexOfUnique(text, '\n', |line|);
    assert text[..|line|] == line;
    assert text[|line| + 1..] == rest;
  }

  /** Printing newline-free lines in front of any text and splitting gives them back. */
  lemma {:induction false} SplitUnlines(lines: seq<string>, rest: string)
    requires forall l | l in lines :: NewlineFree(l)
    ensures SplitLines(Unlines(lines) + rest) == lines + SplitLines(rest)
  {
    if lines == [] {
      assert Unlines(lines) + rest == rest;
      assert lines + SplitLines(rest) == SplitLines(rest);
    } else {
      var tail := Unlines(lines[1..]);
      calc {
        SplitLines(Unlines(lines) + rest);
        { Assoc(lines[0] + "\n", tail, rest); }
        SplitLines(lines[0] + "\n" + (tail + rest));
        { SplitLine(lines[0], tail + rest); }
        [lines[0]] + SplitLines(tail + rest);
        { SplitUnlines(lines[1..], rest); }
        [lines[0]] + (lines[1..] + SplitLines(rest));
        { Assoc([lines[0]], lines[1..], SplitLines(rest)); }
        [lines[0]] + lines[1..] + SplitLines(rest);
        { assert [lines[0]] + lines[1..] == lines; }
        lines + SplitLines(rest);
      }
    }
  }

  lemma {:induction false} UnlinesConcat(a: seq<string>, b: seq<string>)
    ensures Unlines(a + b) == Unlines(a) + Unlines(b)
  {
    if a == [] {
      assert a + b == b;
    } else {
      assert (a + b)[1..] == a[1..] + b;
      UnlinesConcat(a[1..], b);
      Assoc(a[0] + "\n", Unlines(a[1..]), Unlines(b));
    }
  }
}
