/** The line tokenizer. `NextArg` is the meaning of one call on the text still unread;
    the methods below work on the line buffer itself, writing each argument over the
    text it was read from. */
module UciTokens {
  import opened UciText

  datatype Token = Token(value: string, rest: string)

  /** Where the argument scanner is: at the start of a piece, after a piece, or inside
      a quoted piece. */
  datatype Mode = Body | After | Single | Double

  function Prepend(v: string, r: Result<Token>): Result<Token> {
    match r
    case Ok(t) => Ok(Token(v + t.value, t.rest))
    case Err(x) => Err(x)
  }

  function Rank(mode: Mode): nat {
    if mode == After then 1 else 0
  }

  /** `gap` says that fewer characters were kept than read so far. Without a gap the
      terminator of the argument lands on a ';' that ends it, and the rest is lost. */
  function Scan(s: string, mode: Mode, gap: bool): (r: Result<Token>)
    ensures r.Ok? ==> |r.value.rest| <= |s|
    decreases |s|, Rank(mode)
  {
    match mode
    case After =>
      if s == "" then Ok(Token("", ""))
      else if IsSpace(s[0]) then Ok(Token("", s[1..]))
      else Scan(s, Body, gap)
    case Body =>
      if s == "" || s[0] == '#' then Ok(Token("", ""))
      else if s[0] == '\'' then Scan(s[1..], Single, true)
      else if s[0] == '"' then Scan(s[1..], Double, true)
      else if s[0] == ';' then Ok(Token("", if gap then s else ""))
      else if s[0] == '\\' then
        if |s| == 1 then Err(Continuation) else Prepend([s[1]], Scan(s[2..], After, true))
      else Prepend([s[0]], Scan(s[1..], After, gap))
    case Single =>
      if s == "" then Err(Parse)
      else if s[0] == '\'' then Scan(s[1..], After, true)
      else Prepend([s[0]], Scan(s[1..], Single, true))
    case Double =>
      if s == "" then Err(Parse)
      else if s[0] == '"' then Scan(s[1..], After, true)
      else if s[0] == '\\' then
        if |s| == 1 then Err(Continuation) else Prepend([s[1]], Scan(s[2..], Double, true))
      else Prepend([s[0]], Scan(s[1..], Double, true))
  }

  // ---------- one step of the scanner ----------

  lemma QuoteOpens(s: string, gap: bool)
    requires s != ""
    ensures s[0] == '\'' ==> Scan(s, Body, gap) == Scan(s[1..], Single, true)
    ensures s[0] == '"' ==> Scan(s, Body, gap) == Scan(s[1..], Double, true)
  {
  }

  lemma QuoteUnended()
    ensures Scan("", Single, true) == Scan("", Double, true) == Err(Parse)
  {
  }

  lemma SingleStep(s: string)
    requires s != ""
    ensures s[0] == '\'' ==> Scan(s, Single, true) == Scan(s[1..], After, true)
    ensures s[0] != '\'' ==> Scan(s, Single, true) == Prepend([s[0]], Scan(s[1..], Single, true))
  {
  }

  lemma DoubleStep(s: string)
    requires s != ""
    ensures s[0] == '"' ==> Scan(s, Double, true) == Scan(s[1..], After, true)
    ensures s == "\\" ==> Scan(s, Double, true) == Err(Continuation)
    ensures s[0] == '\\' && |s| > 1 ==> Scan(s, Double, true) == Prepend([s[1..][0]], Scan(s[1..][1..], Double, true))
    ensures s[0] != '"' && s[0] != '\\' ==> Scan(s, Double, true) == Prepend([s[0]], Scan(s[1..], Double, true))
  {
    assert |s| > 1 ==> s[2..] == s[1..][1..];
  }

  /** An escaped or a plain character of an argument. */
  lemma BodyStep(s: string, gap: bool)
    requires s != ""
    ensures s == "\\" ==> Scan(s, Body, gap) == Err(Continuation)
    ensures s[0] == '\\' && |s| > 1 ==> Scan(s, Body, gap) == Prepend([s[1..][0]], Scan(s[1..][1..], After, true))
    ensures s[0] !in {'\'', '"', '#', ';', '\\'} ==> Scan(s, Body, gap) == Prepend([s[0]], Scan(s[1..], After, gap))
  {
    assert |s| > 1 ==> s[2..] == s[1..][1..];
  }

  /** Where an argument ends. */
  lemma Ended(s: string, mode: Mode, gap: bool)
    ensures s == "" && (mode == Body || mode == After) ==> Scan(s, mode, gap) == Ok(Token("", ""))
    ensures s != "" && IsSpace(s[0]) ==> Scan(s, After, gap) == Ok(Token("", s[1..]))
    ensures s != "" && s[0] == ';' ==> Scan(s, Body, gap) == Ok(Token("", if gap then s else ""))
  {
  }

  lemma AfterIsBody(s: string, gap: bool)
    requires s != "" && !IsSpace(s[0])
    ensures Scan(s, After, gap) == Scan(s, Body, gap)
  {
  }

  // ---------- arguments ----------

  function SkipSpace(s: string): (r: Result<string>)
    ensures r.Ok? ==> |r.value| <= |s|
  {
    if s == "" then Ok(s)
    else if IsSpace(s[0]) then SkipSpace(s[1..])
    else if s[0] == '\\' then if |s| == 1 then Err(Continuation) else Ok(s[1..])
    else Ok(s)
  }

  function RawArg(s: string): (r: Result<Token>)
    ensures r.Ok? ==> |r.value.rest| <= |s|
  {
    var s1 :- SkipSpace(s);
    if s1 != "" && s1[0] == ';' then Ok(Token(s[..|s| - |s1|], s1[1..]))
    else Scan(s1, Body, |s1| < |s|)
  }

  function NextArg(s: string, required: bool, name: bool): (r: Result<Token>)
    ensures r.Ok? ==> |r.value.rest| <= |s|
  {
    var t :- RawArg(s);
    if t.value == "" then if required then Err(Parse) else Ok(t)
    else if name && !ValidName(t.value) then Err(Parse)
    else Ok(t)
  }

  /** Nothing but a comment, a ';' or the end of the line may follow. */
  function AssertEol(s: string): (r: Result<string>)
    ensures r.Ok? ==> |r.value| <= |s|
  {
    var s1 :- SkipSpace(s);
    var t :- NextArg(s1, false, false);
    if t.value != "" then Err(Parse) else Ok(t.rest)
  }

  predicate Within(r: Result<Token>, s: string) {
    r.Ok? ==> (forall c | c in r.value.value :: c in s) && (forall c | c in r.value.rest :: c in s)
  }

  lemma WithinPrepend(v: string, r: Result<Token>, s: string, k: nat)
    requires k <= |s| && Within(r, s[k..]) && forall c | c in v :: c in s
    ensures Within(Prepend(v, r), s)
  {
  }

  /** An argument and what follows it are made of characters of the line. */
  lemma {:induction false} ScanChars(s: string, mode: Mode, gap: bool)
    ensures Within(Scan(s, mode, gap), s)
    decreases |s|, Rank(mode)
  {
    if s == "" {
    } else if mode == After {
      ScanChars(s, Body, gap);
    } else {
      var quote := if mode == Single then '\'' else '"';
      var k := if mode != Single && s[0] == '\\' && |s| > 1 then 2 else 1;
      var next := if mode == Body then
                    if s[0] == '\'' then Single else if s[0] == '"' then Double else After
                  else if s[0] == quote then After else mode;
      var gap' := gap || mode != Body || next != After || k == 2;
      ScanChars(s[k..], next, gap');
      var r := Scan(s[k..], next, gap');
      WithinPrepend("", r, s, k);
      WithinPrepend([s[k - 1]], r, s, k);
      PrependTwice("", "", r);
    }
  }

  lemma {:induction false} SkipSpaceChars(s: string)
    ensures SkipSpace(s).Ok? ==> forall c | c in SkipSpace(s).value :: c in s
  {
    if s != "" && IsSpace(s[0]) {
      SkipSpaceChars(s[1..]);
    }
  }

  lemma NextArgChars(s: string, required: bool, name: bool)
    ensures var r := NextArg(s, required, name);
      r.Ok? ==> forall c | c in r.value.value || c in r.value.rest :: c in s
  {
    SkipSpaceChars(s);
    if SkipSpace(s).Ok? {
      var s1 := SkipSpace(s).value;
      ScanChars(s1, Body, |s1| < |s|);
    }
  }

  lemma AssertEolChars(s: string)
    ensures AssertEol(s).Ok? ==> forall c | c in AssertEol(s).value :: c in s
  {
    SkipSpaceChars(s);
    if SkipSpace(s).Ok? {
      NextArgChars(SkipSpace(s).value, false, false);
    }
  }

  // ---------- quoting ----------

  /** A quote inside a quoted string closes it, adds an escaped quote and reopens it. */
  function Escape(s: string): string {
    if s == "" then ""
    else (if s[0] == '\'' then "'\\''" else [s[0]]) + Escape(s[1..])
  }

  function Quote(s: string): string {
    "'" + Escape(s) + "'"
  }

  /** Copies up to the next quote, adds the escape, and goes on behind the quote. */
  method EscapeString(str: string) returns (buf: string)
    ensures buf == Escape(str)
  {
    hide Escape;
    buf := "";
    var from := 0;
    EscapeEnds(str);
    while true
      invariant from <= |str|
      invariant buf + Escape(str[from..]) == Escape(str)
      decreases |str| - from
    {
      var end := IndexOf(str, '\'', from);
      EscapePlain(str, from, end);
      Assoc(buf, str[from..end], Escape(str[end..]));
      buf := buf + str[from..end];
      if end == |str| {
        assert str[end..] == "";
        assert buf + "" == buf;
        return;
      }
      EscapeQuote(str, end);
      Assoc(buf, "'\\''", Escape(str[end + 1..]));
      buf := buf + "'\\''";
      from := end + 1;
    }
  }

  lemma EscapeEnds(s: string)
    ensures Escape("") == "" && s[0..] == s && "" + Escape(s) == Escape(s)
  {
  }

  lemma EscapeQuote(s: string, k: nat)
    requires k < |s| && s[k] == '\''
    ensures Escape(s[k..]) == "'\\''" + Escape(s[k + 1..])
  {
    assert s[k..][0] == s[k] && s[k..][1..] == s[k + 1..];
  }

  lemma {:induction false} EscapePlain(s: string, from: nat, end: nat)
    requires from <= end <= |s| && forall i | from <= i < end :: s[i] != '\''
    ensures Escape(s[from..]) == s[from..end] + Escape(s[end..])
    decreases end - from
  {
    if from == end {
      assert s[from..end] == "";
    } else {
      EscapePlain(s, from + 1, end);
      assert s[from..][1..] == s[from + 1..];
      assert s[from..end] == [s[from]] + s[from + 1..end];
      Assoc([s[from]], s[from + 1..end], Escape(s[end..]));
    }
  }

  lemma PrependTwice(a: string, b: string, r: Result<Token>)
    ensures Prepend(a, Prepend(b, r)) == Prepend(a + b, r)
    ensures Prepend("", r) == r
  {
    if r.Ok? {
      Assoc(a, b, r.value.value);
      assert "" + r.value.value == r.value.value;
    }
  }

  /** Inside a quoted piece the escaped text reads back as the text. */
  lemma {:induction false} ScanEscaped(s: string, tail: string)
    ensures Scan(Escape(s) + "'" + tail, Single, true) == Prepend(s, Scan(tail, After, true))
  {
    hide Scan;
    if s == "" {
      EscapedEnd(tail);
    } else {
      hide Prepend;
      var inner := Escape(s[1..]) + "'" + tail;
      ScanEscaped(s[1..], tail);
      PrependTwice([s[0]], s[1..], Scan(tail, After, true));
      assert [s[0]] + s[1..] == s;
      EscapedFirst(s, tail);
      if s[0] == '\'' {
        ScanQuoteEscape(inner);
      } else {
        SingleStep([s[0]] + inner);
        assert ([s[0]] + inner)[1..] == inner;
      }
    }
  }

  lemma EscapedEnd(tail: string)
    ensures Scan(Escape("") + "'" + tail, Single, true) == Prepend("", Scan(tail, After, true))
  {
    assert Escape("") + "'" + tail == "'" + tail;
    SingleStep("'" + tail);
    assert ("'" + tail)[1..] == tail;
    PrependTwice("", "", Scan(tail, After, true));
  }

  lemma EscapedFirst(s: string, tail: string)
    requires s != ""
    ensures var inner := Escape(s[1..]) + "'" + tail;
      Escape(s) + "'" + tail == (if s[0] == '\'' then "'\\''" else [s[0]]) + inner
  {
    var first := if s[0] == '\'' then "'\\''" else [s[0]];
    assert Escape(s) == first + Escape(s[1..]);
    Assoc(first, Escape(s[1..]), "'");
    Assoc(first, Escape(s[1..]) + "'", tail);
  }

  lemma ScanQuoteEscape(inner: string)
    ensures Scan("'\\''" + inner, Single, true) == Prepend(['\''], Scan(inner, Single, true))
  {
    var text := "'\\''" + inner;
    var escaped, reopened := text[1..], "'" + inner;
    assert escaped[0] == '\\' && escaped[1] == '\'' && escaped[2..] == reopened;
    assert reopened[1..] == inner;
    calc {
      Scan(text, Single, true);
      Scan(escaped, After, true);
      Scan(escaped, Body, true);
      Prepend(['\''], Scan(reopened, After, true));
      { assert Scan(reopened, After, true) == Scan(reopened, Body, true); }
      Prepend(['\''], Scan(inner, Single, true));
    }
  }

  /** One quoted argument followed by the end of the line or a space reads back as the
      string, and leaves what follows the space. */
  lemma QuotedArg(s: string, tail: string)
    requires tail == "" || tail[0] == ' '
    ensures RawArg(Quote(s) + tail) == Ok(Token(s, if tail == "" then "" else tail[1..]))
  {
    var line := Quote(s) + tail;
    assert line == "'" + (Escape(s) + "'" + tail);
    assert line[1..] == Escape(s) + "'" + tail;
    ScanEscaped(s, tail);
    assert Scan(line, Body, false) == Scan(line[1..], Single, true);
    assert s + "" == s;
  }

  /** Several quoted strings separated by single spaces. */
  function QuotedLine(args: seq<string>): string {
    if args == [] then ""
    else if |args| == 1 then Quote(args[0])
    else Quote(args[0]) + (" " + QuotedLine(args[1..]))
  }

  /** The meaning of k successive calls. */
  function RawArgs(s: string, k: nat): Result<(seq<string>, string)>
    decreases k
  {
    if k == 0 then Ok(([], s))
    else
      var t :- RawArg(s);
      var more :- RawArgs(t.rest, k - 1);
      Ok(([t.value] + more.0, more.1))
  }

  /** Tokenizing undoes quoting: successive calls on a line built from quoted strings
      return exactly the strings and leave nothing. */
  lemma {:induction false} TokenizingUndoesQuoting(args: seq<string>)
    ensures RawArgs(QuotedLine(args), |args|) == Ok((args, ""))
  {
    hide Quote, RawArg;
    if args == [] {
    } else if |args| == 1 {
      QuotedArg(args[0], "");
      assert Quote(args[0]) + "" == Quote(args[0]);
      RawArgsStep(QuotedLine(args), 0, Token(args[0], ""), ([], ""));
      assert [args[0]] + [] == args;
    } else {
      var tail := " " + QuotedLine(args[1..]);
      QuotedArg(args[0], tail);
      assert tail[1..] == QuotedLine(args[1..]);
      TokenizingUndoesQuoting(args[1..]);
      RawArgsStep(QuotedLine(args), |args| - 1, Token(args[0], tail[1..]), (args[1..], ""));
      assert [args[0]] + args[1..] == args;
    }
  }

  lemma RawArgsStep(s: string, k: nat, t: Token, more: (seq<string>, string))
    requires RawArg(s) == Ok(t) && RawArgs(t.rest, k) == Ok(more)
    ensures RawArgs(s, k + 1) == Ok(([t.value] + more.0, more.1))
  {
  }
}
