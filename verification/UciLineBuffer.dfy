/** The tokenizer on the line buffer. Cursors are indices; the text at a cursor runs
    up to the next NUL. Each method says what it read in terms of the scanner on the
    text, that it wrote only behind the read cursor, and what it left unread. */
module UciLineBuffer {
  import opened UciText
  import opened UciTokens

  function CStr(s: seq<char>): string {
    if s == [] || s[0] == '\0' then "" else [s[0]] + CStr(s[1..])
  }

  predicate HasNul(s: seq<char>) {
    s != [] && (s[0] == '\0' || HasNul(s[1..]))
  }

  lemma CStrStep(s: seq<char>)
    requires HasNul(s) && s[0] != '\0'
    ensures HasNul(s[1..]) && CStr(s) != "" && CStr(s)[0] == s[0] && CStr(s)[1..] == CStr(s[1..])
    ensures |CStr(s)| == 1 <==> s[1] == '\0'
  {
  }

  lemma {:induction false} CStrIs(s: seq<char>, k: nat)
    requires k < |s| && s[k] == '\0' && '\0' !in s[..k]
    ensures CStr(s) == s[..k] && HasNul(s)
  {
    if k > 0 {
      assert s[..k] == [s[0]] + s[1..][..k - 1];
      CStrIs(s[1..], k - 1);
    }
  }

  lemma {:induction false} CStrPrefix(s: seq<char>, k: nat)
    requires k <= |CStr(s)|
    ensures k <= |s| && CStr(s)[..k] == s[..k] && '\0' !in s[..k]
  {
    if k > 0 {
      CStrPrefix(s[1..], k - 1);
      assert s[..k] == [s[0]] + s[1..][..k - 1];
    }
  }

  /** The text unread at a cursor. */
  function Unread(buf: array<char>, i: nat): string
    requires i <= buf.Length
    reads buf
  {
    CStr(buf[i..])
  }

  predicate Readable(buf: array<char>, i: nat)
    reads buf
  {
    i < buf.Length && HasNul(buf[i..])
  }

  /** Everything from `str` on is as it was, and so is everything before `target`. */
  twostate predicate WroteBetween(buf: array<char>, target: nat, str: nat)
    requires target <= str <= buf.Length
    reads buf
  {
    forall i | 0 <= i < buf.Length && (i < target || str <= i) :: buf[i] == old(buf[i])
  }

  lemma UnreadStep(buf: array<char>, i: nat)
    requires Readable(buf, i) && buf[i] != '\0'
    ensures Readable(buf, i + 1) && Unread(buf, i) != ""
    ensures Unread(buf, i)[0] == buf[i] && Unread(buf, i)[1..] == Unread(buf, i + 1)
    ensures |Unread(buf, i)| == 1 <==> buf[i + 1] == '\0'
  {
    CStrStep(buf[i..]);
    assert buf[i..][1..] == buf[i + 1..];
  }

  lemma UnreadEnd(buf: array<char>, i: nat)
    requires Readable(buf, i)
    ensures i < buf.Length && (buf[i] == '\0' <==> Unread(buf, i) == "")
  {
  }

  lemma NulEnds(buf: array<char>, i: nat)
    requires i < buf.Length && buf[i] == '\0'
    ensures Readable(buf, i) && Unread(buf, i) == ""
  {
  }

  /** Steps over a backslash; false when it ends the line. */
  method ParseBackslash(buf: array<char>, str: nat) returns (more: bool, str': nat)
    requires Readable(buf, str) && buf[str] == '\\'
    ensures str' == str + 1 && Readable(buf, str')
    ensures more <==> |Unread(buf, str)| > 1
    ensures more ==> buf[str'] != '\0'
    ensures Unread(buf, str)[1..] == Unread(buf, str')
  {
    hide CStr, HasNul;
    UnreadStep(buf, str);
    UnreadEnd(buf, str + 1);
    str' := str + 1;
    more := buf[str'] != '\0';
  }

  lemma SpaceStep(s: string)
    requires s != "" && IsSpace(s[0])
    ensures SkipSpace(s) == SkipSpace(s[1..])
  {
  }

  lemma NoSpaceLeft(s: string)
    requires s == "" || !IsSpace(s[0])
    ensures SkipSpace(s)
         == if s != "" && s[0] == '\\' then if |s| == 1 then Err(Continuation) else Ok(s[1..]) else Ok(s)
  {
  }

  method SkipWhitespace(buf: array<char>, str: nat) returns (r: Result<bool>, str': nat)
    requires Readable(buf, str)
    ensures match SkipSpace(Unread(buf, str))
            case Ok(s) => r.Ok? && str <= str' && Readable(buf, str') && Unread(buf, str') == s
                          && |Unread(buf, str)| - |s| == str' - str
            case Err(x) => r == Err(x)
  {
    hide SkipSpace, CStr, HasNul;
    ghost var all := Unread(buf, str);
    str' := str;
    UnreadEnd(buf, str);
    while buf[str'] != '\0' && IsSpace(buf[str'])
      invariant str <= str' && Readable(buf, str')
      invariant SkipSpace(all) == SkipSpace(Unread(buf, str'))
      invariant |all| - |Unread(buf, str')| == str' - str
      decreases buf.Length - str'
    {
      UnreadStep(buf, str');
      SpaceStep(Unread(buf, str'));
      UnreadEnd(buf, str' + 1);
      str' := str' + 1;
    }
    UnreadEnd(buf, str');
    if buf[str'] != '\0' {
      UnreadStep(buf, str');
    }
    NoSpaceLeft(Unread(buf, str'));
    r := Ok(true);
    if buf[str'] == '\\' {
      var more;
      more, str' := ParseBackslash(buf, str');
      if !more {
        return Err(Continuation), str';
      }
    }
  }

  /** What a piece of the scanner owes: the characters kept, then the rest of the scan. */
  predicate Scanned(before: Result<Token>, buf: array<char>, from: nat, target: nat, str: nat, mode: Mode, gap: bool)
    reads buf
  {
    from <= target <= str <= buf.Length && Readable(buf, str) && '\0' !in buf[from..target]
    && before == Prepend(buf[from..target], Scan(Unread(buf, str), mode, gap))
  }

  /** Copies the character at the read cursor to the write cursor and moves both. */
  method AddC(buf: array<char>, str: nat, from: nat, target: nat, ghost before: Result<Token>, ghost mode: Mode,
              ghost gap: bool)
    returns (str': nat, target': nat)
    requires from <= target <= str && Readable(buf, str) && buf[str] != '\0' && '\0' !in buf[from..target]
    requires before == Prepend(buf[from..target], Prepend([buf[str]], Scan(Unread(buf, str)[1..], mode, gap)))
    modifies buf
    ensures str' == str + 1 && target' == target + 1
    ensures Scanned(before, buf, from, target', str', mode, gap) && WroteBetween(buf, from, str')
  {
    hide Scan, CStr, HasNul, Prepend;
    UnreadStep(buf, str);
    ghost var kept, c := buf[from..target], buf[str];
    ghost var r := Scan(Unread(buf, str)[1..], mode, gap);
    ghost var rest := buf[str + 1..];
    buf[target] := buf[str];
    str', target' := str + 1, target + 1;
    assert buf[str'..] == rest;
    assert buf[from..target'] == kept + [c];
    PrependTwice(kept, [c], r);
  }

  /** Writes the terminator of a piece; nothing kept or unread is touched. */
  method Terminate(buf: array<char>, str: nat, from: nat, target: nat, ghost before: Result<Token>, ghost mode: Mode,
                   ghost gap: bool)
    requires Scanned(before, buf, from, target, str, mode, gap) && target < str
    modifies buf
    ensures WroteBetween(buf, from, str) && Scanned(before, buf, from, target, str, mode, gap)
  {
    hide Scan, CStr, HasNul, Prepend;
    ghost var kept, rest := buf[from..target], buf[str..];
    buf[target] := '\0';
    assert buf[from..target] == kept && buf[str..] == rest;
  }

  method ParseSingleQuote(buf: array<char>, str: nat, from: nat, target: nat, ghost before: Result<Token>)
    returns (r: Result<bool>, str': nat, target': nat)
    requires Scanned(before, buf, from, target, str, Body, target < str) && buf[str] == '\''
    modifies buf
    ensures r.Ok? ==> target' < str' && str < str' && Scanned(before, buf, from, target', str', After, true)
    ensures r.Ok? ==> WroteBetween(buf, from, str')
    ensures r.Err? ==> before == Err(r.error)
  {
    hide Scan, CStr, HasNul;
    UnreadStep(buf, str);
    QuoteOpens(Unread(buf, str), target < str);
    str', target' := str + 1, target;
    while buf[str'] != '\0'
      invariant target' < str' && str < str' && Scanned(before, buf, from, target', str', Single, true)
      invariant WroteBetween(buf, from, str')
      decreases buf.Length - str'
    {
      UnreadStep(buf, str');
      SingleStep(Unread(buf, str'));
      if buf[str'] == '\'' {
        str' := str' + 1;
        Terminate(buf, str', from, target', before, After, true);
        return Ok(true), str', target';
      }
      str', target' := AddC(buf, str', from, target', before, Single, true);
    }
    UnreadEnd(buf, str');
    QuoteUnended();
    return Err(Parse), str', target';
  }

  method ParseDoubleQuote(buf: array<char>, str: nat, from: nat, target: nat, ghost before: Result<Token>)
    returns (r: Result<bool>, str': nat, target': nat)
    requires Scanned(before, buf, from, target, str, Body, target < str) && buf[str] == '"'
    modifies buf
    ensures r.Ok? ==> target' < str' && str < str' && Scanned(before, buf, from, target', str', After, true)
    ensures r.Ok? ==> WroteBetween(buf, from, str')
    ensures r.Err? ==> before == Err(r.error)
  {
    hide Scan, CStr, HasNul;
    UnreadStep(buf, str);
    QuoteOpens(Unread(buf, str), target < str);
    str', target' := str + 1, target;
    while buf[str'] != '\0'
      invariant target' < str' && str < str' && Scanned(before, buf, from, target', str', Double, true)
      invariant WroteBetween(buf, from, str')
      decreases buf.Length - str'
    {
      UnreadStep(buf, str');
      DoubleStep(Unread(buf, str'));
      if buf[str'] == '"' {
        str' := str' + 1;
        Terminate(buf, str', from, target', before, After, true);
        return Ok(true), str', target';
      }
      if buf[str'] == '\\' {
        var more;
        more, str' := ParseBackslash(buf, str');
        if !more {
          return Err(Continuation), str', target';
        }
        UnreadStep(buf, str');
      }
      str', target' := AddC(buf, str', from, target', before, Double, true);
    }
    UnreadEnd(buf, str');
    QuoteUnended();
    return Err(Parse), str', target';
  }

  datatype Stop = Go | AtEnd | AtSemicolon

  /** One turn of the argument loop: a quoted piece, an escaped character or a plain one. */
  method ParsePiece(buf: array<char>, str: nat, from: nat, target: nat, ghost before: Result<Token>)
    returns (r: Result<Stop>, str': nat, target': nat)
    requires Scanned(before, buf, from, target, str, Body, target < str)
    modifies buf
    ensures r.Err? ==> before == Err(r.error)
    ensures r.Ok? ==> buf[..from] == old(buf[..from]) && str' <= buf.Length
    ensures r == Ok(Go) ==> str < str' && Scanned(before, buf, from, target', str', After, target' < str')
    ensures r.Ok? && r.value != Go ==> str' == str && Scanned(before, buf, from, target', str', Body, target' < str')
    ensures r == Ok(AtEnd) ==> buf[str'] == '\0'
    ensures r == Ok(AtSemicolon) ==> buf[str'] == ';'
  {
    hide Scan, CStr, HasNul;
    str', target' := str, target;
    if buf[str] == '\0' {
      return Ok(AtEnd), str', target';
    }
    UnreadStep(buf, str);
    BodyStep(Unread(buf, str), target < str);
    if buf[str] == '\'' {
      var q;
      q, str', target' := ParseSingleQuote(buf, str, from, target, before);
      return if q.Ok? then Ok(Go) else Err(q.error), str', target';
    }
    if buf[str] == '"' {
      var q;
      q, str', target' := ParseDoubleQuote(buf, str, from, target, before);
      return if q.Ok? then Ok(Go) else Err(q.error), str', target';
    }
    if buf[str] == '#' {
      Comment(buf, str, from, target, before);
      return Ok(AtEnd), str', target';
    }
    if buf[str] == ';' {
      return Ok(AtSemicolon), str', target';
    }
    if buf[str] == '\\' {
      var more;
      more, str' := ParseBackslash(buf, str);
      if !more {
        return Err(Continuation), str', target';
      }
      UnreadStep(buf, str');
    }
    str', target' := AddC(buf, str', from, target', before, After, target' < str');
    return Ok(Go), str', target';
  }

  /** A comment ends the line where it starts. */
  method Comment(buf: array<char>, str: nat, from: nat, target: nat, ghost before: Result<Token>)
    requires Scanned(before, buf, from, target, str, Body, target < str) && buf[str] == '#'
    modifies buf
    ensures buf[..from] == old(buf[..from]) && buf[str] == '\0'
    ensures Scanned(before, buf, from, target, str, Body, target < str)
  {
    assert Unread(buf, str)[0] == '#';
    buf[str] := '\0';
    assert buf[from..target] == old(buf[from..target]);
  }

  /** An argument lies in the buffer between `from` and its terminator, and the read
      cursor has passed it: it is at most on the terminator itself. */
  predicate Argument(buf: array<char>, from: nat, end: nat, str: nat)
    reads buf
  {
    from <= end <= str && Readable(buf, str) && buf[end] == '\0' && '\0' !in buf[from..end]
  }

  /** Steps over the white space that ended an unquoted argument and terminates it. */
  method Finish(buf: array<char>, str: nat, from: nat, target: nat, next: bool, ghost mode: Mode,
                ghost before: Result<Token>)
    returns (str': nat)
    requires Scanned(before, buf, from, target, str, mode, target < str)
    requires if next then buf[str] == '\0' || (IsSpace(buf[str]) && mode == After) else buf[str] == ';' && mode == Body
    requires buf[str] == '\0' ==> mode == Body || mode == After
    modifies buf
    ensures before.Ok? && Argument(buf, from, target, str') && CStr(buf[from..]) == before.value.value
    ensures Unread(buf, str') == before.value.rest && str <= str'
    ensures buf[..from] == old(buf[..from])
  {
    hide Scan, CStr, HasNul, IsSpace;
    ghost var kept := buf[from..target];
    str' := str;
    UnreadEnd(buf, str);
    Ended(Unread(buf, str), mode, target < str);
    if buf[str] != '\0' {
      UnreadStep(buf, str);
      if next {
        str' := str + 1;
      }
    }
    assert kept + "" == kept;
    EndArgument(buf, str', from, target);
  }

  /** The terminator of an argument, perhaps over the character the read cursor is at. */
  method EndArgument(buf: array<char>, str: nat, from: nat, target: nat)
    requires from <= target <= str && Readable(buf, str) && '\0' !in buf[from..target]
    modifies buf
    ensures Argument(buf, from, target, str) && CStr(buf[from..]) == old(buf[from..target])
    ensures Unread(buf, str) == if target < str then old(Unread(buf, str)) else ""
    ensures buf[..from] == old(buf[..from])
  {
    hide CStr, HasNul;
    ghost var kept, rest := buf[from..target], buf[str..];
    buf[target] := '\0';
    assert buf[from..target] == kept;
    if target < str {
      assert buf[str..] == rest;
    } else {
      NulEnds(buf, target);
    }
    assert buf[from..][..target - from] == kept;
    CStrIs(buf[from..], target - from);
  }

  /** Parses one argument whose text starts at `str`; afterwards the argument is the C
      string at `from`, and the unread text is what the scanner leaves. */
  method ParseStr(buf: array<char>, str: nat, from: nat) returns (r: Result<bool>, str': nat, ghost end: nat)
    requires from <= str && Readable(buf, str)
    modifies buf
    ensures match Scan(old(Unread(buf, str)), Body, from < str)
            case Ok(t) =>
              && r.Ok? && Argument(buf, from, end, str') && CStr(buf[from..]) == t.value
              && Unread(buf, str') == t.rest && str <= str'
              && buf[..from] == old(buf[..from])
            case Err(x) => r == Err(x)
  {
    hide Scan, CStr, HasNul;
    ghost var before := Scan(Unread(buf, str), Body, from < str);
    assert buf[from..from] == [];
    PrependTwice("", "", before);
    str', end := str, from;
    var target: nat, next := from, true;
    ghost var mode := Body;
    while true
      invariant str <= str' && buf[..from] == old(buf[..from])
      invariant Scanned(before, buf, from, target, str', Body, target < str')
      decreases buf.Length - str'
    {
      var stop;
      stop, str', target := ParsePiece(buf, str', from, target, before);
      if stop.Err? {
        return Err(stop.error), str', end;
      }
      next := stop.value != AtSemicolon;
      mode := if stop.value == Go then After else Body;
      if stop.value != Go || buf[str'] == '\0' || IsSpace(buf[str']) {
        break;
      }
      UnreadStep(buf, str');
      AfterIsBody(Unread(buf, str'), target < str');
    }
    end := target;
    str' := Finish(buf, str', from, target, next, mode, before);
    return Ok(true), str', end;
  }

  /** Skips white space and parses one argument into the place it was read from. */
  method RawArgument(buf: array<char>, str: nat) returns (r: Result<nat>, str': nat, ghost end: nat)
    requires Readable(buf, str)
    modifies buf
    ensures match RawArg(old(Unread(buf, str)))
            case Ok(t) =>
              && r == Ok(str) && Argument(buf, str, end, str') && CStr(buf[str..]) == t.value
              && Unread(buf, str') == t.rest
              && buf[..str] == old(buf[..str])
            case Err(x) => r == Err(x)
  {
    end := str;
    var skipped, at := SkipWhitespace(buf, str);
    if skipped.Err? {
      return Err(skipped.error), at, end;
    }
    if buf[at] == ';' {
      end := at;
      str' := TerminateAtSemicolon(buf, str, at);
    } else {
      var parsed;
      parsed, str', end := ParseStr(buf, at, str);
      if parsed.Err? {
        return Err(parsed.error), str', end;
      }
    }
    return Ok(str), str', end;
  }

  /** Nothing before `str` changed, and a terminator at `str` is still one. */
  predicate Kept(before: seq<char>, after: seq<char>, str: nat) {
    |before| == |after| && str <= |before| && (forall i | 0 <= i < str :: before[i] == after[i])
    && (str < |before| && before[str] == '\0' ==> after[str] == '\0')
  }

  /** Extracts the next argument. It is the C string at the old cursor. */
  method NextArgument(buf: array<char>, str: nat, required: bool, name: bool)
    returns (r: Result<nat>, str': nat, ghost end: nat)
    requires Readable(buf, str)
    modifies buf
    ensures match NextArg(old(Unread(buf, str)), required, name)
            case Ok(t) =>
              && r == Ok(str) && Argument(buf, str, end, str') && CStr(buf[str..]) == t.value
              && Unread(buf, str') == t.rest && Readable(buf, str) && Kept(old(buf[..]), buf[..], str)
            case Err(x) => r == Err(x)
  {
    hide CStr, HasNul, RawArg;
    UnreadEnd(buf, str);
    EmptyArgument();
    ghost var before := buf[..];
    r, str', end := RawArgument(buf, str);
    if r.Err? {
      return;
    }
    ArgumentReadable(buf, str, end, str');
    assert forall i | 0 <= i < str :: before[i] == buf[i] by {
      assert forall i | 0 <= i < str :: before[i] == before[..str][i] && buf[i] == buf[..str][i];
    }
    if buf[str] == '\0' {
      return if required then Err(Parse) else r, str', end;
    }
    if name {
      var value := ReadString(buf, str);
      var ok := ValidateStr(value, true);
      if !ok {
        return Err(Parse), str', end;
      }
    }
  }

  /** A ';' in place of an argument: whatever white space was skipped becomes its value. */
  method TerminateAtSemicolon(buf: array<char>, str: nat, at: nat) returns (str': nat)
    requires Readable(buf, str) && str <= at && Readable(buf, at) && buf[at] == ';'
    requires |Unread(buf, str)| - |Unread(buf, at)| == at - str
    modifies buf
    ensures str' == at + 1 && Argument(buf, str, at, str') && buf[..str] == old(buf[..str])
    ensures CStr(buf[str..]) == old(Unread(buf, str))[..at - str]
    ensures Unread(buf, str') == old(Unread(buf, at))[1..]
  {
    CStrStep(buf[at..]);
    assert buf[at..][1..] == buf[at + 1..];
    CStrPrefix(buf[str..], at - str);
    assert buf[str..][..at - str] == buf[str..at];
    ghost var skipped, rest := buf[str..at], buf[at + 1..];
    buf[at] := '\0';
    str' := at + 1;
    assert buf[str..at] == skipped && buf[str'..] == rest && buf[str..][..at - str] == skipped;
    CStrIs(buf[str..], at - str);
  }

  lemma OneMoreRead(read: string, c: char, unread: string)
    requires unread != "" && unread[0] == c
    ensures read + unread == (read + [c]) + unread[1..]
  {
  }

  method ReadString(buf: array<char>, str: nat) returns (s: string)
    requires Readable(buf, str)
    ensures s == Unread(buf, str)
  {
    hide Unread;
    var end := str;
    while buf[end] != '\0'
      invariant str <= end && Readable(buf, end)
      invariant Unread(buf, str) == buf[str..end] + Unread(buf, end)
      decreases buf.Length - end
    {
      UnreadStep(buf, end);
      OneMoreRead(buf[str..end], buf[end], Unread(buf, end));
      assert buf[str..end + 1] == buf[str..end] + [buf[end]];
      end := end + 1;
    }
    UnreadEnd(buf, end);
    EmptyConcat(buf[str..end]);
    return buf[str..end];
  }

  /** The C strings at the given places are the given strings. */
  predicate Holds(buf: array<char>, places: seq<nat>, strings: seq<string>)
    reads buf
  {
    |places| == |strings| &&
    forall i | 0 <= i < |places| :: places[i] <= buf.Length && CStr(buf[places[i]..]) == strings[i]
  }

  lemma HoldsMore(buf: array<char>, place: nat, value: string, places: seq<nat>, strings: seq<string>)
    requires Holds(buf, places, strings) && place <= buf.Length && CStr(buf[place..]) == value
    ensures Holds(buf, [place] + places, [value] + strings)
  {
  }

  /** Successive calls on one line. At the end every argument is still the string its
      own call produced: no later call wrote over it. */
  method SuccessiveArguments(buf: array<char>, str: nat, count: nat) returns (r: Result<seq<nat>>, str': nat)
    requires Readable(buf, str)
    modifies buf
    ensures match RawArgs(old(Unread(buf, str)), count)
            case Ok(all) =>
              && r.Ok? && Holds(buf, r.value, all.0) && Readable(buf, str') && Unread(buf, str') == all.1
            case Err(x) => r == Err(x)
    ensures r.Ok? ==> Kept(old(buf[..]), buf[..], str)
    decreases count
  {
    hide CStr, HasNul, RawArg;
    if count == 0 {
      return Ok([]), str;
    }
    UnreadEnd(buf, str);
    EmptyArgument();
    var first, next;
    ghost var end;
    ghost var start := buf[..];
    first, next, end := RawArgument(buf, str);
    if first.Err? {
      return Err(first.error), next;
    }
    ArgumentReadable(buf, str, end, next);
    ghost var before, after := buf[..], Unread(buf, next);
    assert forall i | 0 <= i < str :: start[i] == buf[i] by {
      assert forall i | 0 <= i < str :: start[i] == start[..str][i] && buf[i] == buf[..str][i];
    }
    assert before[str..] == buf[str..];
    var rest;
    rest, str' := SuccessiveArguments(buf, next, count - 1);
    if rest.Err? {
      return rest, str';
    }
    r := Ok([str] + rest.value);
    ArgumentKept(before, buf[..], str, end, next);
    KeptBefore(before, buf[..], str, next);
    assert buf[..][str..] == buf[str..];
    HoldsMore(buf, str, CStr(before[str..]), rest.value, RawArgs(after, count - 1).value.0);
  }

  lemma EmptyArgument()
    ensures RawArg("") == Ok(Token("", ""))
  {
  }

  lemma ArgumentReadable(buf: array<char>, from: nat, end: nat, str: nat)
    requires Argument(buf, from, end, str)
    ensures Readable(buf, from) && (buf[from] == '\0' <==> CStr(buf[from..]) == "")
  {
    hide HasNul;
    assert buf[from..][..end - from] == buf[from..end] && buf[from..][end - from] == buf[end];
    CStrIs(buf[from..], end - from);
  }

  lemma ArgumentKept(before: seq<char>, after: seq<char>, from: nat, end: nat, next: nat)
    requires from <= end <= next && end < |before| && Kept(before, after, next)
    requires before[end] == '\0' && '\0' !in before[from..end]
    ensures CStr(after[from..]) == CStr(before[from..]) && HasNul(after[from..])
  {
    hide CStr, HasNul;
    assert before[from..][..end - from] == before[from..end];
    assert after[from..][..end - from] == before[from..end];
    CStrIs(before[from..], end - from);
    CStrIs(after[from..], end - from);
  }

  /** Nothing but a comment, a ';' or the end of the line may follow. */
  method CheckEol(buf: array<char>, str: nat) returns (r: Result<bool>, str': nat)
    requires Readable(buf, str)
    modifies buf
    ensures match AssertEol(old(Unread(buf, str)))
            case Ok(rest) => r.Ok? && Readable(buf, str') && Unread(buf, str') == rest
                             && Kept(old(buf[..]), buf[..], str)
            case Err(x) => r == Err(x)
  {
    var at;
    r, at := SkipWhitespace(buf, str);
    if r.Err? {
      return r, at;
    }
    var value;
    ghost var end;
    ghost var before := buf[..];
    value, str', end := NextArgument(buf, at, false, false);
    if value.Err? {
      return Err(value.error), str';
    }
    KeptBefore(before, buf[..], str, at);
    if buf[at] != '\0' {
      return Err(Parse), str';
    }
    return Ok(true), str';
  }

  lemma KeptBefore(before: seq<char>, after: seq<char>, str: nat, at: nat)
    requires str <= at && Kept(before, after, at)
    ensures Kept(before, after, str)
  {
  }

  /** The last argument of a command, read back once the end of the command is reached. */
  method LastArgument(buf: array<char>, str: nat, required: bool, name: bool) returns (value: string, r: Result<nat>)
    requires Readable(buf, str)
    modifies buf
    ensures match Last(old(Unread(buf, str)), required, name)
            case Ok(t) =>
              && r.Ok? && value == t.value && Readable(buf, r.value) && Unread(buf, r.value) == t.rest
              && Kept(old(buf[..]), buf[..], str)
            case Err(x) => r == Err(x)
  {
    value := "";
    var at, next, eol, rest;
    ghost var end;
    at, next, end := NextArgument(buf, str, required, name);
    if at.Err? {
      return value, Err(at.error);
    }
    ghost var before := buf[..];
    assert before[str..] == buf[str..];
    eol, rest := CheckEol(buf, next);
    if eol.Err? {
      return value, Err(eol.error);
    }
    ArgumentKept(before, buf[..], str, end, next);
    KeptBefore(before, buf[..], str, next);
    assert buf[..][str..] == buf[str..];
    value := ReadString(buf, str);
    return value, Ok(rest);
  }

  function Last(s: string, required: bool, name: bool): Result<Token> {
    var t :- NextArg(s, required, name);
    var rest :- AssertEol(t.rest);
    Ok(Token(t.value, rest))
  }
}
