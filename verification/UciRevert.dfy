/** Reverting: the journal is rewritten without the records of one section or option. */
module UciRevert {
  import opened UciText
  import opened UciTree
  import opened UciPackage
  import opened UciJournal
  import opened UciReplay

  predicate Selected(section: string, option: Maybe<string>, onSection: Maybe<string>, onOption: Maybe<string>) {
    (onSection.Some? ==> onSection.value == section) && (onOption.Some? ==> option == onOption)
  }

  /** What one line leaves in the list of kept lines. */
  function KeptLine(line: string, onSection: Maybe<string>, onOption: Maybe<string>): Result<seq<string>> {
    if line == "" then Ok([])
    else
      var u :- ParseTuple(line);
      Ok(if Selected(u.section, u.option, onSection, onOption) then [] else [line])
  }

  function After(kept: seq<string>, rest: Result<seq<string>>): Result<seq<string>> {
    match rest
    case Ok(lines) => Ok(kept + lines)
    case Err(x) => Err(x)
  }

  /** The lines kept, or an error when a nonblank line does not parse. */
  function KeptLines(lines: seq<string>, onSection: Maybe<string>, onOption: Maybe<string>): Result<seq<string>>
    decreases |lines|
  {
    if lines == [] then Ok([])
    else
      var first :- KeptLine(lines[0], onSection, onOption);
      After(first, KeptLines(lines[1..], onSection, onOption))
  }

  lemma AfterTwice(a: seq<string>, b: seq<string>, rest: Result<seq<string>>)
    ensures After(a, After(b, rest)) == After(a + b, rest)
    ensures After([], rest) == rest
  {
    if rest.Ok? {
      Assoc(a, b, rest.value);
      assert [] + rest.value == rest.value;
    }
  }

  /** The journal after filtering: a line that does not parse aborts the rewrite. */
  function Filter(journal: string, onSection: Maybe<string>, onOption: Maybe<string>): string {
    match KeptLines(SplitLines(journal), onSection, onOption)
    case Ok(kept) => Unlines(kept)
    case Err(_) => journal
  }

  /** Collects the lines that stay, giving up at the first that does not parse. */
  method CollectKept(lines: seq<string>, onSection: Maybe<string>, onOption: Maybe<string>)
    returns (r: Result<seq<string>>)
    ensures r == KeptLines(lines, onSection, onOption)
  {
    var kept: seq<string> := [];
    AfterTwice([], [], KeptLines(lines, onSection, onOption));
    for i := 0 to |lines|
      invariant KeptLines(lines, onSection, onOption) == After(kept, KeptLines(lines[i..], onSection, onOption))
    {
      var line := lines[i];
      ghost var before, rest := kept, KeptLines(lines[i + 1..], onSection, onOption);
      assert lines[i..][0] == line && lines[i..][1..] == lines[i + 1..];
      if line != "" {
        // the line joins the list first and leaves it again on a match
        kept := kept + [line];
        var u := ParseTuple(line);
        if u.Err? {
          return Err(u.error);
        }
        if !(onSection.Some? && u.value.section != onSection.value)
          && !(onOption.Some? && u.value.option != onOption)
        {
          kept := kept[..|kept| - 1];
        }
      }
      AfterTwice(before, KeptLine(line, onSection, onOption).value, rest);
      assert before + [] == before && (before + [line])[..|before|] == before;
    }
    assert kept + [] == kept;
    return Ok(kept);
  }

  method FilterHistory(journal: string, onSection: Maybe<string>, onOption: Maybe<string>) returns (journal': string)
    ensures journal' == Filter(journal, onSection, onOption)
  {
    var r := CollectKept(SplitLines(journal), onSection, onOption);
    if r.Err? {
      return journal;
    }
    var kept := r.value;
    journal' := "";
    for i := 0 to |kept|
      invariant journal' + Unlines(kept[i..]) == Unlines(kept)
    {
      Assoc(journal', kept[i] + "\n", Unlines(kept[i + 1..]));
      journal' := journal' + (kept[i] + "\n");
    }
    assert journal' + "" == journal';
  }

  function KeptRecord(r: Record, onSection: Maybe<string>, onOption: Maybe<string>): seq<Record> {
    if Selected(r.section, r.option, onSection, onOption) then [] else [r]
  }

  function Remaining(rs: seq<Record>, onSection: Maybe<string>, onOption: Maybe<string>): seq<Record> {
    if rs == [] then [] else KeptRecord(rs[0], onSection, onOption) + Remaining(rs[1..], onSection, onOption)
  }

  lemma {:induction false} KeptRecords(name: string, rs: seq<Record>, onSection: Maybe<string>, onOption: Maybe<string>)
    requires PlainPackage(name) && forall r | r in rs :: RecordOk(r)
    ensures forall l | l in PrintRecords(name, rs) :: NewlineFree(l)
    ensures KeptLines(PrintRecords(name, rs) + [""], onSection, onOption)
         == Ok(PrintRecords(name, Remaining(rs, onSection, onOption)))
  {
    hide PrintRecord, KeptLine, PlainPackage, RecordOk, ParseTuple, NewlineFree;
    var lines := PrintRecords(name, rs) + [""];
    if rs == [] {
      assert lines == [""];
      NoneKept(onSection, onOption);
    } else {
      PrintParse(name, rs[0]);
      var tail := PrintRecords(name, rs[1..]) + [""];
      assert lines[0] == PrintRecord(name, rs[0]) && lines[1..] == tail;
      KeptRecords(name, rs[1..], onSection, onOption);
      var rest := Remaining(rs[1..], onSection, onOption);
      KeptOne(name, rs[0], onSection, onOption);
      PrintRecordsConcat(name, KeptRecord(rs[0], onSection, onOption), rest);
      assert Remaining(rs, onSection, onOption) == KeptRecord(rs[0], onSection, onOption) + rest;
    }
  }

  lemma NoneKept(onSection: Maybe<string>, onOption: Maybe<string>)
    ensures KeptLines([""], onSection, onOption) == Ok([])
  {
    assert [""][1..] == [];
    AfterTwice([], [], KeptLines([], onSection, onOption));
  }

  lemma KeptOne(name: string, r: Record, onSection: Maybe<string>, onOption: Maybe<string>)
    requires PlainPackage(name) && RecordOk(r)
    ensures KeptLine(PrintRecord(name, r), onSection, onOption)
         == Ok(PrintRecords(name, KeptRecord(r, onSection, onOption)))
  {
    PrintParse(name, r);
    OneRecord(name, State([], 0), r);
  }

  /** Filtering a saved journal leaves exactly the records not selected, in order. */
  lemma FilterKeepsRemaining(name: string, rs: seq<Record>, onSection: Maybe<string>, onOption: Maybe<string>)
    requires PlainPackage(name) && forall r | r in rs :: RecordOk(r)
    ensures Filter(JournalText(name, rs), onSection, onOption) == JournalText(name, Remaining(rs, onSection, onOption))
  {
    KeptRecords(name, rs, onSection, onOption);
    var lines := PrintRecords(name, rs);
    SplitUnlines(lines, "");
    assert Unlines(lines) + "" == Unlines(lines) && SplitLines("") == [""];
  }

  predicate AllParse(lines: seq<string>) {
    forall l | l in lines && l != "" :: ParseTuple(l).Ok?
  }

  lemma {:induction false} KeptAll(lines: seq<string>)
    ensures KeptLines(lines, None, None).Ok? <==> AllParse(lines)
    ensures AllParse(lines) ==> KeptLines(lines, None, None) == Ok([])
    decreases |lines|
  {
    if lines != [] {
      KeptAll(lines[1..]);
      assert lines == [lines[0]] + lines[1..];
      AfterTwice([], [], KeptLines(lines[1..], None, None));
    }
  }

  /** Reverting a whole package empties a nonempty journal exactly when every line of
      it parses; otherwise the journal stays as it was. */
  lemma RevertAll(journal: string)
    ensures AllParse(SplitLines(journal)) ==> Filter(journal, None, None) == ""
    ensures !AllParse(SplitLines(journal)) ==> Filter(journal, None, None) == journal
  {
    KeptAll(SplitLines(journal));
  }

  /** When a saved journal does not parse: the journal of a package whose name has a dot
      parses only while it holds no record about an option. */
  lemma {:induction false} DottedLines(a: string, b: string, rs: seq<Record>)
    requires PlainPackage(a) && ValidName(b) && forall r | r in rs :: RecordOk(r)
    ensures forall l | l in PrintRecords(a + "." + b, rs) :: NewlineFree(l)
    ensures AllParse(PrintRecords(a + "." + b, rs)) <==> forall r | r in rs :: r.option.None?
  {
    hide PlainPackage, RecordOk, ValidName, ParseTuple, NewlineFree;
    if rs != [] {
      var package, r, rest := a + "." + b, rs[0], PrintRecords(a + "." + b, rs[1..]);
      DottedLines(a, b, rs[1..]);
      DottedLine(a, b, r);
      assert rs == [r] + rs[1..];
      assert PrintRecords(package, rs) == [PrintRecord(package, r)] + rest;
    }
  }

  lemma DottedLine(a: string, b: string, r: Record)
    requires PlainPackage(a) && ValidName(b) && RecordOk(r)
    ensures var line := PrintRecord(a + "." + b, r);
      NewlineFree(line) && line != "" && (ParseTuple(line).Ok? <==> r.option.None?)
  {
    hide ParseTuple;
    PrintedNewlineFree(a + "." + b, r);
    if r.option.None? {
      DottedPackageMisread(a, b, r);
    } else {
      DottedOptionRefused(a, b, r);
    }
    assert a + "." + b != "";
  }

  /** So every revert leaves a saved journal of such a package as it was from the first
      record about an option on. */
  lemma DottedJournalStays(a: string, b: string, rs: seq<Record>, onSection: Maybe<string>, onOption: Maybe<string>)
    requires PlainPackage(a) && ValidName(b) && forall r | r in rs :: RecordOk(r)
    ensures var journal := JournalText(a + "." + b, rs);
      && (AllParse(SplitLines(journal)) <==> forall r | r in rs :: r.option.None?)
      && ((exists r | r in rs :: r.option.Some?) ==> Filter(journal, onSection, onOption) == journal)
  {
    hide PlainPackage, RecordOk, ValidName, ParseTuple, NewlineFree;
    var lines := PrintRecords(a + "." + b, rs);
    DottedLines(a, b, rs);
    SplitUnlines(lines, "");
    EmptyConcat(Unlines(lines));
    assert SplitLines("") == [""];
    KeptUnselected(lines + [""], onSection, onOption);
  }

  // ---------- a revert replays the rest ----------

  predicate SelectedLine(line: string, onSection: Maybe<string>, onOption: Maybe<string>) {
    ParseTuple(line).Ok? &&
    Selected(ParseTuple(line).value.section, ParseTuple(line).value.option, onSection, onOption)
  }

  /** The nonblank lines that are not selected, in order. */
  function Unselected(lines: seq<string>, onSection: Maybe<string>, onOption: Maybe<string>): (left: seq<string>)
    ensures forall l | l in left :: l in lines && !SelectedLine(l, onSection, onOption)
  {
    if lines == [] then []
    else
      var rest := Unselected(lines[1..], onSection, onOption);
      if lines[0] == "" || SelectedLine(lines[0], onSection, onOption) then rest else [lines[0]] + rest
  }

  lemma {:induction false} KeptUnselected(lines: seq<string>, onSection: Maybe<string>, onOption: Maybe<string>)
    ensures KeptLines(lines, onSection, onOption).Ok? <==> AllParse(lines)
    ensures AllParse(lines) ==> KeptLines(lines, onSection, onOption) == Ok(Unselected(lines, onSection, onOption))
    decreases |lines|
  {
    if lines != [] {
      hide AllParse, KeptLine, SelectedLine;
      KeptUnselected(lines[1..], onSection, onOption);
      ParseFirst(lines);
      FirstUnselected(lines[0], onSection, onOption);
      AfterTwice([], [], KeptLines(lines[1..], onSection, onOption));
    }
  }

  lemma ParseFirst(lines: seq<string>)
    requires lines != []
    ensures AllParse(lines) <==> (lines[0] == "" || ParseTuple(lines[0]).Ok?) && AllParse(lines[1..])
  {
    hide ParseTuple;
    assert lines == [lines[0]] + lines[1..];
  }

  lemma FirstUnselected(line: string, onSection: Maybe<string>, onOption: Maybe<string>)
    ensures KeptLine(line, onSection, onOption).Ok? <==> line == "" || ParseTuple(line).Ok?
    ensures line == "" || ParseTuple(line).Ok? ==>
      KeptLine(line, onSection, onOption)
      == Ok(if line == "" || SelectedLine(line, onSection, onOption) then [] else [line])
  {
    hide ParseTuple, Selected;
  }

  // ---------- what exactly is left ----------

  /** Positions in a sequence of the length, in rising order. */
  predicate Rising(places: seq<nat>, length: nat) {
    && (forall i | 0 <= i < |places| :: places[i] < length)
    && (forall i, j | 0 <= i < j < |places| :: places[i] < places[j])
  }

  function Later(places: seq<nat>): (r: seq<nat>)
    ensures |r| == |places| && forall i | 0 <= i < |r| :: r[i] == places[i] + 1
  {
    if places == [] then [] else [places[0] + 1] + Later(places[1..])
  }

  lemma LaterRises(places: seq<nat>, length: nat)
    requires Rising(places, length)
    ensures Rising(Later(places), length + 1) && Rising([0] + Later(places), length + 1)
  {
  }

  predicate InOrder<T(==)>(places: seq<nat>, s: seq<T>, left: seq<T>) {
    |places| == |left| && forall i | 0 <= i < |places| :: places[i] < |s| && left[i] == s[places[i]]
  }

  /** At these places of a sequence, and nowhere else, are the elements that stay, and they
      are what is left, in their order. */
  predicate Picks<T(==)>(places: seq<nat>, s: seq<T>, left: seq<T>, stays: T -> bool) {
    && Rising(places, |s|) && |places| == |left| && InOrder(places, s, left)
    && forall k: nat | k < |s| :: k in places <==> stays(s[k])
  }

  lemma LaterHas(places: seq<nat>, k: nat)
    ensures k in Later(places) <==> k > 0 && k - 1 in places
    ensures k in [0] + Later(places) <==> k == 0 || k - 1 in places
  {
    hide Later;
    if k > 0 && k - 1 in places {
      var i :| 0 <= i < |places| && places[i] == k - 1;
      assert Later(places)[i] == k;
    }
  }

  lemma PicksMore<T>(places: seq<nat>, s: seq<T>, left: seq<T>, stays: T -> bool)
    requires s != [] && Picks(places, s[1..], left, stays)
    ensures stays(s[0]) ==> Picks([0] + Later(places), s, [s[0]] + left, stays)
    ensures !stays(s[0]) ==> Picks(Later(places), s, left, stays)
  {
    hide Picks;
    PicksParts(places, s[1..], left, stays);
    LaterRises(places, |s| - 1);
    PlacesLater(places, s, left, stays);
    if stays(s[0]) {
      PicksWhole([0] + Later(places), s, [s[0]] + left, stays);
    } else {
      PicksWhole(Later(places), s, left, stays);
    }
  }

  lemma PicksParts<T>(places: seq<nat>, s: seq<T>, left: seq<T>, stays: T -> bool)
    requires Picks(places, s, left, stays)
    ensures Rising(places, |s|) && |places| == |left| && InOrder(places, s, left)
    ensures forall k: nat | k < |s| :: k in places <==> stays(s[k])
  {
  }

  lemma PicksWhole<T>(places: seq<nat>, s: seq<T>, left: seq<T>, stays: T -> bool)
    requires Rising(places, |s|) && |places| == |left| && InOrder(places, s, left)
    requires forall k: nat | k < |s| :: k in places <==> stays(s[k])
    ensures Picks(places, s, left, stays)
  {
  }

  lemma PlacesLater<T>(places: seq<nat>, s: seq<T>, left: seq<T>, stays: T -> bool)
    requires s != [] && Rising(places, |s| - 1) && |places| == |left| && InOrder(places, s[1..], left)
    requires forall k: nat | k < |s| - 1 :: k in places <==> stays(s[1..][k])
    ensures InOrder(Later(places), s, left) && InOrder([0] + Later(places), s, [s[0]] + left)
    ensures forall k: nat | k < |s| ::
      (k in [0] + Later(places) <==> k == 0 || stays(s[k])) && (k in Later(places) <==> k > 0 && stays(s[k]))
  {
    hide Later, Rising;
    forall k: nat | k < |s|
      ensures k in [0] + Later(places) <==> k == 0 || stays(s[k])
      ensures k in Later(places) <==> k > 0 && stays(s[k])
    {
      LaterHas(places, k);
      assert k > 0 ==> s[1..][k - 1] == s[k];
    }
    OrderLater(places, s, left);
  }

  lemma OrderLater<T>(places: seq<nat>, s: seq<T>, left: seq<T>)
    requires s != [] && |places| == |left| && InOrder(places, s[1..], left)
    ensures InOrder(Later(places), s, left) && InOrder([0] + Later(places), s, [s[0]] + left)
  {
    hide Later;
  }

  function LineStays(onSection: Maybe<string>, onOption: Maybe<string>): string -> bool {
    (line: string) =>
      line != "" &&
      match ParseTuple(line)
      case Err(_) => true
      case Ok(u) => (onSection.Some? && u.section != onSection.value) || (onOption.Some? && u.option != onOption)
  }

  function RecordStays(onSection: Maybe<string>, onOption: Maybe<string>): Record -> bool {
    (r: Record) => (onSection.Some? && r.section != onSection.value) || (onOption.Some? && r.option != onOption)
  }

  /** Of the lines exactly those are left, in their order, that are not blank and say
      something of another section or another option than the ones given. */
  lemma {:induction false} UnselectedExactly(lines: seq<string>, onSection: Maybe<string>, onOption: Maybe<string>)
    returns (places: seq<nat>)
    ensures Picks(places, lines, Unselected(lines, onSection, onOption), LineStays(onSection, onOption))
  {
    hide ParseTuple, Picks;
    places := [];
    if lines == [] {
      NothingPicked(LineStays(onSection, onOption));
    } else {
      var rest := UnselectedExactly(lines[1..], onSection, onOption);
      PicksMore(rest, lines, Unselected(lines[1..], onSection, onOption), LineStays(onSection, onOption));
      places := if LineStays(onSection, onOption)(lines[0]) then [0] + Later(rest) else Later(rest);
    }
  }

  lemma NothingPicked<T>(stays: T -> bool)
    ensures Picks([], [], [], stays)
  {
  }

  /** The same of records. */
  lemma {:induction false} RemainingExactly(rs: seq<Record>, onSection: Maybe<string>, onOption: Maybe<string>)
    returns (places: seq<nat>)
    ensures Picks(places, rs, Remaining(rs, onSection, onOption), RecordStays(onSection, onOption))
  {
    hide Picks;
    places := [];
    if rs == [] {
      NothingPicked(RecordStays(onSection, onOption));
    } else {
      var rest := RemainingExactly(rs[1..], onSection, onOption);
      PicksMore(rest, rs, Remaining(rs[1..], onSection, onOption), RecordStays(onSection, onOption));
      places := if RecordStays(onSection, onOption)(rs[0]) then [0] + Later(rest) else Later(rest);
      EmptyConcat(Remaining(rs[1..], onSection, onOption));
    }
  }

  /** The journal after a revert is the text of the lines left, if all of it parses. */
  lemma FilterExactly(journal: string, onSection: Maybe<string>, onOption: Maybe<string>)
    ensures var lines := SplitLines(journal);
      if forall l | l in lines && l != "" :: ParseTuple(l).Ok? then
        && Filter(journal, onSection, onOption) == Unlines(Unselected(lines, onSection, onOption))
        && SplitLines(Filter(journal, onSection, onOption)) == Unselected(lines, onSection, onOption) + [""]
      else Filter(journal, onSection, onOption) == journal
  {
    hide ParseTuple;
    var left := Unselected(SplitLines(journal), onSection, onOption);
    KeptUnselected(SplitLines(journal), onSection, onOption);
    SplitUnlines(left, "");
    EmptyConcat(Unlines(left));
    assert SplitLines("") == [""];
  }

  /** After a revert a reader sees the replay of exactly the lines that are not selected,
      in their order, if every line of the journal parses; otherwise nothing is reverted. */
  lemma RevertReplays(name: string, st: State, journal: string, onSection: Maybe<string>, onOption: Maybe<string>)
    ensures Replay(name, st, Filter(journal, onSection, onOption))
         == if AllParse(SplitLines(journal))
            then ReplayLines(name, st, Unselected(SplitLines(journal), onSection, onOption))
            else Replay(name, st, journal)
  {
    var lines := SplitLines(journal);
    KeptUnselected(lines, onSection, onOption);
    if AllParse(lines) {
      ReplayText(name, st, Unselected(lines, onSection, onOption));
    }
  }

  /** A saved journal parses, so reverting leaves the replay of exactly the records not
      selected. */
  lemma SavedRevertReplays(name: string, st: State, rs: seq<Record>, onSection: Maybe<string>, onOption: Maybe<string>)
    requires PlainPackage(name) && forall r | r in rs :: RecordOk(r)
    ensures AllParse(SplitLines(JournalText(name, rs)))
    ensures Replay(name, st, Filter(JournalText(name, rs), onSection, onOption))
         == ReplayLines(name, st, PrintRecords(name, Remaining(rs, onSection, onOption)))
  {
    var lines, left := PrintRecords(name, rs), Remaining(rs, onSection, onOption);
    SavedLines(name, rs, onSection, onOption);
    SplitUnlines(lines, "");
    assert Unlines(lines) + "" == Unlines(lines) && SplitLines("") == [""];
    FilterKeepsRemaining(name, rs, onSection, onOption);
    RemainingAmong(rs, onSection, onOption);
    SavedLines(name, left, onSection, onOption);
    ReplayText(name, st, PrintRecords(name, left));
  }

  lemma {:induction false} UnselectedConcat(a: seq<string>, b: seq<string>, onSection: Maybe<string>,
                                            onOption: Maybe<string>)
    ensures Unselected(a + b, onSection, onOption)
         == Unselected(a, onSection, onOption) + Unselected(b, onSection, onOption)
  {
    hide SelectedLine;
    if a == [] {
      EmptyConcat(b);
      EmptyConcat(Unselected(b, onSection, onOption));
    } else {
      UnselectedConcat(a[1..], b, onSection, onOption);
      assert (a + b)[1..] == a[1..] + b;
      Assoc([a[0]], Unselected(a[1..], onSection, onOption), Unselected(b, onSection, onOption));
    }
  }

  /** The lines of a saved journal parse, and those not selected are the records that remain. */
  lemma SavedLines(name: string, rs: seq<Record>, onSection: Maybe<string>, onOption: Maybe<string>)
    requires PlainPackage(name) && forall r | r in rs :: RecordOk(r)
    ensures forall l | l in PrintRecords(name, rs) :: NewlineFree(l)
    ensures var lines := PrintRecords(name, rs) + [""];
      && AllParse(lines)
      && Unselected(lines, onSection, onOption) == PrintRecords(name, Remaining(rs, onSection, onOption))
  {
    KeptRecords(name, rs, onSection, onOption);
    KeptUnselected(PrintRecords(name, rs) + [""], onSection, onOption);
  }

  lemma RemainingAmong(rs: seq<Record>, onSection: Maybe<string>, onOption: Maybe<string>)
    ensures forall r | r in Remaining(rs, onSection, onOption) :: r in rs
  {
  }

  // ---------- watching one thing over a replay ----------

  function OrElse<X>(a: Maybe<X>, b: X): X {
    if a.Some? then a.value else b
  }

  /** What the last line that changes a thing makes of it; None when no line does. */
  function LastChange<X>(name: string, st: State, lines: seq<string>, change: (State, string) -> Maybe<X>): Maybe<X>
    decreases |lines|
  {
    if lines == [] then None
    else
      var later := LastChange(name, ReplayStep(name, st, lines[0]), lines[1..], change);
      if later.Some? then later else change(st, lines[0])
  }

  /** `change` says of every line what replaying it makes of the thing `see` looks at. */
  ghost predicate Tells<X(!new)>(name: string, lines: seq<string>, see: State -> X,
                                 change: (State, string) -> Maybe<X>) {
    forall st: State, line | line in lines :: see(ReplayStep(name, st, line)) == OrElse(change(st, line), see(st))
  }

  lemma {:induction false} SeenAfter<X(!new)>(name: string, st: State, lines: seq<string>,
                                              see: State -> X, change: (State, string) -> Maybe<X>)
    requires Tells(name, lines, see, change)
    ensures see(ReplayLines(name, st, lines)) == OrElse(LastChange(name, st, lines, change), see(st))
    decreases |lines|
  {
    if lines != [] {
      hide ReplayStep;
      assert lines[0] in lines && forall l | l in lines[1..] :: l in lines;
      SeenAfter(name, ReplayStep(name, st, lines[0]), lines[1..], see, change);
    }
  }

  // ---------- a reverted section ----------

  /** A rename that applies to a section standing before the first one of the new name
      puts it in that one's place. */
  predicate Takes(t: Tree, e: Edit, section: string) {
    e.RenameTo? && e.option.None? && e.newName == section && FindSection(t, e.section) < FindSection(t, section)
  }

  function SectionTaken(t: Tree, e: Edit, section: string): Maybe<Maybe<Section>> {
    if Takes(t, e, section) then
      var k := FindSection(t, e.section);
      Some(Some(t[k].(name := section, anonymous := false)))
    else None
  }

  /** The edit a line asks for when it is one for the package. */
  function LineEdit(name: string, line: string): Maybe<Edit> {
    if line == "" then None
    else match ParseTuple(line)
      case Ok(u) => if u.package == name && EditOf(u).Ok? then Some(EditOf(u).value) else None
      case Err(_) => None
  }

  function SectionChange(name: string, section: string): (State, string) -> Maybe<Maybe<Section>> {
    (st: State, line: string) =>
      if LineEdit(name, line).Some? then SectionTaken(st.tree, LineEdit(name, line).value, section) else None
  }

  function LookupIn(section: string): State -> Maybe<Section> {
    (st: State) => Lookup(st.tree, section)
  }

  lemma LookupUpdated(t: Tree, k: nat, s: Section, name: string)
    requires k < |t| && t[k].name != name
    ensures Lookup(t[k := s], name) == if s.name == name && k < FindSection(t, name) then Some(s) else Lookup(t, name)
  {
    var j := FindSection(t, name);
    FoundSection(t[k := s], name, if s.name == name && k < j then k else j);
  }

  lemma LookupWithout(t: Tree, k: nat, name: string)
    requires k < |t| && t[k].name != name
    ensures Lookup(Without(t, k), name) == Lookup(t, name)
  {
    var j := FindSection(t, name);
    FoundSection(Without(t, k), name, if j > k then j - 1 else j);
  }

  lemma LookupAppended(t: Tree, s: Section, name: string)
    requires s.name != name
    ensures Lookup(t + [s], name) == Lookup(t, name)
  {
    var j := FindSection(t, name);
    FoundSection(t + [s], name, if j == |t| then j + 1 else j);
  }

  lemma PerformElsewhere(st: State, e: Edit, name: string)
    requires !e.AddSection? && e.section != name && Perform(st, e).Ok?
    ensures Lookup(Perform(st, e).value.state.tree, name)
         == OrElse(SectionTaken(st.tree, e, name), Lookup(st.tree, name))
  {
    var t, t' := st.tree, Perform(st, e).value.state.tree;
    var k := FindSection(t, e.section);
    if k == |t| {
      LookupAppended(t, t'[k], name);
    } else if e.Delete? && e.option.None? {
      LookupWithout(t, k, name);
    } else {
      LookupUpdated(t, k, t'[k], name);
    }
  }

  /** A line about another section changes what the name finds only by taking the name. */
  lemma StepElsewhere(name: string, st: State, line: string, section: string)
    requires !SelectedLine(line, Some(section), None)
    ensures Lookup(ReplayStep(name, st, line).tree, section)
         == OrElse(SectionChange(name, section)(st, line), Lookup(st.tree, section))
  {
    hide Perform, Lookup, SectionTaken, MarkAnonymous, ParseTuple;
    if LineEdit(name, line).Some? {
      var u := ParseTuple(line).value;
      var e := EditOf(u).value;
      if Perform(st, e).Ok? {
        PerformElsewhere(st, e, section);
        MarkElsewhere(Perform(st, e).value.state.tree, u.section, section);
      } else {
        RefusedTakesNoSection(st, e, section);
      }
    }
  }

  lemma MarkElsewhere(t: Tree, marked: string, section: string)
    requires marked != section
    ensures Lookup(MarkAnonymous(t, marked), section) == Lookup(t, section)
  {
    var k := FindSection(t, marked);
    if k < |t| {
      LookupUpdated(t, k, t[k].(anonymous := true), section);
    }
  }

  lemma RefusedTakesNoSection(st: State, e: Edit, section: string)
    requires !e.AddSection? && Perform(st, e).Err?
    ensures SectionTaken(st.tree, e, section) == None
  {
  }

  /** What looking a section up finds after it was reverted and the package reloaded: the
      section that last took its name, or else what the configuration file holds. */
  lemma RevertShows(name: string, st: State, journal: string, section: string)
    requires AllParse(SplitLines(journal))
    ensures Lookup(Replay(name, st, Filter(journal, Some(section), None)).tree, section)
         == OrElse(LastChange(name, st, Unselected(SplitLines(journal), Some(section), None),
                              SectionChange(name, section)),
                   Lookup(st.tree, section))
  {
    var left := Unselected(SplitLines(journal), Some(section), None);
    forall s: State, line | line in left
      ensures LookupIn(section)(ReplayStep(name, s, line))
           == OrElse(SectionChange(name, section)(s, line), LookupIn(section)(s))
    {
      StepElsewhere(name, s, line, section);
    }
    SeenAfter(name, st, left, LookupIn(section), SectionChange(name, section));
    RevertReplays(name, st, journal, Some(section), None);
  }

  /** A reverted section is what the file holds exactly when no remaining rename takes its
      name, or the last that does brings an equal section. */
  lemma RevertRestoresExactly(name: string, st: State, journal: string, section: string)
    requires AllParse(SplitLines(journal))
    ensures Lookup(Replay(name, st, Filter(journal, Some(section), None)).tree, section) == Lookup(st.tree, section)
       <==> var last := LastChange(name, st, Unselected(SplitLines(journal), Some(section), None),
                                   SectionChange(name, section));
            last == None || last == Some(Lookup(st.tree, section))
  {
    RevertShows(name, st, journal, section);
  }

  lemma {:induction false} NothingChanges<X>(name: string, st: State, lines: seq<string>,
                                             change: (State, string) -> Maybe<X>)
    requires forall s: State, l | l in lines :: change(s, l) == None
    ensures LastChange(name, st, lines, change) == None
    decreases |lines|
  {
    if lines != [] {
      assert lines[0] in lines && forall l | l in lines[1..] :: l in lines;
      NothingChanges(name, ReplayStep(name, st, lines[0]), lines[1..], change);
    }
  }

  /** The line gives the name to a section, whatever it meets. */
  predicate GivesName(name: string, line: string, section: string) {
    LineEdit(name, line).Some? &&
    var e := LineEdit(name, line).value;
    e.RenameTo? && e.option.None? && e.newName == section
  }

  /** What the lines alone tell: a journal without such a line brings the section back. */
  lemma RevertRestores(name: string, st: State, journal: string, section: string)
    requires AllParse(SplitLines(journal))
    requires forall l | l in Unselected(SplitLines(journal), Some(section), None) :: !GivesName(name, l, section)
    ensures Lookup(Replay(name, st, Filter(journal, Some(section), None)).tree, section) == Lookup(st.tree, section)
  {
    hide ReplayStep, ParseTuple;
    var left := Unselected(SplitLines(journal), Some(section), None);
    NothingChanges(name, st, left, SectionChange(name, section));
    RevertShows(name, st, journal, section);
  }

  predicate RenamesTo(t: Tree, e: Edit, section: string) {
    e.RenameTo? && e.option.None? && e.newName == section && HasSection(t, e.section)
  }

  /** No line gives the name to a section that exists as the line is replayed. */
  predicate NoneRenamedTo(name: string, st: State, lines: seq<string>, section: string)
    decreases |lines|
  {
    lines == [] ||
    (!(LineEdit(name, lines[0]).Some? && RenamesTo(st.tree, LineEdit(name, lines[0]).value, section))
     && NoneRenamedTo(name, ReplayStep(name, st, lines[0]), lines[1..], section))
  }

  lemma {:induction false} NothingTaken(name: string, st: State, lines: seq<string>, section: string)
    requires !HasSection(st.tree, section) && forall l | l in lines :: !SelectedLine(l, Some(section), None)
    ensures LastChange(name, st, lines, SectionChange(name, section)) == None
         <==> NoneRenamedTo(name, st, lines, section)
    ensures forall t | LastChange(name, st, lines, SectionChange(name, section)) == Some(t) :: t.Some?
    decreases |lines|
  {
    if lines != [] {
      assert lines[0] in lines && forall l | l in lines[1..] :: l in lines;
      StepElsewhere(name, st, lines[0], section);
      if SectionChange(name, section)(st, lines[0]).None? {
        NothingTaken(name, ReplayStep(name, st, lines[0]), lines[1..], section);
      } else {
        TakenIsThere(name, ReplayStep(name, st, lines[0]), lines[1..], section);
      }
    }
  }

  lemma {:induction false} TakenIsThere(name: string, st: State, lines: seq<string>, section: string)
    ensures forall t | LastChange(name, st, lines, SectionChange(name, section)) == Some(t) :: t.Some?
    decreases |lines|
  {
    if lines != [] {
      TakenIsThere(name, ReplayStep(name, st, lines[0]), lines[1..], section);
    }
  }

  /** A section the file lacks is gone after its revert exactly when no remaining rename
      to its name applies. */
  lemma RevertRemovesExactly(name: string, st: State, journal: string, section: string)
    requires AllParse(SplitLines(journal)) && !HasSection(st.tree, section)
    ensures !HasSection(Replay(name, st, Filter(journal, Some(section), None)).tree, section)
       <==> NoneRenamedTo(name, st, Unselected(SplitLines(journal), Some(section), None), section)
  {
    var left := Unselected(SplitLines(journal), Some(section), None);
    RevertShows(name, st, journal, section);
    NothingTaken(name, st, left, section);
  }

  /** How many sections have the name. */
  function Named(t: Tree, name: string): nat {
    if t == [] then 0 else (if t[0].name == name then 1 else 0) + Named(t[1..], name)
  }

  lemma {:induction false} NamedConcat(a: Tree, b: Tree, name: string)
    ensures Named(a + b, name) == Named(a, name) + Named(b, name)
  {
    if a == [] {
      EmptyConcat(b);
    } else {
      assert (a + b)[1..] == a[1..] + b;
      NamedConcat(a[1..], b, name);
    }
  }

  lemma NamedAround(t: Tree, k: nat, s: Section, name: string)
    requires k < |t|
    ensures Named(t[k := s], name) <= Named(Without(t, k), name) + 1
    ensures Named(t, name) <= Named(Without(t, k), name) + 1
    ensures Named(Without(t, k), name) <= Named(t[k := s], name)
    ensures s.name == t[k].name ==> Named(t[k := s], name) == Named(t, name)
  {
    var a, b := t[..k], t[k + 1..];
    assert t == a + ([t[k]] + b) && t[k := s] == a + ([s] + b);
    NamedConcat(a, b, name);
    NamedConcat(a, [t[k]] + b, name);
    NamedConcat(a, [s] + b, name);
    assert ([t[k]] + b)[1..] == b && ([s] + b)[1..] == b;
  }

  /** No line takes the name from more than one section. */
  lemma StepKeepsNamed(name: string, st: State, line: string, x: string)
    ensures Named(st.tree, x) <= Named(ReplayStep(name, st, line).tree, x) + 1
  {
    hide Named, Without, ParseTuple, Perform;
    if LineEdit(name, line).Some? {
      var u := ParseTuple(line).value;
      var e := EditOf(u).value;
      if Perform(st, e).Ok? {
        PerformKeepsNamed(st, e, x);
        var t := Perform(st, e).value.state.tree;
        var k := FindSection(t, u.section);
        if k < |t| {
          NamedAround(t, k, t[k].(anonymous := true), x);
        }
      }
    }
  }

  lemma PerformKeepsNamed(st: State, e: Edit, x: string)
    requires !e.AddSection? && Perform(st, e).Ok?
    ensures Named(st.tree, x) <= Named(Perform(st, e).value.state.tree, x) + 1
  {
    hide Named, Without, SetOption, AddListOption;
    var t, t' := st.tree, Perform(st, e).value.state.tree;
    var k := FindSection(t, e.section);
    if k == |t| {
      NamedConcat(t, [t'[k]], x);
    } else {
      NamedAround(t, k, if k < |t'| then t'[k] else t[k], x);
    }
  }

  lemma {:induction false} NamedFound(t: Tree, name: string)
    ensures Named(t, name) > 0 ==> HasSection(t, name)
  {
    if t != [] {
      NamedFound(t[1..], name);
    }
  }

  lemma {:induction false} ApplyingRename(name: string, st: State, lines: seq<string>, k: nat, section: string)
    requires k < |lines| && GivesName(name, lines[k], section)
    requires Named(st.tree, LineEdit(name, lines[k]).value.section) > k
    ensures !NoneRenamedTo(name, st, lines, section)
    decreases k
  {
    hide ParseTuple, ReplayStep;
    var x := LineEdit(name, lines[k]).value.section;
    NamedFound(st.tree, x);
    if k > 0 {
      StepKeepsNamed(name, st, lines[0], x);
      ApplyingRename(name, ReplayStep(name, st, lines[0]), lines[1..], k - 1, section);
    }
  }

  function Copies(s: Section, k: nat): Tree {
    if k == 0 then [] else [s] + Copies(s, k - 1)
  }

  lemma {:induction false} CopiesNamed(s: Section, k: nat, section: string)
    requires s.name != section && SectionOk(s)
    ensures Named(Copies(s, k), s.name) == k && TreeOk(Copies(s, k)) && !HasSection(Copies(s, k), section)
  {
    if k > 0 {
      CopiesNamed(s, k - 1, section);
      var t := Copies(s, k);
      assert t[1..] == Copies(s, k - 1) && forall x | x in t :: x == s || x in t[1..];
    }
  }

  predicate Restored(name: string, st: State, journal: string, section: string) {
    Lookup(Replay(name, st, Filter(journal, Some(section), None)).tree, section) == Lookup(st.tree, section)
  }

  /** Over a tree with enough sections of the old name the rename applies. */
  lemma GivenNameStays(name: string, journal: string, section: string, line: string)
    requires AllParse(SplitLines(journal))
    requires line in Unselected(SplitLines(journal), Some(section), None) && GivesName(name, line, section)
    ensures exists st: State :: TreeOk(st.tree) && !Restored(name, st, journal, section)
  {
    hide AllParse, Unselected, Filter, Replay, GivesName, LineEdit, NoneRenamedTo, SectionOk, Named, TreeOk, Copies;
    var left := Unselected(SplitLines(journal), Some(section), None);
    var k: nat :| k < |left| && left[k] == line;
    GiverIsElsewhere(name, line, section);
    var s := Section(LineEdit(name, line).value.section, "x", false, []);
    var st := State(Copies(s, k + 1), 0);
    CopiesNamed(s, k + 1, section);
    ApplyingRename(name, st, left, k, section);
    RevertRemovesExactly(name, st, journal, section);
  }

  /** The condition on the lines is exact: they bring the section back over every
      well-formed tree if and only if no line left gives its name to a section. */
  lemma RevertRestoresAlways(name: string, journal: string, section: string)
    requires AllParse(SplitLines(journal))
    ensures (forall st: State | TreeOk(st.tree) :: Restored(name, st, journal, section))
       <==> forall l | l in Unselected(SplitLines(journal), Some(section), None) :: !GivesName(name, l, section)
  {
    hide AllParse, Unselected, GivesName, TreeOk, Filter, Replay, Lookup;
    var left := Unselected(SplitLines(journal), Some(section), None);
    if l :| l in left && GivesName(name, l, section) {
      GivenNameStays(name, journal, section, l);
    } else {
      forall st: State | TreeOk(st.tree) ensures Restored(name, st, journal, section) {
        RevertRestores(name, st, journal, section);
      }
    }
  }

  lemma GiverIsElsewhere(name: string, line: string, section: string)
    requires GivesName(name, line, section) && !SelectedLine(line, Some(section), None)
    ensures LineEdit(name, line).Some? && LineEdit(name, line).value.RenameTo?
    ensures var x := LineEdit(name, line).value.section; x != section && SectionOk(Section(x, "x", false, []))
  {
  }

  /** A saved rename survives the revert of the section whose name it gives. */
  lemma RenameSurvives(name: string, st: State, from: string, section: string)
    requires PlainPackage(name) && ValidName(from) && ValidName(section) && from != section
    ensures var journal := JournalText(name, [Record(Rename, from, None, Some(section))]);
      Replay(name, st, Filter(journal, Some(section), None)).tree
      == match RenameTree(st.tree, from, None, section) case Ok(t) => t case Err(_) => st.tree
  {
    hide ReplayTuple, PlainPackage, ParseTuple;
    var r := Record(Rename, from, None, Some(section));
    ValidNameIsText(section);
    FilterKeepsRemaining(name, [r], Some(section), None);
    assert [r][1..] == [];
    assert Remaining([r], Some(section), None) == [r];
    ReplayOne(name, st, r);
    RenameTuple(name, st, r);
  }

  lemma ValidNameIsText(s: string)
    requires ValidName(s)
    ensures ValidText(s)
  {
  }

  lemma RenameTuple(name: string, st: State, r: Record)
    requires r.cmd == Rename && r.value.Some?
    ensures match RenameTree(st.tree, r.section, r.option, r.value.value)
            case Ok(t) => ReplayTuple(st, TupleOf(name, r)) == Ok(State(t, st.n))
            case Err(_) => ReplayTuple(st, TupleOf(name, r)).Err?
  {
  }

  /** The revert of a section does not bring it back when a remaining rename gives its
      name to a section before it; a rename behind it does no harm. */
  lemma RenameTakesName()
    ensures var lan, wan := Section("lan", "zone", false, []), Section("wan", "route", false, []);
      var left := Filter(JournalText("net", [Record(Rename, "wan", None, Some("lan"))]), Some("lan"), None);
      && Lookup(Replay("net", State([wan], 1), left).tree, "lan") != Lookup([wan], "lan")
      && Lookup(Replay("net", State([wan, lan], 2), left).tree, "lan") != Lookup([wan, lan], "lan")
      && Lookup(Replay("net", State([lan, wan], 2), left).tree, "lan") == Lookup([lan, wan], "lan")
  {
    hide Filter, Replay, JournalText;
    var lan, wan := Section("lan", "zone", false, []), Section("wan", "route", false, []);
    assert "wan"[0] != "lan"[0] && "route"[0] != "zone"[0];
    RenameSurvives("net", State([wan], 1), "wan", "lan");
    RenameSurvives("net", State([wan, lan], 2), "wan", "lan");
    RenameSurvives("net", State([lan, wan], 2), "wan", "lan");
    var named := wan.(name := "lan");
    assert RenameTree([wan], "wan", None, "lan") == Ok([named]) by {
      FoundSection([wan], "wan", 0);
      assert [wan][0 := named] == [named];
    }
    assert RenameTree([wan, lan], "wan", None, "lan") == Ok([named, lan]) by {
      FoundSection([wan, lan], "wan", 0);
      assert [wan, lan][0 := named] == [named, lan];
    }
    assert RenameTree([lan, wan], "wan", None, "lan") == Ok([lan, named]) by {
      FoundSection([lan, wan], "wan", 1);
      assert [lan, wan][1 := named] == [lan, named];
    }
    FoundSection([wan], "lan", 1);
    FoundSection([named], "lan", 0);
    FoundSection([wan, lan], "lan", 1);
    FoundSection([named, lan], "lan", 0);
    FoundSection([lan, wan], "lan", 0);
    FoundSection([lan, named], "lan", 0);
  }

  // ---------- a reverted option ----------

  /** The whole section goes, or leaves its name. */
  predicate Leaves(e: Edit, section: string) {
    (e.Delete? || (e.RenameTo? && e.newName != section)) && e.section == section && e.option.None?
  }

  /** Another option of the section, standing before the option, is given its name. */
  predicate TakesOption(t: Tree, e: Edit, section: string, option: string) {
    && e.RenameTo? && e.section == section && e.option.Some? && e.newName == option
    && HasSection(t, section)
    && var options := t[FindSection(t, section)].options;
       FindOption(options, e.option.value) < FindOption(options, option)
  }

  function EntryTaken(t: Tree, e: Edit, section: string, option: string): Maybe<Maybe<Value>> {
    if Takes(t, e, section) then Some(ValueOf(t[FindSection(t, e.section)].options, option))
    else if Leaves(e, section) && HasSection(t, section) then
      Some(Entry(Without(t, FindSection(t, section)), section, option))
    else if TakesOption(t, e, section, option) then
      Some(ValueOf(t[FindSection(t, section)].options, e.option.value))
    else None
  }

  function EntryChange(name: string, section: string, option: string): (State, string) -> Maybe<Maybe<Value>> {
    (st: State, line: string) =>
      if LineEdit(name, line).Some? then EntryTaken(st.tree, LineEdit(name, line).value, section, option) else None
  }

  function EntryIn(section: string, option: string): State -> Maybe<Value> {
    (st: State) => Entry(st.tree, section, option)
  }

  lemma ValueWithout(options: seq<Option>, k: nat, option: string)
    requires k < |options| && options[k].name != option
    ensures ValueOf(Without(options, k), option) == ValueOf(options, option)
  {
    var j := FindOption(options, option);
    FoundOption(Without(options, k), option, if j > k then j - 1 else j);
  }

  lemma ValueAppended(options: seq<Option>, o: Option, option: string)
    requires o.name != option
    ensures ValueOf(options + [o], option) == ValueOf(options, option)
  {
    var j := FindOption(options, option);
    FoundOption(options + [o], option, if j == |options| then j + 1 else j);
  }

  lemma ValueUpdated(options: seq<Option>, k: nat, o: Option, option: string)
    requires k < |options| && options[k].name != option
    ensures ValueOf(options[k := o], option)
         == if o.name == option && k < FindOption(options, option) then Some(o.value) else ValueOf(options, option)
  {
    var j := FindOption(options, option);
    FoundOption(options[k := o], option, if o.name == option && k < j then k else j);
  }

  /** Setting or extending another option leaves this one, though it may move. */
  lemma OtherOptionSet(options: seq<Option>, other: string, value: string, option: string)
    requires other != option
    ensures ValueOf(SetOption(options, other, value), option) == ValueOf(options, option)
    ensures ValueOf(AddListOption(options, other, value), option) == ValueOf(options, option)
  {
    hide ValueOf;
    var k := FindOption(options, other);
    if k == |options| {
      ValueAppended(options, Option(other, Str(value)), option);
      ValueAppended(options, Option(other, List([value])), option);
    } else {
      ValueWithout(options, k, option);
      ValueAppended(Without(options, k), Option(other, Str(value)), option);
      match options[k].value
      case Str(s) => ValueAppended(Without(options, k), Option(other, List([s, value])), option);
      case List(items) => ValueUpdated(options, k, Option(other, List(items + [value])), option);
    }
  }

  lemma LookupChanged(t: Tree, s: Section, section: string)
    requires HasSection(t, section) && s.name == section
    ensures Lookup(t[FindSection(t, section) := s], section) == Some(s)
  {
    FoundSection(t[FindSection(t, section) := s], section, FindSection(t, section));
  }

  lemma WithoutAt<T>(s: seq<T>, k: nat)
    requires k < |s|
    ensures |Without(s, k)| == |s| - 1
    ensures forall i | 0 <= i < k :: Without(s, k)[i] == s[i]
    ensures forall i | k < i < |s| :: Without(s, k)[i - 1] == s[i]
  {
  }

  /** A section that is renamed is no more found by its old name than one deleted. */
  lemma LookupRenamed(t: Tree, s: Section, section: string)
    requires HasSection(t, section) && s.name != section
    ensures Lookup(t[FindSection(t, section) := s], section) == Lookup(Without(t, FindSection(t, section)), section)
  {
    hide Without;
    var k := FindSection(t, section);
    WithoutAt(t, k);
    var j := FindSection(Without(t, k), section);
    var t' := t[k := s];
    forall i | 0 <= i < j + 1 ensures t'[i].name != section {
      assert i > k ==> t'[i] == Without(t, k)[i - 1];
    }
    assert j < |t| - 1 ==> t'[j + 1] == Without(t, k)[j];
    FoundSection(t', section, j + 1);
  }

  lemma SectionEditKeepsEntry(st: State, e: Edit, section: string, option: string)
    requires !e.AddSection? && !e.AddToList? && e.section == section && e.option.None? && Perform(st, e).Ok?
    ensures Entry(Perform(st, e).value.state.tree, section, option)
         == OrElse(EntryTaken(st.tree, e, section, option), Entry(st.tree, section, option))
  {
    var t, t' := st.tree, Perform(st, e).value.state.tree;
    var k := FindSection(t, section);
    if k == |t| {
      FoundSection(t', section, k);
    } else if !e.Delete? {
      if t'[k].name == section {
        LookupChanged(t, t'[k], section);
      } else {
        LookupRenamed(t, t'[k], section);
      }
    }
  }

  lemma OtherOptionEdit(st: State, e: Edit, section: string, option: string)
    requires !e.AddSection? && e.section == section && Perform(st, e).Ok?
    requires if e.AddToList? then e.listOption != option else e.option.Some? && e.option.value != option
    ensures Entry(Perform(st, e).value.state.tree, section, option)
         == OrElse(EntryTaken(st.tree, e, section, option), Entry(st.tree, section, option))
  {
    hide SetOption, AddListOption, Without, Entry, ValueOf, FindOption, FindSection, Takes;
    var t, k := st.tree, FindSection(st.tree, section);
    var options := t[k].options;
    NotItself(t, e, section);
    match e {
      case SetValue(_, o, v) =>
        OtherOptionSet(options, o.value, v, option);
        EntryWith(t, section, SetOption(options, o.value, v), option);
      case AddToList(_, o, v) =>
        OtherOptionSet(options, o, v, option);
        EntryWith(t, section, AddListOption(options, o, v), option);
      case Delete(_, o) =>
        var j := FindOption(options, o.value);
        ValueWithout(options, j, option);
        EntryWith(t, section, Without(options, j), option);
      case RenameTo(_, o, v) =>
        var j := FindOption(options, o.value);
        ValueUpdated(options, j, options[j].(name := v), option);
        ValueFound(options, o.value);
        EntryWith(t, section, options[j := options[j].(name := v)], option);
    }
    EntryHere(t, section, option);
  }

  lemma NotItself(t: Tree, e: Edit, section: string)
    requires !e.AddSection? && e.section == section
    ensures !Takes(t, e, section)
  {
  }

  lemma ValueFound(options: seq<Option>, option: string)
    ensures var k := FindOption(options, option);
      k < |options| ==> ValueOf(options, option) == Some(options[k].value)
  {
  }

  lemma EntryHere(t: Tree, section: string, option: string)
    ensures HasSection(t, section) ==> Entry(t, section, option) == ValueOf(t[FindSection(t, section)].options, option)
  {
  }

  lemma EntryWith(t: Tree, section: string, options: seq<Option>, option: string)
    requires HasSection(t, section)
    ensures var k := FindSection(t, section);
      Entry(t[k := t[k].(options := options)], section, option) == ValueOf(options, option)
  {
    hide ValueOf;
    var k := FindSection(t, section);
    LookupChanged(t, t[k].(options := options), section);
  }

  lemma EditKeepsEntry(st: State, e: Edit, section: string, option: string)
    requires !e.AddSection? && Perform(st, e).Ok?
    requires e.section == section ==>
      if e.AddToList? then e.listOption != option else e.option != Some(option)
    ensures Entry(Perform(st, e).value.state.tree, section, option)
         == OrElse(EntryTaken(st.tree, e, section, option), Entry(st.tree, section, option))
  {
    hide Perform, Without, ValueOf, FindOption;
    if e.section != section {
      PerformElsewhere(st, e, section);
    } else if !e.AddToList? && e.option.None? {
      SectionEditKeepsEntry(st, e, section, option);
    } else {
      OtherOptionEdit(st, e, section, option);
    }
  }

  lemma MarkKeepsEntry(t: Tree, marked: string, section: string, option: string)
    ensures Entry(MarkAnonymous(t, marked), section, option) == Entry(t, section, option)
  {
    var k := FindSection(t, section);
    FoundSection(MarkAnonymous(t, marked), section, k);
  }

  lemma RefusedTakesNothing(st: State, e: Edit, section: string, option: string)
    requires !e.AddSection? && Perform(st, e).Err?
    ensures EntryTaken(st.tree, e, section, option) == None
  {
  }

  lemma StepAroundOption(name: string, st: State, line: string, section: string, option: string)
    requires !SelectedLine(line, Some(section), Some(option))
    ensures Entry(ReplayStep(name, st, line).tree, section, option)
         == OrElse(EntryChange(name, section, option)(st, line), Entry(st.tree, section, option))
  {
    hide Perform, Entry, EntryTaken, MarkAnonymous, ParseTuple;
    if LineEdit(name, line).Some? {
      var u := ParseTuple(line).value;
      var e := EditOf(u).value;
      if Perform(st, e).Ok? {
        EditKeepsEntry(st, e, section, option);
        MarkKeepsEntry(Perform(st, e).value.state.tree, u.section, section, option);
      } else {
        RefusedTakesNothing(st, e, section, option);
      }
    }
  }

  /** What looking an option up finds after it was reverted and the package reloaded: the
      value it has in the file, unless its section was deleted, renamed or had its name
      taken, or another option took its name; then what the last of these left. */
  lemma OptionRevertShows(name: string, st: State, journal: string, section: string, option: string)
    requires AllParse(SplitLines(journal))
    ensures Entry(Replay(name, st, Filter(journal, Some(section), Some(option))).tree, section, option)
         == OrElse(LastChange(name, st, Unselected(SplitLines(journal), Some(section), Some(option)),
                              EntryChange(name, section, option)),
                   Entry(st.tree, section, option))
  {
    var left := Unselected(SplitLines(journal), Some(section), Some(option));
    forall s: State, line | line in left
      ensures EntryIn(section, option)(ReplayStep(name, s, line))
           == OrElse(EntryChange(name, section, option)(s, line), EntryIn(section, option)(s))
    {
      StepAroundOption(name, s, line, section, option);
    }
    SeenAfter(name, st, left, EntryIn(section, option), EntryChange(name, section, option));
    RevertReplays(name, st, journal, Some(section), Some(option));
  }

  /** A reverted option has its value of the file exactly when nothing else changed what
      its place holds, or the last such change left an equal value there. */
  lemma OptionRevertRestoresExactly(name: string, st: State, journal: string, section: string, option: string)
    requires AllParse(SplitLines(journal))
    ensures Entry(Replay(name, st, Filter(journal, Some(section), Some(option))).tree, section, option)
            == Entry(st.tree, section, option)
       <==> var last := LastChange(name, st, Unselected(SplitLines(journal), Some(section), Some(option)),
                                   EntryChange(name, section, option));
            last == None || last == Some(Entry(st.tree, section, option))
  {
    OptionRevertShows(name, st, journal, section, option);
  }

  /** The line gives the section's or the option's name away or to something else. */
  predicate MovesEntry(name: string, line: string, section: string, option: string) {
    LineEdit(name, line).Some? &&
    var e := LineEdit(name, line).value;
    || GivesName(name, line, section) || Leaves(e, section)
    || (e.RenameTo? && e.section == section && e.option.Some? && e.newName == option)
  }

  /** What the lines alone tell: a journal without such a line brings the option back. */
  lemma OptionRevertRestores(name: string, st: State, journal: string, section: string, option: string)
    requires AllParse(SplitLines(journal))
    requires forall l | l in Unselected(SplitLines(journal), Some(section), Some(option)) ::
      !MovesEntry(name, l, section, option)
    ensures Entry(Replay(name, st, Filter(journal, Some(section), Some(option))).tree, section, option)
         == Entry(st.tree, section, option)
  {
    hide ReplayStep, ParseTuple;
    var left := Unselected(SplitLines(journal), Some(section), Some(option));
    NothingChanges(name, st, left, EntryChange(name, section, option));
    OptionRevertShows(name, st, journal, section, option);
  }

  /** The revert of an option does not bring its section back. */
  lemma DeletedSectionStaysDeleted()
    ensures var lan := Section("lan", "zone", false, [Option("ip", Str("1"))]);
      var left := Filter(JournalText("net", [Record(Remove, "lan", None, None)]), Some("lan"), Some("ip"));
      && Entry([lan], "lan", "ip") == Some(Str("1"))
      && Entry(Replay("net", State([lan], 1), left).tree, "lan", "ip") == None
  {
    hide Filter, Replay, JournalText;
    var lan := Section("lan", "zone", false, [Option("ip", Str("1"))]);
    RemovalSurvives("net", State([lan], 1), "lan", "ip");
    FoundSection([lan], "lan", 0);
    FoundOption(lan.options, "ip", 0);
    assert Without([lan], 0) == [];
  }

  /** A saved deletion of a section survives the revert of one of its options. */
  lemma RemovalSurvives(name: string, st: State, section: string, option: string)
    requires PlainPackage(name) && ValidName(section)
    ensures var journal := JournalText(name, [Record(Remove, section, None, None)]);
      Replay(name, st, Filter(journal, Some(section), Some(option))).tree
      == match DeleteTree(st.tree, section, None) case Ok(t) => t case Err(_) => st.tree
  {
    hide PlainPackage, ParseTuple, ValidName;
    var r := Record(Remove, section, None, None);
    assert [r][1..] == [];
    assert Remaining([r], Some(section), Some(option)) == [r];
    FilterKeepsRemaining(name, [r], Some(section), Some(option));
    ReplayOne(name, st, r);
  }
}
