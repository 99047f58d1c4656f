/** A loaded package and the operations that edit it, each recording what it did in
    the package's unsaved history. */
module UciPackage {
  import opened UciText
  import opened UciTree
  import opened UciEdits

  datatype Command = Add | Remove | Change | Rename | ListAdd

  datatype Record = Record(cmd: Command, section: string, option: Maybe<string>, value: Maybe<string>)

  /** The edits a caller can make once the element path has been resolved. */
  datatype Edit =
    | SetValue(section: string, option: Maybe<string>, value: string)
    | AddToList(section: string, listOption: string, item: string)
    | Delete(section: string, option: Maybe<string>)
    | RenameTo(section: string, option: Maybe<string>, newName: string)
    | AddSection(typ: string)

  /** The tree together with the counter behind generated section names. */
  datatype State = State(tree: Tree, n: nat)

  datatype Outcome = Outcome(state: State, notes: seq<Record>)

  /** A live anonymous section counts twice: once allocated, once named. */
  function WithNewSection(st: State, typ: string): State {
    var s := NewSection("", typ);
    State(st.tree + [s.(name := NameFor(st.n + 2, s))], st.n + 2)
  }

  function GeneratedFor(st: State, typ: string): string {
    NameFor(st.n + 2, NewSection("", typ))
  }

  /** What an edit does to the state, and the records it leaves in the history. */
  function Perform(st: State, e: Edit): Result<Outcome> {
    match e
    case SetValue(s, o, v) =>
      var t :- SetTree(st.tree, s, o, v);
      Ok(Outcome(State(t, st.n + |t| - |st.tree|),
                 if Unchanged(st.tree, s, o, v) then [] else [Record(Change, s, o, Some(v))]))
    case AddToList(s, o, v) =>
      var t :- AddListTree(st.tree, s, o, v);
      Ok(Outcome(State(t, st.n), [Record(ListAdd, s, Some(o), Some(v))]))
    case Delete(s, o) =>
      var t :- DeleteTree(st.tree, s, o);
      Ok(Outcome(State(t, st.n), [Record(Remove, s, o, None)]))
    case RenameTo(s, o, v) =>
      var t :- RenameTree(st.tree, s, o, v);
      Ok(Outcome(State(t, st.n), [Record(Rename, s, o, Some(v))]))
    case AddSection(typ) =>
      Ok(Outcome(WithNewSection(st, typ), [Record(Add, GeneratedFor(st, typ), None, Some(typ))]))
  }

  lemma AppendItem(options: seq<Option>, name: string, items: seq<string>, item: string)
    ensures (options + [Option(name, List(items))])[|options| := Option(name, List(items + [item]))]
         == options + [Option(name, List(if items == [] then [item] else items + [item]))]
    ensures |items| == 1 ==> items + [item] == [items[0], item]
  {
    assert items == [] ==> items + [item] == [item];
  }

  lemma WithoutBefore(options: seq<Option>, o: Option, j: nat)
    requires j < |options|
    ensures Without(options + [o], j) == Without(options, j) + [o]
  {
  }

  class Package {
    const name: string
    var sections: seq<Section>
    var nSection: nat
    var hasHistory: bool
    var history: seq<Record>

    constructor (name: string)
      ensures this.name == name && GetState() == State([], 0) && history == [] && !hasHistory
    {
      this.name := name;
      sections, nSection := [], 0;
      hasHistory, history := false, [];
    }

    function GetState(): State
      reads this
    {
      State(sections, nSection)
    }

    /** The post-state of an edit: everything it changes, or nothing on an error. */
    twostate predicate Did(e: Edit, internal: bool, new r: Result<bool>)
      reads this
    {
      hasHistory == old(hasHistory) &&
      match Perform(old(GetState()), e)
      case Ok(o) =>
        && r == Ok(true)
        && GetState() == o.state
        && history == old(history) + if internal || !hasHistory then [] else o.notes
      case Err(x) =>
        r == Err(x) && unchanged(this)
    }

    method LookupSection(name: string) returns (k: nat)
      ensures k == FindSection(sections, name)
    {
      k := 0;
      while k < |sections| && sections[k].name != name
        invariant k <= |sections|
        invariant forall i | 0 <= i < k :: sections[i].name != name
      {
        k := k + 1;
      }
      FoundSection(sections, name, k);
    }

    method LookupOption(section: nat, name: string) returns (k: nat)
      requires section < |sections|
      ensures k == FindOption(sections[section].options, name)
    {
      var options := sections[section].options;
      k := 0;
      while k < |options| && options[k].name != name
        invariant k <= |options|
        invariant forall i | 0 <= i < k :: options[i].name != name
      {
        k := k + 1;
      }
      FoundOption(options, name, k);
    }

    method AddHistory(cmd: Command, section: string, option: Maybe<string>, value: Maybe<string>)
      modifies this`history
      ensures history == old(history) + [Record(cmd, section, option, value)]
    {
      history := history + [Record(cmd, section, option, value)];
    }

    method AllocSection(typ: string, name: string) returns (k: nat)
      modifies this`sections, this`nSection
      ensures k == old(|sections|)
      ensures sections == old(sections) + [NewSection(name, typ)] && nSection == old(nSection) + 1
    {
      k := |sections|;
      nSection := nSection + 1;
      sections := sections + [Section(name, typ, name == "", [])];
    }

    /** Names the section at `k` if it has no name yet. */
    method FixupSection(k: nat)
      requires k < |sections|
      modifies this`sections, this`nSection
      ensures old(sections[k].name) != "" ==> sections == old(sections) && nSection == old(nSection)
      ensures old(sections[k].name) == "" ==>
        nSection == old(nSection) + 1 &&
        sections == old(sections)[k := old(sections[k]).(name := NameFor(old(nSection) + 1, old(sections[k])))]
    {
      var s := sections[k];
      if s.name != "" {
        return;
      }
      var hash: nat := DjbHash(None, s.typ);
      for i := 0 to |s.options|
        invariant hash < WORD && unchanged(this)
        invariant HashOptions(hash, s.options[i..]) == SectionHash(s.typ, s.options)
      {
        var named: nat := hash;
        hash := DjbHash(Some(named), s.options[i].name);
        match s.options[i].value {
          case Str(v) => hash := DjbHash(Some(hash), v);
          case List(_) =>
        }
      }
      nSection := nSection + 1;
      sections := sections[k := s.(name := GeneratedName(nSection, hash))];
    }

    method RemoveOption(section: nat, k: nat)
      requires section < |sections| && k < |sections[section].options|
      modifies this`sections
      ensures sections
           == old(sections)[section := old(sections[section]).(options := Without(old(sections[section].options), k))]
    {
      var s := sections[section];
      sections := sections[section := s.(options := s.options[..k] + s.options[k + 1..])];
    }

    method AllocOption(section: nat, o: Option)
      requires section < |sections|
      modifies this`sections
      ensures sections
           == old(sections)[section := old(sections[section]).(options := old(sections[section].options) + [o])]
    {
      var s := sections[section];
      sections := sections[section := s.(options := s.options + [o])];
    }

    /** Says whether the option already held this string. */
    method UpdateOption(k: nat, option: string, value: string) returns (same: bool)
      requires k < |sections|
      modifies this`sections
      ensures sections
           == old(sections)[k := old(sections[k]).(options := SetOption(old(sections[k].options), option, value))]
      ensures var options := old(sections[k].options); var j := FindOption(options, option);
        same <==> j < |options| && options[j].value == Str(value)
    {
      var j := LookupOption(k, option);
      if j < |sections[k].options| {
        var v := sections[k].options[j].value;
        if v.Str? && v.text == value {
          return true;
        }
        RemoveOption(k, j);
      }
      AllocOption(k, Option(option, Str(value)));
      return false;
    }

    /** The change itself, without a record; says whether there was one to record. */
    method Assign(section: string, option: Maybe<string>, value: string) returns (r: Result<bool>)
      modifies this`sections, this`nSection
      ensures match SetTree(old(sections), section, option, value)
              case Ok(t) =>
                && r == Ok(!Unchanged(old(sections), section, option, value))
                && sections == t && nSection == old(nSection) + |t| - |old(sections)|
              case Err(x) =>
                r == Err(x) && sections == old(sections) && nSection == old(nSection)
    {
      var k := LookupSection(section);
      if k == |sections| && option.Some? {
        return Err(Invalid);
      }
      if option.None? {
        var ok := ValidateStr(value, false);
        if !ok {
          return Err(Invalid);
        }
      }
      if option.Some? {
        var same := UpdateOption(k, option.value, value);
        return Ok(!same);
      }
      if k == |sections| {
        var _ := AllocSection(value, section);
      } else {
        sections := sections[k := sections[k].(typ := value)];
      }
      return Ok(true);
    }

    method Set(section: string, option: Maybe<string>, value: string, internal: bool) returns (r: Result<bool>)
      modifies this
      ensures Did(SetValue(section, option, value), internal, r)
      ensures r.Ok? && option.Some? && UniqueIn(old(sections), section) ==>
        Entry(sections, section, option.value) == Some(Str(value))
      ensures r.Ok? && option.None? ==> Lookup(sections, section).Some? && Lookup(sections, section).value.typ == value
    {
      hide Entry, Lookup;
      if SetTree(sections, section, option, value).Ok? {
        SetTreeStores(sections, section, option, value);
      }
      r := Assign(section, option, value);
      if r == Ok(true) && !internal && hasHistory {
        AddHistory(Change, section, option, Some(value));
      }
      return if r.Ok? then Ok(true) else r;
    }

    method AddElementList(section: nat, k: nat, value: string)
      requires section < |sections| && k < |sections[section].options|
      requires sections[section].options[k].value.List?
      modifies this`sections
      ensures var s := old(sections[section]); var o := s.options[k];
        sections == old(sections)[section := s.(options := s.options[k := o.(value := List(o.value.items + [value]))])]
    {
      var s := sections[section];
      var o := s.options[k];
      sections := sections[section := s.(options := s.options[k := o.(value := List(o.value.items + [value]))])];
    }

    /** Replaces a string by a list holding it; the list joins the tail before the
        string is freed. */
    method ConvertToList(k: nat, j: nat)
      requires k < |sections| && j < |sections[k].options| && sections[k].options[j].value.Str?
      modifies this`sections
      ensures var s := old(sections[k]); var o := s.options[j];
        sections == old(sections)[k := s.(options := Without(s.options, j) + [Option(o.name, List([o.value.text]))])]
    {
      ghost var s := sections[k];
      var o := sections[k].options[j];
      AllocOption(k, Option(o.name, List([])));
      AddElementList(k, |sections[k].options| - 1, o.value.text);
      AppendItem(s.options, o.name, [], o.value.text);
      WithoutBefore(s.options, Option(o.name, List([o.value.text])), j);
      RemoveOption(k, j);
    }

    method AddNewList(k: nat, j: nat, option: string, value: string)
      requires k < |sections| && j == FindOption(sections[k].options, option)
      requires j < |sections[k].options| ==> sections[k].options[j].value.Str?
      modifies this`sections
      ensures sections
           == old(sections)[k := old(sections[k]).(options := AddListOption(old(sections[k].options), option, value))]
    {
      ghost var options := sections[k].options;
      if j < |sections[k].options| {
        ConvertToList(k, j);
        AppendItem(Without(options, j), option, [options[j].value.text], value);
      } else {
        AllocOption(k, Option(option, List([])));
        AppendItem(options, option, [], value);
      }
      AddElementList(k, |sections[k].options| - 1, value);
    }

    method AppendToOption(k: nat, option: string, value: string)
      requires k < |sections|
      modifies this`sections
      ensures sections
           == old(sections)[k := old(sections[k]).(options := AddListOption(old(sections[k].options), option, value))]
    {
      var j := LookupOption(k, option);
      if j < |sections[k].options| && sections[k].options[j].value.List? {
        AddElementList(k, j, value);
      } else {
        AddNewList(k, j, option, value);
      }
    }

    method AddList(section: string, option: string, value: string, internal: bool) returns (r: Result<bool>)
      modifies this
      ensures Did(AddToList(section, option, value), internal, r)
      ensures r.Ok? && UniqueIn(old(sections), section) ==>
        Entry(sections, section, option) == Some(List(ItemsOf(old(Entry(sections, section, option))) + [value]))
    {
      hide Entry, ItemsOf;
      if UniqueIn(sections, section) && AddListTree(sections, section, option, value).Ok? {
        AddListTreeAppends(sections, section, option, value);
      }
      var k := LookupSection(section);
      if k == |sections| {
        return Err(Invalid);
      }
      AppendToOption(k, option, value);
      if !internal && hasHistory {
        AddHistory(ListAdd, section, Some(option), Some(value));
      }
      return Ok(true);
    }

    method DeleteElement(section: string, option: Maybe<string>, internal: bool) returns (r: Result<bool>)
      modifies this
      ensures Did(Delete(section, option), internal, r)
      ensures r.Ok? && option.Some? && UniqueIn(old(sections), section) ==>
        Entry(sections, section, option.value) == None
    {
      hide Entry, Lookup;
      if DeleteTree(sections, section, option).Ok? {
        DeleteTreeRemoves(sections, section, option);
      }
      var k := LookupSection(section);
      if k == |sections| {
        return Err(NotFound);
      }
      var j := 0;
      if option.Some? {
        j := LookupOption(k, option.value);
        if j == |sections[k].options| {
          return Err(NotFound);
        }
      }
      if !internal && hasHistory {
        AddHistory(Remove, section, option, None);
      }
      if option.Some? {
        RemoveOption(k, j);
      } else {
        sections := sections[..k] + sections[k + 1..];
      }
      return Ok(true);
    }

    method GiveName(k: nat, option: Maybe<string>, j: nat, value: string)
      requires k < |sections| && (option.Some? ==> j < |sections[k].options|)
      modifies this`sections
      ensures var s := old(sections[k]);
        sections
        == old(sections)[k := if option.Some? then s.(options := s.options[j := s.options[j].(name := value)])
                              else s.(name := value, anonymous := false)]
    {
      var s := sections[k];
      if option.Some? {
        s := s.(options := s.options[j := s.options[j].(name := value)]);
      } else {
        s := s.(name := value, anonymous := false);
      }
      sections := sections[k := s];
    }

    method RenameElement(section: string, option: Maybe<string>, value: string, internal: bool)
      returns (r: Result<bool>)
      modifies this
      ensures Did(RenameTo(section, option, value), internal, r)
      ensures r.Ok? && option.None? && !HasSection(old(sections), value) ==>
        Lookup(sections, value) == Some(old(Lookup(sections, section)).value.(name := value, anonymous := false))
    {
      hide Lookup, Without, SetTree, AddListTree, DeleteTree, Unchanged, WithNewSection, GeneratedFor, FindSection,
        FindOption;
      if HasSection(sections, section) && !HasSection(sections, value) {
        FreeNameFound(sections, section, value);
      }
      var k := LookupSection(section);
      if k == |sections| {
        return Err(NotFound);
      }
      var j := 0;
      if option.Some? {
        j := LookupOption(k, option.value);
        if j == |sections[k].options| {
          return Err(NotFound);
        }
      }
      if !internal && hasHistory {
        AddHistory(Rename, section, option, Some(value));
      }
      GiveName(k, option, j, value);
      return Ok(true);
    }

    method NewAnonymousSection(typ: string, internal: bool) returns (k: nat)
      modifies this
      ensures Did(AddSection(typ), internal, Ok(true))
      ensures k == old(|sections|)
    {
      k := AllocSection(typ, "");
      FixupSection(k);
      if !internal && hasHistory {
        AddHistory(Add, sections[k].name, None, Some(typ));
      }
    }
  }
}
