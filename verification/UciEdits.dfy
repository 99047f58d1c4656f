/** What each edit means to a reader who looks things up by name. */
module UciEdits {
  import opened UciText
  import opened UciTree

  // ---------- the options of another name ----------

  /** The options that are called something else, in their order. */
  function Others(options: seq<Option>, name: string): seq<Option> {
    if options == [] then []
    else (if options[0].name == name then [] else [options[0]]) + Others(options[1..], name)
  }

  lemma {:induction false} OthersConcat(a: seq<Option>, b: seq<Option>, name: string)
    ensures Others(a + b, name) == Others(a, name) + Others(b, name)
  {
    if a == [] {
      EmptyConcat(b);
    } else {
      assert (a + b)[1..] == a[1..] + b;
      OthersConcat(a[1..], b, name);
    }
  }

  lemma {:induction false} AllOthers(options: seq<Option>, name: string)
    requires forall i | 0 <= i < |options| :: options[i].name != name
    ensures Others(options, name) == options
  {
    if options != [] {
      AllOthers(options[1..], name);
    }
  }

  lemma OthersOfOne(o: Option, name: string)
    ensures Others([o], name) == if o.name == name then [] else [o]
  {
    assert [o][1..] == [];
  }

  lemma OthersAround(options: seq<Option>, k: nat, name: string)
    requires k < |options|
    ensures Others(options, name)
         == Others(options[..k], name) + Others([options[k]], name) + Others(options[k + 1..], name)
    ensures Others(Without(options, k), name) == Others(options[..k], name) + Others(options[k + 1..], name)
    ensures forall o :: Others(options[k := o], name)
                     == Others(options[..k], name) + Others([o], name) + Others(options[k + 1..], name)
  {
    hide Others;
    var a, b := options[..k], options[k + 1..];
    assert options == (a + [options[k]]) + b;
    OthersConcat(a + [options[k]], b, name);
    OthersConcat(a, [options[k]], name);
    OthersConcat(a, b, name);
    forall o
      ensures Others(options[k := o], name) == Others(a, name) + Others([o], name) + Others(b, name)
    {
      assert options[k := o] == (a + [o]) + b;
      OthersConcat(a + [o], b, name);
      OthersConcat(a, [o], name);
    }
  }

  /** Of several options with distinct names, those called otherwise are all but one. */
  lemma OthersIsWithout(options: seq<Option>, k: nat)
    requires UniqueOptions(options) && k < |options|
    ensures Others(options, options[k].name) == Without(options, k)
  {
    var name := options[k].name;
    OthersAround(options, k, name);
    AllOthers(options[..k], name);
    AllOthers(options[k + 1..], name);
    OthersOfOne(options[k], name);
    EmptyConcat(options[..k]);
  }

  lemma LastFound(options: seq<Option>, o: Option)
    requires forall i | 0 <= i < |options| :: options[i].name != o.name
    ensures FindOption(options + [o], o.name) == |options| && ValueOf(options + [o], o.name) == Some(o.value)
  {
    FoundOption(options + [o], o.name, |options|);
  }

  lemma NotAmongOthers(options: seq<Option>, name: string)
    ensures forall i | 0 <= i < |Others(options, name)| :: Others(options, name)[i].name != name
  {
  }

  // ---------- options ----------

  /** Setting an option stores the value: it is left alone if it is there, and otherwise it is
      last, behind all the other options in their order. */
  lemma SetStores(options: seq<Option>, name: string, value: string)
    requires UniqueOptions(options)
    ensures SetOption(options, name, value)
         == if ValueOf(options, name) == Some(Str(value)) then options
            else Others(options, name) + [Option(name, Str(value))]
    ensures ValueOf(SetOption(options, name, value), name) == Some(Str(value))
  {
    hide Others, UniqueOptions, Without;
    var k := FindOption(options, name);
    if k == |options| {
      AllOthers(options, name);
    } else {
      OthersIsWithout(options, k);
    }
    NotAmongOthers(options, name);
    LastFound(Others(options, name), Option(name, Str(value)));
  }

  /** When several options have the name, which only renaming brings about, the next of them
      shows instead, unless it holds the value too. */
  lemma SetStoresExactly(options: seq<Option>, name: string, value: string)
    ensures var k := FindOption(options, name);
      ValueOf(SetOption(options, name, value), name) == Some(Str(value))
      <==> k == |options| || options[k].value == Str(value)
           || ValueOf(options[k + 1..], name) == None || ValueOf(options[k + 1..], name) == Some(Str(value))
  {
    hide ValueOf, Without;
    var k := FindOption(options, name);
    var o := Option(name, Str(value));
    ValueAt(options, name);
    if k == |options| {
      LastFound(options, o);
    } else {
      NextShows(options, k, o);
    }
  }

  /** With one option taken out, and one of its name put last, the next of that name shows. */
  lemma NextShows(options: seq<Option>, k: nat, o: Option)
    requires k < |options| && FindOption(options, o.name) == k
    ensures ValueOf(Without(options, k) + [o], o.name)
         == Some(if ValueOf(options[k + 1..], o.name).Some? then ValueOf(options[k + 1..], o.name).value else o.value)
  {
    hide ValueOf;
    var rest := options[k + 1..];
    assert Without(options, k) + [o] == options[..k] + (rest + [o]);
    ValueBehind(options[..k], rest + [o], o.name);
    FirstOfTwo(rest, o);
  }

  lemma FirstOfTwo(options: seq<Option>, o: Option)
    ensures ValueOf(options + [o], o.name)
         == Some(if ValueOf(options, o.name).Some? then ValueOf(options, o.name).value else o.value)
  {
    FoundOption(options + [o], o.name, FindOption(options, o.name));
  }

  lemma ValueAt(options: seq<Option>, name: string)
    ensures var k := FindOption(options, name);
      ValueOf(options, name) == if k == |options| then None else Some(options[k].value)
  {
  }

  lemma ValueBehind(a: seq<Option>, b: seq<Option>, name: string)
    requires forall i | 0 <= i < |a| :: a[i].name != name
    ensures ValueOf(a + b, name) == ValueOf(b, name)
  {
    FoundOption(a + b, name, |a| + FindOption(b, name));
  }

  /** Only a set that changes nothing leaves the options as they were. */
  lemma SetChanges(options: seq<Option>, name: string, value: string)
    ensures SetOption(options, name, value) == options <==> ValueOf(options, name) == Some(Str(value))
  {
    var k := FindOption(options, name);
    if k < |options| && SetOption(options, name, value) == options && options[k].value != Str(value) {
      AllAlike(options, Option(name, Str(value)), k, k);
    }
  }

  lemma {:induction false} AllAlike(options: seq<Option>, o: Option, k: nat, j: nat)
    requires k <= j < |options| && Without(options, k) + [o] == options
    ensures options[j] == o
    decreases |options| - j
  {
    var options' := Without(options, k) + [o];
    if j < |options| - 1 {
      AllAlike(options, o, k, j + 1);
      assert options'[j] == options[j + 1];
    }
  }

  /** The items a value contributes when it becomes or is a list. */
  function ItemsOf(v: Maybe<Value>): seq<string> {
    match v
    case None => []
    case Some(Str(s)) => [s]
    case Some(List(items)) => items
  }

  /** Adding to a list puts the item behind what the option held, and leaves the others; a list
      keeps its place, anything else moves to the tail. */
  lemma AddAppends(options: seq<Option>, name: string, item: string)
    requires UniqueOptions(options)
    ensures var options' := AddListOption(options, name, item);
      && ValueOf(options', name) == Some(List(ItemsOf(ValueOf(options, name)) + [item]))
      && Others(options', name) == Others(options, name)
      && FindOption(options', name)
         == if ValueOf(options, name).Some? && ValueOf(options, name).value.List? then FindOption(options, name)
            else |options'| - 1
  {
    hide Others, UniqueOptions, Without;
    var k := FindOption(options, name);
    if k == |options| || options[k].value.Str? {
      var o := Option(name, List(ItemsOf(ValueOf(options, name)) + [item]));
      NotAmongOthers(options, name);
      if k == |options| {
        AllOthers(options, name);
        assert [] + [item] == [item];
      } else {
        OthersIsWithout(options, k);
        assert [options[k].value.text] + [item] == [options[k].value.text, item];
      }
      LastFound(Others(options, name), o);
      OthersConcat(Others(options, name), [o], name);
      AllOthers(Others(options, name), name);
      OthersOfOne(o, name);
      EmptyConcat(Others(options, name));
    } else {
      var o := Option(name, List(options[k].value.items + [item]));
      FoundOption(options[k := o], name, k);
      OthersAround(options, k, name);
      OthersOfOne(o, name);
      OthersOfOne(options[k], name);
    }
  }

  /** A deleted option is gone, and the others are as they were. */
  lemma DeleteRemoves(options: seq<Option>, name: string)
    requires UniqueOptions(options) && FindOption(options, name) < |options|
    ensures Without(options, FindOption(options, name)) == Others(options, name)
    ensures ValueOf(Without(options, FindOption(options, name)), name) == None
  {
    hide Others, UniqueOptions, Without;
    OthersIsWithout(options, FindOption(options, name));
    NotAmongOthers(options, name);
    FoundOption(Others(options, name), name, |Others(options, name)|);
  }

  /** A renamed option is found in its place by its new name, if that name is free, and no
      more by its old one. */
  lemma RenameMoves(options: seq<Option>, name: string, newName: string)
    requires UniqueOptions(options) && FindOption(options, name) < |options|
    requires newName != name && FindOption(options, newName) == |options|
    ensures var k := FindOption(options, name);
      var options' := options[k := options[k].(name := newName)];
      && FindOption(options', newName) == k && ValueOf(options', newName) == ValueOf(options, name)
      && ValueOf(options', name) == None
  {
    var k := FindOption(options, name);
    var options' := options[k := options[k].(name := newName)];
    FoundOption(options', newName, k);
    FoundOption(options', name, |options|);
  }

  // ---------- sections ----------

  predicate UniqueIn(t: Tree, section: string) {
    HasSection(t, section) ==> UniqueOptions(t[FindSection(t, section)].options)
  }

  lemma LookupHere(t: Tree, s: Section, section: string)
    requires HasSection(t, section) && s.name == section
    ensures Lookup(t[FindSection(t, section) := s], section) == Some(s)
  {
    FoundSection(t[FindSection(t, section) := s], section, FindSection(t, section));
  }

  /** After a successful set a lookup finds the value, or the section of that type. */
  lemma SetTreeStores(t: Tree, section: string, option: Maybe<string>, value: string)
    requires SetTree(t, section, option, value).Ok?
    ensures var t' := SetTree(t, section, option, value).value;
      match option
      case Some(o) => UniqueIn(t, section) ==> Entry(t', section, o) == Some(Str(value))
      case None =>
        Lookup(t', section)
        == Some(if HasSection(t, section) then Lookup(t, section).value.(typ := value) else NewSection(section, value))
  {
    hide UniqueOptions, SetOption, ValueOf;
    var k := FindSection(t, section);
    match option
    case Some(o) =>
      var options := t[k].options;
      LookupHere(t, t[k].(options := SetOption(options, o, value)), section);
      if UniqueIn(t, section) {
        SetStores(options, o, value);
      }
    case None =>
      if k < |t| {
        LookupHere(t, t[k].(typ := value), section);
      } else {
        FoundSection(t + [NewSection(section, value)], section, k);
      }
  }

  /** After a successful addition a lookup finds what was there with the item behind it. */
  lemma AddListTreeAppends(t: Tree, section: string, option: string, item: string)
    requires UniqueIn(t, section) && AddListTree(t, section, option, item).Ok?
    ensures Entry(AddListTree(t, section, option, item).value, section, option)
         == Some(List(ItemsOf(Entry(t, section, option)) + [item]))
  {
    hide UniqueOptions, AddListOption, ValueOf, ItemsOf;
    var k := FindSection(t, section);
    LookupHere(t, t[k].(options := AddListOption(t[k].options, option, item)), section);
    AddAppends(t[k].options, option, item);
  }

  /** After a deletion the option is not found, and in place of the section the next one of
      its name, if there is one. */
  lemma DeleteTreeRemoves(t: Tree, section: string, option: Maybe<string>)
    requires DeleteTree(t, section, option).Ok?
    ensures var t' := DeleteTree(t, section, option).value;
      match option
      case Some(o) => UniqueIn(t, section) ==> Entry(t', section, o) == None
      case None => Lookup(t', section) == Lookup(t[FindSection(t, section) + 1..], section)
  {
    hide Lookup, Entry, UniqueIn;
    var k := FindSection(t, section);
    if option.None? {
      LookupPast(t[..k], t[k + 1..], section);
    } else if UniqueIn(t, section) {
      OptionGone(t, section, option.value);
    }
  }

  lemma OptionGone(t: Tree, section: string, o: string)
    requires UniqueIn(t, section) && HasSection(t, section)
    requires FindOption(t[FindSection(t, section)].options, o) < |t[FindSection(t, section)].options|
    ensures var k := FindSection(t, section);
      Entry(t[k := t[k].(options := Without(t[k].options, FindOption(t[k].options, o)))], section, o) == None
  {
    hide UniqueOptions, ValueOf, Without, Lookup;
    var k := FindSection(t, section);
    DeleteRemoves(t[k].options, o);
    LookupHere(t, t[k].(options := Without(t[k].options, FindOption(t[k].options, o))), section);
  }

  lemma LookupPast(a: Tree, b: Tree, name: string)
    requires forall i | 0 <= i < |a| :: a[i].name != name
    ensures Lookup(a + b, name) == Lookup(b, name)
  {
    FoundSection(a + b, name, |a| + FindSection(b, name));
  }

  /** A renamed section is found by its new name, with its options and no longer anonymous,
      unless a section before it has that name: then that one is found. */
  lemma RenamedIsFound(t: Tree, section: string, newName: string)
    requires HasSection(t, section)
    ensures var k := FindSection(t, section);
      var t' := RenameTree(t, section, None, newName).value;
      && (newName == section || k < FindSection(t, newName) ==>
            Lookup(t', newName) == Some(t[k].(name := newName, anonymous := false)))
      && (newName != section && FindSection(t, newName) < k ==> Lookup(t', newName) == Lookup(t, newName))
      && (newName != section ==> Lookup(t', section) == Lookup(t[k + 1..], section))
  {
    hide Lookup;
    var k := FindSection(t, section);
    var t' := t[k := t[k].(name := newName, anonymous := false)];
    RenamedAhead(t, k, t'[k]);
    LookupAt(t, newName);
    if newName != section {
      assert t' == t'[..k + 1] + t[k + 1..];
      LookupPast(t'[..k + 1], t[k + 1..], section);
    }
  }

  lemma LookupAt(t: Tree, name: string)
    ensures var k := FindSection(t, name); Lookup(t, name) == if k == |t| then None else Some(t[k])
  {
  }

  lemma RenamedAhead(t: Tree, k: nat, s: Section)
    requires k < |t|
    ensures k <= FindSection(t, s.name) ==> Lookup(t[k := s], s.name) == Some(s)
    ensures FindSection(t, s.name) < k ==> Lookup(t[k := s], s.name) == Some(t[FindSection(t, s.name)])
  {
    var j := FindSection(t, s.name);
    FoundSection(t[k := s], s.name, if k <= j then k else j);
  }

  lemma FreeNameFound(t: Tree, section: string, newName: string)
    requires HasSection(t, section) && !HasSection(t, newName)
    ensures Lookup(RenameTree(t, section, None, newName).value, newName)
         == Some(Lookup(t, section).value.(name := newName, anonymous := false))
  {
    RenamedIsFound(t, section, newName);
  }
}
