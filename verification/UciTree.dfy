/** The configuration tree: sections of options, the edits the library performs on
    it, and the generated names of anonymous sections. */
module UciTree {
  import opened UciText

  datatype Value = Str(text: string) | List(items: seq<string>)

  datatype Option = Option(name: string, value: Value)

  /** An anonymous section is nameless (name "") until its name is generated. */
  datatype Section = Section(name: string, typ: string, anonymous: bool, options: seq<Option>)

  type Tree = seq<Section>

  // ---------- lookup ----------

  /** Index of the first section with the name, or the length when there is none. */
  function FindSection(t: Tree, name: string): (k: nat)
    ensures k <= |t|
    ensures k < |t| ==> t[k].name == name
    ensures forall i | 0 <= i < k :: t[i].name != name
  {
    if t == [] || t[0].name == name then 0 else 1 + FindSection(t[1..], name)
  }

  function FindOption(options: seq<Option>, name: string): (k: nat)
    ensures k <= |options|
    ensures k < |options| ==> options[k].name == name
    ensures forall i | 0 <= i < k :: options[i].name != name
  {
    if options == [] || options[0].name == name then 0 else 1 + FindOption(options[1..], name)
  }

  predicate HasSection(t: Tree, name: string) {
    FindSection(t, name) < |t|
  }

  lemma FoundSection(t: Tree, name: string, k: nat)
    requires k <= |t| && (k < |t| ==> t[k].name == name)
    requires forall i | 0 <= i < k :: t[i].name != name
    ensures FindSection(t, name) == k
  {
  }

  lemma FoundOption(options: seq<Option>, name: string, k: nat)
    requires k <= |options| && (k < |options| ==> options[k].name == name)
    requires forall i | 0 <= i < k :: options[i].name != name
    ensures FindOption(options, name) == k
  {
  }

  /** The section a lookup by name returns. */
  function Lookup(t: Tree, name: string): Maybe<Section> {
    var k := FindSection(t, name);
    if k == |t| then None else Some(t[k])
  }

  function ValueOf(options: seq<Option>, option: string): Maybe<Value> {
    var k := FindOption(options, option);
    if k == |options| then None else Some(options[k].value)
  }

  /** The value a lookup by section and option returns. */
  function Entry(t: Tree, section: string, option: string): Maybe<Value> {
    var s := Lookup(t, section);
    if s.None? then None else ValueOf(s.value.options, option)
  }

  predicate UniqueOptions(options: seq<Option>) {
    forall i, j | 0 <= i < j < |options| :: options[i].name != options[j].name
  }

  // ---------- option edits ----------

  function Without<T>(s: seq<T>, k: nat): seq<T>
    requires k < |s|
  {
    s[..k] + s[k + 1..]
  }

  /** A changed option is freed and allocated again, so it moves to the tail. */
  function SetOption(options: seq<Option>, name: string, value: string): seq<Option> {
    var k := FindOption(options, name);
    if k == |options| then options + [Option(name, Str(value))]
    else if options[k].value == Str(value) then options
    else Without(options, k) + [Option(name, Str(value))]
  }

  /** Adding to a string first turns it into a one-element list at the tail. */
  function AddListOption(options: seq<Option>, name: string, value: string): seq<Option> {
    var k := FindOption(options, name);
    if k == |options| then options + [Option(name, List([value]))]
    else match options[k].value
      case Str(s) => Without(options, k) + [Option(name, List([s, value]))]
      case List(items) => options[k := Option(name, List(items + [value]))]
  }

  // ---------- tree edits ----------

  /** A section allocated under an empty name is anonymous. */
  function NewSection(name: string, typ: string): Section {
    Section(name, typ, name == "", [])
  }

  function SetTree(t: Tree, section: string, option: Maybe<string>, value: string): (r: Result<Tree>)
    ensures r.Ok? ==> |t| <= |r.value|
  {
    var k := FindSection(t, section);
    match option
    case None =>
      if !ValidType(value) then Err(Invalid)
      else if k == |t| then Ok(t + [NewSection(section, value)])
      else Ok(t[k := t[k].(typ := value)])
    case Some(o) =>
      if k == |t| then Err(Invalid)
      else Ok(t[k := t[k].(options := SetOption(t[k].options, o, value))])
  }

  /** Setting an option to the string it already holds is not a change. */
  predicate Unchanged(t: Tree, section: string, option: Maybe<string>, value: string) {
    var k := FindSection(t, section);
    k < |t| && option.Some? &&
    var j := FindOption(t[k].options, option.value);
    j < |t[k].options| && t[k].options[j].value == Str(value)
  }

  function AddListTree(t: Tree, section: string, option: string, value: string): Result<Tree> {
    var k := FindSection(t, section);
    if k == |t| then Err(Invalid)
    else Ok(t[k := t[k].(options := AddListOption(t[k].options, option, value))])
  }

  function DeleteTree(t: Tree, section: string, option: Maybe<string>): Result<Tree> {
    var k := FindSection(t, section);
    if k == |t| then Err(NotFound)
    else match option
      case None => Ok(Without(t, k))
      case Some(o) =>
        var j := FindOption(t[k].options, o);
        if j == |t[k].options| then Err(NotFound)
        else Ok(t[k := t[k].(options := Without(t[k].options, j))])
  }

  /** Renaming never asks whether the new name is taken. */
  function RenameTree(t: Tree, section: string, option: Maybe<string>, value: string): Result<Tree> {
    var k := FindSection(t, section);
    if k == |t| then Err(NotFound)
    else match option
      case None => Ok(t[k := t[k].(name := value, anonymous := false)])
      case Some(o) =>
        var j := FindOption(t[k].options, o);
        if j == |t[k].options| then Err(NotFound)
        else Ok(t[k := t[k].(options := t[k].options[j := t[k].options[j].(name := value)])])
  }

  // ---------- generated names ----------

  /** The value of a C `char`, which is signed. */
  function CharValue(c: char): int {
    var b := c as int % 256;
    if b < 128 then b else b - 256
  }

  const WORD: nat := 0x1_0000_0000

  function HashChars(hash: nat, s: string): (h: nat)
    requires hash < WORD
    ensures h < WORD
    decreases |s|
  {
    if s == "" then hash
    else HashChars((hash * 33 + CharValue(s[0])) % WORD, s[1..])
  }

  /** One call of the string hash; `None` stands for the all-ones starting value. */
  function Djb(hash: Maybe<nat>, s: string): (h: nat)
    requires hash.Some? ==> hash.value < WORD
    ensures h < 0x8000_0000
  {
    HashChars(if hash.None? then 5381 else hash.value, s) % 0x8000_0000
  }

  method DjbHash(hash: Maybe<nat>, str: string) returns (h: nat)
    requires hash.Some? ==> hash.value < WORD
    ensures h == Djb(hash, str)
  {
    h := if hash.None? then 5381 else hash.value;
    for i := 0 to |str|
      invariant h < WORD
      invariant HashChars(h, str[i..]) == HashChars(if hash.None? then 5381 else hash.value, str)
    {
      h := (h * 33 + CharValue(str[i])) % WORD;
    }
    h := h % 0x8000_0000;
  }

  lemma HashStep(hash: nat, s: string)
    requires hash < WORD && s != ""
    ensures HashChars(hash, s) == HashChars((hash * 33 + CharValue(s[0])) % WORD, s[1..])
  {
  }

  lemma HashEnds(hash: nat)
    requires hash < WORD
    ensures HashChars(hash, "") == hash
  {
  }

  /** The hash of a word long enough to run over, and of a character with its top bit set,
      which counts as a negative number. */
  lemma HashInText()
    ensures Djb(None, "interface") == 313879958 && Djb(None, "\U{00e9}") == 5381 * 33 - 23
  {
    hide HashChars;
    InterfaceHashed();
    HashStep(5381, "\U{00e9}");
    assert "\U{00e9}"[1..] == "";
    HashEnds(5381 * 33 - 23);
  }

  lemma InterfaceHashed()
    ensures HashChars(5381, "interface") == 313879958
  {
    hide HashChars, CharValue;
    var w := "interface";
    assert forall i | 0 <= i < 9 :: w[i..][0] == w[i] && w[i..][1..] == w[i + 1..];
    assert w[0..] == w && w[9..] == "";
    FirstLetters(w);
    Letter(262756775, w[5..], 81039085);
    Letter(81039085, w[6..], 2674289902);
    Letter(2674289902, w[7..], 2352220945);
    Letter(2352220945, w[8..], 313879958);
    HashEnds(313879958);
  }

  lemma FirstLetters(w: string)
    requires w == "interface"
    ensures HashChars(5381, w[0..]) == HashChars(262756775, w[5..])
  {
    hide HashChars, CharValue;
    assert forall i | 0 <= i < 9 :: w[i..][0] == w[i] && w[i..][1..] == w[i + 1..];
    Letter(5381, w[0..], 177678);
    Letter(177678, w[1..], 5863484);
    Letter(5863484, w[2..], 193495088);
    Letter(193495088, w[3..], 2090370709);
    Letter(2090370709, w[4..], 262756775);
  }

  lemma Letter(hash: nat, s: string, next: nat)
    requires hash < WORD && s != "" && s[0] as int < 128 && next == (hash * 33 + s[0] as int) % WORD
    ensures HashChars(hash, s) == HashChars(next, s[1..])
  {
    HashStep(hash, s);
  }

  /** Names of all options and values of the string options are hashed, in order. */
  function HashOptions(hash: nat, options: seq<Option>): (h: nat)
    requires hash < WORD
    ensures h < WORD
    decreases |options|
  {
    if options == [] then hash
    else
      var h := Djb(Some(hash), options[0].name);
      HashOptions(if options[0].value.Str? then Djb(Some(h), options[0].value.text) else h, options[1..])
  }

  function SectionHash(typ: string, options: seq<Option>): (h: nat)
    ensures h < WORD
  {
    HashOptions(Djb(None, typ), options)
  }

  function HexDigit(d: nat): char
    requires d < 16
  {
    if d < 10 then ('0' as int + d) as char else ('a' as int + d - 10) as char
  }

  function Hex(n: nat): string {
    if n < 16 then [HexDigit(n)] else Hex(n / 16) + [HexDigit(n % 16)]
  }

  function ZeroPad(s: string, width: nat): string
    decreases width - |s|
  {
    if |s| >= width then s else ZeroPad("0" + s, width)
  }

  function GeneratedName(n: nat, hash: nat): string {
    "cfg" + ZeroPad(Hex(n), 2) + ZeroPad(Hex(hash % 0x1_0000), 4)
  }

  /** The name the n-th counter value gives to a section of this content. */
  function NameFor(n: nat, s: Section): string {
    GeneratedName(n, SectionHash(s.typ, s.options))
  }

  function DigitValue(c: char): int {
    if '0' <= c <= '9' then c as int - '0' as int else c as int - 'a' as int + 10
  }

  function HexValue(s: string): int {
    if s == "" then 0 else 16 * HexValue(s[..|s| - 1]) + DigitValue(s[|s| - 1])
  }

  lemma {:induction false} HexRoundTrip(n: nat)
    ensures HexValue(Hex(n)) == n && ValidName(Hex(n))
    ensures forall w: nat | n < Power16(w) && w > 0 :: |Hex(n)| <= w
  {
    if n < 16 {
      assert HexValue([HexDigit(n)]) == DigitValue(HexDigit(n));
    } else {
      HexRoundTrip(n / 16);
      assert Hex(n)[..|Hex(n)| - 1] == Hex(n / 16);
      forall w: nat | n < Power16(w) && w > 0 ensures |Hex(n)| <= w {
        assert w > 1 by { assert Power16(1) == 16 * Power16(0) == 16; }
        assert n / 16 < Power16(w - 1);
      }
    }
  }

  function Power16(w: nat): nat {
    if w == 0 then 1 else 16 * Power16(w - 1)
  }

  lemma {:induction false} LeadingZero(s: string)
    ensures HexValue("0" + s) == HexValue(s)
  {
    if s == "" {
      assert HexValue("0") == DigitValue('0');
    } else {
      assert ("0" + s)[..|s|] == "0" + s[..|s| - 1];
      LeadingZero(s[..|s| - 1]);
    }
  }

  lemma {:induction false} ZeroPadValue(s: string, width: nat)
    requires ValidName(s)
    ensures HexValue(ZeroPad(s, width)) == HexValue(s)
    ensures ValidName(ZeroPad(s, width))
    ensures |ZeroPad(s, width)| == if |s| < width then width else |s|
    decreases width - |s|
  {
    if |s| < width {
      LeadingZero(s);
      ZeroPadValue("0" + s, width);
    }
  }

  /** Generated names are valid names, and two of them agree only when both the
      counter and the low half of the hash do. */
  lemma GeneratedNameInjective(n: nat, h: nat, n': nat, h': nat)
    ensures ValidName(GeneratedName(n, h))
    ensures GeneratedName(n, h) == GeneratedName(n', h') ==> n == n' && h % 0x1_0000 == h' % 0x1_0000
  {
    GeneratedNameParts(n, h);
    GeneratedNameParts(n', h');
  }

  lemma GeneratedNameParts(n: nat, h: nat)
    ensures var g := GeneratedName(n, h);
      && |g| >= 9 && g[..3] == "cfg" && ValidName(g)
      && HexValue(g[3..|g| - 4]) == n && HexValue(g[|g| - 4..]) == h % 0x1_0000
  {
    var low := h % 0x1_0000;
    HexRoundTrip(n);
    HexRoundTrip(low);
    assert low < Power16(4) by { assert Power16(4) == 16 * (16 * (16 * 16)); }
    var a, b := ZeroPad(Hex(n), 2), ZeroPad(Hex(low), 4);
    ZeroPadValue(Hex(n), 2);
    ZeroPadValue(Hex(low), 4);
    var g := GeneratedName(n, h);
    assert g[3..|g| - 4] == a && g[|g| - 4..] == b;
  }

  lemma HexInText()
    ensures Hex(0xb61f) == "b61f"
  {
    assert Hex(0xb) == "b";
    assert Hex(0xb6) == Hex(0xb) + "6" == "b6";
    assert Hex(0xb61) == Hex(0xb6) + "1" == "b61";
    assert Hex(0xb61f) == Hex(0xb61) + "f";
  }

  /** A generated name as it stands in a file: the letters, the counter in two digits or
      more, and the low half of the hash in four. */
  lemma NameInText()
    ensures GeneratedName(2, 0x2b61f) == "cfg02b61f"
  {
    hide Hex;
    HexInText();
    assert Hex(2) == "2" by { ShortHex(2); }
    assert ZeroPad("2", 2) == ZeroPad("0" + "2", 2) == "02" && ZeroPad("b61f", 4) == "b61f";
  }

  lemma ShortHex(n: nat)
    requires n < 16
    ensures Hex(n) == [HexDigit(n)]
  {
  }

  // ---------- invariants ----------

  predicate ValueOk(v: Value) {
    match v
    case Str(s) => NewlineFree(s)
    case List(items) => items != [] && forall i | i in items :: NewlineFree(i)
  }

  predicate OptionOk(o: Option) {
    ValidName(o.name) && ValueOk(o.value)
  }

  predicate SectionOk(s: Section) {
    ValidName(s.name) && ValidType(s.typ) && forall o | o in s.options :: OptionOk(o)
  }

  /** What holds of every tree the library loads: valid names and types, values of one
      line, and no list option without an element. */
  predicate TreeOk(t: Tree) {
    forall s | s in t :: SectionOk(s)
  }

  lemma SetOptionOk(options: seq<Option>, name: string, value: string)
    requires ValidName(name) && NewlineFree(value) && forall o | o in options :: OptionOk(o)
    ensures forall o | o in SetOption(options, name, value) :: OptionOk(o)
  {
  }

  lemma AddListOptionOk(options: seq<Option>, name: string, value: string)
    requires ValidName(name) && NewlineFree(value) && forall o | o in options :: OptionOk(o)
    ensures forall o | o in AddListOption(options, name, value) :: OptionOk(o)
  {
    var k := FindOption(options, name);
    if k < |options| {
      assert OptionOk(options[k]);
    }
  }
}
