/** The ways to spell an argument: bare, in either kind of quotes, after a backslash, and any of
    these one after the other. */
module UciSpelling {
  import opened UciText
  import opened UciTokens

  datatype Piece = Bare(text: string) | InSingle(text: string) | InDouble(text: string) | Slashed(c: char)

  /** A character that stands for itself outside quotes. */
  predicate Plain(c: char) {
    !IsSpace(c) && c !in {'\'', '"', '#', ';', '\\'}
  }

  predicate PieceOk(p: Piece) {
    match p
    case Bare(text) => text != "" && forall c | c in text :: Plain(c)
    case InSingle(text) => '\'' !in text
    case _ => true
  }

  /** Inside double quotes a double quote and a backslash need a backslash. */
  function DoubleEscape(s: string): string {
    if s == "" then ""
    else (if s[0] == '"' || s[0] == '\\' then ['\\', s[0]] else [s[0]]) + DoubleEscape(s[1..])
  }

  function Spell(p: Piece): string {
    match p
    case Bare(text) => text
    case InSingle(text) => "'" + (text + "'")
    case InDouble(text) => "\"" + (DoubleEscape(text) + "\"")
    case Slashed(c) => ['\\', c]
  }

  function Meaning(p: Piece): string {
    if p.Slashed? then [p.c] else p.text
  }

  function SpellAll(ps: seq<Piece>): string {
    if ps == [] then "" else Spell(ps[0]) + SpellAll(ps[1..])
  }

  function MeaningAll(ps: seq<Piece>): string {
    if ps == [] then "" else Meaning(ps[0]) + MeaningAll(ps[1..])
  }

  // ---------- one piece ----------

  lemma {:induction false} ScanBare(s: string, tail: string, gap: bool)
    requires forall c | c in s :: Plain(c)
    ensures Scan(s + tail, After, gap) == Prepend(s, Scan(tail, After, gap))
  {
    hide Scan;
    if s == "" {
      EmptyConcat(tail);
      PrependTwice("", "", Scan(tail, After, gap));
    } else {
      FirstOf(s, tail);
      AfterIsBody(s + tail, gap);
      BodyStep(s + tail, gap);
      ScanBare(s[1..], tail, gap);
      PrependTwice([s[0]], s[1..], Scan(tail, After, gap));
      assert [s[0]] + s[1..] == s;
    }
  }

  lemma FirstOf(s: string, tail: string)
    requires s != ""
    ensures s + tail != "" && (s + tail)[0] == s[0] && (s + tail)[1..] == s[1..] + tail && s[0] in s
  {
  }

  lemma {:induction false} ScanSingle(s: string, tail: string)
    requires '\'' !in s
    ensures Scan(s + ("'" + tail), Single, true) == Prepend(s, Scan(tail, After, true))
  {
    hide Scan;
    if s == "" {
      EmptyConcat("'" + tail);
      SingleStep("'" + tail);
      assert ("'" + tail)[1..] == tail;
      PrependTwice("", "", Scan(tail, After, true));
    } else {
      FirstOf(s, "'" + tail);
      SingleStep(s + ("'" + tail));
      ScanSingle(s[1..], tail);
      PrependTwice([s[0]], s[1..], Scan(tail, After, true));
      assert [s[0]] + s[1..] == s;
    }
  }

  lemma {:induction false} ScanDouble(s: string, tail: string)
    ensures Scan(DoubleEscape(s) + ("\"" + tail), Double, true) == Prepend(s, Scan(tail, After, true))
  {
    hide Scan;
    if s == "" {
      EmptyConcat("\"" + tail);
      DoubleStep("\"" + tail);
      assert ("\"" + tail)[1..] == tail;
      PrependTwice("", "", Scan(tail, After, true));
    } else {
      var rest := DoubleEscape(s[1..]) + ("\"" + tail);
      ScanDouble(s[1..], tail);
      PrependTwice([s[0]], s[1..], Scan(tail, After, true));
      assert [s[0]] + s[1..] == s;
      if s[0] == '"' || s[0] == '\\' {
        Assoc(['\\', s[0]], DoubleEscape(s[1..]), "\"" + tail);
        var line := ['\\', s[0]] + rest;
        DoubleStep(line);
        assert line[1..][0] == s[0] && line[1..][1..] == rest;
      } else {
        Assoc([s[0]], DoubleEscape(s[1..]), "\"" + tail);
        DoubleStep([s[0]] + rest);
        assert ([s[0]] + rest)[1..] == rest;
      }
    }
  }

  /** Anything but bare text leaves fewer characters than were read. */
  function GapAfter(p: Piece, gap: bool): bool {
    gap || !p.Bare?
  }

  lemma SpellStarts(p: Piece)
    requires PieceOk(p)
    ensures Spell(p) != "" && !IsSpace(Spell(p)[0])
  {
    assert p.Bare? ==> p.text[0] in p.text;
  }

  lemma ScanPiece(p: Piece, tail: string, gap: bool)
    requires PieceOk(p)
    ensures Scan(Spell(p) + tail, After, gap) == Prepend(Meaning(p), Scan(tail, After, GapAfter(p, gap)))
    ensures Scan(Spell(p) + tail, Body, gap) == Scan(Spell(p) + tail, After, gap)
  {
    hide Scan, DoubleEscape;
    var line := Spell(p) + tail;
    SpellStarts(p);
    FirstOf(Spell(p), tail);
    AfterIsBody(line, gap);
    match p
    case Bare(text) => ScanBare(text, tail, gap);
    case InSingle(text) =>
      QuoteOpens(line, gap);
      assert line[1..] == text + ("'" + tail);
      ScanSingle(text, tail);
    case InDouble(text) =>
      QuoteOpens(line, gap);
      assert line[1..] == DoubleEscape(text) + ("\"" + tail);
      ScanDouble(text, tail);
    case Slashed(c) =>
      BodyStep(line, gap);
      assert line[1..][0] == c && line[1..][1..] == tail;
  }

  // ---------- an argument ----------

  /** What may follow an argument. */
  predicate EndsArgument(tail: string) {
    tail == "" || IsSpace(tail[0]) || tail[0] == '#' || tail[0] == ';'
  }

  /** What is still unread: nothing after a comment, the text behind a space, and the ';'
      itself, unless the terminator of an argument without a gap was written over it. */
  function Unread(tail: string, gap: bool): string
    requires EndsArgument(tail)
  {
    if tail == "" || tail[0] == '#' then ""
    else if tail[0] == ';' then if gap then tail else ""
    else tail[1..]
  }

  predicate HasGap(ps: seq<Piece>) {
    exists p | p in ps :: !p.Bare?
  }

  lemma Ends(tail: string, gap: bool)
    requires EndsArgument(tail)
    ensures Scan(tail, After, gap) == Ok(Token("", Unread(tail, gap)))
  {
  }

  lemma {:induction false} ScanPieces(ps: seq<Piece>, tail: string, gap: bool)
    requires EndsArgument(tail) && forall p | p in ps :: PieceOk(p)
    ensures Scan(SpellAll(ps) + tail, After, gap) == Ok(Token(MeaningAll(ps), Unread(tail, gap || HasGap(ps))))
  {
    hide Scan, Spell, Meaning, Unread;
    if ps == [] {
      EmptyConcat(tail);
      Ends(tail, gap);
    } else {
      var p, rest := ps[0], ps[1..];
      assert ps == [p] + rest;
      Assoc(Spell(p), SpellAll(rest), tail);
      ScanPiece(p, SpellAll(rest) + tail, gap);
      ScanPieces(rest, tail, GapAfter(p, gap));
    }
  }

  /** However an argument is spelled, it reads back as what its pieces mean, and leaves what
      its end says. Only a backslash in front of everything is lost while space is skipped. */
  lemma SpelledArg(ps: seq<Piece>, tail: string)
    requires ps != [] && !ps[0].Slashed? && forall p | p in ps :: PieceOk(p)
    requires EndsArgument(tail)
    ensures RawArg(SpellAll(ps) + tail) == Ok(Token(MeaningAll(ps), Unread(tail, HasGap(ps))))
  {
    hide Scan, DoubleEscape, MeaningAll, Unread, HasGap;
    var line := SpellAll(ps) + tail;
    var rest := SpellAll(ps[1..]) + tail;
    Assoc(Spell(ps[0]), SpellAll(ps[1..]), tail);
    SpellStarts(ps[0]);
    FirstOf(Spell(ps[0]), rest);
    StartsPlainly(ps[0]);
    ScanPieces(ps, tail, false);
    ScanPiece(ps[0], rest, false);
  }

  lemma StartsPlainly(p: Piece)
    requires PieceOk(p) && !p.Slashed?
    ensures Spell(p) != "" && Spell(p)[0] != '\\' && Spell(p)[0] != ';'
  {
    assert p.Bare? ==> p.text[0] in p.text;
  }
}
