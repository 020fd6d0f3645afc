/**
The grammar of ADI files, written down from the outside: a file is text and tags in any
spelling, with a value behind each field tag, and may break off in the middle. Every byte
string is such a file, and the reference reading `Lex` gives each its meaning.
*/
module AdifGrammar {
  import opened Wrappers
  import opened GoStrings
  import opened Sequences
  import opened AdifSyntax
  import opened AdifReference
  import opened AdifGuarantees
  import opened AdifRoundTrip
  import Utf8

  // ---------- tags ----------

  /** What stands between '<' and '>', by the number of colons that count. */
  datatype Spelling = Bare(name: string) | Sized(name: string, length: string)
    | Typed(name: string, length: string, dataType: string)

  function Content(t: Spelling): string {
    match t
    case Bare(name) => name
    case Sized(name, length) => name + [':'] + length
    case Typed(name, length, dataType) => name + [':'] + (length + [':'] + dataType)
  }

  /** The colons are the ones that separate. */
  predicate Separated(t: Spelling) {
    ':' !in t.name && (t.Bare? || ':' !in t.length)
  }

  /** What the parts mean, each trimmed on its own; None when there is no name or no length. */
  function Meant(t: Spelling): Option<Tag> {
    var name := TrimSpace(t.name);
    if name == "" then None
    else if t.Bare? then Some(Tag(name, 0, ""))
    else
      match ParseInt(TrimSpace(t.length))
      case None => None
      case Some(n) => if n < 0 then None else Some(Tag(name, n, if t.Typed? then TrimSpace(t.dataType) else ""))
  }

  lemma TrimmedParts(name: string, length: string)
    requires ':' !in name && ':' !in length
    ensures ':' !in TrimLeft(name) && ':' !in TrimRight(length)
  {
    TrimLeftSpec(name);
    TrimRightSpec(length);
  }

  lemma BareMeans(name: string)
    requires ':' !in name
    ensures ParseTag(name) == Meant(Bare(name))
  {
    TrimSpaceSpec(name);
  }

  lemma SizedMeans(name: string, length: string)
    requires ':' !in name && ':' !in length
    ensures ParseTag(name + [':'] + length) == Meant(Sized(name, length))
  {
    TrimSpaceAround(name, ':', length);
    TrimmedParts(name, length);
    SplitNHead(TrimLeft(name), ':', TrimRight(length), 3);
    TrimLeftFirst(name);
    TrimRightFirst(length);
  }

  lemma SplitThree(a: string, b: string, c: string)
    requires ':' !in a && ':' !in b
    ensures SplitN(a + [':'] + (b + [':'] + c), ':', 3) == [a, b, c]
  {
    SplitNHead(a, ':', b + [':'] + c, 3);
    SplitNHead(b, ':', c, 2);
  }

  lemma TypedTrims(name: string, length: string, dataType: string)
    ensures TrimSpace(name + [':'] + (length + [':'] + dataType))
         == TrimLeft(name) + [':'] + (length + [':'] + TrimRight(dataType))
  {
    TrimSpaceAround(name, ':', length + [':'] + dataType);
    TrimRightPast(length, ':', dataType);
  }

  lemma TypedSplits(name: string, length: string, dataType: string)
    requires ':' !in name && ':' !in length
    ensures var tag := TrimSpace(name + [':'] + (length + [':'] + dataType));
      && tag != "" && ':' in tag
      && SplitN(tag, ':', 3) == [TrimLeft(name), length, TrimRight(dataType)]
  {
    var a, c := TrimLeft(name), TrimRight(dataType);
    TypedTrims(name, length, dataType);
    TrimmedParts(name, length);
    SplitThree(a, length, c);
    assert (a + [':'] + (length + [':'] + c))[|a|] == ':';
  }

  lemma TypedMeans(name: string, length: string, dataType: string)
    requires ':' !in name && ':' !in length
    ensures ParseTag(name + [':'] + (length + [':'] + dataType)) == Meant(Typed(name, length, dataType))
  {
    TypedSplits(name, length, dataType);
    TrimLeftFirst(name);
    TrimRightFirst(dataType);
  }

  /** A tag means what its parts mean, however they are padded. */
  lemma ContentMeans(t: Spelling)
    requires Separated(t)
    ensures ParseTag(Content(t)) == Meant(t)
  {
    match t {
      case Bare(name) => BareMeans(name);
      case Sized(name, length) => SizedMeans(name, length);
      case Typed(name, length, dataType) => TypedMeans(name, length, dataType);
    }
  }

  /** A string up to its first colon and behind it. */
  lemma AtColon(s: string) returns (front: string, back: string)
    requires ':' in s
    ensures ':' !in front && s == front + [':'] + back
  {
    var i := IndexOf(s, ':');
    IndexOfFirst(s, ':');
    front, back := s[..i], s[i + 1..];
  }

  /** Every tag is spelled in one of these ways. */
  lemma EveryContent(content: string) returns (t: Spelling)
    ensures Separated(t) && Content(t) == content
  {
    if ':' !in content {
      t := Bare(content);
    } else {
      var name, rest := AtColon(content);
      if ':' !in rest {
        t := Sized(name, rest);
      } else {
        var length, dataType := AtColon(rest);
        t := Typed(name, length, dataType);
      }
    }
  }

  // ---------- files ----------

  /** Text between tags, or a tag with the value behind it. */
  datatype Part = Text(text: string) | Tagged(tag: Spelling, value: string)

  /** How a file ends: after a whole part, in a tag, in a value, or with a field that is too long to be read. */
  datatype Ending = Whole | InTag(tag: Spelling) | InValue(tag: Spelling, value: string) | TooLong(tag: Spelling, rest: string)

  predicate IsMarker(tag: Tag) {
    ToUpper(tag.name) == "EOR" || ToUpper(tag.name) == "EOH"
  }

  /** A tag that can be closed. */
  predicate Closable(t: Spelling) {
    Separated(t) && '>' !in Content(t)
  }

  function TagToken(tag: Tag, value: string, cfg: Config): Token {
    var name := ToUpper(tag.name);
    if name == "EOR" then Eor
    else if name == "EOH" then Eoh
    else Item(Field(name, Utf8.Sanitize(value, cfg.legacy), tag.dataType))
  }

  function PartText(p: Part): string {
    match p
    case Text(text) => text
    case Tagged(t, value) => "<" + Content(t) + ">" + value
  }

  /** A value belongs to its tag: as long as the tag says, and none behind markers and malformed tags. */
  predicate PartOk(p: Part, cfg: Config) {
    match p
    case Text(text) => '<' !in text
    case Tagged(t, value) =>
      && Closable(t)
      && match Meant(t)
         case None => value == ""
         case Some(tag) => if IsMarker(tag) then value == "" else |value| == tag.length <= cfg.maxFieldLen
  }

  function PartTokens(p: Part, cfg: Config): seq<Token> {
    match p
    case Text(_) => []
    case Tagged(t, value) =>
      match Meant(t)
      case None => []
      case Some(tag) => [TagToken(tag, value, cfg)]
  }

  function EndText(e: Ending): string {
    match e
    case Whole => ""
    case InTag(t) => "<" + Content(t)
    case InValue(t, value) => "<" + Content(t) + ">" + value
    case TooLong(t, rest) => "<" + Content(t) + ">" + rest
  }

  predicate EndOk(e: Ending, cfg: Config) {
    match e
    case Whole => true
    case InTag(t) => Closable(t)
    case InValue(t, value) =>
      Closable(t) && Meant(t).Some? && !IsMarker(Meant(t).value) && |value| < Meant(t).value.length <= cfg.maxFieldLen
    case TooLong(t, rest) =>
      Closable(t) && Meant(t).Some? && !IsMarker(Meant(t).value) && Meant(t).value.length > cfg.maxFieldLen
  }

  function EndTokens(e: Ending, cfg: Config): seq<Token> {
    match e
    case Whole => []
    case InTag(t) =>
      (match Meant(t)
       case None => []
       case Some(tag) =>
         if !IsMarker(tag) && tag.length > cfg.maxFieldLen then [Oversize(tag.name, tag.length, 0)]
         else [TagToken(tag, "", cfg)])
    case InValue(t, value) => if Meant(t).Some? then [TagToken(Meant(t).value, value, cfg)] else []
    case TooLong(t, rest) =>
      if Meant(t).Some? then [Oversize(Meant(t).value.name, Meant(t).value.length, |rest|)] + Lex(rest, cfg) else []
  }

  function FileText(parts: seq<Part>, e: Ending): string {
    if parts == [] then EndText(e) else PartText(parts[0]) + FileText(parts[1..], e)
  }

  function FileMeaning(parts: seq<Part>, e: Ending, cfg: Config): seq<Token> {
    if parts == [] then EndTokens(e, cfg) else PartTokens(parts[0], cfg) + FileMeaning(parts[1..], e, cfg)
  }

  predicate FileOk(parts: seq<Part>, e: Ending, cfg: Config) {
    (forall i :: 0 <= i < |parts| ==> PartOk(parts[i], cfg)) && EndOk(e, cfg)
  }

  // ---------- every file has its meaning ----------

  lemma LexTagged(t: Spelling, rest: string, cfg: Config)
    requires Closable(t)
    ensures Lex("<" + Content(t) + ">" + rest, cfg) == LexContent(Content(t), rest, cfg)
    ensures ParseTag(Content(t)) == Meant(t)
  {
    LexTagText(Content(t), rest, cfg);
    ContentMeans(t);
  }

  lemma LexUnclosed(t: Spelling, cfg: Config)
    requires Closable(t)
    ensures Lex("<" + Content(t), cfg) == LexContent(Content(t), "", cfg)
  {
    var content := Content(t);
    var s := "<" + content;
    assert s[0] == '<' && s[1..] == content;
    LexTagUnclosed(content, cfg);
  }

  lemma PartLexes(p: Part, rest: string, cfg: Config)
    requires PartOk(p, cfg)
    ensures Lex(PartText(p) + rest, cfg) == PartTokens(p, cfg) + Lex(rest, cfg)
  {
    match p {
      case Text(text) =>
        LexSkip(text, rest, cfg);
        assert [] + Lex(rest, cfg) == Lex(rest, cfg);
      case Tagged(t, value) =>
        TaggedLexes(t, value, rest, cfg);
    }
  }

  lemma TaggedLexes(t: Spelling, value: string, rest: string, cfg: Config)
    requires PartOk(Tagged(t, value), cfg)
    ensures Lex(PartText(Tagged(t, value)) + rest, cfg) == PartTokens(Tagged(t, value), cfg) + Lex(rest, cfg)
  {
    Associative("<" + Content(t) + ">", value, rest);
    LexTagged(t, value + rest, cfg);
    assert "" + rest == rest;
    if Meant(t).Some? && !IsMarker(Meant(t).value) {
      LexItem(Content(t), value, rest, cfg);
    }
    assert [] + Lex(rest, cfg) == Lex(rest, cfg);
  }

  lemma InTagLexes(t: Spelling, cfg: Config)
    requires Closable(t)
    ensures Lex("<" + Content(t), cfg) == EndTokens(InTag(t), cfg)
  {
    LexUnclosed(t, cfg);
    ContentMeans(t);
  }

  lemma InValueLexes(t: Spelling, value: string, cfg: Config)
    requires EndOk(InValue(t, value), cfg)
    ensures Lex("<" + Content(t) + ">" + value, cfg) == EndTokens(InValue(t, value), cfg)
  {
    LexTagged(t, value, cfg);
    LexItem(Content(t), value, "", cfg);
    assert value + "" == value;
  }

  lemma TooLongLexes(t: Spelling, rest: string, cfg: Config)
    requires EndOk(TooLong(t, rest), cfg)
    ensures Lex("<" + Content(t) + ">" + rest, cfg) == EndTokens(TooLong(t, rest), cfg)
  {
    LexTagged(t, rest, cfg);
  }

  lemma EndLexes(e: Ending, cfg: Config)
    requires EndOk(e, cfg)
    ensures Lex(EndText(e), cfg) == EndTokens(e, cfg)
  {
    match e {
      case Whole =>
      case InTag(t) => InTagLexes(t, cfg);
      case InValue(t, value) => InValueLexes(t, value, cfg);
      case TooLong(t, rest) => TooLongLexes(t, rest, cfg);
    }
  }

  /** Every file of the grammar reads as it is meant, in whatever spelling. */
  lemma {:induction false} FileLexes(parts: seq<Part>, e: Ending, cfg: Config)
    requires FileOk(parts, e, cfg)
    ensures Lex(FileText(parts, e), cfg) == FileMeaning(parts, e, cfg)
  {
    if parts == [] {
      EndLexes(e, cfg);
    } else {
      FileLexes(parts[1..], e, cfg);
      PartLexes(parts[0], FileText(parts[1..], e), cfg);
    }
  }

  lemma FileCons(p: Part, parts: seq<Part>, e: Ending, cfg: Config)
    requires PartOk(p, cfg) && FileOk(parts, e, cfg)
    ensures FileOk([p] + parts, e, cfg) && FileText([p] + parts, e) == PartText(p) + FileText(parts, e)
  {
    assert ([p] + parts)[1..] == parts;
  }

  /** Up to the first '>', or all when there is none. */
  lemma AtClose(s: string) returns (content: string, closed: bool, rest: string)
    ensures '>' !in content && s == (if closed then content + ['>'] + rest else content)
  {
    var i := IndexOf(s, '>');
    IndexOfFirst(s, '>');
    content, closed := s[..i], i < |s|;
    rest := if closed then s[i + 1..] else "";
  }

  /** Every byte string is a file of the grammar, so `FileLexes` says how each is read. */
  lemma {:induction false} EveryFile(data: string, cfg: Config) returns (parts: seq<Part>, e: Ending)
    ensures FileOk(parts, e, cfg) && FileText(parts, e) == data
    decreases |data|
  {
    parts, e := [], Whole;
    if data != [] {
      if data[0] != '<' {
        var more, e' := EveryFile(data[1..], cfg);
        FileCons(Text([data[0]]), more, e', cfg);
        parts, e := [Text([data[0]])] + more, e';
      } else {
        var content, closed, rest := AtClose(data[1..]);
        var t := EveryContent(content);
        if !closed {
          e := InTag(t);
        } else {
          assert data == "<" + content + ">" + rest;
          var n := ValueLength(t, rest, cfg);
          if n.None? {
            e := TooLong(t, rest);
          } else if n.value > |rest| {
            e := InValue(t, rest);
          } else {
            var p := Tagged(t, rest[..n.value]);
            var more, e' := EveryFile(rest[n.value..], cfg);
            FileCons(p, more, e', cfg);
            Associative("<" + content + ">", rest[..n.value], rest[n.value..]);
            Cut(rest, n.value);
            parts, e := [p] + more, e';
          }
        }
      }
    }
  }

  /** The length of the value behind a tag; None when it is too long to be read. */
  function ValueLength(t: Spelling, rest: string, cfg: Config): Option<nat> {
    match Meant(t)
    case None => Some(0)
    case Some(tag) =>
      if IsMarker(tag) then Some(0) else if tag.length > cfg.maxFieldLen then None else Some(tag.length)
  }

  // ---------- what a parse makes of it ----------

  lemma PartNoOversize(p: Part, cfg: Config)
    ensures NoOversize(PartTokens(p, cfg))
  {
  }

  lemma {:induction false} WholeNoOversize(parts: seq<Part>, cfg: Config)
    ensures NoOversize(FileMeaning(parts, Whole, cfg))
  {
    if parts != [] {
      WholeNoOversize(parts[1..], cfg);
      PartNoOversize(parts[0], cfg);
    }
  }

  /** Without over-length fields a parse does not depend on the size of the file. */
  lemma SizeIrrelevant(toks: seq<Token>, max: nat, total: nat, total': nat)
    requires NoOversize(toks)
    ensures ParseTokens(toks, max, total) == ParseTokens(toks, max, total')
  {
    RecordBoundaries(toks, max, total);
    RecordBoundaries(toks, max, total');
    StopIsEnd(toks, total);
    StopIsEnd(toks, total');
  }

  /** Files that mean the same are parsed alike: text between tags, padding, case and malformed tags do not matter. */
  lemma SameMeaningSameParse(parts: seq<Part>, again: seq<Part>, cfg: Config)
    requires FileOk(parts, Whole, WithDefaults(cfg)) && FileOk(again, Whole, WithDefaults(cfg))
    requires FileMeaning(parts, Whole, WithDefaults(cfg)) == FileMeaning(again, Whole, WithDefaults(cfg))
    requires !(BOM <= FileText(parts, Whole)) && !(BOM <= FileText(again, Whole))
    ensures Parse(FileText(parts, Whole), cfg) == Parse(FileText(again, Whole), cfg)
  {
    var c := WithDefaults(cfg);
    FileLexes(parts, Whole, c);
    FileLexes(again, Whole, c);
    WholeNoOversize(parts, c);
    SizeIrrelevant(FileMeaning(parts, Whole, c), c.maxRecords, |FileText(parts, Whole)|, |FileText(again, Whole)|);
  }

  /** EOR or EOH in any case, padded or not, with or without a length. */
  predicate IsMark(p: Part, name: string) {
    p.Tagged? && p.value == "" && Closable(p.tag) && Meant(p.tag).Some? && ToUpper(Meant(p.tag).value.name) == name
  }

  predicate SameButForMarks(parts: seq<Part>, again: seq<Part>) {
    && |parts| == |again|
    && forall i :: 0 <= i < |parts| ==>
      || parts[i] == again[i]
      || (IsMark(parts[i], "EOR") && IsMark(again[i], "EOR"))
      || (IsMark(parts[i], "EOH") && IsMark(again[i], "EOH"))
  }

  lemma {:induction false} MarksMeanTheSame(parts: seq<Part>, again: seq<Part>, cfg: Config)
    requires SameButForMarks(parts, again)
    ensures FileMeaning(parts, Whole, cfg) == FileMeaning(again, Whole, cfg)
  {
    if parts != [] {
      MarksMeanTheSame(parts[1..], again[1..], cfg);
    }
  }

  /** Spelling the markers of a file differently changes nothing. */
  lemma MarksRespelled(parts: seq<Part>, again: seq<Part>, cfg: Config)
    requires FileOk(parts, Whole, WithDefaults(cfg)) && SameButForMarks(parts, again)
    requires !(BOM <= FileText(parts, Whole)) && !(BOM <= FileText(again, Whole))
    ensures Parse(FileText(parts, Whole), cfg) == Parse(FileText(again, Whole), cfg)
  {
    forall i | 0 <= i < |again|
      ensures PartOk(again[i], WithDefaults(cfg))
    {
      assert PartOk(parts[i], WithDefaults(cfg));
    }
    MarksMeanTheSame(parts, again, WithDefaults(cfg));
    SameMeaningSameParse(parts, again, cfg);
  }

  /** A marker in any spelling, on its own. */
  lemma AnyMarker(m: string, rest: string, cfg: Config)
    requires ':' !in m && '>' !in m
    ensures ToUpper(TrimSpace(m)) == "EOR" ==> Lex("<" + m + ">" + rest, cfg) == [Eor] + Lex(rest, cfg)
    ensures ToUpper(TrimSpace(m)) == "EOH" ==> Lex("<" + m + ">" + rest, cfg) == [Eoh] + Lex(rest, cfg)
  {
    var p := Tagged(Bare(m), "");
    if ToUpper(TrimSpace(m)) == "EOR" || ToUpper(TrimSpace(m)) == "EOH" {
      PartLexes(p, rest, cfg);
      assert PartText(p) == "<" + m + ">";
    }
  }

  // ---------- where an over-length field is reported ----------

  lemma {:induction false} StopPast(front: seq<Token>, back: seq<Token>, total: nat)
    requires NoOversize(front)
    ensures Stop(front + back, total) == Stop(back, total)
  {
    if front == [] {
      assert front + back == back;
    } else {
      Uncons(front, back);
      StopPast(front[1..], back, total);
    }
  }

  lemma {:induction false} StopAtTooLong(parts: seq<Part>, t: Spelling, rest: string, total: nat, cfg: Config)
    requires EndOk(TooLong(t, rest), cfg)
    ensures var tag := Meant(t).value;
      Stop(FileMeaning(parts, TooLong(t, rest), cfg), total) == ParseError(total - |rest|, tag.name, tag.length)
  {
    if parts != [] {
      PartNoOversize(parts[0], cfg);
      StopAtTooLong(parts[1..], t, rest, total, cfg);
      StopPast(PartTokens(parts[0], cfg), FileMeaning(parts[1..], TooLong(t, rest), cfg), total);
    }
  }

  lemma {:induction false} FileTextEnds(parts: seq<Part>, e: Ending)
    ensures FileText(parts, e) == FileText(parts, Whole) + EndText(e)
  {
    if parts == [] {
      assert "" + EndText(e) == EndText(e);
    } else {
      FileTextEnds(parts[1..], e);
      Associative(PartText(parts[0]), FileText(parts[1..], Whole), EndText(e));
    }
  }

  /** The error of a parse of `toks` that an over-length field `tag` ends, when it is reported at `position`. */
  function TooLongError(tag: Tag, position: int, toks: seq<Token>, max: nat): Error {
    if FailsInHeader(toks) || |NonEmpty(RecordGroups(toks))| < max
    then ParseError(position, tag.name, tag.length) else TooManyRecords
  }

  lemma StoppedBy(toks: seq<Token>, tag: Tag, position: int, max: nat, total: nat)
    requires Stop(toks, total) == ParseError(position, tag.name, tag.length)
    ensures ParseTokens(toks, max, total).err == Some(TooLongError(tag, position, toks, max))
  {
    StopIsEnd(toks, total);
    FailsWith(toks, max, total);
  }

  lemma TooLongText(parts: seq<Part>, t: Spelling, rest: string)
    ensures FileText(parts, TooLong(t, rest)) == FileText(parts, Whole) + ("<" + Content(t) + ">") + rest
  {
    FileTextEnds(parts, TooLong(t, rest));
    Associative(FileText(parts, Whole), "<" + Content(t) + ">", rest);
  }

  lemma TokensOfFile(parts: seq<Part>, e: Ending, data: string, cfg: Config)
    requires FileOk(parts, e, WithDefaults(cfg)) && data == FileText(parts, e) && !(BOM <= data)
    ensures TokensOf(data, cfg) == FileMeaning(parts, e, WithDefaults(cfg))
  {
    FileLexes(parts, e, WithDefaults(cfg));
  }

  lemma TooLongTokens(parts: seq<Part>, t: Spelling, front: string, rest: string, cfg: Config)
    requires FileOk(parts, TooLong(t, rest), WithDefaults(cfg))
    requires front == FileText(parts, Whole) + ("<" + Content(t) + ">") && !(BOM <= front + rest)
    ensures TokensOf(front + rest, cfg) == FileMeaning(parts, TooLong(t, rest), WithDefaults(cfg))
  {
    TooLongText(parts, t, rest);
    TokensOfFile(parts, TooLong(t, rest), front + rest, cfg);
  }

  /**
  The first over-length field ends the parse, unless the record limit does so before it. It
  is reported with its name and length, at the byte behind its tag.
  */
  lemma TooLongReported(parts: seq<Part>, t: Spelling, front: string, rest: string, cfg: Config)
    requires FileOk(parts, TooLong(t, rest), WithDefaults(cfg))
    requires front == FileText(parts, Whole) + ("<" + Content(t) + ">") && !(BOM <= front + rest)
    ensures var toks := TokensOf(front + rest, cfg);
      Parse(front + rest, cfg).err == Some(TooLongError(Meant(t).value, |front|, toks, WithDefaults(cfg).maxRecords))
  {
    var c := WithDefaults(cfg);
    TooLongTokens(parts, t, front, rest, cfg);
    StopAtTooLong(parts, t, rest, |front + rest|, c);
    StoppedBy(TokensOf(front + rest, cfg), Meant(t).value, |front|, c.maxRecords, |front + rest|);
  }
}
