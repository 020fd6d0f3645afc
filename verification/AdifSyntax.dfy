/**
The ADI format: tags, fields and markers, and the left-to-right reading of a byte
string as a sequence of them. `Lex` is the reference the streaming parser is proved
against.
*/
module AdifSyntax {
  import opened Wrappers
  import opened GoStrings
  import Utf8

  datatype Field = Field(name: string, value: string, dataType: string)

  /** What ParseOptions and the character-set library settle for one parse. */
  datatype Config = Config(maxFieldLen: int, maxRecords: int, legacy: string -> Option<string>)

  const DEFAULT_MAX_FIELD_LEN: int := 10 * 1024 * 1024
  const DEFAULT_MAX_RECORDS: int := 500_000

  /** Options that are not positive select the defaults. */
  function WithDefaults(cfg: Config): (r: Config)
    ensures r.maxFieldLen > 0 && r.maxRecords > 0
    ensures cfg.maxFieldLen > 0 ==> r.maxFieldLen == cfg.maxFieldLen
    ensures cfg.maxRecords > 0 ==> r.maxRecords == cfg.maxRecords
    ensures r.legacy == cfg.legacy
    ensures cfg.maxFieldLen > 0 && cfg.maxRecords > 0 ==> r == cfg
  {
    Config(
      if cfg.maxFieldLen <= 0 then DEFAULT_MAX_FIELD_LEN else cfg.maxFieldLen,
      if cfg.maxRecords <= 0 then DEFAULT_MAX_RECORDS else cfg.maxRecords,
      cfg.legacy)
  }

  // ---------- tags ----------

  datatype Tag = Tag(name: string, length: nat, dataType: string)

  /** The inside of <NAME:LENGTH[:TYPE]>; None when malformed. A tag without a colon has length 0. */
  function ParseTag(content: string): Option<Tag> {
    var tag := TrimSpace(content);
    if tag == "" then None
    else if ':' !in tag then Some(Tag(tag, 0, ""))
    else
      var parts := SplitN(tag, ':', 3);
      var name := TrimSpace(parts[0]);
      if name == "" || |parts| < 2 then None
      else
        var length := ParseInt(TrimSpace(parts[1]));
        if length.None? || length.value < 0 then None
        else Some(Tag(name, length.value, if |parts| == 3 then TrimSpace(parts[2]) else ""))
  }

  // ---------- tokens ----------

  /** One unit of the format. `left` is the number of bytes after an oversize tag. */
  datatype Token =
    | Item(field: Field)
    | Eor
    | Eoh
    | Oversize(name: string, length: nat, left: nat)

  /** The tokens of `s`, left to right. Text outside tags and values, and malformed tags, are skipped. */
  function Lex(s: string, cfg: Config): seq<Token>
    decreases |s|, 0
  {
    if s == [] then []
    else if s[0] == '<' then LexTag(s[1..], cfg)
    else Lex(s[1..], cfg)
  }

  /** After a '<': the tag runs to the next '>', or to the end of input. */
  function LexTag(s: string, cfg: Config): seq<Token>
    decreases |s|, 2
  {
    var j := IndexOf(s, '>');
    LexContent(s[..j], if j < |s| then s[j + 1..] else [], cfg)
  }

  /** A tag with the given content, followed by `rest`. */
  function LexContent(content: string, rest: string, cfg: Config): seq<Token>
    decreases |rest|, 1
  {
    match ParseTag(content)
    case None => Lex(rest, cfg)
    case Some(Tag(name, length, dataType)) =>
      var upper := ToUpper(name);
      if upper == "EOR" then [Eor] + Lex(rest, cfg)
      else if upper == "EOH" then [Eoh] + Lex(rest, cfg)
      else if length > cfg.maxFieldLen then [Oversize(name, length, |rest|)] + Lex(rest, cfg)
      else
        var n := if length <= |rest| then length else |rest|;
        [Item(Field(upper, Utf8.Sanitize(rest[..n], cfg.legacy), dataType))] + Lex(rest[n..], cfg)
  }

  lemma LexTagClosed(content: string, rest: string, cfg: Config)
    requires '>' !in content
    ensures LexTag(content + ['>'] + rest, cfg) == LexContent(content, rest, cfg)
  {
    var s := content + ['>'] + rest;
    IndexOfAppend(content, '>', rest);
    assert s[..|content|] == content && s[|content| + 1..] == rest;
  }

  lemma LexTagUnclosed(content: string, cfg: Config)
    requires '>' !in content
    ensures LexTag(content, cfg) == LexContent(content, [], cfg)
  {
    assert content[..|content|] == content;
  }

  /** A field tag followed by its value, which may be cut short by the end of input. */
  lemma LexItem(content: string, value: string, left: string, cfg: Config)
    requires ParseTag(content).Some?
    requires var tag := ParseTag(content).value;
      && ToUpper(tag.name) !in {"EOR", "EOH"}
      && tag.length <= cfg.maxFieldLen
      && (|value| == tag.length || (|value| < tag.length && left == []))
    ensures var tag := ParseTag(content).value;
      LexContent(content, value + left, cfg)
      == [Item(Field(ToUpper(tag.name), Utf8.Sanitize(value, cfg.legacy), tag.dataType))] + Lex(left, cfg)
  {
    var rest := value + left;
    assert rest[..|value|] == value && rest[|value|..] == left;
  }
}
