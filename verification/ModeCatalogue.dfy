/** The built-in mode tables and field order, and the proof that the mode tables are coherent. */
module ModeCatalogue {
  import opened Wrappers
  import opened GoStrings
  import opened AdifModes
  import opened AdifWriter

  // The tables are written in parts so that each fact about them is a small check.

  function Modes(): set<string> {
    Modes1() + Modes2() + Modes3() + Modes4()
  }

  function Modes1(): set<string> {
    {
      "AM", "ARDOP", "ATV", "CHIP", "CLO", "CONTESTI", "CW", "DIGITALVOICE", "DOMINO", "DYNAMIC", "FAX", "FM"
    }
  }

  function Modes2(): set<string> {
    {
      "FSK", "FSK441", "FT8", "HELL", "ISCAT", "JT4", "JT6M", "JT9", "JT44", "JT65", "MFSK", "MSK144"
    }
  }

  function Modes3(): set<string> {
    {
      "MT63", "MTONE", "OFDM", "OLIVIA", "OPERA", "PAC", "PAX", "PKT", "PSK", "PSK2K", "Q15", "QRA64"
    }
  }

  function Modes4(): set<string> {
    {
      "ROS", "RTTY", "RTTYM", "SSB", "SSTV", "T10", "THOR", "THRB", "TOR", "V4", "VOI", "WINMOR", "WSPR"
    }
  }

  function Submodes(): map<string, string> {
    AliasSubmodes() + OtherSubmodes1() + OtherSubmodes2()
  }

  /** Submodes that are written out as aliases, too: each stands for itself under its mode. */
  function AliasSubmodes(): map<string, string> {
    ImportSubmodes() + FriendlySubmodes()
  }

  function ImportSubmodes(): map<string, string> {
    map[
      "PCW" := "CW", "ASCI" := "RTTY", "C4FM" := "DIGITALVOICE", "DSTAR" := "DIGITALVOICE",
      "MFSK8" := "MFSK", "MFSK16" := "MFSK", "PSK31" := "PSK", "PSK63" := "PSK"
    ]
  }

  function FriendlySubmodes(): map<string, string> {
    map[
      "USB" := "SSB", "LSB" := "SSB", "DMR" := "DIGITALVOICE", "FREEDV" := "DIGITALVOICE",
      "M17" := "DIGITALVOICE", "FREEDATA" := "DYNAMIC", "FT2" := "MFSK", "FT4" := "MFSK", "JS8" := "MFSK",
      "Q65" := "MFSK"
    ]
  }

  function OtherSubmodes1(): map<string, string> {
    map[
      "SCAMP_FAST" := "FSK", "SCAMP_SLOW" := "FSK", "SCAMP_VSLOW" := "FSK", "SCAMP_OO" := "MTONE",
      "SCAMP_OO_SLW" := "MTONE", "RIBBIT_PIX" := "OFDM", "RIBBIT_SMS" := "OFDM", "FSQCALL" := "MFSK",
      "FST4" := "MFSK", "FST4W" := "MFSK", "JTMS" := "MFSK", "MFSK4" := "MFSK"
    ]
  }

  function OtherSubmodes2(): map<string, string> {
    map[
      "MFSK11" := "MFSK", "MFSK22" := "MFSK", "MFSK31" := "MFSK", "MFSK32" := "MFSK", "MFSK64" := "MFSK",
      "MFSK64L" := "MFSK", "MFSK128" := "MFSK", "MFSK128L" := "MFSK", "VARA HF" := "DYNAMIC",
      "VARA SATELLITE" := "DYNAMIC", "VARA FM 1200" := "DYNAMIC", "VARA FM 9600" := "DYNAMIC"
    ]
  }

  /** The aliases that are written out. */
  function ExplicitAliases(): map<string, ModeValue> {
    ImportAliases1() + ImportAliases2() + FriendlyAliases()
    + map s | s in AliasSubmodes() :: ModeValue(AliasSubmodes()[s], s)
  }

  /** Import-only aliases that are not among the submodes. */
  function ImportAliases1(): map<string, ModeValue> {
    map[
      "AMTORFEC" := ModeValue("TOR", "AMTORFEC"), "CHIP64" := ModeValue("CHIP", "CHIP64"),
      "CHIP128" := ModeValue("CHIP", "CHIP128"), "DOMINOF" := ModeValue("DOMINO", "DOMINOF"),
      "FMHELL" := ModeValue("HELL", "FMHELL"), "FSK31" := ModeValue("PSK", "FSK31"),
      "GTOR" := ModeValue("TOR", "GTOR"), "HELL80" := ModeValue("HELL", "HELL80"),
      "HFSK" := ModeValue("HELL", "HFSK"), "JT4A" := ModeValue("JT4", "JT4A"),
      "JT4B" := ModeValue("JT4", "JT4B"), "JT4C" := ModeValue("JT4", "JT4C"),
      "JT4D" := ModeValue("JT4", "JT4D"), "JT4E" := ModeValue("JT4", "JT4E"),
      "JT4F" := ModeValue("JT4", "JT4F"), "JT4G" := ModeValue("JT4", "JT4G"),
      "JT65A" := ModeValue("JT65", "JT65A")
    ]
  }

  function ImportAliases2(): map<string, ModeValue> {
    map[
      "JT65B" := ModeValue("JT65", "JT65B"), "JT65C" := ModeValue("JT65", "JT65C"),
      "PAC2" := ModeValue("PAC", "PAC2"), "PAC3" := ModeValue("PAC", "PAC3"),
      "PAX2" := ModeValue("PAX", "PAX2"), "PSK10" := ModeValue("PSK", "PSK10"),
      "PSK63F" := ModeValue("PSK", "PSK63F"), "PSK125" := ModeValue("PSK", "PSK125"),
      "PSKAM10" := ModeValue("PSK", "PSKAM10"), "PSKAM31" := ModeValue("PSK", "PSKAM31"),
      "PSKAM50" := ModeValue("PSK", "PSKAM50"), "PSKFEC31" := ModeValue("PSK", "PSKFEC31"),
      "PSKHELL" := ModeValue("HELL", "PSKHELL"), "QPSK31" := ModeValue("PSK", "QPSK31"),
      "QPSK63" := ModeValue("PSK", "QPSK63"), "QPSK125" := ModeValue("PSK", "QPSK125"),
      "THRBX" := ModeValue("THRB", "THRBX")
    ]
  }

  /** Friendly aliases that are not among the submodes. */
  function FriendlyAliases(): map<string, ModeValue> {
    map[
      "PACKET" := ModeValue("PKT", ""), "VARA" := ModeValue("DYNAMIC", "VARA HF"),
      "VARAFH" := ModeValue("DYNAMIC", "VARA HF"), "VARAHF" := ModeValue("DYNAMIC", "VARA HF"),
      "VARAFM1200" := ModeValue("DYNAMIC", "VARA FM 1200"),
      "VARAFM9600" := ModeValue("DYNAMIC", "VARA FM 9600"),
      "VARASAT" := ModeValue("DYNAMIC", "VARA SATELLITE"),
      "VARASATELLITE" := ModeValue("DYNAMIC", "VARA SATELLITE")
    ]
  }

  function CanonicalFieldOrder(): seq<string> {
    [
      "CALL", "QSO_DATE", "TIME_ON", "TIME_OFF", "QSO_DATE_OFF", "BAND", "MODE", "SUBMODE", "FREQ", "FREQ_RX",
      "BAND_RX", "RST_SENT", "RST_RCVD", "NAME", "QTH", "GRIDSQUARE", "DXCC", "COUNTRY", "STATE", "COUNTY",
      "CQZ", "ITUZ", "CONT", "LAT", "LON", "MY_GRIDSQUARE", "MY_CITY", "MY_STATE", "MY_COUNTRY", "MY_DXCC",
      "MY_CQ_ZONE", "MY_ITU_ZONE", "MY_LAT", "MY_LON", "TX_PWR", "RX_PWR", "MY_ANTENNA", "MY_RIG", "OPERATOR",
      "STATION_CALLSIGN", "OWNER_CALLSIGN", "PROP_MODE", "SFI", "A_INDEX", "K_INDEX", "CONTEST_ID", "SRX",
      "STX", "SRX_STRING", "STX_STRING", "SOTA_REF", "MY_SOTA_REF", "POTA_REF", "MY_POTA_REF", "WWFF_REF",
      "MY_WWFF_REF", "IOTA", "SIG", "SIG_INFO", "SAT_NAME", "SAT_MODE", "QSL_SENT", "QSL_SENT_VIA", "QSL_RCVD",
      "QSL_RCVD_VIA", "QSL_VIA", "QSLSDATE", "QSLRDATE", "LOTW_QSL_SENT", "LOTW_QSLSDATE", "LOTW_QSL_RCVD",
      "LOTW_QSLRDATE", "EQSL_QSL_SENT", "EQSL_QSLSDATE", "EQSL_QSL_RCVD", "EQSL_QSLRDATE", "COMMENT", "NOTES"
    ]
  }

  function BuiltInTables(): ModeTables {
    ModeTables(Modes(), Submodes(), AllAliases(ExplicitAliases(), Submodes()))
  }

  function BuiltIn(): Catalogue {
    Catalogue(CanonicalFieldOrder(), BuiltInTables())
  }

  // ---------- entries are codes ----------

  /** Upper-case letters, digits, '_' and inner blanks. */
  predicate IsPlain(s: string) {
    && s != "" && |s| <= 14 && s[0] != ' ' && s[|s| - 1] != ' '
    && forall i :: 0 <= i < |s| ==> s[i] == ' ' || '0' <= s[i] <= '9' || 'A' <= s[i] <= 'Z' || s[i] == '_'
  }

  lemma PlainIsCode(s: string)
    requires IsPlain(s)
    ensures IsCode(s)
  {
    TrimSpaceSpec(s);
    UpperOfUpper(s);
  }

  lemma Modes1Plain(s: string)
    requires s in Modes1()
    ensures IsPlain(s)
  {
  }

  lemma Modes2Plain(s: string)
    requires s in Modes2()
    ensures IsPlain(s)
  {
  }

  lemma Modes3Plain(s: string)
    requires s in Modes3()
    ensures IsPlain(s)
  {
  }

  lemma Modes4Plain(s: string)
    requires s in Modes4()
    ensures IsPlain(s)
  {
  }

  lemma ImportAliases1Short(s: string)
    requires s in ImportAliases1() && |s| <= 5
    ensures IsPlain(s)
  {
  }

  lemma ImportAliases1Long(s: string)
    requires s in ImportAliases1() && |s| > 5
    ensures IsPlain(s)
  {
  }

  lemma ImportAliases1Plain(s: string)
    requires s in ImportAliases1()
    ensures IsPlain(s)
  {
    if |s| <= 5 {
      ImportAliases1Short(s);
    } else {
      ImportAliases1Long(s);
    }
  }

  lemma ImportAliases2Short(s: string)
    requires s in ImportAliases2() && |s| <= 5
    ensures IsPlain(s)
  {
  }

  lemma ImportAliases2Long(s: string)
    requires s in ImportAliases2() && |s| > 5
    ensures IsPlain(s)
  {
  }

  lemma ImportAliases2Plain(s: string)
    requires s in ImportAliases2()
    ensures IsPlain(s)
  {
    if |s| <= 5 {
      ImportAliases2Short(s);
    } else {
      ImportAliases2Long(s);
    }
  }

  lemma FriendlyAliasesPlain(s: string)
    requires s in FriendlyAliases()
    ensures IsPlain(s)
  {
  }

  lemma OtherSubmodes1Plain(s: string)
    requires s in OtherSubmodes1()
    ensures IsPlain(s)
  {
  }

  lemma OtherSubmodes2Plain(s: string)
    requires s in OtherSubmodes2()
    ensures IsPlain(s)
  {
  }

  lemma ImportSubmodesPlain(s: string)
    requires s in ImportSubmodes()
    ensures IsPlain(s)
  {
  }

  lemma FriendlySubmodesPlain(s: string)
    requires s in FriendlySubmodes()
    ensures IsPlain(s)
  {
  }

  // ---------- entries lead to canonical modes ----------

  lemma ImportAliases1Lead(k: string)
    requires k in ImportAliases1()
    ensures ImportAliases1()[k].mode in Modes() && ImportAliases1()[k].submode == k
  {
  }

  lemma ImportAliases2Lead(k: string)
    requires k in ImportAliases2()
    ensures ImportAliases2()[k].mode in Modes() && ImportAliases2()[k].submode == k
  {
  }

  lemma FriendlyAliasesLead(k: string)
    requires k in FriendlyAliases()
    ensures FriendlyAliases()[k].mode in Modes()
  {
  }

  /** A friendly alias stands for a mode alone or with one of the VARA submodes. */
  lemma FriendlyAliasesBelong(k: string)
    requires k in FriendlyAliases()
    ensures var v := FriendlyAliases()[k];
      v.submode == "" || (v.submode in OtherSubmodes2() && OtherSubmodes2()[v.submode] == v.mode)
  {
  }

  lemma OtherSubmodes1Lead(s: string)
    requires s in OtherSubmodes1()
    ensures OtherSubmodes1()[s] in Modes()
  {
  }

  lemma OtherSubmodes2Lead(s: string)
    requires s in OtherSubmodes2()
    ensures OtherSubmodes2()[s] in Modes()
  {
  }

  lemma ImportSubmodesLead(s: string)
    requires s in ImportSubmodes()
    ensures ImportSubmodes()[s] in Modes()
  {
  }

  lemma FriendlySubmodesLead(s: string)
    requires s in FriendlySubmodes()
    ensures FriendlySubmodes()[s] in Modes()
  {
  }

  // ---------- shapes that tell tables apart ----------

  /**
  What tells the other submodes from all modes and written aliases: a blank or underscore in
  the middle, MFSK with other numbers than 8 and 16, and FSQCALL, FST4, FST4W and JTMS.
  */
  predicate OtherShape(s: string) {
    || (|s| > 6 && (s[4] == ' ' || s[5] == '_' || s[6] == '_'))
    || (|s| > 4 && s[0] == 'M' && s[1] == 'F' && s[4] != '8' && (|s| == 5 || s[5] != '6'))
    || (|s| > 3 && s[0] == 'F' && (s[2] == 'Q' || s[2] == 'T'))
    || (|s| == 4 && s[0] == 'J' && s[2] == 'M')
  }

  /** What tells the friendly aliases from all modes: PACKET and the names that begin with VARA. */
  predicate FriendlyShape(s: string) {
    |s| > 3 && s[1] == 'A'
  }

  lemma OtherSubmodes1Shape(s: string)
    requires s in OtherSubmodes1()
    ensures OtherShape(s)
  {
  }

  lemma OtherSubmodes2Shape(s: string)
    requires s in OtherSubmodes2()
    ensures OtherShape(s)
  {
  }

  lemma ImportSubmodesShape(s: string)
    requires s in ImportSubmodes()
    ensures !OtherShape(s)
  {
  }

  lemma FriendlySubmodesShape(s: string)
    requires s in FriendlySubmodes()
    ensures !OtherShape(s)
  {
  }

  lemma ImportAliases1Shape(s: string)
    requires s in ImportAliases1()
    ensures !OtherShape(s)
  {
  }

  lemma ImportAliases2Shape(s: string)
    requires s in ImportAliases2()
    ensures !OtherShape(s)
  {
  }

  lemma FriendlyAliasesShape(s: string)
    requires s in FriendlyAliases()
    ensures !OtherShape(s) && FriendlyShape(s)
  {
  }

  lemma Modes1Shape(m: string)
    requires m in Modes1()
    ensures !OtherShape(m) && !FriendlyShape(m)
  {
  }

  lemma Modes2Shape(m: string)
    requires m in Modes2()
    ensures !OtherShape(m) && !FriendlyShape(m)
  {
  }

  lemma Modes3Shape(m: string)
    requires m in Modes3()
    ensures !OtherShape(m) && !FriendlyShape(m)
  {
  }

  lemma Modes4Shape(m: string)
    requires m in Modes4()
    ensures !OtherShape(m) && !FriendlyShape(m)
  {
  }

  lemma ExplicitShape(k: string)
    requires k in ExplicitAliases()
    ensures !OtherShape(k)
  {
    if k in FriendlySubmodes() {
      FriendlySubmodesShape(k);
    } else if k in ImportSubmodes() {
      ImportSubmodesShape(k);
    } else if k in FriendlyAliases() {
      FriendlyAliasesShape(k);
    } else if k in ImportAliases2() {
      ImportAliases2Shape(k);
    } else {
      ImportAliases1Shape(k);
    }
  }

  /** Names of other shapes are in none of the tables told apart by shape. */
  lemma NotByShape(m: string)
    requires !OtherShape(m) && !FriendlyShape(m)
    ensures m !in OtherSubmodes1() && m !in OtherSubmodes2() && m !in FriendlyAliases()
  {
    if m in OtherSubmodes1() {
      OtherSubmodes1Shape(m);
    }
    if m in OtherSubmodes2() {
      OtherSubmodes2Shape(m);
    }
    if m in FriendlyAliases() {
      FriendlyAliasesShape(m);
    }
  }

  // ---------- no canonical mode is an alias or a submode ----------

  lemma Modes1NotImportAliases1(m: string)
    requires m in Modes1()
    ensures m !in ImportAliases1()
  {
  }

  lemma Modes1NotImportAliases2(m: string)
    requires m in Modes1()
    ensures m !in ImportAliases2()
  {
  }

  lemma Modes1NotImportSubmodes(m: string)
    requires m in Modes1()
    ensures m !in ImportSubmodes()
  {
  }

  lemma Modes1NotFriendlySubmodes(m: string)
    requires m in Modes1()
    ensures m !in FriendlySubmodes()
  {
  }

  lemma Modes2NotImportAliases1(m: string)
    requires m in Modes2()
    ensures m !in ImportAliases1()
  {
  }

  lemma Modes2NotImportAliases2(m: string)
    requires m in Modes2()
    ensures m !in ImportAliases2()
  {
  }

  lemma Modes2NotImportSubmodes(m: string)
    requires m in Modes2()
    ensures m !in ImportSubmodes()
  {
  }

  lemma Modes2NotFriendlySubmodes(m: string)
    requires m in Modes2()
    ensures m !in FriendlySubmodes()
  {
  }

  lemma Modes3NotImportAliases1(m: string)
    requires m in Modes3()
    ensures m !in ImportAliases1()
  {
  }

  lemma Modes3NotImportAliases2(m: string)
    requires m in Modes3()
    ensures m !in ImportAliases2()
  {
  }

  lemma Modes3NotImportSubmodes(m: string)
    requires m in Modes3()
    ensures m !in ImportSubmodes()
  {
  }

  lemma Modes3NotFriendlySubmodes(m: string)
    requires m in Modes3()
    ensures m !in FriendlySubmodes()
  {
  }

  lemma Modes4NotImportAliases1(m: string)
    requires m in Modes4()
    ensures m !in ImportAliases1()
  {
  }

  lemma Modes4NotImportAliases2(m: string)
    requires m in Modes4()
    ensures m !in ImportAliases2()
  {
  }

  lemma Modes4NotImportSubmodes(m: string)
    requires m in Modes4()
    ensures m !in ImportSubmodes()
  {
  }

  lemma Modes4NotFriendlySubmodes(m: string)
    requires m in Modes4()
    ensures m !in FriendlySubmodes()
  {
  }

  lemma ModesNotAliases(m: string)
    requires m in Modes()
    ensures ModeOk(BuiltInTables(), m)
  {
    if m in Modes1() {
      Modes1Plain(m);
      Modes1Shape(m);
      Modes1NotImportAliases1(m);
      Modes1NotImportAliases2(m);
      Modes1NotImportSubmodes(m);
      Modes1NotFriendlySubmodes(m);
    } else if m in Modes2() {
      Modes2Plain(m);
      Modes2Shape(m);
      Modes2NotImportAliases1(m);
      Modes2NotImportAliases2(m);
      Modes2NotImportSubmodes(m);
      Modes2NotFriendlySubmodes(m);
    } else if m in Modes3() {
      Modes3Plain(m);
      Modes3Shape(m);
      Modes3NotImportAliases1(m);
      Modes3NotImportAliases2(m);
      Modes3NotImportSubmodes(m);
      Modes3NotFriendlySubmodes(m);
    } else {
      Modes4Plain(m);
      Modes4Shape(m);
      Modes4NotImportAliases1(m);
      Modes4NotImportAliases2(m);
      Modes4NotImportSubmodes(m);
      Modes4NotFriendlySubmodes(m);
    }
    NotByShape(m);
    PlainIsCode(m);
  }

  lemma SubmodeIsCode(s: string)
    requires s in Submodes()
    ensures IsCode(s) && Submodes()[s] in Modes()
  {
    if s in OtherSubmodes2() {
      OtherSubmodes2Plain(s);
      OtherSubmodes2Lead(s);
    } else if s in OtherSubmodes1() {
      OtherSubmodes1Plain(s);
      OtherSubmodes1Lead(s);
    } else if s in FriendlySubmodes() {
      FriendlySubmodesPlain(s);
      FriendlySubmodesLead(s);
    } else {
      ImportSubmodesPlain(s);
      ImportSubmodesLead(s);
    }
    PlainIsCode(s);
  }

  lemma ExplicitAliasCanonical(k: string)
    requires k in ExplicitAliases()
    ensures IsCode(k) && IsCanonical(BuiltInTables(), ExplicitAliases()[k])
  {
    if k in FriendlySubmodes() {
      FriendlySubmodesPlain(k);
      FriendlySubmodesLead(k);
    } else if k in ImportSubmodes() {
      ImportSubmodesPlain(k);
      ImportSubmodesLead(k);
    } else if k in FriendlyAliases() {
      FriendlyAliasesPlain(k);
      FriendlyAliasesLead(k);
      FriendlyAliasesBelong(k);
    } else if k in ImportAliases2() {
      ImportAliases2Plain(k);
      ImportAliases2Lead(k);
    } else {
      ImportAliases1Plain(k);
      ImportAliases1Lead(k);
    }
    PlainIsCode(k);
  }

  lemma AliasCanonical(k: string)
    requires k in BuiltInTables().aliases
    ensures IsCode(k) && IsCanonical(BuiltInTables(), BuiltInTables().aliases[k])
  {
    if k in ExplicitAliases() {
      ExplicitAliasCanonical(k);
    } else {
      SubmodeIsCode(k);
    }
  }

  lemma BuiltInModesCoherent()
    ensures ModesCoherent(BuiltInTables())
  {
    forall m | m in BuiltInTables().modes
      ensures ModeOk(BuiltInTables(), m)
    {
      ModesNotAliases(m);
    }
  }

  lemma BuiltInSubmodesCoherent()
    ensures SubmodesCoherent(BuiltInTables())
  {
    forall s | s in BuiltInTables().submodes
      ensures IsCode(s) && BuiltInTables().submodes[s] in BuiltInTables().modes
    {
      SubmodeIsCode(s);
    }
  }

  lemma BuiltInAliasesCoherent()
    ensures AliasesCoherent(BuiltInTables())
  {
    forall k | k in BuiltInTables().aliases
      ensures IsCode(k) && IsCanonical(BuiltInTables(), BuiltInTables().aliases[k])
    {
      AliasCanonical(k);
    }
  }

  /** The built-in tables are coherent, so every result about coherent tables holds of them. */
  lemma BuiltInIsCoherent()
    ensures Coherent(BuiltInTables())
  {
    BuiltInModesCoherent();
    BuiltInSubmodesCoherent();
    BuiltInAliasesCoherent();
  }

  // ---------- modes given alone ----------

  /** As an alias every submode stands for itself under its own mode. */
  lemma SubmodeIsAlias(s: string)
    requires s in Submodes()
    ensures var all := AllAliases(ExplicitAliases(), Submodes());
      s in all && all[s] == ModeValue(Submodes()[s], s)
  {
    AliasTable(ExplicitAliases(), Submodes(), s);
    if s in OtherSubmodes2() {
      OtherSubmodes2Shape(s);
    } else if s in OtherSubmodes1() {
      OtherSubmodes1Shape(s);
    }
    if s in ExplicitAliases() {
      ExplicitShape(s);
    }
  }

  /** Every submode given as the mode, in any spelling, becomes its mode with itself as the submode. */
  lemma SubmodeAlone(s: string, mode: string, submode: string)
    requires s in Submodes() && Normal(mode) == s && Normal(submode) == ""
    ensures NormalizeModePair(BuiltInTables(), mode, submode) == Some(ModeValue(Submodes()[s], s))
  {
    BuiltInIsCoherent();
    AloneMeans(BuiltInTables(), mode, submode);
    SubmodeIsAlias(s);
  }

  /** Every alias that is written out becomes the pair it is written with. */
  lemma AliasAlone(k: string, mode: string, submode: string)
    requires k in ExplicitAliases() && Normal(mode) == k && Normal(submode) == ""
    ensures NormalizeModePair(BuiltInTables(), mode, submode) == Some(ExplicitAliases()[k])
  {
    BuiltInIsCoherent();
    AloneMeans(BuiltInTables(), mode, submode);
    AliasTable(ExplicitAliases(), Submodes(), k);
  }

  /** Every canonical mode stays as it is. */
  lemma ModeAlone(m: string, mode: string, submode: string)
    requires m in Modes() && Normal(mode) == m && Normal(submode) == ""
    ensures NormalizeModePair(BuiltInTables(), mode, submode) == Some(ModeValue(m, ""))
  {
    BuiltInIsCoherent();
    AloneMeans(BuiltInTables(), mode, submode);
    ModesNotAliases(m);
  }
}
