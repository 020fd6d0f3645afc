/** The main results for the built-in tables. */
module RadioLedger {
  import opened GoStrings
  import opened AdifSyntax
  import opened AdifGuarantees
  import opened AdifModes
  import opened AdifWriter
  import opened AdifImport
  import opened ModeCatalogue
  import Utf8

  /** With the built-in tables, any file is brought into its normal form by one import and export. */
  lemma FilesNormalize(cat: Catalogue, data: string, programVersion: string, cfg: Config)
    requires cat == BuiltIn()
    requires Utf8.Valid(programVersion) && |programVersion| <= MAX_INT64
    requires GoOutcome(Parse(data, cfg))
    ensures HasNormalForm(cat, Parse(data, cfg), programVersion, cfg)
  {
    BuiltInIsCoherent();
    AnyFileNormalizes(cat, data, programVersion, cfg);
  }

  /** With the built-in tables, normalisation yields canonical pairs and leaves exactly those alone. */
  lemma ModesClose(mode: string, submode: string)
    ensures Closes(BuiltInTables(), mode, submode)
  {
    BuiltInIsCoherent();
    NormalizeCloses(BuiltInTables(), mode, submode);
  }
}
