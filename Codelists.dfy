/** The study's codelists, as abstract values. Loading them from CSV files is
    outside the model: a plain codelist is a set of SNOMED CT codes, a codelist
    with a category column a partial map from code to category. */
module Codelists {
  import opened Nullable
  import opened Patients

  datatype StudyCodelists = StudyCodelists(
    allMigrant: set<Code>,          // all_migrant_codes
    ukCob: set<Code>,               // uk_cob_codes (born in the UK)
    cobMigrant: set<Code>,          // cob_migrant_codes (born outside the UK)
    immigStatusExclRefAsylum: set<Code>, // immigra_status_excl_ref_and_asylum_codes
    asylumRefugee: set<Code>,       // asylum_refugee_migrant_codes
    englishNotMainLanguage: set<Code>, // english_not_main_language_excl_interpreter_migrant_codes
    interpreter: set<Code>,         // interpreter_migrant_codes
    language: set<Code>,            // language_migrant_codes
    ethnicity16: map<Code, string>, // ethnicity_16_level_codelist (Label_16)
    ethnicity6: map<Code, string>,  // ethnicity_6_level_codelist (Label_6)
    ethnicity: map<Code, string>)   // ethnicity_codelist (Label_6)

  /** `code.to_category(codelist)`: NULL for a NULL code or a code without a category. */
  function ToCategory(code: Option<Code>, codelist: map<Code, string>): (r: Option<string>)
    ensures r.Some? <==> code.Some? && code.value in codelist
    ensures r.Some? ==> r.value == codelist[code.value]
  {
    match code
    case Some(c) => if c in codelist then Some(codelist[c]) else None
    case None => None
  }
}
