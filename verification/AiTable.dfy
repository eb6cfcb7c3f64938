/** The GS1 Application Identifier table and its indexes. */
module AiTable {
  import opened Text

  datatype AICategory = Primary | Qualifier | Attribute

  datatype AISpec = AISpec(ai: string, name: string, category: AICategory)

  const PRIMARIES: seq<AISpec> := [
    AISpec("00", "sscc", Primary),
    AISpec("01", "gtin", Primary),
    AISpec("253", "gdti", Primary),
    AISpec("255", "gcn", Primary),
    AISpec("401", "ginc", Primary),
    AISpec("402", "gsin", Primary),
    AISpec("414", "gln", Primary),
    AISpec("417", "party", Primary),
    AISpec("8003", "grai", Primary),
    AISpec("8004", "giai", Primary),
    AISpec("8006", "itip", Primary),
    AISpec("8010", "cpid", Primary),
    AISpec("8013", "gmn", Primary),
    AISpec("8017", "gsrnp", Primary),
    AISpec("8018", "gsrn", Primary)
  ]

  const QUALIFIERS: seq<AISpec> := [
    AISpec("22", "cpv", Qualifier),
    AISpec("10", "lot", Qualifier),
    AISpec("21", "ser", Qualifier),
    AISpec("235", "tpx", Qualifier),
    AISpec("254", "glnx", Qualifier),
    AISpec("8011", "cpsn", Qualifier)
  ]

  const ATTRIBUTES: seq<AISpec> := [
    AISpec("17", "exp", Attribute),
    AISpec("11", "prodt", Attribute),
    AISpec("12", "duedt", Attribute),
    AISpec("13", "packdt", Attribute),
    AISpec("15", "bestdt", Attribute),
    AISpec("16", "selldt", Attribute),
    AISpec("240", "addid", Attribute),
    AISpec("241", "cuno", Attribute),
    AISpec("242", "mtono", Attribute),
    AISpec("243", "pcn", Attribute),
    AISpec("250", "secondaryser", Attribute),
    AISpec("251", "refno", Attribute),
    AISpec("400", "orderno", Attribute),
    AISpec("403", "routing", Attribute),
    AISpec("4300", "shipto_name", Attribute),
    AISpec("4321", "dangerousgoods", Attribute),
    AISpec("710", "nhrn_de", Attribute),
    AISpec("711", "nhrn_fr", Attribute),
    AISpec("712", "nhrn_es", Attribute),
    AISpec("713", "nhrn_br", Attribute),
    AISpec("714", "nhrn_pt", Attribute),
    AISpec("715", "nhrn_us", Attribute),
    AISpec("723", "certref", Attribute),
    AISpec("7003", "expt", Attribute),
    AISpec("7020", "refurblot", Attribute),
    AISpec("7021", "funclot", Attribute),
    AISpec("7022", "revlot", Attribute),
    AISpec("7040", "uic_ext", Attribute),
    AISpec("8001", "rolls", Attribute),
    AISpec("8002", "cmid", Attribute),
    AISpec("8005", "price", Attribute),
    AISpec("8007", "iban", Attribute),
    AISpec("8008", "prodtime", Attribute),
    AISpec("8019", "srin", Attribute),
    AISpec("8020", "refno_pay", Attribute),
    AISpec("8110", "couponcode_us", Attribute),
    AISpec("8200", "producturl", Attribute),
    AISpec("90", "internal", Attribute)
  ]

  const ALL_AIS: seq<AISpec> := PRIMARIES + QUALIFIERS + ATTRIBUTES

  // ----- Indexes -----------------------------------------------------------

  /** `{a.ai: a for a in rows}.get(ai)`: the last row wins. */
  function RowOfAi(rows: seq<AISpec>, ai: string): Option<AISpec> {
    if rows == [] then None
    else if rows[|rows| - 1].ai == ai then Some(rows[|rows| - 1])
    else RowOfAi(rows[..|rows| - 1], ai)
  }

  /** `{a.name: a.ai for a in rows}.get(name)`. */
  function RowOfName(rows: seq<AISpec>, name: string): Option<AISpec> {
    if rows == [] then None
    else if rows[|rows| - 1].name == name then Some(rows[|rows| - 1])
    else RowOfName(rows[..|rows| - 1], name)
  }

  /** `AI_TO_SPEC.get(ai)`. */
  function SpecOf(ai: string): Option<AISpec> {
    RowOfAi(ALL_AIS, ai)
  }

  predicate IsKnown(ai: string) {
    SpecOf(ai).Some?
  }

  /** `ai in PRIMARY_AIS`. */
  predicate IsPrimary(ai: string) {
    RowOfAi(PRIMARIES, ai).Some?
  }

  /** `AI_TO_SPEC[ai].category.value == "qualifier"`, for a known `ai`. */
  predicate IsQualifier(ai: string) {
    SpecOf(ai).Some? && SpecOf(ai).value.category == Qualifier
  }

  /** `AI_TO_NAME.get(ai, ai)`. */
  function NameOf(ai: string): string {
    match SpecOf(ai) case Some(row) => row.name case None => ai
  }

  /** `NAME_TO_AI.get(name)`. */
  function AiOfName(name: string): Option<string> {
    match RowOfName(ALL_AIS, name) case Some(row) => Some(row.ai) case None => None
  }

  /** `QUALIFIER_ORDER.get(primary, ())`. */
  function QualifierOrder(primary: string): seq<string> {
    if primary == "01" || primary == "8006" then ["22", "10", "21"]
    else if primary == "414" || primary == "417" then ["254"]
    else if primary == "8003" then ["21"]
    else if primary == "8010" then ["8011"]
    else []
  }
}
