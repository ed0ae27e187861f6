/**
 * The static configuration of the gold stage: the instrument taxonomy, the salary
 * bounds and keyword lists, and the employment-bond keyword table. Pattern strings
 * are the source's raw regular expressions, written with Dafny's escapes (`\\` for
 * one backslash).
 */
module Config {

  /** One canonical role and the patterns that recognise it, in table order. */
  datatype TaxonomyEntry = TaxonomyEntry(canonical: string, patterns: seq<string>)

  /** `INSTRUMENT_TAXONOMY`, in its insertion order. */
  const InstrumentTaxonomy: seq<TaxonomyEntry> := [
    TaxonomyEntry("Fagote", ["fagote", "fagotista"]),
    TaxonomyEntry("Flauta", ["flauta", "flautista", "flautim", "piccolo"]),
    TaxonomyEntry("Oboé", ["obo[eé]", "obo[ií]sta", "corne\\s+ingl[eê]s"]),
    TaxonomyEntry("Clarinete", ["clarinete", "clarinetista", "clarineta", "clarone"]),
    TaxonomyEntry("Trompa", ["trompa", "trompista"]),
    TaxonomyEntry("Trompete", ["trompete", "trompetista"]),
    TaxonomyEntry("Trombone", ["trombone", "trombonista"]),
    TaxonomyEntry("Tuba", ["tuba", "tubista", "euphonium", "bombardino"]),
    TaxonomyEntry("Violino", ["violino", "violinista", "spalla", "concertino"]),
    TaxonomyEntry("Viola", ["\\bviola(?!\\w)", "violista"]),
    TaxonomyEntry("Violoncelo", ["violoncelo", "violoncelista", "cello"]),
    TaxonomyEntry("Contrabaixo", ["contrabaixo", "contrabaixista", "baixo\\s+ac[uú]stico"]),
    TaxonomyEntry("Piano", ["piano", "pianista", "correpetidor"]),
    TaxonomyEntry("Percussão", ["percuss[aã]o", "percussionista", "t[ií]mpanos"]),
    TaxonomyEntry("Harpa", ["harpa", "harpista"]),
    TaxonomyEntry("Canto", ["cantor(?:a)?", "corista", "solista\\s+vocal", "artista\\s+do\\s+coro"])
  ]

  /** `SALARY_CONFIG['min_val']` (700.0) in cents. */
  const MinCents: nat := 70000

  /** `SALARY_CONFIG['max_val']` (45000.0) in cents. */
  const MaxCents: nat := 4500000

  /** Character radius of the context window around a role match. */
  const RoleWindow: nat := 80

  /** Character radius of the context window around a salary match. */
  const SalaryWindow: nat := 120

  /** Largest role-to-salary distance, exclusive, accepted by the matchmaker. */
  const ProximityWindow: nat := 3000

  /** `SALARY_CONFIG['positive_keywords']`. */
  const PositiveKeywords: seq<string> := [
    "remuneracao", "salario", "mensal", "cache", "bolsa", "vencimento",
    "subsidio", "honorario", "premio", "pagamento"
  ]

  /** `SALARY_CONFIG['negative_keywords']`. */
  const NegativeKeywords: seq<string> := [
    "multa", "taxa", "inscricao", "boleto", "gru", "darf",
    "custo", "diaria", "ajuda de custo", "verba", "recurso"
  ]

  /** Employment bond categories; `NaoInformado` is the default. */
  datatype Bond = CLT | Estatutario | Temporario | Bolsa | NaoInformado {
    /** The label written to the `tipo_vinculo` column. */
    function Label(): string {
      match this
      case CLT => "CLT"
      case Estatutario => "Estatutário"
      case Temporario => "Temporário"
      case Bolsa => "Bolsa"
      case NaoInformado => "Não Informado"
    }
  }

  /** One bond category and its patterns. */
  datatype BondEntry = BondEntry(bond: Bond, patterns: seq<string>)

  /** `BOND_KEYWORDS`, in its priority (insertion) order. */
  const BondKeywords: seq<BondEntry> := [
    BondEntry(CLT, ["clt", "carteira assinada", "regime celetista"]),
    BondEntry(Estatutario, ["estatut[áa]rio", "cargo p[úu]blico", "concurso p[úu]blico", "efetivo"]),
    BondEntry(Temporario, ["tempor[áa]rio", "processo seletivo", "pss", "determinado"]),
    BondEntry(Bolsa, ["bolsa", "bolsista", "est[áa]gio", "ajuda de custo"])
  ]
}
