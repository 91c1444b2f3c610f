/** The three static tables of the agent — canonical questions, templates and
    interaction steps — and the invariants they satisfy. Both implementations
    ship the same rows (javaIvaChat/IvaChatAgent.java `initialize*`,
    ivachat_cleaned.py `__init__`, `_create_template_table`,
    `_create_sequence_table`). */
module Tables {
  import opened Values

  /** A template row: its key, the canonical question it answers, and the default fields
      a session starts from. */
  datatype Template = Template(faqKey: int, faq: string, fields: Record)

  /** An interaction step: a prompt (`isQuestion`) collects the field `key`; a checkpoint
      shows the record and `displayText`. `seqNo` orders the steps of one template. */
  datatype Step = Step(faqKey: int, seqNo: int, isQuestion: bool, displayText: string, key: string)

  /** The `key` a checkpoint row carries. */
  const NotApplicable := "N/A"

  const RentVsBuy := "Rent Vs Buy"
  const BuyNowRefinanceLater := "Buy now and refinance later"

  /** Canonical question to its alternate phrasings. */
  const CanonicalQuestions: map<string, seq<string>> := map[
    RentVsBuy := [
      "Is it profitable to buy a home now or should I wait?",
      "Does my wealth grow better if I buy a home?",
      "Do I loose more money if I keep renting?"],
    BuyNowRefinanceLater := [
      "Is it profitable to buy now and refinance later?",
      "Buy now when interest rates are high and refinnce later when interest rates drops?",
      "Even interest rates are high, home prices are low now. It is better to buy now"]]

  /** The order in which the Python `dict` holds the canonical questions (insertion order). */
  const CatalogInsertionOrder: seq<string> := [RentVsBuy, BuyNowRefinanceLater]

  const RentVsBuyFields: Record := map[
    "nickname" := Text("primary saving"),
    "balance" := Int(1000),
    "APR" := Real("0", "8"),
    "rent" := Int(2500),
    "salary" := Int(500),
    "connection" := Text("primaryhome")]

  const RefinanceFields: Record := map[
    "nickname" := Text("current home"),
    "balance" := Int(1000000),
    "APR" := Real("0", "8"),
    "connection" := Text("refinance")]

  const TemplateTable: seq<Template> := [
    Template(1000, RentVsBuy, RentVsBuyFields),
    Template(2000, BuyNowRefinanceLater, RefinanceFields)]

  const SequenceTable: seq<Step> := [
    Step(1000, 1, true, "Current Saving Balance: ", "balance"),
    Step(1000, 2, true, "Interest Rate: ", "APR"),
    Step(1000, 3, false, "The canvas is populated from the info given, please continue", NotApplicable),
    Step(1000, 4, true, "How much is rent? ", "rent"),
    Step(1000, 5, true, "Your salary: ", "salary")]

  /** Template keys are distinct and none is the no-match sentinel 0. */
  predicate UniqueTemplateKeys(templates: seq<Template>) {
    && (forall i :: 0 <= i < |templates| ==> templates[i].faqKey != 0)
    && (forall i, j :: 0 <= i < j < |templates| ==> templates[i].faqKey != templates[j].faqKey)
  }

  /** Every template answers a canonical question of the catalog. */
  predicate FaqsCatalogued(templates: seq<Template>, catalog: map<string, seq<string>>) {
    forall i :: 0 <= i < |templates| ==> templates[i].faq in catalog
  }

  /** No two steps of one template share a sequence number. */
  predicate UniqueSeqPerKey(steps: seq<Step>) {
    forall i, j :: 0 <= i < j < |steps| && steps[i].faqKey == steps[j].faqKey ==> steps[i].seqNo != steps[j].seqNo
  }

  /** Every step belongs to a template, and every prompt collects a field that template has. */
  predicate StepsMatchTemplates(steps: seq<Step>, templates: seq<Template>) {
    forall i :: 0 <= i < |steps| ==>
      exists j :: 0 <= j < |templates| && templates[j].faqKey == steps[i].faqKey &&
        (steps[i].isQuestion ==> steps[i].key in templates[j].fields)
  }

  /** The shipped tables satisfy every invariant the engine relies on. */
  lemma StaticTablesWellFormed()
    ensures UniqueTemplateKeys(TemplateTable)
    ensures FaqsCatalogued(TemplateTable, CanonicalQuestions)
    ensures UniqueSeqPerKey(SequenceTable)
    ensures StepsMatchTemplates(SequenceTable, TemplateTable)
    ensures forall c :: c in CanonicalQuestions <==> c in CatalogInsertionOrder
  {
    assert TemplateTable[0].faqKey == SequenceTable[0].faqKey;
  }

  /** The script of template 1000: sequence numbers 1 to 5, one checkpoint, at 3, with key "N/A". */
  lemma RentVsBuyScriptShape()
    ensures |SequenceTable| == 5
    ensures forall i :: 0 <= i < 5 ==> SequenceTable[i].faqKey == 1000 && SequenceTable[i].seqNo == i + 1
    ensures forall i :: 0 <= i < 5 ==> (!SequenceTable[i].isQuestion <==> i == 2)
    ensures SequenceTable[2].key == NotApplicable
  {
  }
}
