/** The agent as a whole: its tables, filled in by the constructor, and one
    session (`runInteractiveSession` / `run_interactive_session`): classify the
    question, interview the user on a match, otherwise decide whether the
    question is financial and give advice. The three model calls are inputs:
    functions from what the agent sends to the reply it gets. */
module Agent {
  import opened Strings
  import opened Values
  import opened Tables
  import opened Prompt
  import opened Resolver
  import opened Engine
  import opened Fallback

  /** How a session ends. */
  datatype SessionOutcome =
    | Interviewed(faqKey: int, record: Record, events: seq<Event>, completed: bool)
    | Advised(advice: string)
    | Declined
    | Crashed

  /** One session: `classify` answers the classification prompt, `judge` the relevance question
      and `advise` the advice request; `answers` are the lines the user types after the
      question. */
  function Converse(d: Dialect, catalog: map<string, seq<string>>, order: seq<string>,
                    templates: seq<Template>, steps: seq<Step>, userText: string,
                    classify: seq<Line> -> Reply, judge: string -> Reply, advise: string -> Reply,
                    answers: seq<string>): SessionOutcome
    requires forall c :: c in order ==> c in catalog
  {
    match Resolve(d, templates, steps, classify(PromptLines(catalog, order, userText)))
    case IndexOutOfBounds => Crashed
    case Resolved(result) =>
      if result.faqKey != 0 then
        var run := Interview(d, result.jsonBlob, result.interactionSequence, answers);
        Interviewed(result.faqKey, run.record, run.events, run.completed)
      else if IsFinancial(d, judge(userText)) then Advised(Advice(d, advise(userText)))
      else Declined
  }

  class Agent {
    const dialect: Dialect
    var canonicalQuestions: map<string, seq<string>>
    /** The order the catalog is walked: the `HashMap`'s iteration order in Java, which the
        language leaves open, the insertion order in Python. */
    var catalogOrder: seq<string>
    var templateTable: seq<Template>
    var sequenceTable: seq<Step>

    predicate Valid()
      reads this
    {
      forall c :: c in catalogOrder ==> c in canonicalQuestions
    }

    constructor(d: Dialect, iterationOrder: seq<string>)
      requires forall c :: c in CanonicalQuestions <==> c in iterationOrder
      requires forall i, j :: 0 <= i < j < |iterationOrder| ==> iterationOrder[i] != iterationOrder[j]
      requires d == Python ==> iterationOrder == CatalogInsertionOrder
      ensures Valid() && dialect == d && catalogOrder == iterationOrder
      ensures canonicalQuestions == CanonicalQuestions
      ensures templateTable == TemplateTable && sequenceTable == SequenceTable
    {
      dialect := d;
      new;
      catalogOrder := iterationOrder;
      InitializeCanonicalQuestions();
      InitializeTemplateTable();
      InitializeSequenceTable();
    }

    method InitializeCanonicalQuestions()
      requires forall c :: c in catalogOrder ==> c in CanonicalQuestions
      modifies this
      ensures Valid()
      ensures canonicalQuestions == CanonicalQuestions
      ensures catalogOrder == old(catalogOrder) && templateTable == old(templateTable) && sequenceTable == old(sequenceTable)
    {
      canonicalQuestions := map[];
      canonicalQuestions := canonicalQuestions[RentVsBuy := CanonicalQuestions[RentVsBuy]];
      canonicalQuestions := canonicalQuestions[BuyNowRefinanceLater := CanonicalQuestions[BuyNowRefinanceLater]];
      assert canonicalQuestions.Keys == CanonicalQuestions.Keys;
    }

    method InitializeTemplateTable()
      requires Valid()
      modifies this
      ensures Valid()
      ensures templateTable == TemplateTable
      ensures catalogOrder == old(catalogOrder) && canonicalQuestions == old(canonicalQuestions) && sequenceTable == old(sequenceTable)
    {
      templateTable := [];
      templateTable := templateTable + [Template(1000, RentVsBuy, RentVsBuyFields)];
      templateTable := templateTable + [Template(2000, BuyNowRefinanceLater, RefinanceFields)];
    }

    method InitializeSequenceTable()
      requires Valid()
      modifies this
      ensures Valid()
      ensures sequenceTable == SequenceTable
      ensures catalogOrder == old(catalogOrder) && canonicalQuestions == old(canonicalQuestions) && templateTable == old(templateTable)
    {
      sequenceTable := [];
      sequenceTable := sequenceTable + [Step(1000, 1, true, "Current Saving Balance: ", "balance")];
      sequenceTable := sequenceTable + [Step(1000, 2, true, "Interest Rate: ", "APR")];
      sequenceTable := sequenceTable + [Step(1000, 3, false, "The canvas is populated from the info given, please continue", NotApplicable)];
      sequenceTable := sequenceTable + [Step(1000, 4, true, "How much is rent? ", "rent")];
      sequenceTable := sequenceTable + [Step(1000, 5, true, "Your salary: ", "salary")];
    }

    /** One session: the record a match starts from is a copy of the template's fields, so the
        tables are left as they were (the method changes nothing of the agent). */
    method RunInteractiveSession(userText: string, classify: seq<Line> -> Reply, judge: string -> Reply,
                                 advise: string -> Reply, answers: seq<string>) returns (outcome: SessionOutcome)
      requires Valid()
      ensures outcome == Converse(dialect, canonicalQuestions, catalogOrder, templateTable, sequenceTable,
                                  userText, classify, judge, advise, answers)
    {
      var prompt := BuildPrompt(canonicalQuestions, catalogOrder, userText);
      var resolved := Resolve(dialect, templateTable, sequenceTable, classify(prompt));
      if resolved.IndexOutOfBounds? {
        return Crashed;
      }
      var result := resolved.resolution;
      if result.faqKey != 0 {
        var session := new Session(result.faqKey, result.jsonBlob, result.interactionSequence);
        var events, completed := session.RunSteps(dialect, answers);
        return Interviewed(session.faqKey, session.jsonBlob, events, completed);
      }
      if IsFinancial(dialect, judge(userText)) {
        return Advised(Advice(dialect, advise(userText)));
      }
      return Declined;
    }
  }

  /** Only the Java agent crashes, and only on a classifier reply that starts with "Q" and is
      shorter than four characters. */
  lemma ConverseCrashes(d: Dialect, catalog: map<string, seq<string>>, order: seq<string>,
                        templates: seq<Template>, steps: seq<Step>, userText: string,
                        classify: seq<Line> -> Reply, judge: string -> Reply, advise: string -> Reply,
                        answers: seq<string>)
    requires forall c :: c in order ==> c in catalog
    ensures var reply := ReplyText(classify(PromptLines(catalog, order, userText)));
      Converse(d, catalog, order, templates, steps, userText, classify, judge, advise, answers) == Crashed
      <==> d == Java && StartsWith(reply, "Q") && |reply| < 4
  {
  }

  /** A session interviews the user exactly when the parsed reply names a template. */
  lemma ConverseInterviewsOnMatch(d: Dialect, catalog: map<string, seq<string>>, order: seq<string>,
                                  templates: seq<Template>, steps: seq<Step>, userText: string,
                                  classify: seq<Line> -> Reply, judge: string -> Reply, advise: string -> Reply,
                                  answers: seq<string>)
    requires forall c :: c in order ==> c in catalog
    requires UniqueTemplateKeys(templates)
    ensures var reply := ReplyText(classify(PromptLines(catalog, order, userText)));
      Converse(d, catalog, order, templates, steps, userText, classify, judge, advise, answers).Interviewed? <==>
        StartsWith(reply, "Q") &&
        if d == Java then |reply| >= 4 && exists i :: 0 <= i < |templates| && templates[i].faq == JavaParseFaq(reply)
        else exists i :: 0 <= i < |templates| && templates[i].faq == PyParseFaq(reply)
  {
    ResolveKeyed(d, templates, steps, classify(PromptLines(catalog, order, userText)));
  }

  /** An interview walks the matched template's script from a copy of its fields. */
  lemma ConverseInterviewRun(d: Dialect, catalog: map<string, seq<string>>, order: seq<string>,
                             templates: seq<Template>, steps: seq<Step>, userText: string,
                             classify: seq<Line> -> Reply, judge: string -> Reply, advise: string -> Reply,
                             answers: seq<string>)
    requires forall c :: c in order ==> c in catalog
    requires UniqueTemplateKeys(templates)
    ensures var o := Converse(d, catalog, order, templates, steps, userText, classify, judge, advise, answers);
      o.Interviewed? ==>
        exists i :: && 0 <= i < |templates| && templates[i].faqKey == o.faqKey
                    && Interview(d, templates[i].fields, Script(steps, o.faqKey), answers) == Run(o.record, o.events, o.completed)
  {
    ResolvedIsTemplate(d, templates, steps, classify(PromptLines(catalog, order, userText)));
  }

  /** A resolution with a key starts the interview of its script from its fields. */
  lemma ConverseOnKeyedResolution(d: Dialect, catalog: map<string, seq<string>>, order: seq<string>,
                                  templates: seq<Template>, steps: seq<Step>, userText: string,
                                  classify: seq<Line> -> Reply, judge: string -> Reply, advise: string -> Reply,
                                  answers: seq<string>, res: Resolution)
    requires forall c :: c in order ==> c in catalog
    requires Resolve(d, templates, steps, classify(PromptLines(catalog, order, userText))) == Resolved(res)
    requires res.faqKey != 0
    ensures var run := Interview(d, res.jsonBlob, res.interactionSequence, answers);
      Converse(d, catalog, order, templates, steps, userText, classify, judge, advise, answers)
        == Interviewed(res.faqKey, run.record, run.events, run.completed)
  {
  }

  /** Without a match the relevance reply decides. The session gives advice exactly when the
      trimmed reply spells "yes" (in Python, only a reply with content); the advice is the
      model's text when it has content other than "Error", and the apology when the call
      fails. Otherwise it declines. */
  lemma ConverseFallsBack(d: Dialect, catalog: map<string, seq<string>>, order: seq<string>,
                          templates: seq<Template>, steps: seq<Step>, userText: string,
                          classify: seq<Line> -> Reply, judge: string -> Reply, advise: string -> Reply,
                          answers: seq<string>)
    requires forall c :: c in order ==> c in catalog
    requires Resolve(d, templates, steps, classify(PromptLines(catalog, order, userText))) == Resolved(NoMatch)
    ensures var o := Converse(d, catalog, order, templates, steps, userText, classify, judge, advise, answers);
      && (o.Advised? || o.Declined?)
      && (d == Java ==> (o.Advised? <==> SpellsYes(Trim(ReplyText(judge(userText)), JavaSpace))))
      && (d == Python ==> (o.Advised? <==> judge(userText).Content? && SpellsYes(Trim(judge(userText).text, PySpace))))
      && (o.Advised? && advise(userText).Content? && advise(userText).text != ErrorSentinel ==>
            o.advice == advise(userText).text)
      && (o.Advised? && advise(userText) == TransportFailure ==> o.advice == Apology)
  {
    IsFinancialSpec(d, judge(userText));
    AdviceSpec(d, advise(userText));
  }

  /** A failed classifier call never starts an interview or crashes: the session falls back to
      the relevance and advice calls, and when those fail too it declines. */
  lemma ClassifierFailureFallsBack(d: Dialect, catalog: map<string, seq<string>>, order: seq<string>,
                                   templates: seq<Template>, steps: seq<Step>, userText: string,
                                   classify: seq<Line> -> Reply, judge: string -> Reply, advise: string -> Reply,
                                   answers: seq<string>)
    requires forall c :: c in order ==> c in catalog
    requires classify(PromptLines(catalog, order, userText)) == TransportFailure
    ensures var o := Converse(d, catalog, order, templates, steps, userText, classify, judge, advise, answers);
      && (o.Advised? || o.Declined?)
      && (judge(userText) == TransportFailure ==> o == Declined)
      && (advise(userText) == TransportFailure && o.Advised? ==> o.advice == Apology)
  {
    FailureIsNoMatch(d, templates, steps);
    IsFinancialSpec(d, judge(userText));
    AdviceSpec(d, advise(userText));
  }

  /** The shipped script of template 1000 is the sequence table as it stands. */
  lemma RentVsBuyScript()
    ensures Script(SequenceTable, 1000) == SequenceTable
  {
    assert SortedBySeq(SequenceTable) by {
      RentVsBuyScriptShape();
    }
    assert UniqueSeqPerKey(SequenceTable) by {
      StaticTablesWellFormed();
    }
    assert StepsFor(SequenceTable, 1000) == SequenceTable by {
      RentVsBuyScriptShape();
      StepsForAll(SequenceTable, 1000);
    }
    ScriptDetermined(SequenceTable, 1000, SequenceTable);
  }

  /** Template 2000 has no steps, so its interview ends at once with the template's fields. */
  lemma RefinanceScript()
    ensures Script(SequenceTable, 2000) == []
  {
    RentVsBuyScriptShape();
  }

  /** The Rent Vs Buy interview with four answers: balance, rate, rent and salary, in that
      order, each stored as its dialect stores it, the checkpoint showing the first two. */
  lemma RentVsBuyInterview(d: Dialect, answers: seq<string>)
    requires |answers| >= 4
    ensures var afterRate := RentVsBuyFields["balance" := Store(d, answers[0])]["APR" := Store(d, answers[1])];
      Interview(d, RentVsBuyFields, SequenceTable, answers) ==
        Run(afterRate["rent" := Store(d, answers[2])]["salary" := Store(d, answers[3])],
            [ Asked("Current Saving Balance: "), Asked("Interest Rate: "),
              Shown(afterRate, "The canvas is populated from the info given, please continue"),
              Asked("How much is rent? "), Asked("Your salary: ") ],
            true)
  {
    var t := SequenceTable;
    var r1 := RentVsBuyFields["balance" := Store(d, answers[0])];
    var r2 := r1["APR" := Store(d, answers[1])];
    var r3 := r2["rent" := Store(d, answers[2])];
    var r4 := r3["salary" := Store(d, answers[3])];
    assert t[5..] == [];
    assert Interview(d, r3, t[4..], answers[3..]) == Run(r4, [Asked(t[4].displayText)], true) by {
      assert t[4..][1..] == t[5..] && t[4..][0] == t[4];
    }
    assert Interview(d, r2, t[3..], answers[2..]) == Run(r4, [Asked(t[3].displayText), Asked(t[4].displayText)], true) by {
      assert t[3..][1..] == t[4..] && t[3..][0] == t[3] && answers[2..][1..] == answers[3..];
    }
    assert Interview(d, r2, t[2..], answers[2..]) == Run(r4, [Shown(r2, t[2].displayText), Asked(t[3].displayText), Asked(t[4].displayText)], true) by {
      assert t[2..][1..] == t[3..] && t[2..][0] == t[2];
    }
    assert Interview(d, r1, t[1..], answers[1..]).record == r4 by {
      assert t[1..][1..] == t[2..] && t[1..][0] == t[1] && answers[1..][1..] == answers[2..];
    }
    assert t[1..][1..] == t[2..] && answers[1..][1..] == answers[2..];
  }

  /** Fewer than four answers leave the Rent Vs Buy interview unfinished. */
  lemma RentVsBuyInterrupted(d: Dialect, answers: seq<string>)
    requires |answers| < 4
    ensures !Interview(d, RentVsBuyFields, SequenceTable, answers).completed
  {
    var t := SequenceTable;
    assert PromptCount(t[4..]) == 1 by {
      assert t[4..][1..] == [];
    }
    assert PromptCount(t[3..]) == 2 by {
      assert t[3..][1..] == t[4..];
    }
    assert PromptCount(t[2..]) == 2 by {
      assert t[2..][1..] == t[3..];
    }
    assert PromptCount(t[1..]) == 3 by {
      assert t[1..][1..] == t[2..];
    }
    InterviewCompletes(d, RentVsBuyFields, SequenceTable, answers);
  }

  /** Looking up either canonical question finds its template. */
  lemma StaticMatch(c: string)
    requires c == RentVsBuy || c == BuyNowRefinanceLater
    ensures c == RentVsBuy ==> Match(TemplateTable, SequenceTable, c) == Resolution(1000, RentVsBuyFields, SequenceTable)
    ensures c == BuyNowRefinanceLater ==> Match(TemplateTable, SequenceTable, c) == Resolution(2000, RefinanceFields, [])
  {
    if c == RentVsBuy {
      assert FindTemplate(TemplateTable, c) == Some(0);
      RentVsBuyScript();
    } else {
      assert TemplateTable[0].faq != c by {
        assert |RentVsBuy| != |BuyNowRefinanceLater|;
      }
      assert FindTemplate(TemplateTable[1..], c) == Some(0);
      assert FindTemplate(TemplateTable, c) == Some(1);
      RefinanceScript();
    }
  }

  /** Neither canonical question holds a double quote or starts or ends with a character
      either trim would remove. */
  lemma CatalogQuestionsPlain(c: string)
    requires c in CanonicalQuestions
    ensures c == RentVsBuy || c == BuyNowRefinanceLater
    ensures '"' !in c && c != []
    ensures !JavaSpace(c[0]) && !JavaSpace(c[|c| - 1])
  {
    assert '"' !in RentVsBuy && '"' !in BuyNowRefinanceLater;
  }

  /** The catalog has exactly the two canonical questions. */
  lemma CatalogSize()
    ensures |CanonicalQuestions| == 2
  {
    assert CanonicalQuestions.Keys == {RentVsBuy, BuyNowRefinanceLater};
    assert RentVsBuy != BuyNowRefinanceLater by {
      assert |RentVsBuy| != |BuyNowRefinanceLater|;
    }
  }

  /** A label line shown in the prompt names one of the two canonical questions, and echoing it
      resolves as looking that question up. */
  lemma EchoedLabelResolves(d: Dialect, order: seq<string>, userText: string, i: nat, c: string)
    requires forall q :: q in CanonicalQuestions <==> q in order
    requires forall j, k :: 0 <= j < k < |order| ==> order[j] != order[k]
    requires d == Python ==> order == CatalogInsertionOrder
    requires Label(i, c) in PromptLines(CanonicalQuestions, order, userText)
    ensures c == RentVsBuy || c == BuyNowRefinanceLater
    ensures Resolve(d, TemplateTable, SequenceTable, Content(LabelText(i, c))) == Resolved(Match(TemplateTable, SequenceTable, c))
  {
    PromptLabelsEachQuestionOnce(CanonicalQuestions, order, userText);
    CatalogSize();
    assert 1 <= i <= 2 && order[i - 1] == c;
    CatalogQuestionsPlain(c);
    if d == Java {
      JavaLabelRoundTrip(TemplateTable, SequenceTable, i, c);
    } else {
      PyLabelRoundTrip(TemplateTable, SequenceTable, i, c);
    }
  }

  /** Round trip through the classifier: whatever order Java's `HashMap` walks the catalog in,
      and in Python's insertion order, a classifier that echoes one of the label lines it was
      shown starts the interview of that question's template. */
  lemma EchoedLabelInterviews(d: Dialect, order: seq<string>, userText: string,
                              classify: seq<Line> -> Reply, judge: string -> Reply, advise: string -> Reply,
                              answers: seq<string>, i: nat, c: string)
    requires forall q :: q in CanonicalQuestions <==> q in order
    requires forall j, k :: 0 <= j < k < |order| ==> order[j] != order[k]
    requires d == Python ==> order == CatalogInsertionOrder
    requires Label(i, c) in PromptLines(CanonicalQuestions, order, userText)
    requires classify(PromptLines(CanonicalQuestions, order, userText)) == Content(LabelText(i, c))
    ensures var o := Converse(d, CanonicalQuestions, order, TemplateTable, SequenceTable, userText, classify, judge, advise, answers);
      && (c == RentVsBuy ==>
            var run := Interview(d, RentVsBuyFields, SequenceTable, answers);
            o == Interviewed(1000, run.record, run.events, run.completed))
      && (c == BuyNowRefinanceLater ==> o == Interviewed(2000, RefinanceFields, [], true))
  {
    var m := Match(TemplateTable, SequenceTable, c);
    EchoedLabelResolves(d, order, userText, i, c);
    StaticMatch(c);
    assert m.faqKey != 0;
    ConverseOnKeyedResolution(d, CanonicalQuestions, order, TemplateTable, SequenceTable, userText,
                              classify, judge, advise, answers, m);
  }

  /** A classifier that replies with a canonical question alone, without its `Q<i>: ` label,
      gets no interview in either implementation: the reply does not start with "Q". */
  lemma BareQuestionFallsBack(d: Dialect, order: seq<string>, userText: string,
                              classify: seq<Line> -> Reply, judge: string -> Reply, advise: string -> Reply,
                              answers: seq<string>, c: string)
    requires forall q :: q in order ==> q in CanonicalQuestions
    requires c in CanonicalQuestions
    requires classify(PromptLines(CanonicalQuestions, order, userText)) == Content(c)
    ensures Converse(d, CanonicalQuestions, order, TemplateTable, SequenceTable, userText, classify, judge, advise, answers)
      == if IsFinancial(d, judge(userText)) then Advised(Advice(d, advise(userText))) else Declined
  {
    CatalogQuestionsPlain(c);
    assert !StartsWith(c, "Q") by {
      assert c[..1] == [c[0]];
    }
  }
}
