/** The two decisions taken when no template matches: whether the question is
    financial (`isFinancialQuestion` / `is_financial_question`) and what advice
    text to show (`getFinancialAdvice` / `get_financial_advice`). The model's
    replies are inputs. */
module Fallback {
  import opened Strings
  import opened Values
  import opened Resolver

  /** The fixed text shown when no advice can be had. */
  const Apology := "Sorry, I'm unable to provide financial advice at the moment. Please try again later."

  /** Java: the reply (the sentinel on a failure), trimmed of characters up to space, upper-cased,
      equals "YES". */
  predicate JavaIsFinancial(r: Reply) {
    Upper(Trim(ReplyText(r), JavaSpace)) == "YES"
  }

  /** Python: the content, stripped of whitespace, upper-cased, equals "YES"; a failure is
      `False`. */
  predicate PyIsFinancial(r: Reply) {
    match r
    case Content(text) => Upper(Trim(text, PySpace)) == "YES"
    case TransportFailure => false
  }

  predicate IsFinancial(d: Dialect, r: Reply) {
    match d
    case Java => JavaIsFinancial(r)
    case Python => PyIsFinancial(r)
  }

  /** Java: the apology when the reply is the sentinel, whatever produced it; the reply
      otherwise. */
  function JavaAdvice(r: Reply): string {
    if ReplyText(r) == ErrorSentinel then Apology else ReplyText(r)
  }

  /** Python: the apology on a failure; the content otherwise, whatever it says. */
  function PyAdvice(r: Reply): string {
    match r
    case Content(text) => text
    case TransportFailure => Apology
  }

  function Advice(d: Dialect, r: Reply): string {
    match d
    case Java => JavaAdvice(r)
    case Python => PyAdvice(r)
  }

  /** The words that upper-case to "YES": three letters, y, e and s in either case, the long s
      (U+017F) counting as an s. */
  predicate SpellsYes(t: string) {
    && |t| == 3
    && (t[0] == 'Y' || t[0] == 'y')
    && (t[1] == 'E' || t[1] == 'e')
    && (t[2] == 'S' || t[2] == 's' || t[2] == '\U{17F}')
  }

  lemma UpperIsYes(t: string)
    ensures Upper(t) == "YES" <==> SpellsYes(t)
  {
    if |t| == 3 {
      assert Upper(t) == [UpperChar(t[0]), UpperChar(t[1]), UpperChar(t[2])];
    }
  }

  /** A reply is taken as "financial" exactly when, once trimmed, it spells yes; a failure never
      is. */
  lemma IsFinancialSpec(d: Dialect, r: Reply)
    ensures d == Java ==> (IsFinancial(d, r) <==> SpellsYes(Trim(ReplyText(r), JavaSpace)))
    ensures d == Python ==> (IsFinancial(d, r) <==> r.Content? && SpellsYes(Trim(r.text, PySpace)))
    ensures r == TransportFailure ==> !IsFinancial(d, r)
  {
    UpperIsYes(Trim(ReplyText(r), JavaSpace));
    if r.Content? {
      UpperIsYes(Trim(r.text, PySpace));
    }
    if r == TransportFailure {
      TrimOfTrimmed(ErrorSentinel, JavaSpace);
    }
  }

  /** Whitespace around the reply does not change the decision. */
  lemma IsFinancialIgnoresPadding(d: Dialect, lead: string, text: string, trail: string)
    requires d == Java ==> forall i :: 0 <= i < |lead| ==> JavaSpace(lead[i])
    requires d == Java ==> forall i :: 0 <= i < |trail| ==> JavaSpace(trail[i])
    requires d == Python ==> forall i :: 0 <= i < |lead| ==> PySpace(lead[i])
    requires d == Python ==> forall i :: 0 <= i < |trail| ==> PySpace(trail[i])
    ensures IsFinancial(d, Content(lead + text + trail)) == IsFinancial(d, Content(text))
  {
    if d == Java {
      TrimIgnoresPadding(lead, text, trail, JavaSpace);
    } else {
      TrimIgnoresPadding(lead, text, trail, PySpace);
    }
  }

  /** The advice is the reply itself unless it is the sentinel (Java) or a failure (Python), in
      which case it is the apology. */
  lemma AdviceSpec(d: Dialect, r: Reply)
    ensures d == Java ==> (Advice(d, r) == Apology <==> ReplyText(r) == ErrorSentinel || ReplyText(r) == Apology)
    ensures d == Python ==> (Advice(d, r) == Apology <==> r == TransportFailure || r == Content(Apology))
    ensures r.Content? && r.text != ErrorSentinel ==> Advice(d, r) == r.text
    ensures r == TransportFailure ==> Advice(d, r) == Apology
  {
    assert Apology != ErrorSentinel by {
      assert |Apology| != |ErrorSentinel|;
    }
  }

  /** The two implementations part ways on a model that answers with the bare word "Error":
      Java apologises, Python shows the word. */
  lemma AdviceOnErrorWord()
    ensures Advice(Java, Content(ErrorSentinel)) == Apology
    ensures Advice(Python, Content(ErrorSentinel)) == ErrorSentinel != Apology
  {
    assert |Apology| != |ErrorSentinel|;
  }

  /** Java's trim keeps a trailing no-break space (U+00A0), which is above space, so a
      "yes" followed by one is declined. */
  lemma JavaKeepsNoBreakSpace(t: string)
    requires SpellsYes(t)
    ensures !IsFinancial(Java, Content(t + "\U{A0}"))
  {
    assert (t + "\U{A0}")[0] == t[0];
    TrimOfTrimmed(t + "\U{A0}", JavaSpace);
    assert |Upper(t + "\U{A0}")| == 4;
  }

  /** Python's strip removes a trailing no-break space, so the same reply is accepted. */
  lemma PyStripsNoBreakSpace(t: string)
    requires SpellsYes(t)
    ensures IsFinancial(Python, Content(t + "\U{A0}"))
  {
    assert Trim(t + "\U{A0}", PySpace) == Trim(t, PySpace) by {
      assert PySpace("\U{A0}"[0]);
      TrimSkipsTrailing(t, "\U{A0}", PySpace);
    }
    assert Trim(t, PySpace) == t by {
      TrimOfTrimmed(t, PySpace);
    }
    UpperIsYes(t);
  }
}
