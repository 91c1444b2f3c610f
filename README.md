# IvaChat resolve-then-interview engine, in Dafny

IvaChat is a financial question-and-answer agent. It exists in two versions:
a Java one (`javaIvaChat/IvaChatAgent.java`) and a cleaned-up Python one
(`ivachat_cleaned.py`). A session runs in four stages:

1. The agent asks a chat model to map the user's question onto one of its
   canonical questions. The prompt labels each canonical question `Q<i>: "<question>"`.
2. It parses the model's reply and looks up the template whose question it names.
   A match yields the template's key, a copy of its default fields, and its
   interaction steps sorted by sequence number.
3. It walks those steps. A prompt step reads one answer into the record. A
   checkpoint step shows the record as it stands.
4. With no match, it asks the model whether the question is financial. If so, it
   shows the model's advice, or a fixed apology when that call fails.

The model covers both versions side by side, with a `Dialect` (`Java` or
`Python`) wherever they differ. The chat model is an input: three functions from
what the agent sends to the `Reply` it gets back. A `Reply` is either some
content or a transport failure.

| module | file | contents |
|---|---|---|
| `Strings` | strings.dfy | digits and decimal rendering, Java's `trim`, Python's `strip`, quote removal, upper-casing |
| `Values` | values.dfy | the field values (`Int`, `Real` with its digit runs, `Text`) and what each version stores for an answer |
| `Tables` | tables.dfy | the canonical questions, the template table and the sequence table, with their invariants |
| `Prompt` | prompt.dfy | the classification prompt as a sequence of lines, built by a loop |
| `Resolver` | resolver.dfy | both versions of `sendUserInput`: parsing, template lookup, filtering and sorting the steps |
| `Engine` | engine.dfy | the step loop as a `Session` class whose record is updated in place, specified by the function `Interview` |
| `Fallback` | fallback.dfy | the relevance decision and the advice-or-apology decision |
| `Agent` | agent.dfy | the agent class: it fills its tables and runs a session (`Converse`), plus scenarios on the shipped tables |

The two versions differ on the following points, each proved as a lemma:
- Java coerces answers into numbers; Python stores the raw text (`DialectsFromTemplate`).
- Java removes every double quote and trims whitespace. Python strips only the quotes at either end.
- On a reply of "Q" plus at most two characters, Java throws and Python finds no match (`ShortReplyResolution`).
- From the tenth label on, Python's fixed four-character cut no longer yields the question; Java's trim still does (`TwoDigitLabelResolution`).
- The two trims differ on a no-break space (`JavaKeepsNoBreakSpace`, `PyStripsNoBreakSpace`).
- A model that answers the advice request with the word "Error" gets an apology in Java only (`AdviceOnErrorWord`).

## Model

| member | source | states |
|---|---|---|
| Strings.NatToString | javaIvaChat/IvaChatAgent.java:159 | the rendering of the label counter is a digit string that reads back as the counter; one digit exactly below 10, two exactly from 10 to 99 |
| Strings.RemoveAllSpec | javaIvaChat/IvaChatAgent.java:289 | `replaceAll("\"", "")` leaves no double quote, keeps every other character with its count, and changes nothing in a string without quotes |
| Strings.TrimShape | javaIvaChat/IvaChatAgent.java:289 | a trim adds no character and leaves no strippable character at either end |
| Strings.TrimIgnoresPadding | ivachat_cleaned.py:123 | whitespace before and after a string does not change its trim |
| Strings.NatToStringOfDigits | javaIvaChat/IvaChatAgent.java:354 | reading a digit string with no leading zero as a number and rendering it gives the string back |
| Values.CoerceClassifies | javaIvaChat/IvaChatAgent.java:353-362 | an answer becomes an `Int` exactly when it is `\d+` and fits in an `int`, a `Real` exactly when it is `\d+\.\d+`, and text (the answer itself) otherwise |
| Values.CoerceIntRoundTrip | javaIvaChat/IvaChatAgent.java:353-354 | every natural number up to `Integer.MAX_VALUE`, written in decimal, is stored as that `Int` |
| Values.CoerceRealRoundTrip | javaIvaChat/IvaChatAgent.java:355-356 | two digit runs joined by a dot are stored as a `Real` with exactly those runs |
| Values.CoerceNumberExamples | javaIvaChat/IvaChatAgent.java:353-356 | "42" is stored as `Int(42)` and "3.14" as `Real("3", "14")` |
| Values.CoerceTextExamples | javaIvaChat/IvaChatAgent.java:357-358 | "-5", "two thousand" and "1.2.3" are stored as text |
| Values.CoerceOverflowBoundary | javaIvaChat/IvaChatAgent.java:360-361 | "2147483647" is an `Int`; "2147483648" overflows `parseInt` and is stored as text |
| Values.StoreKeepsAnswer | javaIvaChat/IvaChatAgent.java:353-362 | the stored value writes back as the answer, in both versions, except a Java `int` answer with a leading zero |
| Tables.StaticTablesWellFormed | javaIvaChat/IvaChatAgent.java:97-148 | template keys are non-zero and distinct, every template question is in the catalog, sequence numbers are unique per template, every prompt step's field is in its template, and the insertion order lists the catalog |
| Tables.RentVsBuyScriptShape | ivachat_cleaned.py:59-74 | template 1000 has five steps numbered 1 to 5, and the only checkpoint is number 3, with key "N/A" |
| Prompt.BuildPrompt | javaIvaChat/IvaChatAgent.java:153-170 | the loop builds a header, then each catalog entry in the order walked (its label `Q<i>` counting from 1, then its alternates), then the user's question and the instruction |
| Prompt.EntryLabelsNumbered | ivachat_cleaned.py:79-82 | the label lines of the catalog part number the entries 1, 2, … in the order walked, and no other line is a label |
| Prompt.PromptLabelsEachQuestionOnce | javaIvaChat/IvaChatAgent.java:157-164 | for any duplicate-free walk of the catalog, `Q<i>` labels the i-th question walked; every canonical question gets exactly one label; the labels run from 1 to the catalog's size |
| Resolver.FindTemplate | javaIvaChat/IvaChatAgent.java:293-295 | the lookup returns the first template whose question equals the text exactly, or nothing when none does |
| Resolver.StepsFor | javaIvaChat/IvaChatAgent.java:305-306 | the filter keeps exactly the steps of the key, each as often as in the table |
| Resolver.SortBySeq | javaIvaChat/IvaChatAgent.java:307 | the sort orders by sequence number and is a permutation |
| Resolver.SortBySeqStable | javaIvaChat/IvaChatAgent.java:307 | the sort is stable: steps with equal numbers keep their table order |
| Resolver.ScriptSpec | javaIvaChat/IvaChatAgent.java:305-308 | the script of a key holds exactly that template's steps, no other template's, in non-decreasing order; the steps sharing a number appear as the key's steps among the table's steps with that number, in table order |
| Resolver.StepsForWithSeqNo | javaIvaChat/IvaChatAgent.java:305-306 | filtering by key keeps table order: the filtered steps with a given number are the key's steps among the table's steps with that number, in the same order |
| Resolver.ScriptDetermined | ivachat_cleaned.py:177-179 | when sequence numbers are unique per template, every sorted arrangement of a template's steps is the script, so the unstable `sort_values` gives the same result |
| Resolver.SortedPermutationUnique | ivachat_cleaned.py:179 | two sorted arrangements of one collection whose numbers are distinct are equal |
| Resolver.MatchSpec | javaIvaChat/IvaChatAgent.java:292-310 | a match is the first template with exactly that question, with its key, a copy of its fields and its script; otherwise key 0, no fields and no steps |
| Resolver.JavaParsedFaqShape | javaIvaChat/IvaChatAgent.java:289 | the Java parse leaves no double quote anywhere and no character up to space at either end |
| Resolver.PyParsedFaqShape | ivachat_cleaned.py:165 | the Python parse leaves no double quote at either end |
| Resolver.JavaSendUserInputCases | javaIvaChat/IvaChatAgent.java:281-311 | a reply not starting with "Q" is no match; one starting with "Q" and shorter than four characters throws; otherwise the reply matches exactly when its parse names a template |
| Resolver.PySendUserInputCases | ivachat_cleaned.py:157-181 | a reply not starting with "Q" is no match; a reply of at most four characters parses to the empty string; the reply matches exactly when it starts with "Q" and its parse names a template |
| Resolver.JavaParseLabel | javaIvaChat/IvaChatAgent.java:289 | the Java parse of the label line `Q<i>: "<c>"` for i from 1 to 99 gives back c, for any c without quotes or surrounding whitespace |
| Resolver.JavaLabelRoundTrip | javaIvaChat/IvaChatAgent.java:284-299 | a reply echoing a label line, for i from 1 to 99, resolves as the lookup of the question itself |
| Resolver.PyParseLabel | ivachat_cleaned.py:165 | the Python parse of a single-digit label line gives back the question, inner quotes included |
| Resolver.PyLabelRoundTrip | ivachat_cleaned.py:161-174 | a reply echoing a single-digit label line resolves as the lookup of the question itself |
| Resolver.PyParseTwoDigitLabel | ivachat_cleaned.py:165 | for labels 10 to 99 the Python parse keeps a space and a quote before the question |
| Resolver.TwoDigitLabelResolution | ivachat_cleaned.py:165-171 | from label 10 on, Java still resolves the echoed label to the question's template; Python finds no match unless some template question starts with a space |
| Resolver.ShortReplyResolution | javaIvaChat/IvaChatAgent.java:289 | "Q" plus at most two characters throws in Java and is no match in Python |
| Resolver.PyShortReplyMisses | ivachat_cleaned.py:165-171 | in Python a reply under four characters parses to "", which names no template with a question |
| Resolver.ResolveKeyed | javaIvaChat/IvaChatAgent.java:284-299 | in both versions a template is found exactly when the reply starts with "Q" and its parse (in Java, of a reply of at least four characters) is some template's question |
| Resolver.FailureIsNoMatch | javaIvaChat/IvaChatAgent.java:201-212 | a failed classifier call yields the "Error" sentinel, which is no match in both versions |
| Resolver.ResolvedIsTemplate | javaIvaChat/IvaChatAgent.java:301-310 | in both versions, every resolution with a key is some template's key, fields and script |
| Engine.Session.RunSteps | javaIvaChat/IvaChatAgent.java:345-373 | the loop updates `jsonBlob` in place, step by step; the final record, the events and completion are those of `Interview` on the old record |
| Engine.InterviewCompletes | javaIvaChat/IvaChatAgent.java:345-349 | the walk reaches the end exactly when there is an answer for every prompt step |
| Engine.InterviewLength | javaIvaChat/IvaChatAgent.java:345 | one event per step reached; a finished walk reaches every step |
| Engine.InterviewVisitsInOrder | ivachat_cleaned.py:197-210 | the i-th event is the i-th step's: its prompt text, or a snapshot with its message |
| Engine.InterviewStopsAtUnanswered | ivachat_cleaned.py:200 | an unfinished walk stops at a prompt step, after earlier prompts have used every answer |
| Engine.InterviewKeys | javaIvaChat/IvaChatAgent.java:345-373 | no field disappears; only prompt-step fields appear; a finished walk ends with the template's keys plus the prompt keys |
| Engine.InterviewFrame | javaIvaChat/IvaChatAgent.java:363-372 | a field that no prompt step names keeps its value: checkpoints change nothing, and a prompt changes only its own field |
| Engine.InterviewLastWrite | javaIvaChat/IvaChatAgent.java:349-361 | a field ends with the stored form of the answer given at the last prompt naming it; that answer's index is the count of earlier prompts |
| Engine.CheckpointSnapshot | javaIvaChat/IvaChatAgent.java:363-371 | a checkpoint shows the record exactly as the steps before it left it |
| Engine.DialectsDifferOnlyInStorage | ivachat_cleaned.py:202 | Java and Python walks over corresponding records end alike; the Java record is the Python one with the answered fields coerced |
| Engine.DialectsFromTemplate | ivachat_cleaned.py:197-202 | from the same template fields, the Java record is the Python record with every answered field coerced; the two complete together |
| Fallback.UpperIsYes | javaIvaChat/IvaChatAgent.java:246 | a string upper-cases to "YES" exactly when it is y, e, s in any case (the long s counting as s) |
| Fallback.IsFinancialSpec | javaIvaChat/IvaChatAgent.java:246 | Java: financial exactly when the trimmed reply spells yes. Python: exactly when it is content whose stripped text spells yes. A failure is never financial |
| Fallback.IsFinancialIgnoresPadding | ivachat_cleaned.py:123 | each version's whitespace around the reply does not change the decision |
| Fallback.JavaKeepsNoBreakSpace | javaIvaChat/IvaChatAgent.java:246 | Java declines a "yes" followed by a no-break space, which `trim` keeps |
| Fallback.PyStripsNoBreakSpace | ivachat_cleaned.py:123 | Python accepts the same reply, since `strip` removes the no-break space |
| Fallback.AdviceSpec | javaIvaChat/IvaChatAgent.java:271-275 | the advice is the apology exactly when the reply is the sentinel (Java) or a failure (Python), or is the apology text itself; otherwise it is the reply verbatim |
| Fallback.AdviceOnErrorWord | ivachat_cleaned.py:152-155 | a model answering "Error" gets the apology in Java but is shown verbatim in Python |
| Agent.Agent.constructor | javaIvaChat/IvaChatAgent.java:83-92 | the constructor fills the catalog, the template table and the sequence table with the shipped rows |
| Agent.Agent.InitializeCanonicalQuestions | javaIvaChat/IvaChatAgent.java:97-111 | the catalog is the two canonical questions with their alternates, and the agent's invariant (every walked question is in the catalog) holds afterwards; nothing else changes |
| Agent.Agent.InitializeTemplateTable | javaIvaChat/IvaChatAgent.java:116-135 | the template table is templates 1000 and 2000 with their fields; the agent's invariant is kept and nothing else changes |
| Agent.Agent.InitializeSequenceTable | javaIvaChat/IvaChatAgent.java:140-148 | the sequence table is the five steps of template 1000; the agent's invariant is kept and nothing else changes |
| Agent.Agent.RunInteractiveSession | javaIvaChat/IvaChatAgent.java:331-403 | a session builds the prompt, resolves the reply, then interviews or falls back as `Converse` says; the tables are not modified |
| Agent.ConverseCrashes | javaIvaChat/IvaChatAgent.java:289 | a session crashes only in Java, and only on a classifier reply that starts with "Q" and is shorter than four characters |
| Agent.ConverseInterviewsOnMatch | javaIvaChat/IvaChatAgent.java:338-345 | a session interviews the user exactly when the reply starts with "Q" and its parse names a template |
| Agent.ConverseInterviewRun | javaIvaChat/IvaChatAgent.java:338-373 | an interview is the walk of a template's script starting from that template's fields |
| Agent.ConverseFallsBack | javaIvaChat/IvaChatAgent.java:384-402 | with no match the session is advice or a refusal; it is advice exactly when the trimmed relevance reply spells "yes" (Java trims the reply text, Python requires content and strips it); the advice is the advice reply's text when that is content other than "Error", and the apology when the call fails |
| Agent.ClassifierFailureFallsBack | ivachat_cleaned.py:100-102 | a failed classifier call never interviews or crashes; a failed relevance call declines; a failed advice call shows the apology |
| Agent.RentVsBuyScript | javaIvaChat/IvaChatAgent.java:143-147 | the script of template 1000 is the sequence table as it stands |
| Agent.RefinanceScript | javaIvaChat/IvaChatAgent.java:140-148 | template 2000 has no steps |
| Agent.RentVsBuyInterview | ivachat_cleaned.py:62-72 | with four answers, the Rent Vs Buy interview asks for balance, rate, rent and salary in that order, stores each answer, and shows the first two at the checkpoint |
| Agent.RentVsBuyInterrupted | ivachat_cleaned.py:200 | with fewer than four answers, the Rent Vs Buy interview is unfinished |
| Agent.StaticMatch | ivachat_cleaned.py:169-174 | looking up either canonical question finds its template, its fields and its script |
| Agent.CatalogQuestionsPlain | javaIvaChat/IvaChatAgent.java:100-106 | the canonical questions hold no double quote and have no surrounding whitespace |
| Agent.CatalogSize | ivachat_cleaned.py:16-27 | the catalog has exactly two questions |
| Agent.EchoedLabelInterviews | javaIvaChat/IvaChatAgent.java:153-170 | for any walk of the catalog in Java, and for the insertion order in Python, echoing a label line that was shown starts that question's interview |
| Agent.BareQuestionFallsBack | javaIvaChat/IvaChatAgent.java:167 | a classifier that replies with a bare canonical question, as the prompt's last line asks, gets no interview in either version: the reply does not start with "Q" |

## Left out

- The chat-completion calls: `callOpenAI`, the HTTP client, JSON (de)serialisation, the OpenAI Python client. Each call is an input function returning a `Reply`. A non-200 status and every exception become `TransportFailure`.
- Content missing (null) from a successful response: a `Reply` always carries a string, so the model does not capture what each call then does. Classifier call: the session aborts in both versions, on `startsWith` (IvaChatAgent.java:284) and `startswith` (ivachat_cleaned.py:161). Relevance call: Java aborts on `trim` (IvaChatAgent.java:246); Python catches the error and declines (ivachat_cleaned.py:123-126). Advice call: neither version fails; Java prints "null" (IvaChatAgent.java:271-275, 391) and Python prints "None" (ivachat_cleaned.py:152, 227).
- The wording of the fixed prompt lines, and of the relevance and advice prompts: these are abstract lines, or the user's question passed to the model function.
- Console I/O: the banners and the printed snapshots. Their format and the `HashMap` iteration order are not modelled. A checkpoint yields an event carrying the record as a map.
- The user's first question is a parameter. Running out of input during the interview raises in both versions, and the model ends the walk with `completed` false. Running out of input before the first question is not modelled.
- Floating point: a `Real` keeps the digit runs of the answer rather than the `double` that `parseDouble` computes. The template value 0.8 is `Real("0", "8")`.
- Lengths are counted in Unicode scalar values, while Java's `substring` counts UTF-16 code units. The two differ only when a character outside the Basic Multilingual Plane sits in the first four positions.
- Upper: maps only ASCII letters and the long s (U+017F). This is exact for comparison with "YES" but not for other text.
- The order in which Java's `HashMap` iterates the catalog is a parameter of the agent, which the language leaves unspecified. Python iterates in insertion order.
- pandas: the tables are sequences of rows. The `numpy` integer type of the key and the `DataFrame` of the no-match result are not modelled.
- Python's `sort_values` is not stable. The model uses a stable sort. `ScriptDetermined` shows that the result is the same whenever sequence numbers are unique per template, as they are in the shipped table.
- `main`: the environment-variable lookup, the placeholder key, the final goodbye message and the top-level exception handler are not modelled. A Java `StringIndexOutOfBoundsException` is the outcome `Crashed`.
