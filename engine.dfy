/** The interview loop of `runInteractiveSession` (javaIvaChat/IvaChatAgent.java)
    and `run_interactive_session` (ivachat_cleaned.py): once a template is
    matched, its steps are walked in order; a prompt step reads one answer and
    writes it into the record, a checkpoint step shows the record as it stands.
    Console output is reduced to the events a user would see; the answers typed
    are a sequence, and running out of them (end of input, which raises in both
    implementations) ends the session early. */
module Engine {
  import opened Values
  import opened Tables

  /** What the user sees at a step: a prompt, or a checkpoint's snapshot of the record followed
      by its message. */
  datatype Event = Asked(prompt: string) | Shown(snapshot: Record, message: string)

  /** The record after the walk, the events in order, and whether every step was reached. */
  datatype Run = Run(record: Record, events: seq<Event>, completed: bool)

  /** The walk of `steps` from `record`, consuming `answers` one per prompt step. */
  function Interview(d: Dialect, record: Record, steps: seq<Step>, answers: seq<string>): Run
    decreases |steps|
  {
    if steps == [] then Run(record, [], true)
    else if steps[0].isQuestion then
      if answers == [] then Run(record, [Asked(steps[0].displayText)], false)
      else
        var rest := Interview(d, record[steps[0].key := Store(d, answers[0])], steps[1..], answers[1..]);
        Run(rest.record, [Asked(steps[0].displayText)] + rest.events, rest.completed)
    else
      var rest := Interview(d, record, steps[1..], answers);
      Run(rest.record, [Shown(record, steps[0].displayText)] + rest.events, rest.completed)
  }

  /** The number of prompt steps. */
  function PromptCount(steps: seq<Step>): nat {
    if steps == [] then 0 else (if steps[0].isQuestion then 1 else 0) + PromptCount(steps[1..])
  }

  /** The fields the prompt steps write. */
  function PromptKeys(steps: seq<Step>): set<string> {
    set i | 0 <= i < |steps| && steps[i].isQuestion :: steps[i].key
  }

  /** The event a step produces, up to the snapshot. */
  predicate EventFor(step: Step, e: Event) {
    if step.isQuestion then e == Asked(step.displayText) else e.Shown? && e.message == step.displayText
  }

  /** The record of a session in progress (the Java `ProcessResult`, the Python triple). */
  class Session {
    var faqKey: int
    var jsonBlob: Record
    var interactionSequence: seq<Step>

    constructor(faqKey: int, jsonBlob: Record, interactionSequence: seq<Step>)
      ensures this.faqKey == faqKey && this.jsonBlob == jsonBlob && this.interactionSequence == interactionSequence
    {
      this.faqKey := faqKey;
      this.jsonBlob := jsonBlob;
      this.interactionSequence := interactionSequence;
    }

    /** Walks the interaction sequence once, in order, updating `jsonBlob` in place. */
    method RunSteps(d: Dialect, answers: seq<string>) returns (events: seq<Event>, completed: bool)
      modifies this
      ensures faqKey == old(faqKey) && interactionSequence == old(interactionSequence)
      ensures Interview(d, old(jsonBlob), interactionSequence, answers) == Run(jsonBlob, events, completed)
    {
      var steps := interactionSequence;
      ghost var whole := Interview(d, jsonBlob, steps, answers);
      events := [];
      var i := 0;
      var used := 0;
      while i < |steps|
        invariant 0 <= i <= |steps| && 0 <= used <= |answers|
        invariant faqKey == old(faqKey) && interactionSequence == steps
        invariant whole == Run(Interview(d, jsonBlob, steps[i..], answers[used..]).record,
                               events + Interview(d, jsonBlob, steps[i..], answers[used..]).events,
                               Interview(d, jsonBlob, steps[i..], answers[used..]).completed)
      {
        var row := steps[i];
        assert steps[i..][1..] == steps[i + 1..];
        if row.isQuestion {
          if used == |answers| {
            events := events + [Asked(row.displayText)];
            return events, false;
          }
          var inputValue := answers[used];
          assert answers[used..][1..] == answers[used + 1..];
          events := events + [Asked(row.displayText)];
          jsonBlob := jsonBlob[row.key := Store(d, inputValue)];
          used := used + 1;
        } else {
          events := events + [Shown(jsonBlob, row.displayText)];
        }
        i := i + 1;
      }
      return events, true;
    }
  }

  /** The walk reaches the end exactly when there is an answer for every prompt step. */
  lemma {:induction false} InterviewCompletes(d: Dialect, record: Record, steps: seq<Step>, answers: seq<string>)
    ensures Interview(d, record, steps, answers).completed <==> PromptCount(steps) <= |answers|
    decreases |steps|
  {
    if steps != [] {
      if steps[0].isQuestion {
        if answers != [] {
          InterviewCompletes(d, record[steps[0].key := Store(d, answers[0])], steps[1..], answers[1..]);
        }
      } else {
        InterviewCompletes(d, record, steps[1..], answers);
      }
    }
  }

  lemma PromptKeysTail(steps: seq<Step>)
    requires steps != []
    ensures PromptKeys(steps) == (if steps[0].isQuestion then {steps[0].key} else {}) + PromptKeys(steps[1..])
  {
    var tail := steps[1..];
    forall k | k in PromptKeys(steps) ensures k in (if steps[0].isQuestion then {steps[0].key} else {}) + PromptKeys(tail) {
      var i :| 0 <= i < |steps| && steps[i].isQuestion && steps[i].key == k;
      if i > 0 {
        assert tail[i - 1] == steps[i];
      }
    }
    forall k | k in PromptKeys(tail) ensures k in PromptKeys(steps) {
      var i :| 0 <= i < |tail| && tail[i].isQuestion && tail[i].key == k;
      assert steps[i + 1] == tail[i];
    }
  }

  /** No field disappears, only prompt fields appear, and a finished walk has written every
      prompt field: the final key set is the template's plus the prompt steps' keys. */
  lemma {:induction false} InterviewKeys(d: Dialect, record: Record, steps: seq<Step>, answers: seq<string>)
    ensures record.Keys <= Interview(d, record, steps, answers).record.Keys <= record.Keys + PromptKeys(steps)
    ensures Interview(d, record, steps, answers).completed ==>
      Interview(d, record, steps, answers).record.Keys == record.Keys + PromptKeys(steps)
    decreases |steps|
  {
    if steps != [] {
      PromptKeysTail(steps);
      if steps[0].isQuestion {
        if answers != [] {
          InterviewKeys(d, record[steps[0].key := Store(d, answers[0])], steps[1..], answers[1..]);
        }
      } else {
        InterviewKeys(d, record, steps[1..], answers);
      }
    }
  }

  /** A field no prompt step names keeps its value: checkpoints change nothing and a prompt
      changes only its own field. */
  lemma {:induction false} InterviewFrame(d: Dialect, record: Record, steps: seq<Step>, answers: seq<string>, k: string)
    requires k in record && k !in PromptKeys(steps)
    ensures k in Interview(d, record, steps, answers).record
    ensures Interview(d, record, steps, answers).record[k] == record[k]
    decreases |steps|
  {
    if steps != [] {
      PromptKeysTail(steps);
      if steps[0].isQuestion {
        if answers != [] {
          InterviewFrame(d, record[steps[0].key := Store(d, answers[0])], steps[1..], answers[1..], k);
        }
      } else {
        InterviewFrame(d, record, steps[1..], answers, k);
      }
    }
  }

  /** A field ends up holding the stored form of the answer given at the last prompt step that
      names it: that step's answer is the one after the answers of the prompt steps before it. */
  lemma {:induction false} InterviewLastWrite(d: Dialect, record: Record, steps: seq<Step>, answers: seq<string>, i: nat)
    requires i < |steps| && steps[i].isQuestion && PromptCount(steps[..i]) < |answers|
    requires forall j :: i < j < |steps| && steps[j].isQuestion ==> steps[j].key != steps[i].key
    ensures steps[i].key in Interview(d, record, steps, answers).record
    ensures Interview(d, record, steps, answers).record[steps[i].key] == Store(d, answers[PromptCount(steps[..i])])
    decreases |steps|
  {
    var k := steps[i].key;
    if i == 0 {
      assert k !in PromptKeys(steps[1..]) by {
        forall j | 0 <= j < |steps[1..]| && steps[1..][j].isQuestion ensures steps[1..][j].key != k {
          assert steps[1..][j] == steps[j + 1];
        }
      }
      InterviewFrame(d, record[k := Store(d, answers[0])], steps[1..], answers[1..], k);
    } else {
      assert steps[..i][1..] == steps[1..][..i - 1];
      assert steps[1..][i - 1] == steps[i];
      assert forall j :: i - 1 < j < |steps[1..]| && steps[1..][j].isQuestion ==> steps[1..][j].key != k by {
        forall j | i - 1 < j < |steps[1..]| ensures steps[1..][j] == steps[j + 1] {}
      }
      if steps[0].isQuestion {
        InterviewLastWrite(d, record[steps[0].key := Store(d, answers[0])], steps[1..], answers[1..], i - 1);
      } else {
        InterviewLastWrite(d, record, steps[1..], answers, i - 1);
      }
    }
  }

  /** The walk produces one event per step reached and reaches every step when it finishes. */
  lemma {:induction false} InterviewLength(d: Dialect, record: Record, steps: seq<Step>, answers: seq<string>)
    ensures |Interview(d, record, steps, answers).events| <= |steps|
    ensures Interview(d, record, steps, answers).completed ==> |Interview(d, record, steps, answers).events| == |steps|
    ensures !Interview(d, record, steps, answers).completed ==> |Interview(d, record, steps, answers).events| > 0
    decreases |steps|
  {
    if steps != [] {
      if steps[0].isQuestion {
        if answers != [] {
          InterviewLength(d, record[steps[0].key := Store(d, answers[0])], steps[1..], answers[1..]);
        }
      } else {
        InterviewLength(d, record, steps[1..], answers);
      }
    }
  }

  /** Each step reached is visited once, in order: the i-th event is the i-th step's. */
  lemma {:induction false} InterviewVisitsInOrder(d: Dialect, record: Record, steps: seq<Step>, answers: seq<string>, i: nat)
    requires i < |Interview(d, record, steps, answers).events|
    ensures i < |steps| && EventFor(steps[i], Interview(d, record, steps, answers).events[i])
    decreases |steps|
  {
    InterviewLength(d, record, steps, answers);
    if i > 0 {
      var rec := if steps[0].isQuestion then record[steps[0].key := Store(d, answers[0])] else record;
      var ans := if steps[0].isQuestion then answers[1..] else answers;
      assert Interview(d, record, steps, answers).events[i] == Interview(d, rec, steps[1..], ans).events[i - 1];
      InterviewVisitsInOrder(d, rec, steps[1..], ans, i - 1);
    }
  }

  /** An unfinished walk stops at a prompt step for which no answer is left: the prompt steps
      before it have used up every answer. */
  lemma {:induction false} InterviewStopsAtUnanswered(d: Dialect, record: Record, steps: seq<Step>, answers: seq<string>)
    requires !Interview(d, record, steps, answers).completed
    ensures var n := |Interview(d, record, steps, answers).events|;
      0 < n <= |steps| && steps[n - 1].isQuestion && PromptCount(steps[..n - 1]) == |answers|
    decreases |steps|
  {
    InterviewLength(d, record, steps, answers);
    if steps[0].isQuestion && answers == [] {
      assert steps[..0] == [];
    } else {
      var rec := if steps[0].isQuestion then record[steps[0].key := Store(d, answers[0])] else record;
      var ans := if steps[0].isQuestion then answers[1..] else answers;
      var n := |Interview(d, rec, steps[1..], ans).events|;
      InterviewStopsAtUnanswered(d, rec, steps[1..], ans);
      assert steps[..n][1..] == steps[1..][..n - 1];
      assert steps[..n][0] == steps[0];
      assert steps[1..][n - 1] == steps[n];
    }
  }

  /** A checkpoint shows the record exactly as the steps before it left it. */
  lemma {:induction false} CheckpointSnapshot(d: Dialect, record: Record, steps: seq<Step>, answers: seq<string>, i: nat)
    requires i < |Interview(d, record, steps, answers).events|
    requires Interview(d, record, steps, answers).events[i].Shown?
    ensures i < |steps| && Interview(d, record, steps, answers).events[i].snapshot == Interview(d, record, steps[..i], answers).record
    decreases |steps|
  {
    InterviewLength(d, record, steps, answers);
    if i == 0 {
      assert steps[..0] == [];
    } else {
      var rec := if steps[0].isQuestion then record[steps[0].key := Store(d, answers[0])] else record;
      var ans := if steps[0].isQuestion then answers[1..] else answers;
      assert Interview(d, record, steps, answers).events[i] == Interview(d, rec, steps[1..], ans).events[i - 1];
      CheckpointSnapshot(d, rec, steps[1..], ans, i - 1);
      assert steps[..i][1..] == steps[1..][..i - 1];
      assert steps[..i][0] == steps[0];
    }
  }

  /** The fields the walk writes before it stops. */
  function AnsweredKeys(steps: seq<Step>, answers: seq<string>): set<string>
    decreases |steps|
  {
    if steps == [] then {}
    else if steps[0].isQuestion then
      if answers == [] then {} else {steps[0].key} + AnsweredKeys(steps[1..], answers[1..])
    else AnsweredKeys(steps[1..], answers)
  }

  /** A record with the text of the fields in `keys` coerced as the Java agent coerces answers. */
  function Coerced(record: Record, keys: set<string>): Record {
    map k | k in record :: if k in keys && record[k].Text? then Coerce(record[k].text) else record[k]
  }

  /** The two dialects differ only in what a prompt stores: from records that agree up to the
      coercion of the fields in `written`, the Java walk ends where the Python walk does, with
      the Python record's answered fields coerced. */
  lemma {:induction false} DialectsDifferOnlyInStorage(javaRecord: Record, pyRecord: Record, written: set<string>,
                                                       steps: seq<Step>, answers: seq<string>)
    requires javaRecord == Coerced(pyRecord, written)
    requires forall k :: k in written && k in pyRecord ==> pyRecord[k].Text?
    ensures Interview(Java, javaRecord, steps, answers).completed == Interview(Python, pyRecord, steps, answers).completed
    ensures Interview(Java, javaRecord, steps, answers).record ==
      Coerced(Interview(Python, pyRecord, steps, answers).record, written + AnsweredKeys(steps, answers))
    decreases |steps|
  {
    if steps == [] {
    } else if steps[0].isQuestion {
      if answers != [] {
        var k := steps[0].key;
        var j := javaRecord[k := Coerce(answers[0])];
        var p := pyRecord[k := Text(answers[0])];
        assert j == Coerced(p, written + {k});
        DialectsDifferOnlyInStorage(j, p, written + {k}, steps[1..], answers[1..]);
        assert written + {k} + AnsweredKeys(steps[1..], answers[1..]) == written + AnsweredKeys(steps, answers);
      }
    } else {
      DialectsDifferOnlyInStorage(javaRecord, pyRecord, written, steps[1..], answers);
    }
  }

  /** From one template's fields, the Java record is the Python record with every answered
      field coerced. */
  lemma DialectsFromTemplate(fields: Record, steps: seq<Step>, answers: seq<string>)
    ensures Interview(Java, fields, steps, answers).completed == Interview(Python, fields, steps, answers).completed
    ensures Interview(Java, fields, steps, answers).record ==
      Coerced(Interview(Python, fields, steps, answers).record, AnsweredKeys(steps, answers))
  {
    assert fields == Coerced(fields, {});
    DialectsDifferOnlyInStorage(fields, fields, {}, steps, answers);
    assert {} + AnsweredKeys(steps, answers) == AnsweredKeys(steps, answers);
  }
}
