/** The classification prompt (`buildPrompt` in javaIvaChat/IvaChatAgent.java,
    `build_prompt` in ivachat_cleaned.py) as a sequence of lines. The wording of
    the fixed lines is not modelled; what is modelled is the label each
    canonical question gets, `Q<i>: "<canonical>"`, which the classifier is told
    to echo back and the resolver parses. */
module Prompt {
  import opened Strings

  datatype Line =
    | Header
    | Label(number: nat, canonical: string)
    | Alternate(phrasing: string)
    | UserInput(question: string)
    | Instruction

  /** The text of a label line: `Q<i>: "<canonical>"`. */
  function LabelText(i: nat, canonical: string): string {
    "Q" + NatToString(i) + ": \"" + canonical + "\""
  }

  function AlternateLines(alternates: seq<string>): seq<Line> {
    seq(|alternates|, j requires 0 <= j < |alternates| => Alternate(alternates[j]))
  }

  /** The lines for the catalog entries in `order`: the k-th labelled `Q<k>`, followed by its
      alternate phrasings. */
  function EntryLines(catalog: map<string, seq<string>>, order: seq<string>): seq<Line>
    requires forall c :: c in order ==> c in catalog
  {
    if order == [] then []
    else
      var n := |order|;
      EntryLines(catalog, order[..n - 1]) + [Label(n, order[n - 1])] + AlternateLines(catalog[order[n - 1]])
  }

  function PromptLines(catalog: map<string, seq<string>>, order: seq<string>, question: string): seq<Line>
    requires forall c :: c in order ==> c in catalog
  {
    [Header] + EntryLines(catalog, order) + [UserInput(question), Instruction]
  }

  /** The label lines of a prompt, in order. */
  function Labels(lines: seq<Line>): seq<Line> {
    if lines == [] then []
    else (if lines[0].Label? then [lines[0]] else []) + Labels(lines[1..])
  }

  /** Builds the prompt by walking the catalog in `order` with a counter starting at 1, as
      both implementations do: in Java `order` is the `HashMap`'s iteration order, which the
      language leaves unspecified; in Python it is the `dict`'s insertion order. */
  method BuildPrompt(catalog: map<string, seq<string>>, order: seq<string>, userQuestion: string)
    returns (lines: seq<Line>)
    requires forall c :: c in order ==> c in catalog
    ensures lines == PromptLines(catalog, order, userQuestion)
  {
    lines := [Header];
    var i := 1;
    while i <= |order|
      invariant 1 <= i <= |order| + 1
      invariant lines == [Header] + EntryLines(catalog, order[..i - 1])
    {
      var canonical := order[i - 1];
      lines := lines + [Label(i, canonical)];
      var alternates := catalog[canonical];
      var j := 0;
      while j < |alternates|
        invariant 0 <= j <= |alternates|
        invariant lines == [Header] + EntryLines(catalog, order[..i - 1]) + [Label(i, canonical)] + AlternateLines(alternates[..j])
      {
        lines := lines + [Alternate(alternates[j])];
        j := j + 1;
      }
      assert alternates[..j] == alternates;
      assert order[..i][..i - 1] == order[..i - 1];
      i := i + 1;
    }
    assert order[..i - 1] == order;
    lines := lines + [UserInput(userQuestion), Instruction];
  }

  lemma {:induction false} LabelsConcat(a: seq<Line>, b: seq<Line>)
    ensures Labels(a + b) == Labels(a) + Labels(b)
  {
    if a != [] {
      assert (a + b)[1..] == a[1..] + b;
      LabelsConcat(a[1..], b);
    } else {
      assert a + b == b;
    }
  }

  /** The label lines are exactly the lines that are labels. */
  lemma {:induction false} LabelsMembership(lines: seq<Line>, x: Line)
    ensures x in Labels(lines) <==> x in lines && x.Label?
  {
    if lines != [] {
      assert lines == [lines[0]] + lines[1..];
      LabelsMembership(lines[1..], x);
    }
  }

  /** Lines none of which is a label have no label lines. */
  lemma {:induction false} LabelsNone(lines: seq<Line>)
    requires forall i :: 0 <= i < |lines| ==> !lines[i].Label?
    ensures Labels(lines) == []
  {
    if lines != [] {
      LabelsNone(lines[1..]);
    }
  }

  function Numbered(order: seq<string>): seq<Line> {
    seq(|order|, k requires 0 <= k < |order| => Label(k + 1, order[k]))
  }

  /** The labels of the catalog lines number the entries 1, 2, ... in the order walked. */
  lemma {:induction false} EntryLabelsNumbered(catalog: map<string, seq<string>>, order: seq<string>)
    requires forall c :: c in order ==> c in catalog
    ensures Labels(EntryLines(catalog, order)) == Numbered(order)
  {
    if order != [] {
      var n := |order|;
      var front := EntryLines(catalog, order[..n - 1]);
      var labelLine := [Label(n, order[n - 1])];
      var alternates := AlternateLines(catalog[order[n - 1]]);
      EntryLabelsNumbered(catalog, order[..n - 1]);
      LabelsConcat(front + labelLine, alternates);
      LabelsConcat(front, labelLine);
      LabelsNone(alternates);
      assert Labels(labelLine) == labelLine;
      assert Labels(EntryLines(catalog, order)) == Numbered(order[..n - 1]) + labelLine;
      assert Numbered(order[..n - 1]) + labelLine == Numbered(order);
    }
  }

  /** The labels of the whole prompt are those of the catalog lines. */
  lemma PromptLabels(catalog: map<string, seq<string>>, order: seq<string>, question: string)
    requires forall c :: c in order ==> c in catalog
    ensures Labels(PromptLines(catalog, order, question)) == Numbered(order)
  {
    EntryLabelsNumbered(catalog, order);
    LabelsConcat([Header] + EntryLines(catalog, order), [UserInput(question), Instruction]);
    LabelsConcat([Header], EntryLines(catalog, order));
    LabelsNone([Header]);
    LabelsNone([UserInput(question), Instruction]);
  }

  lemma NumberedMembership(order: seq<string>, i: nat, c: string)
    ensures Label(i, c) in Numbered(order) <==> 1 <= i <= |order| && order[i - 1] == c
  {
    if 1 <= i <= |order| && order[i - 1] == c {
      assert Numbered(order)[i - 1] == Label(i, c);
    }
  }

  /** Every canonical question of the catalog gets exactly one label, the labels are numbered
      1 to the catalog's size, and no number is used twice: `Label(i, c)` is a line of the
      prompt exactly when `c` is the i-th question walked. */
  lemma PromptLabelsEachQuestionOnce(catalog: map<string, seq<string>>, order: seq<string>, question: string)
    requires forall c :: c in catalog <==> c in order
    requires forall i, j :: 0 <= i < j < |order| ==> order[i] != order[j]
    ensures forall i: nat, c :: Label(i, c) in PromptLines(catalog, order, question) <==> 1 <= i <= |order| && order[i - 1] == c
    ensures |catalog| == |order|
    ensures forall c :: c in catalog ==> exists i :: 1 <= i <= |catalog| && Label(i, c) in PromptLines(catalog, order, question)
  {
    var lines := PromptLines(catalog, order, question);
    PromptLabels(catalog, order, question);
    forall i: nat, c ensures Label(i, c) in lines <==> 1 <= i <= |order| && order[i - 1] == c {
      LabelsMembership(lines, Label(i, c));
      NumberedMembership(order, i, c);
    }
    DistinctEnumerationSize(catalog.Keys, order);
    forall c | c in catalog ensures exists i :: 1 <= i <= |catalog| && Label(i, c) in lines {
      var k :| 0 <= k < |order| && order[k] == c;
      assert Label(k + 1, c) in lines;
    }
  }

  /** A duplicate-free sequence listing exactly the elements of a set has the set's size. */
  lemma {:induction false} DistinctEnumerationSize(keys: set<string>, order: seq<string>)
    requires forall c :: c in keys <==> c in order
    requires forall i, j :: 0 <= i < j < |order| ==> order[i] != order[j]
    ensures |keys| == |order|
  {
    if order != [] {
      var last := order[|order| - 1];
      var rest := order[..|order| - 1];
      assert last !in rest by {
        forall k | 0 <= k < |rest| ensures rest[k] != last {}
      }
      assert forall c :: c in keys - {last} <==> c in rest by {
        forall c ensures c in keys - {last} <==> c in rest {
          if c in keys - {last} {
            var k :| 0 <= k < |order| && order[k] == c;
            assert k < |order| - 1 && rest[k] == c;
          }
        }
      }
      DistinctEnumerationSize(keys - {last}, rest);
    }
  }
}
