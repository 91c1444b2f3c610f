/** Resolution of the classifier's reply into a template and its script:
    `sendUserInput` in javaIvaChat/IvaChatAgent.java and `send_user_input` in
    ivachat_cleaned.py. The reply is the string the classifier returned (the
    transport-failure sentinel "Error" included). */
module Resolver {
  import opened Strings
  import opened Values
  import opened Tables
  import opened Prompt

  /** What `sendUserInput` returns: the matched key (0 for no match), a copy of the template's
      fields, and the template's steps in order. */
  datatype Resolution = Resolution(faqKey: int, jsonBlob: Record, interactionSequence: seq<Step>)

  const NoMatch := Resolution(0, map[], [])

  /** The Java resolver either returns, or throws `StringIndexOutOfBoundsException` from
      `substring(4)` on a reply of fewer than four characters. */
  datatype Outcome = Resolved(resolution: Resolution) | IndexOutOfBounds

  /** The first template answering `faq` (the stream's `findFirst`, the frame's `iloc[0]`). */
  function FindTemplate(templates: seq<Template>, faq: string): (r: Option<nat>)
    ensures r.Some? ==> r.value < |templates| && templates[r.value].faq == faq
    ensures r.Some? ==> forall j :: 0 <= j < r.value ==> templates[j].faq != faq
    ensures r.None? ==> forall j :: 0 <= j < |templates| ==> templates[j].faq != faq
  {
    if templates == [] then None
    else if templates[0].faq == faq then Some(0)
    else match FindTemplate(templates[1..], faq)
      case None => None
      case Some(i) => Some(i + 1)
  }

  /** The steps of template `key`, in table order. */
  function StepsFor(steps: seq<Step>, key: int): (r: seq<Step>)
    ensures forall i :: 0 <= i < |r| ==> r[i].faqKey == key
    ensures forall s: Step :: s.faqKey == key ==> multiset(r)[s] == multiset(steps)[s]
  {
    if steps == [] then []
    else
      assert steps == [steps[0]] + steps[1..];
      (if steps[0].faqKey == key then [steps[0]] else []) + StepsFor(steps[1..], key)
  }

  predicate SortedBySeq(s: seq<Step>) {
    forall i, j :: 0 <= i < j < |s| ==> s[i].seqNo <= s[j].seqNo
  }

  /** The steps numbered `v`, in order: two orderings with the same such subsequence for every
      `v` agree on how ties are ordered. */
  function WithSeqNo(s: seq<Step>, v: int): seq<Step> {
    if s == [] then []
    else (if s[0].seqNo == v then [s[0]] else []) + WithSeqNo(s[1..], v)
  }

  /** Inserts `x` before the first step whose number is not smaller. */
  function Insert(x: Step, t: seq<Step>): (r: seq<Step>)
    requires SortedBySeq(t)
    ensures SortedBySeq(r) && multiset(r) == multiset(t) + multiset{x}
  {
    if t == [] || x.seqNo <= t[0].seqNo then [x] + t
    else
      var rest := Insert(x, t[1..]);
      InsertAfterHead(x, t, rest);
      assert t == [t[0]] + t[1..];
      [t[0]] + rest
  }

  /** Everything in the insertion into the rest of `t` comes no earlier than `t`'s first step,
      when `x` itself comes after it. */
  lemma InsertAfterHead(x: Step, t: seq<Step>, rest: seq<Step>)
    requires t != [] && SortedBySeq(t) && t[0].seqNo < x.seqNo
    requires SortedBySeq(rest) && multiset(rest) == multiset(t[1..]) + multiset{x}
    ensures SortedBySeq([t[0]] + rest)
  {
    forall k | 0 <= k < |rest| ensures t[0].seqNo <= rest[k].seqNo {
      assert rest[k] in multiset(rest);
      if rest[k] != x {
        assert rest[k] in multiset(t[1..]);
        var j :| 0 <= j < |t[1..]| && t[1..][j] == rest[k];
        assert t[j + 1] == rest[k];
      }
    }
    var r := [t[0]] + rest;
    forall i, j | 0 <= i < j < |r| ensures r[i].seqNo <= r[j].seqNo {
      assert r[j] == rest[j - 1];
      if i > 0 {
        assert r[i] == rest[i - 1];
      }
    }
  }

  /** A stable sort by sequence number, as `Comparator.comparing(s -> s.seq)` gives `sorted`. */
  function SortBySeq(s: seq<Step>): (r: seq<Step>)
    ensures SortedBySeq(r) && multiset(r) == multiset(s)
  {
    if s == [] then []
    else
      assert s == [s[0]] + s[1..];
      Insert(s[0], SortBySeq(s[1..]))
  }

  /** The interaction sequence of template `key`: its steps, sorted by sequence number. */
  function Script(steps: seq<Step>, key: int): seq<Step> {
    SortBySeq(StepsFor(steps, key))
  }

  lemma {:induction false} InsertWithSeqNo(x: Step, t: seq<Step>, v: int)
    requires SortedBySeq(t)
    ensures WithSeqNo(Insert(x, t), v) == (if x.seqNo == v then [x] else []) + WithSeqNo(t, v)
  {
    var here := if x.seqNo == v then [x] else [];
    if t == [] || x.seqNo <= t[0].seqNo {
      assert WithSeqNo([x] + t, v) == here + WithSeqNo(t, v) by {
        assert ([x] + t)[1..] == t;
      }
    } else {
      var r := Insert(x, t[1..]);
      var first := if t[0].seqNo == v then [t[0]] else [];
      assert Insert(x, t) == [t[0]] + r;
      assert WithSeqNo([t[0]] + r, v) == first + WithSeqNo(r, v) by {
        assert ([t[0]] + r)[1..] == r;
      }
      assert WithSeqNo(r, v) == here + WithSeqNo(t[1..], v) by {
        InsertWithSeqNo(x, t[1..], v);
      }
      var w := WithSeqNo(t[1..], v);
      assert WithSeqNo(t, v) == first + w;
      assert first + (here + w) == here + (first + w) by {
        if first == [] {
          assert here + w == here + ([] + w);
        } else {
          assert here == [];
        }
      }
    }
  }

  /** The steps numbered `v`, in order, of two stretches of steps one after the other. */
  lemma {:induction false} WithSeqNoConcat(a: seq<Step>, b: seq<Step>, v: int)
    ensures WithSeqNo(a + b, v) == WithSeqNo(a, v) + WithSeqNo(b, v)
  {
    if a != [] {
      assert (a + b)[0] == a[0];
      assert (a + b)[1..] == a[1..] + b;
      WithSeqNoConcat(a[1..], b, v);
    } else {
      assert a + b == b;
    }
  }

  /** Picking the steps numbered `v` out of the filtered steps is picking the key's steps
      out of the table's steps numbered `v`, in table order. */
  lemma {:induction false} StepsForWithSeqNo(steps: seq<Step>, key: int, v: int)
    ensures WithSeqNo(StepsFor(steps, key), v) == StepsFor(WithSeqNo(steps, v), key)
  {
    if steps != [] {
      StepsForWithSeqNo(steps[1..], key, v);
      WithSeqNoOfStepsFor(steps, key, v);
      StepsForOfWithSeqNo(steps, key, v);
    }
  }

  /** The head of the table survives both filters exactly when it has the key and the number. */
  function BothFilters(x: Step, key: int, v: int): seq<Step> {
    if x.faqKey == key && x.seqNo == v then [x] else []
  }

  lemma WithSeqNoOfStepsFor(steps: seq<Step>, key: int, v: int)
    requires steps != []
    ensures WithSeqNo(StepsFor(steps, key), v)
      == BothFilters(steps[0], key, v) + WithSeqNo(StepsFor(steps[1..], key), v)
  {
    var x := steps[0];
    var hk := if x.faqKey == key then [x] else [];
    assert StepsFor(steps, key) == hk + StepsFor(steps[1..], key);
    WithSeqNoConcat(hk, StepsFor(steps[1..], key), v);
    assert WithSeqNo(hk, v) == BothFilters(x, key, v) by {
      if hk != [] { assert hk[1..] == []; }
    }
  }

  lemma StepsForOfWithSeqNo(steps: seq<Step>, key: int, v: int)
    requires steps != []
    ensures StepsFor(WithSeqNo(steps, v), key)
      == BothFilters(steps[0], key, v) + StepsFor(WithSeqNo(steps[1..], v), key)
  {
    var x, rest := steps[0], steps[1..];
    if x.seqNo == v {
      assert WithSeqNo(steps, v) == [x] + WithSeqNo(rest, v);
      StepsForCons(x, WithSeqNo(rest, v), key);
    } else {
      assert WithSeqNo(steps, v) == WithSeqNo(rest, v);
    }
  }

  lemma StepsForCons(x: Step, t: seq<Step>, key: int)
    ensures StepsFor([x] + t, key) == (if x.faqKey == key then [x] else []) + StepsFor(t, key)
  {
    assert ([x] + t)[0] == x;
    assert ([x] + t)[1..] == t;
  }

  /** Sorting keeps the relative order of steps that share a sequence number. */
  lemma {:induction false} SortBySeqStable(s: seq<Step>, v: int)
    ensures WithSeqNo(SortBySeq(s), v) == WithSeqNo(s, v)
  {
    if s != [] {
      SortBySeqStable(s[1..], v);
      InsertWithSeqNo(s[0], SortBySeq(s[1..]), v);
    }
  }

  /** The script of `key` holds exactly the table's steps for `key`, no step of another
      template, in non-decreasing sequence order, ties in table order. */
  lemma ScriptSpec(steps: seq<Step>, key: int)
    ensures forall i :: 0 <= i < |Script(steps, key)| ==> Script(steps, key)[i].faqKey == key
    ensures forall s: Step :: s.faqKey == key ==> multiset(Script(steps, key))[s] == multiset(steps)[s]
    ensures forall s: Step :: s.faqKey != key ==> s !in Script(steps, key)
    ensures SortedBySeq(Script(steps, key))
    ensures forall v :: WithSeqNo(Script(steps, key), v) == WithSeqNo(StepsFor(steps, key), v)
    ensures forall v :: WithSeqNo(Script(steps, key), v) == StepsFor(WithSeqNo(steps, v), key)
  {
    var r := Script(steps, key);
    assert multiset(r) == multiset(StepsFor(steps, key));
    forall i | 0 <= i < |r| ensures r[i].faqKey == key {
      assert r[i] in multiset(StepsFor(steps, key));
    }
    forall v ensures WithSeqNo(r, v) == WithSeqNo(StepsFor(steps, key), v) {
      SortBySeqStable(StepsFor(steps, key), v);
    }
    forall v ensures WithSeqNo(r, v) == StepsFor(WithSeqNo(steps, v), key) {
      SortBySeqStable(StepsFor(steps, key), v);
      StepsForWithSeqNo(steps, key, v);
    }
  }

  /** No two distinct steps of the collection share a sequence number, and none occurs twice. */
  predicate SeqNosDistinct(m: multiset<Step>) {
    forall x, y :: x in m && y in m && x.seqNo == y.seqNo ==> x == y && m[x] == 1
  }

  /** Sorted with no number repeated: each step's number is smaller than the next one's. */
  predicate StrictlySortedBySeq(s: seq<Step>) {
    forall i, j :: 0 <= i < j < |s| ==> s[i].seqNo < s[j].seqNo
  }

  /** A step found at two positions occurs at least twice in the collection. */
  lemma TwoOccurrences(s: seq<Step>, i: nat, j: nat)
    requires i < j < |s| && s[i] == s[j]
    ensures multiset(s)[s[i]] >= 2
  {
    assert s == s[..j] + s[j..];
    assert multiset(s) == multiset(s[..j]) + multiset(s[j..]);
    assert s[..j][i] == s[i];
    assert s[j..][0] == s[j];
  }

  /** A sorted arrangement of a collection with distinct numbers is strictly sorted. */
  lemma StrictlySortedFromDistinct(s: seq<Step>)
    requires SortedBySeq(s) && SeqNosDistinct(multiset(s))
    ensures StrictlySortedBySeq(s)
  {
    forall i, j | 0 <= i < j < |s| ensures s[i].seqNo < s[j].seqNo {
      if s[i].seqNo == s[j].seqNo {
        assert s[i] in multiset(s) && s[j] in multiset(s);
        TwoOccurrences(s, i, j);
        assert false;
      }
    }
  }

  /** Two strictly sorted arrangements of one collection start alike. */
  lemma StrictHeadsAgree(a: seq<Step>, b: seq<Step>)
    requires a != [] && b != [] && StrictlySortedBySeq(a) && StrictlySortedBySeq(b)
    requires multiset(a) == multiset(b)
    ensures a[0] == b[0]
  {
    assert a[0] in multiset(b) && b[0] in multiset(a);
    var j :| 0 <= j < |b| && b[j] == a[0];
    var k :| 0 <= k < |a| && a[k] == b[0];
    assert a[0].seqNo <= b[0].seqNo;
  }

  /** What follows the first step of a strictly sorted arrangement is strictly sorted. */
  lemma StrictTail(a: seq<Step>)
    requires a != [] && StrictlySortedBySeq(a)
    ensures StrictlySortedBySeq(a[1..])
  {
    forall i, j | 0 <= i < j < |a[1..]| ensures a[1..][i].seqNo < a[1..][j].seqNo {
      assert a[1..][i] == a[i + 1] && a[1..][j] == a[j + 1];
    }
  }

  /** Two arrangements of one collection that start alike continue as arrangements of one
      collection. */
  lemma SameTailMultiset(a: seq<Step>, b: seq<Step>)
    requires a != [] && b != [] && a[0] == b[0] && multiset(a) == multiset(b)
    ensures multiset(a[1..]) == multiset(b[1..])
  {
    assert a == [a[0]] + a[1..] && b == [b[0]] + b[1..];
    assert multiset(a[1..]) == multiset(a) - multiset{a[0]};
    assert multiset(b[1..]) == multiset(b) - multiset{b[0]};
  }

  /** Two strictly sorted arrangements of one collection are the same sequence. */
  lemma {:induction false} StrictlySortedUnique(a: seq<Step>, b: seq<Step>)
    requires StrictlySortedBySeq(a) && StrictlySortedBySeq(b) && multiset(a) == multiset(b)
    ensures a == b
  {
    if a == [] || b == [] {
      assert |multiset(a)| == |a| && |multiset(b)| == |b|;
    } else {
      StrictHeadsAgree(a, b);
      SameTailMultiset(a, b);
      StrictTail(a);
      StrictTail(b);
      StrictlySortedUnique(a[1..], b[1..]);
      assert a == [a[0]] + a[1..];
      assert b == [b[0]] + b[1..];
    }
  }

  /** Sorting by a key that no two elements share has exactly one result. */
  lemma SortedPermutationUnique(a: seq<Step>, b: seq<Step>)
    requires SortedBySeq(a) && SortedBySeq(b)
    requires multiset(a) == multiset(b) && SeqNosDistinct(multiset(a))
    ensures a == b
  {
    StrictlySortedFromDistinct(a);
    StrictlySortedFromDistinct(b);
    StrictlySortedUnique(a, b);
  }

  /** Dropping the first row keeps sequence numbers unique per template. */
  lemma UniqueSeqPerKeyTail(steps: seq<Step>)
    requires steps != [] && UniqueSeqPerKey(steps)
    ensures UniqueSeqPerKey(steps[1..])
  {
    var rest := steps[1..];
    forall i, j | 0 <= i < j < |rest| && rest[i].faqKey == rest[j].faqKey
      ensures rest[i].seqNo != rest[j].seqNo
    {
      assert rest[i] == steps[i + 1] && rest[j] == steps[j + 1];
    }
  }

  /** No later step of the first row's template repeats its number. */
  lemma HeadSeqNoFresh(steps: seq<Step>, key: int)
    requires steps != [] && UniqueSeqPerKey(steps) && steps[0].faqKey == key
    ensures forall y :: y in multiset(StepsFor(steps[1..], key)) ==> y.seqNo != steps[0].seqNo
  {
    var rest := steps[1..];
    forall y | y in multiset(StepsFor(rest, key)) ensures y.seqNo != steps[0].seqNo {
      var r := StepsFor(rest, key);
      var k :| 0 <= k < |r| && r[k] == y;
      assert y.faqKey == key;
      assert multiset(rest)[y] > 0;
      var j :| 0 <= j < |rest| && rest[j] == y;
      assert steps[j + 1] == y;
    }
  }

  /** Adding a step whose number is new keeps the numbers distinct. */
  lemma DistinctAddFresh(x: Step, m: multiset<Step>)
    requires SeqNosDistinct(m)
    requires forall y :: y in m ==> y.seqNo != x.seqNo
    ensures SeqNosDistinct(multiset{x} + m)
  {
  }

  /** With sequence numbers unique per template, the steps of one template have distinct numbers. */
  lemma {:induction false} StepsForDistinct(steps: seq<Step>, key: int)
    requires UniqueSeqPerKey(steps)
    ensures SeqNosDistinct(multiset(StepsFor(steps, key)))
  {
    if steps != [] {
      var tail := StepsFor(steps[1..], key);
      UniqueSeqPerKeyTail(steps);
      StepsForDistinct(steps[1..], key);
      if steps[0].faqKey == key {
        HeadSeqNoFresh(steps, key);
        assert StepsFor(steps, key) == [steps[0]] + tail;
        assert multiset([steps[0]] + tail) == multiset{steps[0]} + multiset(tail);
        DistinctAddFresh(steps[0], multiset(tail));
      } else {
        assert StepsFor(steps, key) == tail;
      }
    }
  }

  /** Any sorted arrangement of a template's steps is its script, whenever the table keeps
      sequence numbers unique per template. Python's `sort_values` is not a stable sort; this
      is why its result still is the script. */
  lemma ScriptDetermined(steps: seq<Step>, key: int, other: seq<Step>)
    requires UniqueSeqPerKey(steps)
    requires SortedBySeq(other) && multiset(other) == multiset(StepsFor(steps, key))
    ensures other == Script(steps, key)
  {
    StepsForDistinct(steps, key);
    SortedPermutationUnique(Script(steps, key), other);
  }

  /** Filtering by a key every step carries keeps every step. */
  lemma {:induction false} StepsForAll(steps: seq<Step>, key: int)
    requires forall i :: 0 <= i < |steps| ==> steps[i].faqKey == key
    ensures StepsFor(steps, key) == steps
  {
    if steps != [] {
      StepsForAll(steps[1..], key);
      assert steps == [steps[0]] + steps[1..];
    }
  }

  /** The lookup both implementations share once the question text is parsed. */
  function Match(templates: seq<Template>, steps: seq<Step>, faq: string): Resolution {
    match FindTemplate(templates, faq)
    case None => NoMatch
    case Some(i) => Resolution(templates[i].faqKey, templates[i].fields, Script(steps, templates[i].faqKey))
  }

  /** A match is the first template whose question is exactly `faq`, with that template's
      fields and script; no such template gives the no-match triple. */
  lemma MatchSpec(templates: seq<Template>, steps: seq<Step>, faq: string)
    requires UniqueTemplateKeys(templates)
    ensures Match(templates, steps, faq).faqKey == 0 <==> forall i :: 0 <= i < |templates| ==> templates[i].faq != faq
    ensures Match(templates, steps, faq).faqKey == 0 ==> Match(templates, steps, faq) == NoMatch
    ensures Match(templates, steps, faq).faqKey != 0 ==>
      exists i :: && 0 <= i < |templates| && templates[i].faq == faq
                  && (forall j :: 0 <= j < i ==> templates[j].faq != faq)
                  && Match(templates, steps, faq) == Resolution(templates[i].faqKey, templates[i].fields, Script(steps, templates[i].faqKey))
  {
  }

  /** Java: drop four characters, delete every double quote, trim. */
  function JavaParseFaq(reply: string): string
    requires |reply| >= 4
  {
    Trim(RemoveAll(reply[4..], '"'), JavaSpace)
  }

  /** `sendUserInput` (javaIvaChat/IvaChatAgent.java). */
  function JavaSendUserInput(templates: seq<Template>, steps: seq<Step>, reply: string): Outcome {
    if !StartsWith(reply, "Q") then Resolved(NoMatch)
    else if |reply| < 4 then IndexOutOfBounds
    else Resolved(Match(templates, steps, JavaParseFaq(reply)))
  }

  /** Python: `reply[4:]` (empty when the reply is shorter), then `strip('"')`. */
  function PyParseFaq(reply: string): string {
    Trim(if |reply| <= 4 then [] else reply[4..], IsQuote)
  }

  /** `send_user_input` (ivachat_cleaned.py). */
  function PySendUserInput(templates: seq<Template>, steps: seq<Step>, reply: string): Resolution {
    if !StartsWith(reply, "Q") then NoMatch
    else Match(templates, steps, PyParseFaq(reply))
  }

  /** The Java parse leaves no double quote anywhere and no character up to space at either end. */
  lemma JavaParsedFaqShape(reply: string)
    requires |reply| >= 4
    ensures '"' !in JavaParseFaq(reply)
    ensures JavaParseFaq(reply) != [] ==> !JavaSpace(JavaParseFaq(reply)[0]) && !JavaSpace(JavaParseFaq(reply)[|JavaParseFaq(reply)| - 1])
  {
    RemoveAllSpec(reply[4..], '"');
    TrimShape(RemoveAll(reply[4..], '"'), JavaSpace);
  }

  /** The Python parse leaves no double quote at either end; inner quotes and surrounding
      whitespace stay. */
  lemma PyParsedFaqShape(reply: string)
    ensures PyParseFaq(reply) != [] ==> PyParseFaq(reply)[0] != '"' && PyParseFaq(reply)[|PyParseFaq(reply)| - 1] != '"'
  {
    TrimShape(if |reply| <= 4 then [] else reply[4..], IsQuote);
  }

  /** Java: a reply that does not start with "Q" is no match; one that does but is shorter than
      four characters throws; otherwise the parsed text is looked up. */
  lemma JavaSendUserInputCases(templates: seq<Template>, steps: seq<Step>, reply: string)
    requires UniqueTemplateKeys(templates)
    ensures JavaSendUserInput(templates, steps, reply) == IndexOutOfBounds <==> StartsWith(reply, "Q") && |reply| < 4
    ensures !StartsWith(reply, "Q") ==> JavaSendUserInput(templates, steps, reply) == Resolved(NoMatch)
    ensures (JavaSendUserInput(templates, steps, reply).Resolved? && JavaSendUserInput(templates, steps, reply).resolution.faqKey != 0)
      <==> StartsWith(reply, "Q") && |reply| >= 4 && exists i :: 0 <= i < |templates| && templates[i].faq == JavaParseFaq(reply)
  {
    if StartsWith(reply, "Q") && |reply| >= 4 {
      MatchSpec(templates, steps, JavaParseFaq(reply));
    }
  }

  /** Python never throws here: a reply not starting with "Q", or whose parsed text names no
      template (a reply shorter than five characters parses to ""), is no match. */
  lemma PySendUserInputCases(templates: seq<Template>, steps: seq<Step>, reply: string)
    requires UniqueTemplateKeys(templates)
    ensures !StartsWith(reply, "Q") ==> PySendUserInput(templates, steps, reply) == NoMatch
    ensures |reply| <= 4 ==> PyParseFaq(reply) == []
    ensures PySendUserInput(templates, steps, reply).faqKey != 0
      <==> StartsWith(reply, "Q") && exists i :: 0 <= i < |templates| && templates[i].faq == PyParseFaq(reply)
  {
    if StartsWith(reply, "Q") {
      MatchSpec(templates, steps, PyParseFaq(reply));
    }
  }

  lemma {:induction false} RemoveAllConcat(a: string, b: string, c: char)
    ensures RemoveAll(a + b, c) == RemoveAll(a, c) + RemoveAll(b, c)
  {
    if a != [] {
      assert (a + b)[0] == a[0] && (a + b)[1..] == a[1..] + b;
      RemoveAllConcat(a[1..], b, c);
    } else {
      assert a + b == b;
    }
  }

  /** The layout of a label line numbered 1 to 99: it starts with "Q", and after its first four
      characters comes the quoted question, preceded by a space when the number has two
      digits. */
  lemma LabelLayout(i: nat, c: string)
    requires 1 <= i < 100
    ensures |LabelText(i, c)| >= 5 && StartsWith(LabelText(i, c), "Q")
    ensures LabelText(i, c)[4..] == (if i < 10 then "" else " ") + ("\"" + c + "\"")
  {
    var digits := NatToString(i);
    var quoted := "\"" + c + "\"";
    var reply := LabelText(i, c);
    assert reply == ("Q" + digits + ": ") + quoted;
    assert reply[..1] == "Q";
    if i < 10 {
      assert |"Q" + digits + ": "| == 4;
    } else {
      assert "Q" + digits + ": " == ("Q" + digits + ":") + " ";
      assert |"Q" + digits + ":"| == 4;
    }
  }

  /** Removing the quotes around a question without quotes gives the question. */
  lemma RemoveSurroundingQuotes(c: string)
    requires '"' !in c
    ensures RemoveAll("\"" + c + "\"", '"') == c
  {
    var q := "\"";
    assert RemoveAll(q, '"') == [] by {
      assert q[1..] == [];
    }
    assert RemoveAll(c, '"') == c by {
      RemoveAllSpec(c, '"');
    }
    assert RemoveAll(q + c, '"') == c by {
      RemoveAllConcat(q, c, '"');
    }
    RemoveAllConcat(q + c, q, '"');
    assert c + [] == c;
  }

  /** The Java parse of what follows the cut of a label line: the quoted question, with or
      without a leading space, gives back the question. */
  lemma JavaParseQuoted(pad: string, c: string)
    requires pad == "" || pad == " "
    requires '"' !in c
    requires c != [] ==> !JavaSpace(c[0]) && !JavaSpace(c[|c| - 1])
    ensures Trim(RemoveAll(pad + ("\"" + c + "\""), '"'), JavaSpace) == c
  {
    var quoted := "\"" + c + "\"";
    RemoveSurroundingQuotes(c);
    TrimOfTrimmed(c, JavaSpace);
    if pad == " " {
      assert RemoveAll(pad + quoted, '"') == " " + c by {
        assert (pad + quoted)[1..] == quoted;
      }
      TrimSkipsLeading(" ", c, JavaSpace);
    } else {
      assert pad + quoted == quoted;
    }
  }

  /** What the Java parse makes of a label line: the canonical question back, for labels 1 to 99
      (a two-digit label leaves a space that the trim removes). */
  lemma JavaParseLabel(i: nat, c: string)
    requires 1 <= i < 100
    requires '"' !in c
    requires c != [] ==> !JavaSpace(c[0]) && !JavaSpace(c[|c| - 1])
    ensures |LabelText(i, c)| >= 4 && JavaParseFaq(LabelText(i, c)) == c
  {
    LabelLayout(i, c);
    JavaParseQuoted(if i < 10 then "" else " ", c);
  }

  /** A Java reply that starts with "Q" and is long enough to cut is looked up by its parsed
      text. */
  lemma JavaSendUserInputParsed(templates: seq<Template>, steps: seq<Step>, reply: string)
    requires StartsWith(reply, "Q") && |reply| >= 4
    ensures JavaSendUserInput(templates, steps, reply) == Resolved(Match(templates, steps, JavaParseFaq(reply)))
  {
  }

  /** Round trip, Java: the classifier echoing the label line of a canonical question resolves
      to that question's template. */
  lemma JavaLabelRoundTrip(templates: seq<Template>, steps: seq<Step>, i: nat, c: string)
    requires 1 <= i < 100
    requires '"' !in c
    requires c != [] ==> !JavaSpace(c[0]) && !JavaSpace(c[|c| - 1])
    ensures JavaSendUserInput(templates, steps, LabelText(i, c)) == Resolved(Match(templates, steps, c))
  {
    LabelLayout(i, c);
    JavaParseLabel(i, c);
    JavaSendUserInputParsed(templates, steps, LabelText(i, c));
  }

  /** What the Python parse makes of a single-digit label line: the canonical question back,
      inner quotes included. */
  lemma PyParseLabel(i: nat, c: string)
    requires 1 <= i < 10
    requires c != [] ==> c[0] != '"' && c[|c| - 1] != '"'
    ensures PyParseFaq(LabelText(i, c)) == c
  {
    LabelLayout(i, c);
    assert LabelText(i, c)[4..] == "\"" + (c + "\"");
    TrimSkipsLeading("\"", c + "\"", IsQuote);
    TrimSkipsTrailing(c, "\"", IsQuote);
    TrimOfTrimmed(c, IsQuote);
  }

  /** A Python reply that starts with "Q" is looked up by its parsed text. */
  lemma PySendUserInputParsed(templates: seq<Template>, steps: seq<Step>, reply: string)
    requires StartsWith(reply, "Q")
    ensures PySendUserInput(templates, steps, reply) == Match(templates, steps, PyParseFaq(reply))
  {
  }

  /** Round trip, Python: a single-digit label line resolves to its question's template. */
  lemma PyLabelRoundTrip(templates: seq<Template>, steps: seq<Step>, i: nat, c: string)
    requires 1 <= i < 10
    requires c != [] ==> c[0] != '"' && c[|c| - 1] != '"'
    ensures PySendUserInput(templates, steps, LabelText(i, c)) == Match(templates, steps, c)
  {
    LabelLayout(i, c);
    PyParseLabel(i, c);
    PySendUserInputParsed(templates, steps, LabelText(i, c));
  }

  /** Python's fixed four-character cut leaves ` "<c>` of a two-digit label line, so from the
      tenth canonical question on the echoed label no longer names its question. */
  lemma PyParseTwoDigitLabel(i: nat, c: string)
    requires 10 <= i < 100
    requires c != [] && c[|c| - 1] != '"'
    ensures PyParseFaq(LabelText(i, c)) == " \"" + c
  {
    var reply := LabelText(i, c);
    var front := " \"" + c;
    LabelLayout(i, c);
    assert reply[4..] == front + "\"";
    assert PyParseFaq(reply) == Trim(front + "\"", IsQuote);
    TrimSkipsTrailing(front, "\"", IsQuote);
    assert front[|front| - 1] == c[|c| - 1];
    TrimOfTrimmed(front, IsQuote);
  }

  /** The outcome of a chat-completion call: the reply's content, or a failure (an HTTP status
      other than 200, or an exception on the way). */
  datatype Reply = Content(text: string) | TransportFailure

  /** The sentinel Java's `callOpenAI` and Python's `match_question` return on a failure. */
  const ErrorSentinel := "Error"

  /** The classifier's reply as the resolver receives it. */
  function ReplyText(r: Reply): string {
    match r
    case Content(text) => text
    case TransportFailure => ErrorSentinel
  }

  /** Both resolvers on a reply; only the Java one can throw. */
  function Resolve(d: Dialect, templates: seq<Template>, steps: seq<Step>, r: Reply): Outcome {
    match d
    case Java => JavaSendUserInput(templates, steps, ReplyText(r))
    case Python => Resolved(PySendUserInput(templates, steps, ReplyText(r)))
  }

  /** A failed classifier call is no match in both implementations: the sentinel does not start
      with "Q". */
  lemma FailureIsNoMatch(d: Dialect, templates: seq<Template>, steps: seq<Step>)
    ensures Resolve(d, templates, steps, TransportFailure) == Resolved(NoMatch)
  {
    assert !StartsWith(ErrorSentinel, "Q") by {
      assert ErrorSentinel[..1] == "E";
    }
  }

  /** Either resolver finds a template exactly when the reply starts with "Q" and (in Java, once
      it is long enough to cut) its parsed text is some template's question. */
  lemma ResolveKeyed(d: Dialect, templates: seq<Template>, steps: seq<Step>, r: Reply)
    requires UniqueTemplateKeys(templates)
    ensures var reply := ReplyText(r);
      var o := Resolve(d, templates, steps, r);
      o.Resolved? && o.resolution.faqKey != 0 <==>
        StartsWith(reply, "Q") &&
        if d == Java then |reply| >= 4 && exists i :: 0 <= i < |templates| && templates[i].faq == JavaParseFaq(reply)
        else exists i :: 0 <= i < |templates| && templates[i].faq == PyParseFaq(reply)
  {
    if d == Java {
      JavaSendUserInputCases(templates, steps, ReplyText(r));
    } else {
      PySendUserInputCases(templates, steps, ReplyText(r));
    }
  }

  /** Whatever the dialect and the reply, a resolution with a key is some template's key, a copy
      of its fields and its script. */
  lemma ResolvedIsTemplate(d: Dialect, templates: seq<Template>, steps: seq<Step>, r: Reply)
    ensures var o := Resolve(d, templates, steps, r);
      o.Resolved? && o.resolution.faqKey != 0 ==>
        exists i :: 0 <= i < |templates| && o.resolution == Resolution(templates[i].faqKey, templates[i].fields, Script(steps, templates[i].faqKey))
  {
    var reply := ReplyText(r);
    if d == Java {
      if StartsWith(reply, "Q") && |reply| >= 4 {
        JavaSendUserInputParsed(templates, steps, reply);
        MatchIsTemplate(templates, steps, JavaParseFaq(reply));
      }
    } else {
      if StartsWith(reply, "Q") {
        PySendUserInputParsed(templates, steps, reply);
        MatchIsTemplate(templates, steps, PyParseFaq(reply));
      }
    }
  }

  /** A lookup with a key returns some template's key, fields and script. */
  lemma MatchIsTemplate(templates: seq<Template>, steps: seq<Step>, faq: string)
    ensures Match(templates, steps, faq).faqKey != 0 ==>
      exists i :: 0 <= i < |templates| && Match(templates, steps, faq) == Resolution(templates[i].faqKey, templates[i].fields, Script(steps, templates[i].faqKey))
  {
    match FindTemplate(templates, faq)
    case None =>
    case Some(i) =>
      assert Match(templates, steps, faq) == Resolution(templates[i].faqKey, templates[i].fields, Script(steps, templates[i].faqKey));
  }

  /** From the tenth label on the two resolvers part ways: Java still finds the question's
      template, while Python, whose cut leaves a space and a quote in front, finds none as long
      as no template's question starts with a space. */
  lemma TwoDigitLabelResolution(templates: seq<Template>, steps: seq<Step>, i: nat, c: string)
    requires 10 <= i < 100
    requires '"' !in c && c != [] && !JavaSpace(c[0]) && !JavaSpace(c[|c| - 1])
    requires forall j :: 0 <= j < |templates| ==> templates[j].faq == [] || templates[j].faq[0] != ' '
    ensures JavaSendUserInput(templates, steps, LabelText(i, c)) == Resolved(Match(templates, steps, c))
    ensures PySendUserInput(templates, steps, LabelText(i, c)) == NoMatch
  {
    JavaLabelRoundTrip(templates, steps, i, c);
    assert c[|c| - 1] in c;
    PyParseTwoDigitLabel(i, c);
    LabelLayout(i, c);
    PySendUserInputParsed(templates, steps, LabelText(i, c));
    MatchMisses(templates, steps, " \"" + c);
  }

  /** Text that no template's question equals is no match. */
  lemma MatchMisses(templates: seq<Template>, steps: seq<Step>, faq: string)
    requires forall j :: 0 <= j < |templates| ==> templates[j].faq == [] || templates[j].faq[0] != ' '
    requires faq != [] && faq[0] == ' '
    ensures Match(templates, steps, faq) == NoMatch
  {
    assert FindTemplate(templates, faq).None?;
  }

  /** A reply of "Q" and at most two more characters: the Java resolver throws, the Python one
      parses it to the empty string, which names no template with a question. */
  lemma ShortReplyResolution(templates: seq<Template>, steps: seq<Step>, reply: string)
    requires StartsWith(reply, "Q") && |reply| < 4
    requires forall j :: 0 <= j < |templates| ==> templates[j].faq != []
    ensures JavaSendUserInput(templates, steps, reply) == IndexOutOfBounds
    ensures PySendUserInput(templates, steps, reply) == NoMatch
  {
    PyShortReplyMisses(templates, steps, reply);
  }

  /** Python parses a reply of fewer than four characters to the empty string, which names no
      template. */
  lemma PyShortReplyMisses(templates: seq<Template>, steps: seq<Step>, reply: string)
    requires |reply| < 4
    requires forall j :: 0 <= j < |templates| ==> templates[j].faq != []
    ensures Match(templates, steps, PyParseFaq(reply)) == NoMatch
  {
    assert PyParseFaq(reply) == [];
  }
}
