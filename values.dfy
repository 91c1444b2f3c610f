/** The values a record field can hold, and the Java agent's coercion of a
    typed answer into one of them (javaIvaChat/IvaChatAgent.java, the
    `try` block in `runInteractiveSession`). */
module Values {
  import opened Strings

  /** A field value. `Real` keeps the two digit runs of the answer that produced it
      instead of the floating-point number `Double.parseDouble` would compute. */
  datatype Value = Int(n: int) | Real(whole: string, fraction: string) | Text(text: string)

  /** The structured answer: field name to value (the Java `HashMap`, the Python `dict`). */
  type Record = map<string, Value>

  /** `Integer.MAX_VALUE`: the largest value `Integer.parseInt` accepts. */
  const IntMax: int := 0x7FFF_FFFF

  /** `\d+\.\d+`: two non-empty runs of ASCII digits around one dot. */
  predicate IsDecimal(s: string) {
    exists k :: 0 <= k < |s| && s[k] == '.' && IsDigits(s[..k]) && IsDigits(s[k + 1..])
  }

  /** The position of the first occurrence of `c` in `s`. */
  function IndexOf(s: string, c: char): (r: Option<nat>)
    ensures r.Some? ==> r.value < |s| && s[r.value] == c && c !in s[..r.value]
    ensures r.None? ==> c !in s
  {
    if s == [] then None
    else if s[0] == c then Some(0)
    else match IndexOf(s[1..], c)
      case None => None
      case Some(k) =>
        assert s[..k + 1] == [s[0]] + s[1..][..k];
        Some(k + 1)
  }

  /** What the Java agent stores for a typed answer: an `Integer` when the answer is all digits
      and fits in an `int`, a `Double` when it is digits, a dot and digits, and the answer
      itself otherwise; a `NumberFormatException` (an all-digit answer too large for an `int`)
      also stores the answer itself. */
  function Coerce(answer: string): Value {
    if IsDigits(answer) then
      if DigitsValue(answer) <= IntMax then Int(DigitsValue(answer)) else Text(answer)
    else match IndexOf(answer, '.')
      case Some(k) =>
        if IsDigits(answer[..k]) && IsDigits(answer[k + 1..]) then Real(answer[..k], answer[k + 1..])
        else Text(answer)
      case None => Text(answer)
  }

  /** A decimal is coerced to a `Real`. */
  lemma DecimalIsReal(answer: string)
    requires IsDecimal(answer)
    ensures Coerce(answer).Real?
  {
    var k :| 0 <= k < |answer| && answer[k] == '.' && IsDigits(answer[..k]) && IsDigits(answer[k + 1..]);
    assert !IsDigits(answer) by {
      assert !IsDigit(answer[k]);
    }
    FirstDot(answer, k);
  }

  /** A `Real` comes from a decimal, split at its dot. */
  lemma RealIsDecimal(answer: string)
    requires Coerce(answer).Real?
    ensures IsDecimal(answer)
    ensures IsDigits(Coerce(answer).whole) && IsDigits(Coerce(answer).fraction)
    ensures answer == Coerce(answer).whole + "." + Coerce(answer).fraction
  {
    var k := IndexOf(answer, '.').value;
    assert Coerce(answer) == Real(answer[..k], answer[k + 1..]);
    assert answer == answer[..k] + "." + answer[k + 1..];
  }

  /** The coercion gives a `Real` exactly for `\d+\.\d+`, split at its dot. */
  lemma CoerceDecimal(answer: string)
    ensures Coerce(answer).Real? <==> IsDecimal(answer)
    ensures Coerce(answer).Real? ==>
      && IsDigits(Coerce(answer).whole) && IsDigits(Coerce(answer).fraction)
      && answer == Coerce(answer).whole + "." + Coerce(answer).fraction
  {
    if IsDecimal(answer) {
      DecimalIsReal(answer);
    }
    if Coerce(answer).Real? {
      RealIsDecimal(answer);
    }
  }

  /** The three outcomes of the coercion, each characterised by the pattern the answer matches. */
  lemma CoerceClassifies(answer: string)
    ensures Coerce(answer).Int? <==> IsDigits(answer) && DigitsValue(answer) <= IntMax
    ensures Coerce(answer).Int? ==> Coerce(answer).n == DigitsValue(answer)
    ensures Coerce(answer).Real? <==> IsDecimal(answer)
    ensures Coerce(answer).Real? ==>
      && IsDigits(Coerce(answer).whole) && IsDigits(Coerce(answer).fraction)
      && answer == Coerce(answer).whole + "." + Coerce(answer).fraction
    ensures Coerce(answer).Text? <==> !IsDecimal(answer) && !(IsDigits(answer) && DigitsValue(answer) <= IntMax)
    ensures Coerce(answer).Text? ==> Coerce(answer).text == answer
  {
    CoerceDecimal(answer);
  }

  /** In a decimal the dot is the first one. */
  lemma FirstDot(s: string, k: nat)
    requires k < |s| && s[k] == '.' && IsDigits(s[..k])
    ensures IndexOf(s, '.') == Some(k)
  {
    assert s[k] in s;
    assert forall i :: 0 <= i < k ==> s[..k][i] == s[i];
  }

  /** Rendering a number in decimal and reading it back gives an `Int` for every `int`-sized
      natural number. */
  lemma CoerceIntRoundTrip(n: nat)
    requires n <= IntMax
    ensures Coerce(NatToString(n)) == Int(n)
  {
  }

  /** Two digit runs joined by a dot read back as a `Real` carrying exactly those runs. */
  lemma CoerceRealRoundTrip(whole: string, fraction: string)
    requires IsDigits(whole) && IsDigits(fraction)
    ensures Coerce(whole + "." + fraction) == Real(whole, fraction)
  {
    var s := whole + "." + fraction;
    assert s[|whole|] == '.';
    assert s[..|whole|] == whole;
    assert s[|whole| + 1..] == fraction;
    CoerceClassifies(s);
  }

  /** Pinned examples of the two numeric outcomes. */
  lemma CoerceNumberExamples()
    ensures Coerce("42") == Int(42)
    ensures Coerce("3.14") == Real("3", "14")
  {
    assert DigitsValue("42") == 42 by { assert "42"[..1] == "4"; }
    assert IsDigits("14");
    assert "3" + "." + "14" == "3.14";
    CoerceRealRoundTrip("3", "14");
  }

  /** Pinned examples of answers that fall through to text: a sign is not part of `\d+`, and
      the dot pattern must cover the whole answer. */
  lemma CoerceTextExamples()
    ensures Coerce("-5") == Text("-5")
    ensures Coerce("two thousand") == Text("two thousand")
    ensures Coerce("1.2.3") == Text("1.2.3")
  {
    assert !IsDigit('-') && '.' !in "-5";
    assert !IsDigit('t') && '.' !in "two thousand";
    FirstDot("1.2.3", 1);
    assert "1.2.3"[2..] == "2.3" && !IsDigit("2.3"[1]);
  }

  /** `Integer.MAX_VALUE` itself is an `Int`; one more overflows `Integer.parseInt` and is
      stored as text. */
  lemma CoerceOverflowBoundary()
    ensures Coerce("2147483647") == Int(2147483647)
    ensures Coerce("2147483648") == Text("2147483648")
  {
    assert DigitsValue("21") == 21 by { assert "21"[..1] == "2"; }
    assert DigitsValue("214") == 214 by { assert "214"[..2] == "21"; }
    assert DigitsValue("2147") == 2147 by { assert "2147"[..3] == "214"; }
    assert DigitsValue("21474") == 21474 by { assert "21474"[..4] == "2147"; }
    assert DigitsValue("214748") == 214748 by { assert "214748"[..5] == "21474"; }
    assert DigitsValue("2147483") == 2147483 by { assert "2147483"[..6] == "214748"; }
    assert DigitsValue("21474836") == 21474836 by { assert "21474836"[..7] == "2147483"; }
    assert DigitsValue("214748364") == 214748364 by { assert "214748364"[..8] == "21474836"; }
    assert IsDigits("2147483647") && IsDigits("2147483648");
    assert "2147483647"[..9] == "214748364" && "2147483648"[..9] == "214748364";
  }

  /** The two implementations: the Java agent and the cleaned-up Python agent. */
  datatype Dialect = Java | Python

  /** What a prompt step stores for the answer typed: the Java agent coerces it, the Python
      agent keeps the raw string. */
  function Store(d: Dialect, answer: string): Value {
    match d
    case Java => Coerce(answer)
    case Python => Text(answer)
  }

  /** The text a value is written as: decimal digits for an `Int`, the two digit runs around a
      dot for a `Real`, the text itself otherwise. */
  function Lexeme(v: Value): string {
    match v
    case Int(n) => if n >= 0 then NatToString(n) else "-" + NatToString(-n)
    case Real(whole, fraction) => whole + "." + fraction
    case Text(t) => t
  }

  /** A Java `Int` answer with a leading zero: the only answers whose text the stored value
      loses. */
  predicate PaddedNumber(answer: string) {
    IsDigits(answer) && |answer| > 1 && answer[0] == '0' && DigitsValue(answer) <= IntMax
  }

  /** The stored value keeps the answer's text exactly, except that the Java agent drops the
      leading zeros of an `int`-sized number ("007" is stored as 7). */
  lemma StoreKeepsAnswer(d: Dialect, answer: string)
    ensures Lexeme(Store(d, answer)) == answer <==> !(d == Java && PaddedNumber(answer))
  {
    if d == Java {
      CoerceClassifies(answer);
      if IsDigits(answer) && DigitsValue(answer) <= IntMax {
        var n := DigitsValue(answer);
        if |answer| > 1 && answer[0] == '0' {
          NatToStringNoLeadingZero(n);
        } else {
          NatToStringOfDigits(answer);
        }
      }
    }
  }
}
