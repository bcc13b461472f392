/**
 * The two pieces of text building that the firmware's JSON writers share:
 * Arduino's `String(n)` for a non-negative integer (decimal digits, no leading
 * zeros) and a list of items separated by commas.
 */
module Text {

  predicate IsDigit(c: char)
  {
    '0' <= c <= '9'
  }

  predicate AllDigits(s: string)
  {
    forall i :: 0 <= i < |s| ==> IsDigit(s[i])
  }

  function DigitChar(d: nat): (c: char)
    requires d < 10
    ensures IsDigit(c)
  {
    ('0' as int + d) as char
  }

  /** The value of a digit character (0 for any other character). */
  function DigitValue(c: char): (d: nat)
    ensures d < 10
  {
    if IsDigit(c) then c as int - '0' as int else 0
  }

  /** `String(n)` for n >= 0. */
  function DecimalText(n: nat): (r: string)
    ensures |r| > 0 && AllDigits(r)
    ensures n < 10 <==> |r| == 1
    decreases n
  {
    if n < 10 then [DigitChar(n)] else DecimalText(n / 10) + [DigitChar(n % 10)]
  }

  /** The number a run of decimal digits denotes. */
  function DecimalValue(s: string): nat
  {
    if s == [] then 0 else DecimalValue(s[..|s| - 1]) * 10 + DigitValue(s[|s| - 1])
  }

  /** Reading back the digits that `String(n)` writes yields `n`. */
  lemma {:induction false} DecimalRoundTrip(n: nat)
    ensures DecimalValue(DecimalText(n)) == n
    decreases n
  {
    var r := DecimalText(n);
    if n >= 10 {
      DecimalRoundTrip(n / 10);
      assert r[..|r| - 1] == DecimalText(n / 10);
    }
  }

  /** Different numbers are written differently. */
  lemma DecimalTextInjective(m: nat, n: nat)
    requires DecimalText(m) == DecimalText(n)
    ensures m == n
  {
    DecimalRoundTrip(m);
    DecimalRoundTrip(n);
  }

  /** The items separated by single commas, as the JSON array writers emit them. */
  function Join(items: seq<string>): string
  {
    if |items| == 0 then ""
    else if |items| == 1 then items[0]
    else Join(items[..|items| - 1]) + "," + items[|items| - 1]
  }

  /** The joined text is empty for no items, starts with the first item and ends with the last. */
  lemma {:induction false} JoinEnds(items: seq<string>)
    ensures items == [] ==> Join(items) == ""
    ensures |items| > 0 ==> |items[0]| <= |Join(items)| && Join(items)[..|items[0]|] == items[0]
    ensures |items| > 0 ==> var last := items[|items| - 1];
      |last| <= |Join(items)| && Join(items)[|Join(items)| - |last|..] == last
    decreases |items|
  {
    if |items| > 1 {
      var front := items[..|items| - 1];
      JoinEnds(front);
      assert front[0] == items[0];
    }
  }

  /** One more item, as a writer that puts `,` before every item but the first appends it. */
  lemma JoinStep(items: seq<string>, i: nat)
    requires i < |items|
    ensures Join(items[..i + 1]) == Join(items[..i]) + (if i > 0 then "," else "") + items[i]
  {
    assert items[..i + 1][..i] == items[..i];
  }

  /** A writer that has emitted `[` and the first `i` items, then emits one more. */
  lemma JsonArrayStep(text: string, before: string, sep: string, items: seq<string>, i: nat)
    requires i < |items|
    requires before == "[" + Join(items[..i])
    requires sep == if i > 0 then "," else ""
    requires text == before + sep + items[i]
    ensures text == "[" + Join(items[..i + 1])
  {
    JoinStep(items, i);
    assert text == "[" + (Join(items[..i]) + sep + items[i]);
  }

  /** The writers append one item at a time; this is the same text read from the front. */
  lemma {:induction false} JoinCons(first: string, rest: seq<string>)
    requires |rest| > 0
    ensures Join([first] + rest) == first + "," + Join(rest)
    decreases |rest|
  {
    var all := [first] + rest;
    if |rest| == 1 {
      assert all[..1] == [first];
    } else {
      var front := rest[..|rest| - 1];
      JoinCons(first, front);
      assert all[..|all| - 1] == [first] + front;
    }
  }

  /** A JSON array whose elements are the given texts. */
  function JsonArray(items: seq<string>): (r: string)
    ensures |r| >= 2 && r[0] == '[' && r[|r| - 1] == ']'
    ensures r[1..|r| - 1] == Join(items)
  {
    "[" + Join(items) + "]"
  }
}
