/**
 * The text `SensorManager::getJson` publishes: `[{"id":I,"val":V},...]`, one
 * object per sensor in list order, where I is the sensor id in decimal and V is
 * Arduino's `String(float)` of its cached value.  That float formatting is not
 * modelled; every function here takes it as the parameter `fmt`.
 *
 * `Parse` is an independent reader of this format; `ParseRender` shows that the
 * published text determines every id and every formatted value, in order.
 */
module Snapshot {
  import opened Wrappers
  import opened Text

  const ID_KEY: string := "{\"id\":"
  const VAL_KEY: string := ",\"val\":"

  /** One sensor's object. */
  function Entry(id: nat, val: string): (r: string)
    ensures |r| == |ID_KEY| + |DecimalText(id)| + |VAL_KEY| + |val| + 1
    ensures r[..|ID_KEY|] == ID_KEY && r[|r| - 1] == '}'
  {
    ID_KEY + DecimalText(id) + VAL_KEY + val + "}"
  }

  /** `getJson` writes an object in two pieces, split after the comma. */
  lemma EntryPieces(id: nat, val: string)
    ensures ("{\"id\":" + DecimalText(id) + ",") + ("\"val\":" + val + "}") == Entry(id, val)
  {
  }

  /** The objects of all readings, in order. */
  function Entries(readings: seq<(nat, real)>, fmt: real -> string): (r: seq<string>)
    ensures |r| == |readings|
    ensures forall i :: 0 <= i < |r| ==> r[i] == Entry(readings[i].0, fmt(readings[i].1))
  {
    seq(|readings|, i requires 0 <= i < |readings| => Entry(readings[i].0, fmt(readings[i].1)))
  }

  /** The published snapshot. */
  function Render(readings: seq<(nat, real)>, fmt: real -> string): (r: string)
    ensures |r| >= 2 && r[0] == '[' && r[|r| - 1] == ']'
    ensures r[1..|r| - 1] == Join(Entries(readings, fmt))
    ensures r == "[]" <==> readings == []
  {
    JoinEnds(Entries(readings, fmt));
    JsonArray(Entries(readings, fmt))
  }

  /** What a reader of the snapshot recovers: each id with the text of its value. */
  function Formatted(readings: seq<(nat, real)>, fmt: real -> string): (r: seq<(nat, string)>)
    ensures |r| == |readings|
    ensures forall i :: 0 <= i < |r| ==> r[i] == (readings[i].0, fmt(readings[i].1))
  {
    seq(|readings|, i requires 0 <= i < |readings| => (readings[i].0, fmt(readings[i].1)))
  }

  /** `s` contains no closing brace. */
  predicate NoBrace(s: string)
  {
    forall i :: 0 <= i < |s| ==> s[i] != '}'
  }

  /** No formatted value contains a closing brace (true of decimal float text). */
  ghost predicate BraceFree(fmt: real -> string)
  {
    forall x :: NoBrace(fmt(x))
  }

  /** The number of leading decimal digits of `s`. */
  function DigitRun(s: string): (n: nat)
    ensures n <= |s|
  {
    if s == [] || !IsDigit(s[0]) then 0 else 1 + DigitRun(s[1..])
  }

  /** The position of the first `}` of `s`, or `|s|` when there is none. */
  function BraceAt(s: string): (n: nat)
    ensures n <= |s|
  {
    if s == [] || s[0] == '}' then 0 else 1 + BraceAt(s[1..])
  }

  /** Reads `prefix` off the front of `s`. */
  function Expect(prefix: string, s: string): (r: Option<string>)
    ensures r.Some? ==> |r.value| + |prefix| == |s|
  {
    if |prefix| <= |s| && s[..|prefix|] == prefix then Some(s[|prefix|..]) else None
  }

  /** Reads `"id":D` (after the `{`): the id and what follows its digits. */
  function ReadId(s: string): (r: Option<(nat, string)>)
    ensures r.Some? ==> |r.value.1| < |s|
  {
    match Expect(ID_KEY, s)
    case None => None
    case Some(afterKey) =>
      var n := DigitRun(afterKey);
      if n == 0 then None else Some((DecimalValue(afterKey[..n]), afterKey[n..]))
  }

  /** Reads `,"val":V}`: the text V up to the first `}` and what follows the `}`. */
  function ReadVal(s: string): (r: Option<(string, string)>)
    ensures r.Some? ==> |r.value.1| < |s|
  {
    match Expect(VAL_KEY, s)
    case None => None
    case Some(afterKey) =>
      var m := BraceAt(afterKey);
      if m == |afterKey| then None else Some((afterKey[..m], afterKey[m + 1..]))
  }

  /** Reads one `{"id":D,"val":V}` object: the pair and the remaining text. */
  function ReadObject(s: string): (r: Option<((nat, string), string)>)
    ensures r.Some? ==> |r.value.1| < |s|
  {
    match ReadId(s)
    case None => None
    case Some((id, afterId)) =>
      match ReadVal(afterId)
      case None => None
      case Some((val, rest)) => Some(((id, val), rest))
  }

  /** Reads objects separated by commas. */
  function ParseEntries(body: string): Option<seq<(nat, string)>>
    decreases |body|
  {
    match ReadObject(body)
    case None => None
    case Some((item, tail)) =>
      if tail == [] then Some([item])
      else if tail[0] != ',' then None
      else
        match ParseEntries(tail[1..])
        case None => None
        case Some(items) => Some([item] + items)
  }

  /** Reads a whole snapshot. */
  function Parse(text: string): Option<seq<(nat, string)>>
  {
    if |text| < 2 || text[0] != '[' || text[|text| - 1] != ']' then None
    else if |text| == 2 then Some([])
    else ParseEntries(text[1..|text| - 1])
  }

  lemma ExpectPrefix(prefix: string, s: string)
    ensures Expect(prefix, prefix + s) == Some(s)
  {
    assert (prefix + s)[..|prefix|] == prefix;
  }

  lemma ReadIdOf(id: nat, rest: string)
    requires rest != [] && !IsDigit(rest[0])
    ensures ReadId(ID_KEY + DecimalText(id) + rest) == Some((id, rest))
  {
    var d := DecimalText(id);
    assert ID_KEY + d + rest == ID_KEY + (d + rest);
    ExpectPrefix(ID_KEY, d + rest);
    DigitRunOfNumber(d, rest);
    assert (d + rest)[..|d|] == d;
    DecimalRoundTrip(id);
  }

  lemma ReadValOf(val: string, tail: string)
    requires NoBrace(val)
    ensures ReadVal(VAL_KEY + val + "}" + tail) == Some((val, tail))
  {
    assert VAL_KEY + val + "}" + tail == VAL_KEY + (val + ("}" + tail));
    ExpectPrefix(VAL_KEY, val + ("}" + tail));
    BraceAfter(val, tail);
    assert (val + ("}" + tail))[..|val|] == val;
    assert (val + ("}" + tail))[|val| + 1..] == tail;
  }

  /** Reading one object off the front of `Entry(id, val) + tail`. */
  lemma ReadObjectOf(id: nat, val: string, tail: string)
    requires NoBrace(val)
    ensures ReadObject(Entry(id, val) + tail) == Some(((id, val), tail))
  {
    var after := VAL_KEY + val + "}" + tail;
    assert Entry(id, val) + tail == ID_KEY + DecimalText(id) + after;
    ReadIdOf(id, after);
    ReadValOf(val, tail);
  }

  lemma {:induction false} DigitRunOfNumber(d: string, after: string)
    requires AllDigits(d)
    requires after != [] && !IsDigit(after[0])
    ensures DigitRun(d + after) == |d|
    decreases |d|
  {
    if d != [] {
      assert (d + after)[1..] == d[1..] + after;
      DigitRunOfNumber(d[1..], after);
    }
  }

  lemma {:induction false} BraceAfter(val: string, tail: string)
    requires NoBrace(val)
    ensures BraceAt(val + ("}" + tail)) == |val|
    decreases |val|
  {
    if val != [] {
      assert (val + ("}" + tail))[1..] == val[1..] + ("}" + tail);
      BraceAfter(val[1..], tail);
    }
  }

  lemma ParseOne(id: nat, val: string)
    requires NoBrace(val)
    ensures ParseEntries(Entry(id, val)) == Some([(id, val)])
  {
    ReadObjectOf(id, val, "");
    assert Entry(id, val) + "" == Entry(id, val);
  }

  lemma ParseCons(id: nat, val: string, rest: string, items: seq<(nat, string)>)
    requires NoBrace(val)
    requires ParseEntries(rest) == Some(items)
    ensures ParseEntries(Entry(id, val) + "," + rest) == Some([(id, val)] + items)
  {
    var tail := "," + rest;
    ReadObjectOf(id, val, tail);
    ParseEntriesAfter(Entry(id, val) + tail, (id, val), tail, items);
    ConcatAssoc(Entry(id, val), ",", rest);
  }

  lemma ConcatAssoc(a: string, b: string, c: string)
    ensures a + b + c == a + (b + c)
  {
  }

  /** An object followed by a comma and a readable list reads as that object, then the list. */
  lemma ParseEntriesAfter(text: string, item: (nat, string), tail: string, items: seq<(nat, string)>)
    requires ReadObject(text) == Some((item, tail))
    requires tail != [] && tail[0] == ',' && ParseEntries(tail[1..]) == Some(items)
    ensures ParseEntries(text) == Some([item] + items)
  {
  }

  /** `ParseEntries` inverts `Join` of the entries, provided no formatted value contains `}`. */
  lemma {:induction false} ParseJoin(readings: seq<(nat, real)>, fmt: real -> string)
    requires |readings| > 0
    requires BraceFree(fmt)
    ensures ParseEntries(Join(Entries(readings, fmt))) == Some(Formatted(readings, fmt))
    decreases |readings|
  {
    var es := Entries(readings, fmt);
    var v := readings[0].1;
    var id, val := readings[0].0, fmt(v);
    if |readings| == 1 {
      assert es == [Entry(id, val)];
      ParseOne(id, val);
      assert Formatted(readings, fmt) == [(id, val)];
    } else {
      var more := Entries(readings[1..], fmt);
      assert es == [Entry(id, val)] + more;
      JoinCons(Entry(id, val), more);
      assert Join(es) == Entry(id, val) + "," + Join(more);
      ParseJoin(readings[1..], fmt);
      ParseCons(id, val, Join(more), Formatted(readings[1..], fmt));
      FormattedCons(readings, fmt);
    }
  }

  lemma FormattedCons(readings: seq<(nat, real)>, fmt: real -> string)
    requires |readings| > 0
    ensures Formatted(readings, fmt) == [(readings[0].0, fmt(readings[0].1))] + Formatted(readings[1..], fmt)
  {
    var whole, rest := Formatted(readings, fmt), Formatted(readings[1..], fmt);
    var cons := [(readings[0].0, fmt(readings[0].1))] + rest;
    assert |whole| == |cons|;
    forall i | 0 <= i < |whole|
      ensures whole[i] == cons[i]
    {
      if i > 0 {
        assert cons[i] == rest[i - 1];
        assert readings[1..][i - 1] == readings[i];
      }
    }
  }

  /** The snapshot round trip: the published text gives back every (id, formatted value), in order. */
  lemma ParseRender(readings: seq<(nat, real)>, fmt: real -> string)
    requires BraceFree(fmt)
    ensures Parse(Render(readings, fmt)) == Some(Formatted(readings, fmt))
  {
    var text := Render(readings, fmt);
    if |readings| == 0 {
      assert text == "[]";
    } else {
      ParseJoin(readings, fmt);
      assert text[1..|text| - 1] == Join(Entries(readings, fmt));
    }
  }

  /** With no sensors the snapshot is `[]`. */
  lemma RenderEmpty(fmt: real -> string)
    ensures Render([], fmt) == "[]"
  {
  }
}
