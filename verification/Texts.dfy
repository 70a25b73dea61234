/**
 Text as the storage side handles it: `split` and `join`, and decimal numbers as `int` reads and `str` writes
 them (lib/ptolemy/storage/feeders/carbon.py:27-40,119-133,176-177).
 */
module Texts {
  import opened Basics

  // ---------- Split and join ----------

  /** sep.join(parts) */
  function Join(parts: seq<string>, sep: char): string {
    if |parts| == 0 then ""
    else if |parts| == 1 then parts[0]
    else parts[0] + [sep] + Join(parts[1..], sep)
  }

  /** text.split(sep) */
  function Split(text: string, sep: char): (parts: seq<string>)
    ensures |parts| > 0
  {
    if text == "" then [""]
    else
      var rest := Split(text[1..], sep);
      if text[0] == sep then [""] + rest else [[text[0]] + rest[0]] + rest[1..]
  }

  lemma {:induction false} SplitAtFirst(head: string, tail: string, sep: char)
    requires sep !in head
    ensures Split(head + [sep] + tail, sep) == [head] + Split(tail, sep)
  {
    var text := head + [sep] + tail;
    if head == "" {
      assert text == [sep] + tail;
      assert text[1..] == tail;
    } else {
      assert text[1..] == head[1..] + [sep] + tail;
      assert text[0] == head[0] && head[0] in head;
      SplitAtFirst(head[1..], tail, sep);
      assert [head[0]] + head[1..] == head;
    }
  }

  lemma {:induction false} SplitWhole(text: string, sep: char)
    requires sep !in text
    ensures Split(text, sep) == [text]
  {
    if text != "" {
      SplitWhole(text[1..], sep);
      assert text[0] in text && [text[0]] + text[1..] == text;
    }
  }

  /** Splitting undoes joining, when the separator is in none of the parts. */
  lemma {:induction false} SplitUndoesJoin(parts: seq<string>, sep: char)
    requires |parts| > 0 && forall p <- parts :: sep !in p
    ensures Split(Join(parts, sep), sep) == parts
  {
    if |parts| == 1 {
      SplitWhole(parts[0], sep);
    } else {
      SplitUndoesJoin(parts[1..], sep);
      SplitAtFirst(parts[0], Join(parts[1..], sep), sep);
    }
  }

  /** Joining undoes splitting, and no part holds the separator. */
  lemma {:induction false} JoinUndoesSplit(text: string, sep: char)
    ensures Join(Split(text, sep), sep) == text
    ensures forall p <- Split(text, sep) :: sep !in p
  {
    if text != "" {
      JoinUndoesSplit(text[1..], sep);
      var rest := Split(text[1..], sep);
      if text[0] == sep {
        assert ([""] + rest)[1..] == rest;
      } else {
        var parts := [[text[0]] + rest[0]] + rest[1..];
        assert parts[1..] == rest[1..];
        assert text == [text[0]] + text[1..];
        if |rest| > 1 {
          assert [text[0]] + (rest[0] + [sep] + Join(rest[1..], sep)) == parts[0] + [sep] + Join(parts[1..], sep);
        }
      }
    }
  }

  // ---------- Numbers ----------

  predicate IsDigit(c: char) {
    '0' <= c <= '9'
  }

  function Digit(d: nat): (c: char)
    requires d < 10
    ensures IsDigit(c)
  {
    '0' + d as char
  }

  function Natural(n: nat): (text: string)
    ensures |text| > 0
  {
    if n < 10 then [Digit(n)] else Natural(n / 10) + [Digit(n % 10)]
  }

  /** str(n) */
  function Number(n: int): string {
    if n < 0 then "-" + Natural(-n) else Natural(n)
  }

  predicate AllDigits(text: string) {
    |text| > 0 && Digits(text)
  }

  predicate Digits(text: string) {
    forall i :: 0 <= i < |text| ==> IsDigit(text[i])
  }

  function ReadNatural(text: string): nat
    requires Digits(text)
  {
    if text == "" then 0
    else 10 * ReadNatural(text[..|text| - 1]) + (text[|text| - 1] as int - '0' as int)
  }

  /** int(text): a sign, if any, and digits; anything else is no number. */
  function ReadNumber(text: string): Option<int> {
    if AllDigits(text) then Some(ReadNatural(text))
    else if |text| > 0 && text[0] == '-' && AllDigits(text[1..]) then Some(0 - ReadNatural(text[1..]))
    else if |text| > 0 && text[0] == '+' && AllDigits(text[1..]) then Some(ReadNatural(text[1..]))
    else None
  }

  lemma {:induction false} NaturalReadsBack(n: nat)
    ensures AllDigits(Natural(n)) && ReadNatural(Natural(n)) == n
    ensures Natural(n)[0] == '0' <==> n == 0
    ensures n >= 10 ==> |Natural(n)| > 1
  {
    if n >= 10 {
      NaturalReadsBack(n / 10);
      var text := Natural(n);
      assert text[..|text| - 1] == Natural(n / 10);
    } else {
      assert Natural(n)[..0] == "";
    }
  }

  /** What `str` writes, `int` reads back. */
  lemma NumberReadsBack(n: int)
    ensures ReadNumber(Number(n)) == Some(n)
    ensures forall i :: 0 <= i < |Number(n)| ==> IsDigit(Number(n)[i]) || Number(n)[i] == '-'
  {
    NaturalReadsBack(if n < 0 then -n else n);
    if n < 0 {
      assert Number(n)[1..] == Natural(-n);
    }
  }

  /** Digits without a zero in front, or a lone zero. */
  predicate PlainDigits(text: string) {
    AllDigits(text) && (text[0] == '0' ==> |text| == 1)
  }

  /** A number written without plus sign and without zeros in front. */
  predicate Canonical(text: string) {
    PlainDigits(text) || (|text| > 1 && text[0] == '-' && PlainDigits(text[1..]) && text[1] != '0')
  }

  lemma {:induction false} PlainDigitsWriteBack(text: string)
    requires PlainDigits(text)
    ensures Natural(ReadNatural(text)) == text
    ensures ReadNatural(text) == 0 <==> text == "0"
  {
    var front := text[..|text| - 1];
    var last := text[|text| - 1];
    if |text| == 1 {
      assert front == "";
    } else {
      assert front[0] == text[0];
      PlainDigitsWriteBack(front);
      assert ReadNatural(front) > 0;
      assert text == front + [last];
    }
  }

  lemma NumberIsCanonical(n: int)
    ensures Canonical(Number(n))
  {
    NaturalReadsBack(if n < 0 then -n else n);
    if n < 0 {
      assert Number(n)[1..] == Natural(-n);
    }
  }

  /** `str(int(text))` is the text again exactly when the text is in canonical form. */
  lemma CanonicalWritesBack(text: string)
    requires ReadNumber(text).Some?
    ensures Number(ReadNumber(text).value) == text <==> Canonical(text)
  {
    NumberIsCanonical(ReadNumber(text).value);
    if Canonical(text) {
      if PlainDigits(text) {
        PlainDigitsWriteBack(text);
      } else {
        PlainDigitsWriteBack(text[1..]);
        assert text == "-" + text[1..];
      }
    }
  }
}
