/** Cluster labels such as `"Cluster 3"` and the two ways the charts read a
    number out of them: JavaScript's `parseInt` applied to the second
    space-separated word, and to all the digit characters of the label. */
module ClusterLabels {
  import opened Seqs

  predicate IsDecimalDigit(ch: char) {
    '0' <= ch <= '9'
  }

  /** The value of `ch` as a digit of base 16 or lower, when it is one. */
  function HexValue(ch: char): (v: Option<nat>)
    ensures v.Some? ==> v.value < 16
    ensures v.Some? && v.value < 10 <==> IsDecimalDigit(ch)
  {
    if '0' <= ch <= '9' then Some(ch as int - '0' as int)
    else if 'a' <= ch <= 'f' then Some(ch as int - 'a' as int + 10)
    else if 'A' <= ch <= 'F' then Some(ch as int - 'A' as int + 10)
    else None
  }

  /** `ch` is a digit in base `radix` (10 or 16 here). */
  predicate IsDigitIn(ch: char, radix: nat) {
    HexValue(ch).Some? && HexValue(ch).value < radix
  }

  /** Every character of `ds` is a digit in base `radix`. */
  predicate AllDigits(ds: string, radix: nat) {
    forall i :: 0 <= i < |ds| ==> IsDigitIn(ds[i], radix)
  }

  /** The number the digit string `ds` spells in base `radix`. */
  function Value(ds: string, radix: nat): nat
    requires AllDigits(ds, radix)
  {
    if ds == [] then 0
    else Value(ds[..|ds| - 1], radix) * radix + HexValue(ds[|ds| - 1]).value
  }

  /** The length of the longest prefix of `s` made of base-`radix` digits. */
  function LeadingDigits(s: string, radix: nat): (n: nat)
    ensures n <= |s|
    ensures AllDigits(s[..n], radix)
    ensures n < |s| ==> !IsDigitIn(s[n], radix)
  {
    if s == [] || !IsDigitIn(s[0], radix) then 0
    else
      var n := 1 + LeadingDigits(s[1..], radix);
      assert s[..n] == [s[0]] + s[1..][..n - 1];
      n
  }

  /** The white space `parseInt` skips before the number. */
  predicate IsSpace(ch: char) {
    || ch == ' ' || ch == '\t' || ch == '\n' || ch == '\r' || ch == '\U{000B}' || ch == '\U{000C}'
    || ch == '\U{00A0}' || ch == '\U{FEFF}' || ch == '\U{2028}' || ch == '\U{2029}'
  }

  /** The number of white-space characters at the front of `s`. */
  function LeadingSpaces(s: string): (n: nat)
    ensures n <= |s|
    ensures forall i :: 0 <= i < n ==> IsSpace(s[i])
    ensures n < |s| ==> !IsSpace(s[n])
  {
    if s == [] || !IsSpace(s[0]) then 0 else 1 + LeadingSpaces(s[1..])
  }

  /** `parseInt(s)` called without a radix may switch to base 16 on a `0x`
      prefix; `parseInt(s, 10)` never does. */
  datatype Radix = Unspecified | Decimal

  /** JavaScript's `parseInt`: skip leading white space, take an optional
      sign, with no radix given strip a `0x`/`0X` prefix and read base 16,
      then read the longest run of digits. `None` is `NaN`: no digit at all. */
  function ParseInt(s: string, radix: Radix): Option<int> {
    var t := s[LeadingSpaces(s)..];
    var negative := |t| > 0 && t[0] == '-';
    var u := if |t| > 0 && (t[0] == '-' || t[0] == '+') then t[1..] else t;
    var hex := radix == Unspecified && |u| >= 2 && u[0] == '0' && (u[1] == 'x' || u[1] == 'X');
    var body := if hex then u[2..] else u;
    var base := if hex then 16 else 10;
    var n := LeadingDigits(body, base);
    var v: int := Value(body[..n], base);
    if n == 0 then None else if negative then Some(-v) else Some(v)
  }

  /** The decimal digit for `d < 10`. */
  function DigitChar(d: nat): (ch: char)
    requires d < 10
    ensures IsDecimalDigit(ch) && HexValue(ch) == Some(d)
  {
    ('0' as int + d) as char
  }

  /** The decimal numeral of `n`, without leading zeros. */
  function Numeral(n: nat): (s: string)
    ensures |s| > 0
    ensures forall i :: 0 <= i < |s| ==> IsDecimalDigit(s[i])
    ensures n > 0 ==> s[0] != '0'
  {
    if n < 10 then [DigitChar(n)] else Numeral(n / 10) + [DigitChar(n % 10)]
  }

  /** A numeral is made of digits of any base from 10 up. */
  lemma NumeralDigits(n: nat, radix: nat)
    requires radix >= 10
    ensures AllDigits(Numeral(n), radix)
  {
    var s := Numeral(n);
    forall i | 0 <= i < |s| ensures IsDigitIn(s[i], radix) {
      assert IsDecimalDigit(s[i]);
    }
  }

  /** Reading a numeral back in base 10 gives the number it was written from. */
  lemma {:induction false} NumeralValue(n: nat)
    ensures AllDigits(Numeral(n), 10)
    ensures Value(Numeral(n), 10) == n
  {
    NumeralDigits(n, 10);
    if n >= 10 {
      var s := Numeral(n);
      assert s[..|s| - 1] == Numeral(n / 10);
      NumeralValue(n / 10);
    }
  }

  /** `parseInt` reads a run of decimal digits that does not start with
      `0x` as the decimal number it spells. */
  lemma ParseDigits(s: string, radix: Radix)
    requires |s| > 0 && forall i :: 0 <= i < |s| ==> IsDecimalDigit(s[i])
    requires !(|s| >= 2 && s[0] == '0' && (s[1] == 'x' || s[1] == 'X'))
    ensures AllDigits(s, 10)
    ensures ParseInt(s, radix) == Some(Value(s, 10))
  {
    assert AllDigits(s, 10) by {
      forall i | 0 <= i < |s| ensures IsDigitIn(s[i], 10) {
        assert IsDecimalDigit(s[i]);
      }
    }
    assert !IsSpace(s[0]) by {
      assert IsDecimalDigit(s[0]);
    }
    assert LeadingSpaces(s) == 0;
    assert s[0..] == s;
    assert s[0] != '-' && s[0] != '+' by {
      assert IsDecimalDigit(s[0]);
    }
    LeadingDigitsAll(s, 10);
    assert s[..|s|] == s;
  }

  /** `parseInt` reads a numeral back, with or without a radix. */
  lemma ParseNumeral(n: nat, radix: Radix)
    ensures ParseInt(Numeral(n), radix) == Some(n)
  {
    var s := Numeral(n);
    NumeralValue(n);
    assert !(|s| >= 2 && s[0] == '0') by {
      if |s| >= 2 {
        assert n >= 10;
      }
    }
    ParseDigits(s, radix);
  }

  /** A string made of digits is its own leading run. */
  lemma {:induction false} LeadingDigitsAll(s: string, radix: nat)
    requires AllDigits(s, radix)
    ensures LeadingDigits(s, radix) == |s|
  {
    if s != [] {
      LeadingDigitsAll(s[1..], radix);
    }
  }

  /** The first index of `sep` in `s`, when it occurs. */
  function IndexOfChar(s: string, sep: char): (i: Option<nat>)
    ensures i.Some? ==> i.value < |s| && s[i.value] == sep && sep !in s[..i.value]
    ensures i.None? ==> sep !in s
  {
    if s == [] then None
    else if s[0] == sep then Some(0)
    else match IndexOfChar(s[1..], sep)
      case None => None
      case Some(j) =>
        assert s[..j + 1] == [s[0]] + s[1..][..j];
        Some(j + 1)
  }

  /** `s.split(sep)`: the pieces between the occurrences of `sep`. */
  function Split(s: string, sep: char): (pieces: seq<string>)
    ensures |pieces| > 0
    ensures forall k :: 0 <= k < |pieces| ==> sep !in pieces[k]
    decreases |s|
  {
    match IndexOfChar(s, sep)
    case None => [s]
    case Some(i) => [s[..i]] + Split(s[i + 1..], sep)
  }

  /** The pieces joined back with `sep` between them. */
  function Join(pieces: seq<string>, sep: char): string
    requires |pieces| > 0
  {
    if |pieces| == 1 then pieces[0] else pieces[0] + [sep] + Join(pieces[1..], sep)
  }

  /** Splitting loses nothing: joining the pieces gives the string back. */
  lemma {:induction false} SplitJoin(s: string, sep: char)
    ensures Join(Split(s, sep), sep) == s
    decreases |s|
  {
    match IndexOfChar(s, sep)
    case None =>
    case Some(i) =>
      SplitJoin(s[i + 1..], sep);
      assert s == s[..i] + [sep] + s[i + 1..];
  }

  /** The label of cluster `n`. */
  function ClusterLabel(n: nat): string {
    "Cluster " + Numeral(n)
  }

  /** `parseInt(label.split(' ')[1])`: the number in the second word, `None`
      when there is no second word or it does not start with a number. */
  function ClusterNumber(name: string): Option<int> {
    var words := Split(name, ' ');
    if |words| < 2 then None else ParseInt(words[1], Unspecified)
  }

  /** `parseInt(label.replace(/[^\d]/g, ''), 10)`: the number spelled by all
      the digits of the label, `None` when it has none. */
  function DigitsNumber(name: string): Option<int> {
    ParseInt(Filter(name, IsDecimalDigit), Decimal)
  }

  /** The first separator after a separator-free head is the one right
      after it. */
  lemma {:induction false} IndexAfterHead(head: string, sep: char, tail: string)
    requires sep !in head
    ensures IndexOfChar(head + [sep] + tail, sep) == Some(|head|)
  {
    if head != [] {
      assert (head + [sep] + tail)[1..] == head[1..] + [sep] + tail;
      IndexAfterHead(head[1..], sep, tail);
    }
  }

  /** Splitting `head sep tail` with a separator-free head and tail gives the
      two of them. */
  lemma SplitTwo(head: string, sep: char, tail: string)
    requires sep !in head && sep !in tail
    ensures Split(head + [sep] + tail, sep) == [head, tail]
  {
    var s := head + [sep] + tail;
    IndexAfterHead(head, sep, tail);
    assert s[..|head|] == head;
    assert s[|head| + 1..] == tail;
  }

  /** A cluster label's second word is its numeral. */
  lemma ClusterLabelWords(n: nat)
    ensures Split(ClusterLabel(n), ' ') == ["Cluster", Numeral(n)]
  {
    var s := Numeral(n);
    assert ' ' !in s by {
      forall i | 0 <= i < |s| ensures s[i] != ' ' {
        assert IsDecimalDigit(s[i]);
      }
    }
    assert ClusterLabel(n) == "Cluster" + [' '] + s;
    SplitTwo("Cluster", ' ', s);
  }

  /** The only digits of a cluster label are those of its numeral. */
  lemma ClusterLabelDigits(n: nat)
    ensures Filter(ClusterLabel(n), IsDecimalDigit) == Numeral(n)
  {
    var s := Numeral(n);
    FilterAppend("Cluster ", s, IsDecimalDigit);
    assert Filter("Cluster ", IsDecimalDigit) == [];
    FilterAll(s, IsDecimalDigit);
  }

  /** Both readings give back the number of a cluster label. */
  lemma ClusterLabelNumber(n: nat)
    ensures ClusterNumber(ClusterLabel(n)) == Some(n)
    ensures DigitsNumber(ClusterLabel(n)) == Some(n)
  {
    ClusterLabelWords(n);
    ClusterLabelDigits(n);
    ParseNumeral(n, Unspecified);
    ParseNumeral(n, Decimal);
  }

  /** `n` when the label carries one, else 0 (a label without a number
      compares as NaN in the source). */
  function NumberOr(v: Option<int>): real {
    match v
    case Some(n) => n as real
    case None => 0.0
  }
}
