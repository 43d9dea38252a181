/** Memory labels as text: the bounds are parsed back out of each label, and the label whose range
    contains a size is found. */
module MemoryLabels {
  import opened Graphs
  import opened Memory

  predicate IsDigit(c: char) { '0' <= c <= '9' }

  /** How many digits the text starts with. */
  function DigitCount(s: string): (n: nat)
    ensures n <= |s| && (forall i :: 0 <= i < n ==> IsDigit(s[i])) && (n < |s| ==> !IsDigit(s[n]))
  {
    if s == "" || !IsDigit(s[0]) then 0 else 1 + DigitCount(s[1..])
  }

  function Number(digits: string): nat
    requires forall i :: 0 <= i < |digits| ==> IsDigit(digits[i])
  {
    if digits == "" then 0
    else
      var c := digits[|digits| - 1];
      assert IsDigit(c);
      10 * Number(digits[..|digits| - 1]) + (c as int - '0' as int)
  }

  /** A verb's number and the text after it. */
  datatype Scanned = Scanned(value: int, rest: string)

  function SkipSpaces(s: string): string {
    if s != "" && s[0] == ' ' then SkipSpaces(s[1..]) else s
  }

  /** %d: spaces, a sign, and at least one digit. */
  function ScanInt(s: string): Option<Scanned> {
    var t := SkipSpaces(s);
    var signed := t != "" && (t[0] == '-' || t[0] == '+');
    var u := if signed then t[1..] else t;
    var n := DigitCount(u);
    if n == 0 then None
    else
      var v: int := Number(u[..n]);
      Some(Scanned(if signed && t[0] == '-' then -v else v, u[n..]))
  }

  /** The rest of the text after a literal part of the format. */
  function Literal(s: string, lit: string): Option<string> {
    if lit <= s then Some(s[|lit|..]) else None
  }

  /** "%d-%dGB"; whatever follows is ignored. */
  function ParseRange(text: string): Option<Bucket> {
    var lo := ScanInt(text);
    if lo.None? || Literal(lo.value.rest, "-").None? then None
    else
      var hi := ScanInt(Literal(lo.value.rest, "-").value);
      if hi.None? || Literal(hi.value.rest, "GB").None? then None
      else Some(Bucket(text, lo.value.value, Some(hi.value.value)))
  }

  /** "%dGB+" */
  function ParseOpen(text: string): Option<Bucket> {
    var lo := ScanInt(text);
    if lo.None? || Literal(lo.value.rest, "GB+").None? then None
    else Some(Bucket(text, lo.value.value, None))
  }

  function Parse(text: string): Option<Bucket> {
    var range := ParseRange(text);
    if range.Some? then range else ParseOpen(text)
  }

  /** RangeFor on texts: the first label whose parsed range contains the size, "" if there is none. */
  function LabelFor(gb: int, labels: seq<string>): string {
    if labels == [] then ""
    else
      var b := Parse(labels[0]);
      if b.Some? && b.value.Contains(gb) then labels[0] else LabelFor(gb, labels[1..])
  }

  // ---- What the labels say about themselves ----

  function Digit(d: nat): char
    requires d < 10
  {
    ('0' as int + d) as char
  }

  /** A number in decimal. */
  function Decimal(n: nat): (s: string)
    ensures s != "" && forall i :: 0 <= i < |s| ==> IsDigit(s[i])
  {
    if n < 10 then [Digit(n)] else Decimal(n / 10) + [Digit(n % 10)]
  }

  lemma {:induction false} NumberOfDecimal(n: nat)
    ensures Number(Decimal(n)) == n
  {
    if n >= 10 {
      NumberOfDecimal(n / 10);
      var s := Decimal(n);
      assert s[..|s| - 1] == Decimal(n / 10);
    } else {
      assert Decimal(n)[..0] == "";
    }
  }

  lemma {:induction false} DigitsThen(digits: string, rest: string)
    requires forall i :: 0 <= i < |digits| ==> IsDigit(digits[i])
    requires rest != "" && !IsDigit(rest[0])
    ensures DigitCount(digits + rest) == |digits|
  {
    if digits != "" {
      DigitsThen(digits[1..], rest);
      assert (digits + rest)[1..] == digits[1..] + rest;
    } else {
      assert digits + rest == rest;
    }
  }

  /** A decimal number is read back, up to the first character that is not a digit. */
  lemma ScanDecimal(n: nat, rest: string)
    requires rest != "" && !IsDigit(rest[0])
    ensures ScanInt(Decimal(n) + rest) == Some(Scanned(n, rest))
  {
    var d := Decimal(n);
    DigitsThen(d, rest);
    NumberOfDecimal(n);
    assert IsDigit(d[0]) && (d + rest)[0] == d[0];
    assert (d + rest)[..|d|] == d && (d + rest)[|d|..] == rest;
  }

  function RangeLabel(lo: nat, hi: nat): string { Decimal(lo) + "-" + Decimal(hi) + "GB" }

  function OpenLabel(lo: nat): string { Decimal(lo) + "GB+" }

  /** Round trip: every label "lo-hiGB" reads as its two bounds. */
  lemma RangeLabelParses(lo: nat, hi: nat)
    ensures Parse(RangeLabel(lo, hi)) == Some(Bucket(RangeLabel(lo, hi), lo, Some(hi)))
  {
    hide ScanInt;
    var after := "-" + (Decimal(hi) + "GB");
    assert RangeLabel(lo, hi) == Decimal(lo) + after;
    ScanDecimal(lo, after);
    assert after[1..] == Decimal(hi) + "GB";
    ScanDecimal(hi, "GB");
  }

  /** Round trip: every label "loGB+" reads as a lower bound alone. */
  lemma OpenLabelParses(lo: nat)
    ensures Parse(OpenLabel(lo)) == Some(Bucket(OpenLabel(lo), lo, None))
  {
    hide ScanInt;
    ScanDecimal(lo, "GB+");
    assert "GB+"[0] != '-';
  }

  /** The standard labels are of these two forms, so each reads as the bounds it stands for. */
  lemma StandardParses(b: Bucket)
    requires b in STANDARD
    ensures Parse(b.text) == Some(b)
  {
    hide Parse;
    DecimalsAre();
    assert B0.text == RangeLabel(0, 16) && B16.text == RangeLabel(16, 64) && B64.text == RangeLabel(64, 192);
    assert B192.text == OpenLabel(192);
    RangeLabelParses(0, 16);
    RangeLabelParses(16, 64);
    RangeLabelParses(64, 192);
    OpenLabelParses(192);
  }

  lemma DecimalsAre()
    ensures Decimal(0) == "0" && Decimal(16) == "16" && Decimal(64) == "64" && Decimal(192) == "192"
  {
    assert Decimal(1) == "1" && Decimal(6) == "6" && Decimal(19) == "19";
  }

  /** Looking among labels is looking among the buckets they read as. */
  lemma {:induction false} LabelForIsRangeFor(gb: int, labels: seq<string>, buckets: seq<Bucket>)
    requires |labels| == |buckets| && forall i :: 0 <= i < |labels| ==> Parse(labels[i]) == Some(buckets[i])
    ensures LabelFor(gb, labels) == match RangeFor(gb, buckets) case None => "" case Some(b) => b.text
  {
    hide Parse;
    if labels != [] {
      ParseKeepsText(labels[0]);
      LabelForIsRangeFor(gb, labels[1..], buckets[1..]);
    }
  }

  lemma ParseKeepsText(text: string)
    ensures Parse(text).Some? ==> Parse(text).value.text == text
  {}

  const StandardLabels := ["0-16GB", "16-64GB", "64-192GB", "192GB+"]

  /** StandardRangeFor: every size from zero up has exactly one label, the one whose bounds contain it. */
  lemma StandardLabelFor(gb: int)
    ensures gb >= 0 <==> LabelFor(gb, StandardLabels) != ""
    ensures forall b :: b in STANDARD ==> (b.Contains(gb) <==> LabelFor(gb, StandardLabels) == b.text)
  {
    hide Parse, LabelFor, RangeFor;
    forall i | 0 <= i < 4 ensures Parse(StandardLabels[i]) == Some(STANDARD[i]) {
      assert STANDARD[i] in STANDARD && STANDARD[i].text == StandardLabels[i];
      StandardParses(STANDARD[i]);
    }
    LabelForIsRangeFor(gb, StandardLabels, STANDARD);
    StandardPartition(gb);
    RangeForMember(gb, STANDARD);
    forall b | b in STANDARD && RangeFor(gb, STANDARD).Some?
      ensures b.text == RangeFor(gb, STANDARD).value.text <==> b == RangeFor(gb, STANDARD).value
    {
      LabelsDiffer(b, RangeFor(gb, STANDARD).value);
    }
  }
}
