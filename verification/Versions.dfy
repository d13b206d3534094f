/**
 The release version order of `compareVersions` (internal/autoupdate/controller.go).

 A version is cut at the first `+`, then at the first `-`, loses one leading `v`, and is split on
 dots into decimal numbers. Two versions are compared number by number, the shorter one being
 extended with zeros.
 */
module Versions {
  import opened Basics

  const MAX_INT: nat := 0x7fff_ffff_ffff_ffff

  // --- Parsing -------------------------------------------------------------------------------

  /** The part of a string before the first occurrence of a character. */
  function Before(s: string, c: char): (r: string)
    ensures |r| <= |s| && r == s[..|r|] && c !in r && (|r| < |s| ==> s[|r|] == c)
  {
    if s == [] || s[0] == c then [] else [s[0]] + Before(s[1..], c)
  }

  predicate IsDigit(c: char) { '0' as int <= c as int <= '9' as int }

  /** The value of a string of decimal digits. */
  function Decimal(s: string): nat
    requires forall i | 0 <= i < |s| :: IsDigit(s[i])
  {
    if s == [] then 0
    else
      var digit := s[|s| - 1];
      assert IsDigit(digit);
      10 * Decimal(s[..|s| - 1]) + (digit as int - '0' as int)
  }

  /** A component that is a number: not empty, all digits, and no larger than the machine integer. */
  predicate IsNumber(s: string) {
    s != [] && (forall i | 0 <= i < |s| :: IsDigit(s[i])) && Decimal(s) <= MAX_INT
  }

  /** One dotted component. A component that is empty, not a number or too large for the machine
      integer is refused; a sign cannot occur, because the version was cut at `+` and `-`. */
  function ParseNumber(s: string): Option<nat> {
    if IsNumber(s) then Some(Decimal(s)) else None
  }

  function ParseNumbers(parts: seq<string>): (r: Option<seq<nat>>)
    ensures r.Some? ==> |r.value| == |parts|
  {
    if parts == [] then Some([])
    else
      match ParseNumber(parts[0])
      case None => None
      case Some(n) =>
        match ParseNumbers(parts[1..])
        case None => None
        case Some(rest) => Some([n] + rest)
  }

  /** The dotted components of a version. */
  function Components(version: string): seq<string> {
    var core := Before(Before(version, '+'), '-');
    Split(if core != [] && core[0] == 'v' then core[1..] else core, '.')
  }

  function Parse(version: string): Option<seq<nat>> { ParseNumbers(Components(version)) }

  predicate Parseable(version: string) { Parse(version).Some? }

  // --- Which numbers a version stands for ------------------------------------------------------

  /** A version is refused exactly when one of its components is not a number, and otherwise stands for the
      numbers its components are, each in its place. */
  lemma ParseExactly(version: string)
    ensures Parse(version).Some? <==> forall i | 0 <= i < |Components(version)| :: IsNumber(Components(version)[i])
    ensures Parse(version).Some? ==>
              && |Parse(version).value| == |Components(version)|
              && forall i | 0 <= i < |Components(version)| :: Some(Parse(version).value[i]) == ParseNumber(Components(version)[i])
  {
    NumbersExactly(Components(version));
  }

  lemma {:induction false} NumbersExactly(parts: seq<string>)
    ensures ParseNumbers(parts).Some? <==> forall i | 0 <= i < |parts| :: IsNumber(parts[i])
    ensures ParseNumbers(parts).Some? ==> forall i | 0 <= i < |parts| :: Some(ParseNumbers(parts).value[i]) == ParseNumber(parts[i])
  {
    if parts != [] {
      NumbersExactly(parts[1..]);
      assert forall i | 0 < i < |parts| :: parts[i] == parts[1..][i - 1];
      if ParseNumbers(parts).None? && IsNumber(parts[0]) {
        var i :| 0 <= i < |parts[1..]| && !IsNumber(parts[1..][i]);
        assert parts[i + 1] == parts[1..][i];
      }
    }
  }

  /** Numbers written with dots between them. */
  function Dotted(numbers: seq<nat>): string
    requires numbers != []
  {
    if |numbers| == 1 then Digits(numbers[0]) else Digits(numbers[0]) + "." + Dotted(numbers[1..])
  }

  /** What may follow the numbers: nothing, a pre-release or build metadata. */
  predicate Tail(s: string) { s == [] || s[0] == '-' || s[0] == '+' }

  /** The version written for a sequence of numbers, with or without the leading letter and with any tail,
      stands for exactly that sequence. */
  lemma WrittenVersionParses(numbers: seq<nat>, letter: bool, tail: string)
    requires numbers != [] && (forall n | n in numbers :: n <= MAX_INT) && Tail(tail)
    ensures Parse((if letter then "v" else "") + Dotted(numbers) + tail) == Some(numbers)
  {
    var text := Dotted(numbers);
    var core := (if letter then "v" else "") + text;
    DottedIsPlain(numbers);
    assert text[0] != 'v' && core[if letter then 1 else 0..] == text;
    CutTail(core, tail);
    SplitDotted(numbers);
    DigitsParse(numbers);
  }

  predicate Plain(s: string) { forall c | c in s :: IsDigit(c) || c == '.' }

  lemma {:induction false} DigitsAreDigits(n: nat)
    ensures Digits(n) != [] && forall c | c in Digits(n) :: IsDigit(c)
    decreases n
  {
    if n >= 10 { DigitsAreDigits(n / 10); }
  }

  lemma DecimalAppends(front: string, c: char)
    requires (forall i | 0 <= i < |front| :: IsDigit(front[i])) && IsDigit(c)
    ensures var s := front + [c];
            (forall i | 0 <= i < |s| :: IsDigit(s[i])) && Decimal(s) == 10 * Decimal(front) + (c as int - '0' as int)
  {
    var s := front + [c];
    assert forall i | 0 <= i < |s| :: IsDigit(s[i]);
    assert s[..|s| - 1] == front && s[|s| - 1] == c;
  }

  /** The digits of a number stand for it. */
  predicate Means(n: nat) { (forall i | 0 <= i < |Digits(n)| :: IsDigit(Digits(n)[i])) && Decimal(Digits(n)) == n }

  lemma DigitsNext(q: nat, d: nat)
    requires q > 0 && d < 10
    ensures Digits(10 * q + d) == Digits(q) + [(d + '0' as int) as char]
  {
    assert (10 * q + d) / 10 == q && (10 * q + d) % 10 == d;
  }

  lemma MeansNext(q: nat, d: nat)
    requires q > 0 && d < 10 && Means(q)
    ensures Means(10 * q + d)
  {
    DigitsNext(q, d);
    DecimalAppends(Digits(q), (d + '0' as int) as char);
  }

  lemma MeansDigit(d: nat)
    requires d < 10
    ensures Means(d)
  {
    var none: string := [];
    DecimalAppends(none, (d + '0' as int) as char);
    assert Digits(d) == none + [(d + '0' as int) as char];
  }

  lemma {:induction false} DigitsMean(n: nat)
    ensures Means(n)
    decreases n
  {
    if n < 10 {
      MeansDigit(n);
    } else {
      var q, d := Tenth(n);
      DigitsMean(q);
      MeansNext(q, d);
    }
  }

  lemma Tenth(n: nat) returns (q: nat, d: nat)
    requires n >= 10
    ensures 0 < q < n && d < 10 && n == 10 * q + d
  {
    q, d := n / 10, n % 10;
  }

  lemma {:induction false} DottedIsPlain(numbers: seq<nat>)
    requires numbers != []
    ensures Plain(Dotted(numbers)) && Dotted(numbers) != [] && IsDigit(Dotted(numbers)[0])
  {
    DigitsAreDigits(numbers[0]);
    assert Digits(numbers[0])[0] in Digits(numbers[0]);
    if |numbers| > 1 { DottedIsPlain(numbers[1..]); }
  }

  /** A plain core with a tail is cut to the core, whichever separator comes first. */
  lemma CutTail(core: string, tail: string)
    requires '+' !in core && '-' !in core && Tail(tail)
    ensures Before(Before(core + tail, '+'), '-') == core
  {
    var text := core + tail;
    var first := Before(text, '+');
    BeforeAt(text, '+', core);
    var second := Before(first, '-');
    BeforeAt(first, '-', core);
    assert tail != [] ==> text[|core|] == tail[0];
  }

  /** A separator that is not in a prefix is not found in it. */
  lemma BeforeAt(text: string, c: char, core: string)
    requires core <= text && c !in core
    ensures core <= Before(text, c)
  {
    var r := Before(text, c);
  }

  lemma {:induction false} SplitDotted(numbers: seq<nat>)
    requires numbers != []
    ensures Split(Dotted(numbers), '.') == seq(|numbers|, i requires 0 <= i < |numbers| => Digits(numbers[i]))
  {
    var first := Digits(numbers[0]);
    DigitsAreDigits(numbers[0]);
    if |numbers| == 1 {
      SplitPlain(first, '.');
    } else {
      SplitDotted(numbers[1..]);
      SplitFirst(first, '.', Dotted(numbers[1..]));
      assert first + "." + Dotted(numbers[1..]) == first + (['.'] + Dotted(numbers[1..]));
    }
  }

  lemma {:induction false} SplitPlain(s: string, c: char)
    requires c !in s
    ensures Split(s, c) == [s]
  {
    if s != [] {
      SplitPlain(s[1..], c);
      assert [s[0]] + s[1..] == s;
    }
  }

  lemma {:induction false} SplitFirst(s: string, c: char, rest: string)
    requires c !in s
    ensures Split(s + ([c] + rest), c) == [s] + Split(rest, c)
  {
    var text := s + ([c] + rest);
    if s == [] {
      assert text == [c] + rest && text[1..] == rest;
    } else {
      SplitFirst(s[1..], c, rest);
      assert text[1..] == s[1..] + ([c] + rest);
      assert [s[0]] + s[1..] == s;
    }
  }

  lemma DigitsParse(numbers: seq<nat>)
    requires forall n | n in numbers :: n <= MAX_INT
    ensures ParseNumbers(seq(|numbers|, i requires 0 <= i < |numbers| => Digits(numbers[i]))) == Some(numbers)
  {
    var parts := seq(|numbers|, i requires 0 <= i < |numbers| => Digits(numbers[i]));
    forall i | 0 <= i < |parts|
      ensures IsNumber(parts[i]) && ParseNumber(parts[i]) == Some(numbers[i])
    {
      assert numbers[i] in numbers;
      DigitsAreDigits(numbers[i]);
      DigitsMean(numbers[i]);
    }
    NumbersExactly(parts);
    assert ParseNumbers(parts).value == numbers;
  }

  // --- The order -----------------------------------------------------------------------------

  /** The number at a position, zero beyond the end. */
  function At(parts: seq<nat>, i: nat): nat {
    if i < |parts| then parts[i] else 0
  }

  /** `l` is smaller at the first position where the two differ. */
  ghost predicate LessAt(l: seq<nat>, r: seq<nat>, i: nat) {
    At(l, i) < At(r, i) && forall j: nat | j < i :: At(l, j) == At(r, j)
  }

  ghost predicate Less(l: seq<nat>, r: seq<nat>) {
    exists i: nat :: LessAt(l, r, i)
  }

  ghost predicate Same(l: seq<nat>, r: seq<nat>) {
    forall i: nat :: At(l, i) == At(r, i)
  }

  /** What the comparison loop returns for parsed versions, from position `i` on. */
  function CompareFrom(l: seq<nat>, r: seq<nat>, i: nat): (order: int)
    ensures -1 <= order <= 1
    decreases |l| + |r| - i
  {
    if i >= |l| && i >= |r| then 0
    else if At(l, i) < At(r, i) then -1
    else if At(l, i) > At(r, i) then 1
    else CompareFrom(l, r, i + 1)
  }

  function Compare(left: string, right: string): Option<int> {
    match (Parse(left), Parse(right))
    case (Some(l), Some(r)) => Some(CompareFrom(l, r, 0))
    case _ => None
  }

  /** The comparison as the program runs it: an index loop over the longer of the two. */
  method CompareVersions(left: string, right: string) returns (order: Option<int>)
    ensures order == Compare(left, right)
  {
    var l := Parse(left);
    if l.None? { return None; }
    var r := Parse(right);
    if r.None? { return None; }
    var length := if |r.value| > |l.value| then |r.value| else |l.value|;
    for index := 0 to length
      invariant CompareFrom(l.value, r.value, 0) == CompareFrom(l.value, r.value, index)
    {
      var leftPart := if index < |l.value| then l.value[index] else 0;
      var rightPart := if index < |r.value| then r.value[index] else 0;
      if leftPart < rightPart { return Some(-1); }
      if leftPart > rightPart { return Some(1); }
    }
    return Some(0);
  }

  /** The comparison decides the zero-extended lexicographic order. */
  lemma {:induction false} CompareDecides(l: seq<nat>, r: seq<nat>, i: nat)
    requires forall j: nat | j < i :: At(l, j) == At(r, j)
    ensures CompareFrom(l, r, i) == -1 <==> Less(l, r)
    ensures CompareFrom(l, r, i) == 1 <==> Less(r, l)
    ensures CompareFrom(l, r, i) == 0 <==> Same(l, r)
    decreases |l| + |r| - i
  {
    if i >= |l| && i >= |r| {
      assert Same(l, r);
    } else if At(l, i) < At(r, i) {
      assert LessAt(l, r, i);
      LessExcludes(l, r);
    } else if At(l, i) > At(r, i) {
      assert LessAt(r, l, i);
      LessExcludes(r, l);
    } else {
      CompareDecides(l, r, i + 1);
    }
  }

  lemma LessExcludes(l: seq<nat>, r: seq<nat>)
    requires Less(l, r)
    ensures !Less(r, l) && !Same(l, r)
  {
    var i: nat :| LessAt(l, r, i);
    assert At(l, i) != At(r, i);
  }

  lemma LessTransitive(a: seq<nat>, b: seq<nat>, c: seq<nat>)
    requires Less(a, b) || Same(a, b)
    requires Less(b, c) || Same(b, c)
    ensures Same(a, b) && Same(b, c) ==> Same(a, c)
    ensures Less(a, b) || Less(b, c) ==> Less(a, c)
  {
    if Less(a, b) && Less(b, c) {
      var i: nat :| LessAt(a, b, i);
      var k: nat :| LessAt(b, c, k);
      assert LessAt(a, c, if i < k then i else k);
    } else if Less(a, b) {
      var i: nat :| LessAt(a, b, i);
      assert LessAt(a, c, i);
    } else if Less(b, c) {
      var k: nat :| LessAt(b, c, k);
      assert LessAt(a, c, k);
    }
  }

  /** `left` is no newer than `right`, both being readable versions. */
  predicate NotNewer(left: string, right: string) {
    Compare(left, right).Some? && Compare(left, right).value <= 0
  }

  /** `left` is strictly older than `right`. */
  predicate Older(left: string, right: string) {
    Compare(left, right) == Some(-1)
  }

  /** The comparison is a total preorder on the readable versions, whatever their lengths, and it
      answers exactly on those. */
  lemma CompareIsTotalPreorder(a: string, b: string, c: string)
    ensures Compare(a, b).Some? <==> Parseable(a) && Parseable(b)
    ensures Parseable(a) ==> Compare(a, a) == Some(0)
    ensures Compare(a, b).Some? ==> Compare(b, a) == Some(-Compare(a, b).value)
    ensures NotNewer(a, b) && NotNewer(b, c) ==> NotNewer(a, c)
    ensures NotNewer(a, b) && NotNewer(b, c) ==>
              (Compare(a, c) == Some(0) <==> Compare(a, b) == Some(0) && Compare(b, c) == Some(0))
  {
    if Parseable(a) {
      CompareDecides(Parse(a).value, Parse(a).value, 0);
      if Parseable(b) {
        CompareDecides(Parse(a).value, Parse(b).value, 0);
        CompareDecides(Parse(b).value, Parse(a).value, 0);
        if Parseable(c) {
          CompareDecides(Parse(b).value, Parse(c).value, 0);
          CompareDecides(Parse(a).value, Parse(c).value, 0);
          if NotNewer(a, b) && NotNewer(b, c) {
            LessTransitive(Parse(a).value, Parse(b).value, Parse(c).value);
            if Less(Parse(a).value, Parse(c).value) { LessExcludes(Parse(a).value, Parse(c).value); }
          }
        }
      }
    }
  }
}
