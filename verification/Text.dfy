/** Decimal numbers and separated text, as Rust's standard library prints, parses, splits and joins them. */
module Text {
  import opened Wrappers

  // ---------------------------------------------------------------------
  // Numbers

  predicate IsDigit(c: char) {
    '0' <= c <= '9'
  }

  function DigitOf(c: char): nat
    requires IsDigit(c)
  {
    c as int - '0' as int
  }

  function CharOf(d: nat): (c: char)
    requires d < 10
    ensures IsDigit(c) && DigitOf(c) == d
  {
    ('0' as int + d) as char
  }

  predicate AllDigits(s: string) {
    forall k :: 0 <= k < |s| ==> IsDigit(s[k])
  }

  /** The number a string of digits denotes. */
  function Value(s: string): nat
    requires AllDigits(s)
  {
    if s == [] then 0 else 10 * Value(s[..|s| - 1]) + DigitOf(s[|s| - 1])
  }

  /** `format!("{n}")`. */
  function Show(n: nat): (s: string)
    ensures s != [] && AllDigits(s)
  {
    if n < 10 then [CharOf(n)] else Show(n / 10) + [CharOf(n % 10)]
  }

  /** `str::parse` into an unsigned type with largest value `max`: an optional plus sign, then digits. */
  function ParseUnsigned(s: string, max: nat): (r: Option<nat>)
    ensures r.Some? ==> r.value <= max
  {
    var digits := if |s| > 1 && s[0] == '+' then s[1..] else s;
    if digits == [] || !AllDigits(digits) || Value(digits) > max then None else Some(Value(digits))
  }

  lemma {:induction false} ValueOfShow(n: nat)
    ensures Value(Show(n)) == n
  {
    if n >= 10 {
      ValueOfShow(n / 10);
      var s := Show(n);
      assert s[..|s| - 1] == Show(n / 10);
    }
  }

  /** What is printed is parsed back. */
  lemma ParseShow(n: nat, max: nat)
    requires n <= max
    ensures ParseUnsigned(Show(n), max) == Some(n)
  {
    ValueOfShow(n);
    assert IsDigit(Show(n)[0]);
  }

  /** No number is printed with a superfluous zero in front. */
  lemma {:induction false} ShowStartsClean(n: nat)
    ensures |Show(n)| == 1 || Show(n)[0] != '0'
  {
    if n >= 10 {
      ShowStartsClean(n / 10);
      if n / 10 < 10 {
        assert DigitOf(Show(n)[0]) == n / 10 > 0;
      }
    }
  }

  /** A digit string without superfluous zeros is the printed form of its value. */
  lemma {:induction false} ShowOfValue(s: string)
    requires s != [] && AllDigits(s) && (|s| == 1 || s[0] != '0')
    ensures Show(Value(s)) == s
    ensures |s| > 1 ==> Value(s) >= 10
    decreases |s|
  {
    var front, last := s[..|s| - 1], s[|s| - 1];
    assert CharOf(DigitOf(last)) == last;
    if |s| == 1 {
      assert Value(front) == 0;
    } else {
      ShowOfValue(front);
      if |front| == 1 {
        assert Value(front) == DigitOf(s[0]) > 0;
      }
      assert s == front + [last];
    }
  }

  // ---------------------------------------------------------------------
  // Which texts are numbers

  function Zeros(k: nat): string {
    if k == 0 then [] else ['0'] + Zeros(k - 1)
  }

  /** A number as text: perhaps a plus sign, any zeros, and its printed form. */
  function Numeral(plus: bool, zeros: nat, n: nat): string {
    (if plus then ['+'] else []) + (Zeros(zeros) + Show(n))
  }

  lemma {:induction false} ZeroInFront(d: string)
    requires AllDigits(d)
    ensures AllDigits(['0'] + d) && Value(['0'] + d) == Value(d)
    decreases |d|
  {
    var s := ['0'] + d;
    if d == [] {
      assert s[..0] == [];
    } else {
      ZeroInFront(d[..|d| - 1]);
      assert s[..|s| - 1] == ['0'] + d[..|d| - 1];
    }
  }

  lemma {:induction false} ZerosInFront(k: nat, d: string)
    requires AllDigits(d)
    ensures AllDigits(Zeros(k) + d) && Value(Zeros(k) + d) == Value(d)
  {
    if k == 0 {
      assert Zeros(0) + d == d;
    } else {
      ZerosInFront(k - 1, d);
      ZeroInFront(Zeros(k - 1) + d);
      assert Zeros(k) + d == ['0'] + (Zeros(k - 1) + d);
    }
  }

  /** Every digit string is some zeros and the printed form of its value. */
  lemma {:induction false} DigitsAreNumeral(d: string) returns (zeros: nat)
    requires d != [] && AllDigits(d)
    ensures d == Zeros(zeros) + Show(Value(d))
    decreases |d|
  {
    if |d| == 1 || d[0] != '0' {
      ShowOfValue(d);
      zeros := 0;
      assert Zeros(0) + d == d;
    } else {
      var rest := DigitsAreNumeral(d[1..]);
      ZeroInFront(d[1..]);
      assert d == ['0'] + d[1..];
      zeros := rest + 1;
      assert Zeros(zeros) + Show(Value(d)) == ['0'] + (Zeros(rest) + Show(Value(d)));
    }
  }

  lemma NumeralParses(plus: bool, zeros: nat, n: nat, max: nat)
    requires n <= max
    ensures ParseUnsigned(Numeral(plus, zeros, n), max) == Some(n)
  {
    var d, s := Zeros(zeros) + Show(n), Numeral(plus, zeros, n);
    ValueOfShow(n);
    ZerosInFront(zeros, Show(n));
    assert IsDigit(d[0]);
    if plus {
      assert s[0] == '+' && s[1..] == d;
    } else {
      assert s == d;
    }
  }

  /** Text parses as a number of the type exactly if it is a numeral of one in its range. */
  lemma ParsesExactly(s: string, max: nat, n: nat)
    ensures ParseUnsigned(s, max) == Some(n) <==> n <= max && exists plus, zeros :: s == Numeral(plus, zeros, n)
  {
    if ParseUnsigned(s, max) == Some(n) {
      var plus := |s| > 1 && s[0] == '+';
      var d := if plus then s[1..] else s;
      var zeros := DigitsAreNumeral(d);
      assert s == Numeral(plus, zeros, n);
    }
    if plus: bool, zeros: nat :| n <= max && s == Numeral(plus, zeros, n) {
      NumeralParses(plus, zeros, n, max);
    }
  }

  /** An octet prints in at most three digits. */
  lemma OctetWidth(n: nat)
    requires n < 1000
    ensures |Show(n)| <= 3
  {
    assert |Show(n / 10 / 10)| == 1;
    assert |Show(n / 10)| <= 2;
  }

  // ---------------------------------------------------------------------
  // Splitting

  /** `str::split`. */
  function Split(s: string, c: char): (parts: seq<string>)
    ensures |parts| >= 1
    ensures forall k :: 0 <= k < |parts| ==> c !in parts[k]
  {
    if s == [] then [[]]
    else
      var rest := Split(s[1..], c);
      if s[0] == c then [[]] + rest else [[s[0]] + rest[0]] + rest[1..]
  }

  /** The parts with the separator between them. */
  function Join(parts: seq<string>, separator: string): string
    requires |parts| >= 1
  {
    if |parts| == 1 then parts[0] else parts[0] + separator + Join(parts[1..], separator)
  }

  /** Splitting takes apart what joining puts together... */
  lemma {:induction false} SplitJoin(parts: seq<string>, c: char)
    requires |parts| >= 1 && forall k :: 0 <= k < |parts| ==> c !in parts[k]
    ensures Split(Join(parts, [c]), c) == parts
    decreases |parts|
  {
    if |parts| == 1 {
      SplitWhole(parts[0], c);
      assert parts == [parts[0]];
    } else {
      SplitJoin(parts[1..], c);
      SplitFirst(parts[0], Join(parts[1..], [c]), c);
      assert parts[0] + [c] + Join(parts[1..], [c]) == parts[0] + ([c] + Join(parts[1..], [c]));
      assert parts == [parts[0]] + parts[1..];
    }
  }

  lemma {:induction false} SplitWhole(s: string, c: char)
    requires c !in s
    ensures Split(s, c) == [s]
    decreases |s|
  {
    if s != [] {
      SplitWhole(s[1..], c);
      assert s == [s[0]] + s[1..];
    }
  }

  lemma {:induction false} SplitFirst(s: string, rest: string, c: char)
    requires c !in s
    ensures Split(s + ([c] + rest), c) == [s] + Split(rest, c)
    decreases |s|
  {
    var all := s + ([c] + rest);
    if s == [] {
      assert all[0] == c && all[1..] == rest;
    } else {
      assert all[0] == s[0] && all[1..] == s[1..] + ([c] + rest);
      SplitFirst(s[1..], rest, c);
      assert s == [s[0]] + s[1..];
      assert ([s[1..]] + Split(rest, c))[1..] == Split(rest, c);
    }
  }

  /** ... and joining puts together what splitting took apart. */
  lemma {:induction false} JoinSplit(s: string, c: char)
    ensures Join(Split(s, c), [c]) == s
    decreases |s|
  {
    if s != [] {
      var rest := Split(s[1..], c);
      JoinSplit(s[1..], c);
      assert s == [s[0]] + s[1..];
      if s[0] == c {
        assert ([[]] + rest)[1..] == rest;
        assert [] + [c] + s[1..] == s;
      } else if |rest| > 1 {
        assert Split(s, c)[1..] == rest[1..];
        assert ([s[0]] + rest[0]) + [c] + Join(rest[1..], [c]) == [s[0]] + (rest[0] + [c] + Join(rest[1..], [c]));
      }
    }
  }

  /** `str::split_once`: the text before the first separator and the text behind it. */
  function SplitOnce(s: string, c: char): Option<(string, string)> {
    if s == [] then None
    else if s[0] == c then Some(([], s[1..]))
    else
      match SplitOnce(s[1..], c)
      case None => None
      case Some(pair) => Some(([s[0]] + pair.0, pair.1))
  }

  /** The text is cut at its first separator, if it has one. */
  lemma {:induction false} SplitOnceExactly(s: string, c: char)
    ensures SplitOnce(s, c).None? <==> c !in s
    ensures forall a, b :: SplitOnce(s, c) == Some((a, b)) <==> c !in a && s == a + ([c] + b)
    decreases |s|
  {
    if s != [] && s[0] != c {
      SplitOnceExactly(s[1..], c);
    }
    forall a: string, b: string | c !in a && s == a + ([c] + b)
      ensures SplitOnce(s, c) == Some((a, b))
    {
      SplitOnceFirst(a, b, c);
    }
    if SplitOnce(s, c).Some? {
      SplitOnceCuts(s, c);
    }
  }

  lemma {:induction false} SplitOnceCuts(s: string, c: char)
    requires SplitOnce(s, c).Some?
    ensures var pair := SplitOnce(s, c).value; c !in pair.0 && s == pair.0 + ([c] + pair.1)
    decreases |s|
  {
    if s[0] == c {
      assert s == [] + ([c] + s[1..]);
    } else {
      SplitOnceCuts(s[1..], c);
    }
  }

  lemma {:induction false} SplitOnceFirst(s: string, rest: string, c: char)
    requires c !in s
    ensures SplitOnce(s + ([c] + rest), c) == Some((s, rest))
    decreases |s|
  {
    var all := s + ([c] + rest);
    if s == [] {
      assert all[0] == c && all[1..] == rest;
    } else {
      assert all[0] == s[0] && all[1..] == s[1..] + ([c] + rest);
      SplitOnceFirst(s[1..], rest, c);
      assert s == [s[0]] + s[1..];
    }
  }
}
