/** Masks, prefixes and CIDR text: `netmask_to_prefix`, `prefix_to_netmask`, `split_cidr`, `network_cidr`, and the
    netmask the C side writes for a SUBNETMASK header.

    The contiguity test of `netmask_to_prefix` accepts a four-octet mask exactly when it is zero or starts with at
    least sixteen ones (`TestIs`), so the round trip with `prefix_to_netmask` holds exactly for the lengths 0 and 16
    to 32 (`RoundTripExactly`), and some masks with holes are accepted (`RightExactly`). */
module Netmask {
  import opened Wrappers
  import opened Text
  import opened Bits

  datatype RouteError = BadNetmask | NonContiguous | BadCidr

  // ---------------------------------------------------------------------
  // IPv4 addresses as text

  /** Four octets, most significant first. */
  function OctetsOf(n: nat): (octets: seq<nat>)
    requires n < WORD_LIMIT
    ensures |octets| == 4 && forall k :: 0 <= k < 4 ==> octets[k] < 256
  {
    [n / 0x100_0000, n / 0x1_0000 % 256, n / 256 % 256, n % 256]
  }

  /** The number written with these digits in base 256. */
  function Base256(octets: seq<nat>): nat {
    if octets == [] then 0 else 256 * Base256(octets[..|octets| - 1]) + octets[|octets| - 1]
  }

  function ShowAll(octets: seq<nat>): (parts: seq<string>)
    ensures |parts| == |octets|
    ensures forall k :: 0 <= k < |parts| ==> parts[k] == Show(octets[k])
  {
    if octets == [] then [] else ShowAll(octets[..|octets| - 1]) + [Show(octets[|octets| - 1])]
  }

  /** `Ipv4Addr`'s `Display`, and `inet_ntop`. */
  function ShowIpv4(n: nat): string
    requires n < WORD_LIMIT
  {
    Join(ShowAll(OctetsOf(n)), ['.'])
  }

  /** An octet of `Ipv4Addr::from_str`: at most three digits and no superfluous zero in front. */
  function StrictOctet(s: string): Option<nat> {
    if 1 <= |s| <= 3 && AllDigits(s) && (|s| == 1 || s[0] != '0') && Value(s) < 256 then Some(Value(s)) else None
  }

  /** `Ipv4Addr::from_str`. */
  function ParseIpv4(s: string): Option<nat> {
    var parts := Split(s, '.');
    if |parts| == 4 && forall k :: 0 <= k < 4 ==> StrictOctet(parts[k]).Some? then
      Some(Base256([StrictOctet(parts[0]).value, StrictOctet(parts[1]).value,
                    StrictOctet(parts[2]).value, StrictOctet(parts[3]).value]))
    else None
  }

  lemma Base256Of4(o: seq<nat>)
    requires |o| == 4
    ensures Base256(o) == o[0] * 0x100_0000 + o[1] * 0x1_0000 + o[2] * 256 + o[3]
  {
    assert o[..3][..2] == o[..2] && o[..2][..1] == o[..1] && o[..1][..0] == [];
    assert Base256(o[..1]) == o[0];
    assert Base256(o[..2]) == 256 * o[0] + o[1];
    assert Base256(o[..3]) == 256 * (256 * o[0] + o[1]) + o[2];
  }

  lemma OctetsRoundTrip(n: nat)
    requires n < WORD_LIMIT
    ensures Base256(OctetsOf(n)) == n
  {
    Base256Of4(OctetsOf(n));
    hide Base256;
    var b := n / 256;
    var c := b / 256;
    assert n == 256 * b + n % 256 && b == 256 * c + b % 256;
    DivisionIs(n, 0x1_0000, c, 256 * (b % 256) + n % 256);
    DivisionIs(n, 0x100_0000, c / 256, 0x1_0000 * (c % 256) + 256 * (b % 256) + n % 256);
  }

  lemma DigitsHaveNo(s: string, c: char)
    requires AllDigits(s) && !IsDigit(c)
    ensures c !in s
  {
  }

  lemma SplitShown(octets: seq<nat>)
    requires |octets| >= 1
    ensures Split(Join(ShowAll(octets), ['.']), '.') == ShowAll(octets)
  {
    var parts := ShowAll(octets);
    forall k | 0 <= k < |parts|
      ensures '.' !in parts[k]
    {
      DigitsHaveNo(parts[k], '.');
    }
    SplitJoin(parts, '.');
  }

  lemma ShownIsStrict(n: nat)
    requires n < 256
    ensures StrictOctet(Show(n)) == Some(n)
  {
    ValueOfShow(n);
    ShowStartsClean(n);
    OctetWidth(n);
  }

  /** An address is read back from its printed form... */
  lemma ParseShowIpv4(n: nat)
    requires n < WORD_LIMIT
    ensures ParseIpv4(ShowIpv4(n)) == Some(n)
  {
    var octets := OctetsOf(n);
    SplitShown(octets);
    forall k | 0 <= k < 4
      ensures StrictOctet(ShowAll(octets)[k]) == Some(octets[k])
    {
      ShownIsStrict(octets[k]);
    }
    OctetsRoundTrip(n);
    assert octets == [octets[0], octets[1], octets[2], octets[3]];
  }

  /** ... and only from it: each address has one textual form. */
  lemma ShowParseIpv4(s: string)
    requires ParseIpv4(s).Some?
    ensures ParseIpv4(s).value < WORD_LIMIT
    ensures ShowIpv4(ParseIpv4(s).value) == s
  {
    var parts := Split(s, '.');
    var octets := [StrictOctet(parts[0]).value, StrictOctet(parts[1]).value,
                   StrictOctet(parts[2]).value, StrictOctet(parts[3]).value];
    Base256Of4(octets);
    var n := Base256(octets);
    SameOctets(octets);
    forall k | 0 <= k < 4
      ensures ShowAll(octets)[k] == parts[k]
    {
      assert StrictOctet(parts[k]) == Some(octets[k]);
      ShowOfValue(parts[k]);
    }
    assert ShowAll(octets) == parts;
    JoinSplit(s, '.');
  }

  lemma SameOctets(o: seq<nat>)
    requires |o| == 4 && forall k :: 0 <= k < 4 ==> o[k] < 256
    ensures Base256(o) < WORD_LIMIT && OctetsOf(Base256(o)) == o
  {
    Base256Of4(o);
    var n := Base256(o);
    hide Base256;
    var low := 256 * o[2] + o[3];
    DivisionIs(n, 256, 0x1_0000 * o[0] + 256 * o[1] + o[2], o[3]);
    DivisionIs(n, 0x1_0000, 256 * o[0] + o[1], low);
    DivisionIs(n, 0x100_0000, o[0], 0x1_0000 * o[1] + low);
    DivisionIs(n / 256, 256, 256 * o[0] + o[1], o[2]);
    DivisionIs(n / 0x1_0000, 256, o[0], o[1]);
  }

  // ---------------------------------------------------------------------
  // From masks to prefixes

  /** The mask with `p` leading ones. */
  function MaskOf(p: nat): (m: nat)
    requires p <= WORD_BITS
    ensures m < WORD_LIMIT
  {
    Pow2Grows(WORD_BITS - p, WORD_BITS);
    WordPowers();
    WORD_LIMIT - Pow2(WORD_BITS - p)
  }

  predicate Contiguous(x: nat) {
    exists p :: 0 <= p <= WORD_BITS && x == MaskOf(p)
  }

  /** All parts as `u8`, if all of them parse. */
  function ParseOctets(parts: seq<string>): (r: Option<seq<nat>>)
    ensures r.Some? ==> |r.value| == |parts| && forall k :: 0 <= k < |parts| ==> r.value[k] < 256
    ensures r.Some? <==> forall k :: 0 <= k < |parts| ==> ParseUnsigned(parts[k], 255).Some?
    ensures r.Some? ==> forall k :: 0 <= k < |parts| ==> ParseUnsigned(parts[k], 255) == Some(r.value[k])
  {
    if parts == [] then Some([])
    else
      match (ParseOctets(parts[..|parts| - 1]), ParseUnsigned(parts[|parts| - 1], 255))
      case (Some(front), Some(last)) => Some(front + [last])
      case _ => None
  }

  /** The word a dotted mask denotes. */
  function MaskWord(netmask: string): (r: Option<nat>)
    ensures r.Some? ==> r.value < WORD_LIMIT
  {
    match ParseOctets(Split(netmask, '.'))
    case Some(octets) => if |octets| == 4 then SameOctets(octets); Some(Base256(octets)) else None
    case None => None
  }

  /** What `netmask_to_prefix` answers. */
  function PrefixOf(netmask: string): Result<nat, RouteError> {
    var number := ParseUnsigned(netmask, 255);
    if number.Some? && number.value <= 32 then Success(number.value)
    else
      match MaskWord(netmask)
      case None => Failure(BadNetmask)
      case Some(bits) =>
        if bits == 0 || LeadingOnes(bits) >= 16 then Success(LeadingOnes(bits)) else Failure(NonContiguous)
  }

  /** The contiguity test: a set bit in every position that is not among the low `prefix` ones. */
  predicate PassesTest(bits: nat, prefix: nat)
    requires prefix <= WORD_BITS
  {
    OneShifted(prefix);
    Or(bits, Shl(1, prefix) - 1) == ALL_ONES
  }

  method CombineOctets(octets: seq<nat>) returns (bits: nat)
    requires |octets| == 4 && forall k :: 0 <= k < 4 ==> octets[k] < 256
    ensures bits == Base256(octets)
  {
    bits := 0;
    for i := 0 to 4
      invariant bits == Base256(octets[..i]) * Pow2(32 - 8 * i)
    {
      AddOctet(octets, i);
      bits := Or(bits, Shl(octets[i], 24 - 8 * i));
    }
    assert octets[..4] == octets;
  }

  method NetmaskToPrefix(netmask: string) returns (r: Result<nat, RouteError>)
    ensures r == PrefixOf(netmask)
  {
    var number := ParseUnsigned(netmask, 255);
    if number.Some? && number.value <= 32 {
      return Success(number.value);
    }
    var octets := ParseOctets(Split(netmask, '.'));
    if octets.None? || |octets.value| != 4 {
      return Failure(BadNetmask);
    }
    SameOctets(octets.value);
    var bits := CombineOctets(octets.value);
    if bits == 0 {
      ZeroHasNoOnes();
      return Success(0);
    }
    WordPowers();
    var prefix := LeadingZeros(Not(bits), WORD_BITS);
    TestIs(bits);
    hide PassesTest;
    if !PassesTest(bits, prefix) {
      return Failure(NonContiguous);
    }
    return Success(prefix);
  }

  lemma ZeroHasNoOnes()
    ensures LeadingOnes(0) == 0
  {
    LeadingOnesAre(0);
    ShrDivides(0, WORD_BITS - LeadingOnes(0));
    assert Pow2(LeadingOnes(0)) == 1;
  }

  /** One more octet is or-ed in below the ones already there. */
  lemma AddOctet(octets: seq<nat>, i: nat)
    requires |octets| == 4 && i < 4 && forall k :: 0 <= k < 4 ==> octets[k] < 256
    ensures Or(Base256(octets[..i]) * Pow2(32 - 8 * i), Shl(octets[i], 24 - 8 * i))
            == Base256(octets[..i + 1]) * Pow2(32 - 8 * (i + 1))
  {
    var a, k := Base256(octets[..i]), 24 - 8 * i;
    WordPowers();
    Pow2Adds(8, k);
    Pow2Grows(k, 24);
    assert Pow2(32 - 8 * i) == 256 * Pow2(k);
    assert octets[..i + 1][..i] == octets[..i];
    OctetShifts(octets[i], k);
    OrIntoClear(a, octets[i] * Pow2(k), 8 + k);
    Factor(a, octets[i], Pow2(k));
  }

  lemma Factor(a: nat, o: nat, d: nat)
    ensures a * (256 * d) + o * d == (256 * a + o) * d
  {
  }

  lemma OctetShifts(o: nat, k: nat)
    requires o < 256 && k <= 24
    ensures o * Pow2(k) < Pow2(8 + k) && Shl(o, k) == o * Pow2(k)
  {
    WordPowers();
    Pow2Adds(8, k);
    Pow2Grows(8 + k, 32);
    hide Pow2;
    TimesGrows(o + 1, 256, Pow2(k));
    assert (o + 1) * Pow2(k) == o * Pow2(k) + Pow2(k);
    SmallShift(o, k);
  }

  lemma SmallShift(x: nat, k: nat)
    requires k < WORD_BITS && x * Pow2(k) < WORD_LIMIT
    ensures Shl(x, k) == x * Pow2(k)
  {
    hide Pow2;
    assert k % WORD_BITS == k;
    Untruncated(x * Pow2(k));
  }

  lemma Untruncated(x: nat)
    requires x < WORD_LIMIT
    ensures x % WORD_LIMIT == x
  {
  }

  /** `1 << k`, with the shift count wrapping at 32. */
  lemma OneShifted(k: nat)
    requires k <= WORD_BITS
    ensures Shl(1, k) == if k == WORD_BITS then 1 else Pow2(k)
  {
    if k < WORD_BITS {
      WordPowers();
      Pow2Grows(k + 1, WORD_BITS);
      assert Pow2(k + 1) == 2 * Pow2(k);
      hide Pow2, Shl;
      assert 1 * Pow2(k) == Pow2(k);
      SmallShift(1, k);
    }
  }

  /** Or-ing `k` low ones into a word fills it exactly when the remaining high bits are all ones. */
  lemma FillsWord(bits: nat, k: nat)
    requires bits < WORD_LIMIT && k <= WORD_BITS
    ensures Or(bits, Pow2(k) - 1) == ALL_ONES <==> Shr(bits, k) == Pow2(WORD_BITS - k) - 1
  {
    WordPowers();
    Pow2Adds(WORD_BITS - k, k);
    OrLowMask(bits, k);
    hide Or, Shr, Pow2;
    CancelFactor(Shr(bits, k), Pow2(WORD_BITS - k) - 1, Pow2(k));
    assert (Pow2(WORD_BITS - k) - 1) * Pow2(k) == Pow2(WORD_BITS - k) * Pow2(k) - Pow2(k);
  }

  lemma CancelFactor(a: nat, b: nat, d: nat)
    requires d > 0
    ensures a * d == b * d <==> a == b
  {
  }

  /** The contiguity test passes exactly when at least sixteen leading bits are ones. */
  lemma TestIs(bits: nat)
    requires 0 < bits < WORD_LIMIT
    ensures PassesTest(bits, LeadingOnes(bits)) <==> LeadingOnes(bits) >= 16
  {
    var p := LeadingOnes(bits);
    LeadingOnesAre(bits);
    OneShifted(p);
    hide Or, Shr, Shl, LeadingOnes;
    WordPowers();
    if p == WORD_BITS {
      assert Shr(bits, 0) == bits by { ShrNothing(bits); }
      OrNothing(bits);
    } else {
      FillsWord(bits, p);
      if p >= 16 {
        FewerOnes(bits, p, WORD_BITS - p);
      } else if Shr(bits, p) == Pow2(WORD_BITS - p) - 1 {
        FewerOnes(bits, WORD_BITS - p, p + 1);
      }
    }
  }

  lemma ShrNothing(x: nat)
    ensures Shr(x, 0) == x
  {
  }

  lemma OrNothing(x: nat)
    ensures Or(x, 0) == x
  {
  }

  // ---------------------------------------------------------------------
  // From prefixes to masks

  /** `prefix_to_netmask`. */
  function PrefixToNetmask(prefix: nat): string {
    if prefix == 0 then "0.0.0.0"
    else if prefix <= 32 then
      var bits := Shl(ALL_ONES, 32 - prefix);
      Join([Show(Shr(bits, 24)), Show(And(Shr(bits, 16), 0xff)), Show(And(Shr(bits, 8), 0xff)),
            Show(And(bits, 0xff))], ['.'])
    else "255.255.255.255"
  }

  /** The netmask option for a SUBNETMASK header with this number. */
  function SubnetMaskOption(masklen: nat): string
    requires masklen <= 32
  {
    ShowIpv4(if masklen != 0 then Shl(ALL_ONES, 32 - masklen) else 0)
  }

  lemma OnesShifted(p: nat)
    requires 1 <= p <= WORD_BITS
    ensures Shl(ALL_ONES, WORD_BITS - p) == MaskOf(p)
  {
  }

  /** Both sides print the mask with that many leading ones; longer prefixes print as the mask of all ones. */
  lemma PrintedMask(p: nat)
    ensures p <= 32 ==> PrefixToNetmask(p) == ShowIpv4(MaskOf(p)) == SubnetMaskOption(p)
    ensures p > 32 ==> PrefixToNetmask(p) == ShowIpv4(MaskOf(32))
  {
    WordPowers();
    if p == 0 {
      assert OctetsOf(0) == [0, 0, 0, 0];
      ZerosPrinted();
    } else if p > 32 {
      assert MaskOf(32) == ALL_ONES && OctetsOf(ALL_ONES) == [255, 255, 255, 255];
      OnesPrinted();
    } else {
      OnesShifted(p);
      ShiftedOctets(MaskOf(p));
    }
  }

  lemma ZerosPrinted()
    ensures Join(ShowAll([0, 0, 0, 0]), ['.']) == "0.0.0.0"
  {
  }

  lemma OnesPrinted()
    ensures Join(ShowAll([255, 255, 255, 255]), ['.']) == "255.255.255.255"
  {
    var parts := ShowAll([255, 255, 255, 255]);
    assert Show(2) == "2" && Show(25) == "25" && Show(255) == "255";
    assert parts == ["255", "255", "255", "255"];
    hide Show;
    assert parts[1..] == ["255", "255", "255"] && parts[1..][1..] == ["255", "255"] && parts[1..][1..][1..] == ["255"];
    assert Join(parts[1..][1..], ['.']) == "255.255";
    assert Join(parts[1..], ['.']) == "255.255.255";
  }

  /** Octets by shifting and masking. */
  lemma ShiftedOctets(n: nat)
    requires n < WORD_LIMIT
    ensures [Show(Shr(n, 24)), Show(And(Shr(n, 16), 0xff)), Show(And(Shr(n, 8), 0xff)), Show(And(n, 0xff))]
            == ShowAll(OctetsOf(n))
  {
    WordPowers();
    ShrDivides(n, 24);
    ShrDivides(n, 16);
    ShrDivides(n, 8);
    AndLowMask(Shr(n, 16), 8);
    AndLowMask(Shr(n, 8), 8);
    AndLowMask(n, 8);
  }

  /** Text with a dot is no number. */
  lemma DottedIsNoNumber(parts: seq<string>, max: nat)
    requires |parts| == 4 && forall k :: 0 <= k < 4 ==> parts[k] != [] && IsDigit(parts[k][0])
    ensures ParseUnsigned(Join(parts, ['.']), max).None?
  {
    var s, dot := Join(parts, ['.']), |parts[0]|;
    assert s == parts[0] + ['.'] + Join(parts[1..], ['.']);
    assert s[dot] == '.' && s[0] == parts[0][0];
    assert !IsDigit('.');
  }

  /** A printed word is read back by the mask parser. */
  lemma MaskWordOfShown(n: nat)
    requires n < WORD_LIMIT
    ensures MaskWord(ShowIpv4(n)) == Some(n)
    ensures ParseUnsigned(ShowIpv4(n), 255).None?
  {
    var octets := OctetsOf(n);
    var parts := ShowAll(octets);
    SplitShown(octets);
    forall k | 0 <= k < 4
      ensures ParseUnsigned(parts[k], 255) == Some(octets[k])
    {
      ParseShow(octets[k], 255);
    }
    assert ParseOctets(parts).Some? && ParseOctets(parts).value == octets;
    OctetsRoundTrip(n);
    DottedIsNoNumber(parts, 255);
  }

  /** Printing a prefix as a mask and reading it back works exactly for the lengths 0 and 16 to 32; every other
      length up to 32 ends in an error, and longer ones come back as 32.  The same holds for the mask of a SUBNETMASK
      header. */
  lemma RoundTripExactly(p: nat)
    ensures PrefixOf(PrefixToNetmask(p)) == if p > 32 then Success(32)
                                            else if p == 0 || p >= 16 then Success(p)
                                            else Failure(NonContiguous)
    ensures p <= 32 ==> PrefixOf(SubnetMaskOption(p)) == PrefixOf(PrefixToNetmask(p))
  {
    var q := if p > 32 then 32 else p;
    PrintedMask(p);
    MaskWordOfShown(MaskOf(q));
    LeadingOnesOfMask(q, MaskOf(q));
    hide PrefixToNetmask, MaskWord, LeadingOnes, ShowIpv4;
    WordPowers();
    if q != 0 {
      MaskIsPositive(q);
    }
  }

  lemma MaskIsPositive(p: nat)
    requires 1 <= p <= 32
    ensures MaskOf(p) > 0
  {
    WordPowers();
    Pow2Grows(WORD_BITS - p, WORD_BITS - 1);
  }

  /** A plain number up to 32 is the answer itself. */
  lemma NumberIsPrefix(plus: bool, zeros: nat, n: nat)
    requires n <= 32
    ensures PrefixOf(Numeral(plus, zeros, n)) == Success(n)
  {
    NumeralParses(plus, zeros, n, 255);
  }

  /** Four texts without dots that parse as octets. */
  ghost predicate OctetTexts(texts: seq<string>, octets: seq<nat>) {
    && |texts| == |octets| == 4
    && forall k :: 0 <= k < 4 ==> '.' !in texts[k] && ParseUnsigned(texts[k], 255) == Some(octets[k])
  }

  function WordOf(octets: seq<nat>): nat
    requires |octets| == 4
  {
    octets[0] * 0x100_0000 + octets[1] * 0x1_0000 + octets[2] * 256 + octets[3]
  }

  lemma DottedMask(texts: seq<string>, octets: seq<nat>)
    requires OctetTexts(texts, octets)
    ensures MaskWord(Join(texts, ['.'])) == Some(WordOf(octets))
  {
    hide ParseUnsigned, Join, Split;
    SplitJoin(texts, '.');
    assert ParseOctets(texts).Some? && ParseOctets(texts).value == octets;
    Base256Of4(octets);
    hide Base256;
  }

  lemma MaskIsDotted(netmask: string) returns (texts: seq<string>, octets: seq<nat>)
    requires MaskWord(netmask).Some?
    ensures OctetTexts(texts, octets) && netmask == Join(texts, ['.']) && MaskWord(netmask).value == WordOf(octets)
  {
    hide ParseUnsigned, Join, Split;
    texts := Split(netmask, '.');
    octets := ParseOctets(texts).value;
    JoinSplit(netmask, '.');
    Base256Of4(octets);
    hide Base256;
  }

  /** A text denotes a word as a mask exactly if it is four octets with dots between them. */
  lemma MaskWordExactly(netmask: string, bits: nat)
    ensures MaskWord(netmask) == Some(bits)
            <==> exists texts, octets ::
                   OctetTexts(texts, octets) && netmask == Join(texts, ['.']) && bits == WordOf(octets)
  {
    hide ParseUnsigned, Join, MaskWord;
    forall texts, octets | OctetTexts(texts, octets) && netmask == Join(texts, ['.']) && bits == WordOf(octets)
      ensures MaskWord(netmask) == Some(bits)
    {
      DottedMask(texts, octets);
    }
    if MaskWord(netmask) == Some(bits) {
      var texts, octets := MaskIsDotted(netmask);
    }
  }

  /** Text is refused as no netmask at all exactly if it is neither a number up to 32 nor four octets. */
  lemma BadNetmaskExactly(netmask: string)
    ensures PrefixOf(netmask) == Failure(BadNetmask)
            <==> && (forall plus, zeros, n :: n <= 32 ==> netmask != Numeral(plus, zeros, n))
                 && forall texts, octets :: OctetTexts(texts, octets) ==> netmask != Join(texts, ['.'])
  {
    var number := ParseUnsigned(netmask, 255);
    forall plus, zeros, n | n <= 32 && netmask == Numeral(plus, zeros, n)
      ensures number == Some(n)
    {
      NumeralParses(plus, zeros, n, 255);
    }
    if number.Some? && number.value <= 32 {
      ParsesExactly(netmask, 255, number.value);
    }
    hide ParseUnsigned, Numeral, Join, MaskWord;
    forall texts, octets | OctetTexts(texts, octets) && netmask == Join(texts, ['.'])
      ensures MaskWord(netmask).Some?
    {
      DottedMask(texts, octets);
    }
    if MaskWord(netmask).Some? {
      var texts, octets := MaskIsDotted(netmask);
    }
  }

  /** The answer for a dotted mask is right exactly when the mask is zero, or has no holes and at least sixteen ones,
      or has holes and fewer than sixteen leading ones. */
  lemma RightExactly(netmask: string)
    requires MaskWord(netmask).Some? && ParseUnsigned(netmask, 255).None?
    ensures var bits := MaskWord(netmask).value;
            var ones := LeadingOnes(bits);
            (PrefixOf(netmask) == if Contiguous(bits) then Success(ones) else Failure(NonContiguous))
            <==> (bits == 0 || (Contiguous(bits) <==> ones >= 16))
  {
    if MaskWord(netmask).value == 0 {
      WordPowers();
      assert MaskOf(0) == 0;
      ZeroHasNoOnes();
    }
  }

  /** A mask with a hole that is accepted, and a mask without one that is rejected. */
  lemma WrongBothWays()
    ensures !Contiguous(0xFFFF_0001) && PrefixOf(ShowIpv4(0xFFFF_0001)) == Success(16)
    ensures Contiguous(0xFF00_0000) && PrefixOf(ShowIpv4(0xFF00_0000)) == Failure(NonContiguous)
  {
    WordPowers();
    MaskWordOfShown(0xFFFF_0001);
    LeadingOnesAreUnique(0xFFFF_0001, 16);
    MaskWordOfShown(0xFF00_0000);
    assert MaskOf(8) == 0xFF00_0000;
    LeadingOnesOfMask(8, 0xFF00_0000);
    if Contiguous(0xFFFF_0001) {
      var p :| 0 <= p <= WORD_BITS && 0xFFFF_0001 == MaskOf(p);
      LeadingOnesOfMask(p, 0xFFFF_0001);
      assert false;
    }
  }

  lemma LeadingOnesAreUnique(x: nat, p: nat)
    requires p < WORD_BITS && WORD_LIMIT - Pow2(WORD_BITS - p) <= x < WORD_LIMIT - Pow2(WORD_BITS - p - 1)
    ensures LeadingOnes(x) == p
  {
    WordPowers();
    LeadingZerosAre(Not(x), WORD_BITS);
    var q := LeadingOnes(x);
    if q < p {
      Pow2Grows(WORD_BITS - p, WORD_BITS - q - 1);
    } else if p < q {
      Pow2Grows(WORD_BITS - q, WORD_BITS - p - 1);
    }
  }

  /** Or-ing in `32 - prefix` low ones instead would accept every mask with a leading one, holes or not: the round
      trip would be complete, but nothing but masks without any leading one would be refused. */
  lemma OtherTestIs(bits: nat)
    requires 0 < bits < WORD_LIMIT
    ensures PassesTest(bits, WORD_BITS - LeadingOnes(bits)) <==> LeadingOnes(bits) >= 1
  {
    var p := LeadingOnes(bits);
    LeadingOnesAre(bits);
    OneShifted(WORD_BITS - p);
    FillsWord(bits, WORD_BITS - p);
    hide Or, Shr, Shl, LeadingOnes;
    if p == 0 {
      WordPowers();
      OrNothing(bits);
      ShrNothing(bits);
      ShrOnes(WORD_BITS, WORD_BITS - 1);
      assert Pow2(1) == 2;
    }
  }

  // ---------------------------------------------------------------------
  // CIDR text

  /** `split_cidr`. */
  function SplitCidr(cidr: string): Result<(string, string), RouteError> {
    match SplitOnce(cidr, '/')
    case None => Failure(BadCidr)
    case Some(pair) =>
      match ParseUnsigned(pair.1, 255)
      case None => Failure(BadCidr)
      case Some(prefix) => if prefix > 32 then Failure(BadCidr) else Success((pair.0, PrefixToNetmask(prefix)))
  }

  /** A CIDR is read exactly if it is a text without slash, a slash, and a number up to 32; the mask is the one with
      that many leading ones. */
  lemma SplitCidrExactly(cidr: string, net: string, mask: string)
    ensures SplitCidr(cidr) == Success((net, mask))
            <==> && '/' !in net
                 && exists plus, zeros, n ::
                      n <= 32 && cidr == net + (['/'] + Numeral(plus, zeros, n)) && mask == ShowIpv4(MaskOf(n))
  {
    SplitOnceExactly(cidr, '/');
    hide Split, SplitOnce, Join, Show, ShowIpv4, PrefixToNetmask, Numeral;
    if SplitCidr(cidr) == Success((net, mask)) {
      var n := ParseUnsigned(SplitOnce(cidr, '/').value.1, 255).value;
      ParsesExactly(SplitOnce(cidr, '/').value.1, 255, n);
      PrintedMask(n);
    }
    if plus: bool, zeros: nat, n: nat :|
      && '/' !in net && n <= 32 && cidr == net + (['/'] + Numeral(plus, zeros, n)) && mask == ShowIpv4(MaskOf(n))
    {
      NumeralParses(plus, zeros, n, 255);
      PrintedMask(n);
    }
  }

  /** The prefix length `network_cidr` uses: 32 for text that is no number or too large. */
  function PrefixBits(prefix: string): (bits: nat)
    ensures bits <= 32
  {
    match ParseUnsigned(prefix, ALL_ONES)
    case None => 32
    case Some(n) => if n < 32 then n else 32
  }

  function CidrText(ip: string, prefix: string): string {
    ip + (['/'] + prefix)
  }

  /** `network_cidr`. */
  function NetworkCidr(ip: string, prefix: string): string {
    var bits := PrefixBits(prefix);
    match ParseIpv4(ip)
    case None => CidrText(ip, prefix)
    case Some(host) =>
      ShowParseIpv4(ip);
      var mask := if bits == 0 then 0 else Shl(ALL_ONES, 32 - bits);
      Masked(host, bits);
      CidrText(ShowIpv4(And(host, mask)), Show(bits))
  }

  /** The network address: the host bits cleared. */
  function NetworkOf(host: nat, bits: nat): (net: nat)
    requires bits <= 32
    ensures net <= host < net + Pow2(32 - bits)
    ensures net % Pow2(32 - bits) == 0
  {
    FloorIs(host, Pow2(32 - bits));
    host - host % Pow2(32 - bits)
  }

  lemma FloorIs(x: nat, d: nat)
    requires d > 0
    ensures x / d * d == x - x % d && 0 <= x - x % d
    ensures (x - x % d) % d == 0
    ensures x % d < d
  {
    DivisionIs(x / d * d, d, x / d, 0);
  }

  lemma Masked(host: nat, bits: nat)
    requires host < WORD_LIMIT && bits <= 32
    ensures And(host, if bits == 0 then 0 else Shl(ALL_ONES, 32 - bits)) == NetworkOf(host, bits)
    ensures And(host, MaskOf(bits)) == NetworkOf(host, bits)
  {
    WordPowers();
    if bits != 0 {
      OnesShifted(bits);
    } else {
      assert MaskOf(0) == 0;
    }
    var d := Pow2(32 - bits);
    ShrDivides(host, 32 - bits);
    AndHighMask(host, MaskOf(bits), 32 - bits, bits);
    hide And, Shl, Shr, Pow2, MaskOf;
    FloorIs(host, d);
  }

  /** For an address and any prefix text the result is the network the address lies in, with no host bits. */
  lemma NetworkCidrIs(ip: string, prefix: string)
    requires ParseIpv4(ip).Some?
    ensures var host, bits := ParseIpv4(ip).value, PrefixBits(prefix);
            && NetworkOf(host, bits) < WORD_LIMIT
            && NetworkCidr(ip, prefix) == CidrText(ShowIpv4(NetworkOf(host, bits)), Show(bits))
  {
    ShowParseIpv4(ip);
    Masked(ParseIpv4(ip).value, PrefixBits(prefix));
  }

  /** The length used is the number given, or 32 if the text is no number up to 32. */
  lemma PrefixBitsExactly(prefix: string)
    ensures forall plus, zeros, n :: n <= 32 && prefix == Numeral(plus, zeros, n) ==> PrefixBits(prefix) == n
    ensures (forall plus, zeros, n :: n <= 32 ==> prefix != Numeral(plus, zeros, n)) ==> PrefixBits(prefix) == 32
  {
    forall plus, zeros, n | n <= 32 && prefix == Numeral(plus, zeros, n)
      ensures PrefixBits(prefix) == n
    {
      NumeralParses(plus, zeros, n, ALL_ONES);
    }
    if ParseUnsigned(prefix, ALL_ONES).Some? {
      ParsesExactly(prefix, ALL_ONES, ParseUnsigned(prefix, ALL_ONES).value);
    }
  }

  /** An address without a prefix is its own network; text that is no address is passed on. */
  lemma WithoutPrefix(ip: string, prefix: string)
    ensures ParseIpv4(ip).Some? ==> NetworkCidr(ip, "") == CidrText(ip, "32")
    ensures ParseIpv4(ip).None? ==> NetworkCidr(ip, prefix) == CidrText(ip, prefix)
  {
    if ParseIpv4(ip).Some? {
      hide ParseIpv4, NetworkCidr, ShowIpv4, CidrText, MaskOf, Show;
      NetworkCidrIs(ip, "");
      ShowParseIpv4(ip);
      HostNetwork(ParseIpv4(ip).value);
      NoLength();
    }
  }

  lemma NoLength()
    ensures PrefixBits("") == 32 && Show(32) == "32"
  {
    assert Show(3) == "3";
  }

  lemma HostNetwork(host: nat)
    ensures NetworkOf(host, 32) == host
  {
    assert Pow2(0) == 1;
  }

  lemma ShownHasNoSlash(n: nat)
    requires n < WORD_LIMIT
    ensures '/' !in ShowIpv4(n)
  {
    var parts := ShowAll(OctetsOf(n));
    forall k | 0 <= k < |parts|
      ensures '/' !in parts[k]
    {
      DigitsHaveNo(parts[k], '/');
    }
    JoinHasNo(parts, '.', '/');
  }

  lemma {:induction false} JoinHasNo(parts: seq<string>, c: char, d: char)
    requires |parts| >= 1 && c != d && forall k :: 0 <= k < |parts| ==> d !in parts[k]
    ensures d !in Join(parts, [c])
    decreases |parts|
  {
    if |parts| > 1 {
      JoinHasNo(parts[1..], c, d);
    }
  }

  lemma PrefixBitsShown(bits: nat)
    requires bits <= 32
    ensures PrefixBits(Show(bits)) == bits
  {
    ParseShow(bits, ALL_ONES);
  }

  lemma NetworkOfTwice(host: nat, bits: nat)
    requires bits <= 32
    ensures NetworkOf(NetworkOf(host, bits), bits) == NetworkOf(host, bits)
  {
  }

  /** Normalising a normalised CIDR changes nothing. */
  lemma NetworkCidrIdempotent(ip: string, prefix: string)
    requires '/' !in ip
    ensures var once := NetworkCidr(ip, prefix);
            var again := SplitOnce(once, '/');
            again.Some? && NetworkCidr(again.value.0, again.value.1) == once
  {
    if ParseIpv4(ip).Some? {
      var host, bits := ParseIpv4(ip).value, PrefixBits(prefix);
      var net := NetworkOf(host, bits);
      NetworkCidrIs(ip, prefix);
      ShownHasNoSlash(net);
      SplitOnceFirst(ShowIpv4(net), Show(bits), '/');
      ParseShowIpv4(net);
      PrefixBitsShown(bits);
      NetworkCidrIs(ShowIpv4(net), Show(bits));
      NetworkOfTwice(host, bits);
    } else {
      SplitOnceFirst(ip, prefix, '/');
    }
  }

  /** The macOS side reads a normalised CIDR as that network and the very mask it was made with. */
  lemma SameMaskOnBothSides(ip: string, prefix: string)
    requires ParseIpv4(ip).Some?
    ensures var host, bits := ParseIpv4(ip).value, PrefixBits(prefix);
            && host < WORD_LIMIT && NetworkOf(host, bits) < WORD_LIMIT
            && SplitCidr(NetworkCidr(ip, prefix))
               == Success((ShowIpv4(NetworkOf(host, bits)), PrefixToNetmask(bits)))
            && ParseIpv4(PrefixToNetmask(bits)) == Some(MaskOf(bits))
            && And(host, MaskOf(bits)) == NetworkOf(host, bits)
  {
    var host, bits := ParseIpv4(ip).value, PrefixBits(prefix);
    var net := NetworkOf(host, bits);
    ShowParseIpv4(ip);
    NetworkCidrIs(ip, prefix);
    ShownHasNoSlash(net);
    SplitOnceFirst(ShowIpv4(net), Show(bits), '/');
    ParseShow(bits, 255);
    PrintedMask(bits);
    ParseShowIpv4(MaskOf(bits));
    Masked(host, bits);
  }
}
