/**
The human-readable part of a BOLT #11 invoice (src/bolt11.c:134-214; BOLT #11, section
"Human-Readable Part"): "ln", a network, and an amount with a unit.  Numbers are 64 bits
wide and wrap.
*/
module Bolt11Hrp {
  import opened Bits
  import opened Wrappers
  import opened Bech32

  const NETS := ["bc", "bs", "tb", "tbs", "tb4", "bcrt"]

  /** The networks the two directions agree on. */
  predicate Supported(net: string) {
    net == "bc" || net == "bs" || net == "tb" || net == "tbs" || net == "bcrt"
  }

  predicate IsDigit(c: char) {
    '0' <= c <= '9'
  }

  predicate AllDigits(s: string) {
    forall i | 0 <= i < |s| :: IsDigit(s[i])
  }

  function Digit(d: nat): (c: char)
    requires d < 10
    ensures IsDigit(c) && c as int - 48 == d
  {
    (48 + d) as char
  }

  /** `%llu`. */
  function Decimal(n: nat): (s: string)
    ensures s != "" && AllDigits(s)
  {
    if n < 10 then [Digit(n)] else Decimal(n / 10) + [Digit(n % 10)]
  }

  /** The digits read into a 64-bit number. */
  function Number(s: string): (n: u64)
    requires AllDigits(s)
  {
    if s == "" then 0 else (Number(s[..|s| - 1]) * 10 + (s[|s| - 1] as int - 48)) % U64
  }

  lemma {:induction false} NumberDecimal(n: nat)
    requires n < U64
    ensures Number(Decimal(n)) == n
  {
    var s := Decimal(n);
    if n < 10 {
      assert s[..0] == "";
      assert Number("") == 0;
    } else {
      NumberDecimal(n / 10);
      assert s[..|s| - 1] == Decimal(n / 10);
    }
  }

  // ----- writing -----

  /** The number and unit written for an amount. */
  function Units(m: u64): (r: (u64, string)) {
    if m % 100000 == 0 then (m / 100000, "m")
    else if m % 100 == 0 then (m / 100, "u")
    else if m % 10 == 0 && m >= 10 then (m / 10, "n")
    else (m * 10 % U64, "p")
  }

  function AmountText(amount: Option<u64>): (s: string) {
    if amount.None? || amount.value == 0 then ""
    else Decimal(Units(amount.value).0) + Units(amount.value).1
  }

  function Build(net: string, amount: Option<u64>): (s: string) {
    "ln" + net + AmountText(amount)
  }

  // ----- reading -----

  datatype Parsed = Parsed(network: string, msat: u64)

  /** The network stands after "ln" and is followed by a digit or the end. */
  predicate Matches(hrp: string, net: string) {
    |hrp| >= 2 + |net| && hrp[2..2 + |net|] == net && (|hrp| == 2 + |net| || IsDigit(hrp[2 + |net|]))
  }

  function FirstNet(hrp: string, i: nat): (r: Option<string>)
    requires i <= |NETS|
    ensures r.Some? ==> r.value in NETS && Matches(hrp, r.value)
    decreases |NETS| - i
  {
    if i == |NETS| then None else if Matches(hrp, NETS[i]) then Some(NETS[i]) else FirstNet(hrp, i + 1)
  }

  function DigitCount(s: string): (n: nat)
    ensures n <= |s| && AllDigits(s[..n]) && (n < |s| ==> !IsDigit(s[n]))
  {
    if s != "" && IsDigit(s[0]) then
      var n := 1 + DigitCount(s[1..]);
      assert forall i | 0 < i < n :: s[i] == s[1..][i - 1];
      n
    else 0
  }

  function Scale(n: u64, unit: string): (r: Option<u64>) {
    if unit == "" then Some(n * 100000000000 % U64)
    else if unit == "m" then Some(n * 100000 % U64)
    else if unit == "u" then Some(n * 100 % U64)
    else if unit == "n" then Some(n / 10)
    else if unit == "p" then Some(n / 10000)
    else None
  }

  function ParseAmount(s: string): (r: Option<u64>) {
    if s == "" then Some(0) else Scale(Number(s[..DigitCount(s)]), s[DigitCount(s)..])
  }

  function Parse(hrp: string): (r: Option<Parsed>) {
    if |hrp| < 4 || hrp[0] != 'l' || hrp[1] != 'n' then None
    else match FirstNet(hrp, 0)
      case None => None
      case Some(net) =>
        match ParseAmount(hrp[2 + |net|..])
        case None => None
        case Some(m) => Some(Parsed(net, m))
  }

  // ----- the code -----

  /** parse_network. */
  method ParseNetwork(hrp: string) returns (r: Option<Parsed>)
    ensures r == Parse(hrp)
  {
    hide Number, FirstNet;
    if |hrp| < 4 { return None; }
    if hrp[0] != 'l' || hrp[1] != 'n' { return None; }
    var found: Option<string> := None;
    var i := 0;
    while i < |NETS| && found.None?
      invariant 0 <= i <= |NETS|
      invariant found.None? ==> FirstNet(hrp, 0) == FirstNet(hrp, i)
      invariant found.Some? ==> FirstNet(hrp, 0) == found
    {
      FirstNetStep(hrp, i);
      if Matches(hrp, NETS[i]) { found := Some(NETS[i]); }
      i := i + 1;
    }
    FirstNetEnd(hrp);
    if found.None? { return None; }
    var net := found.value;
    var amt := ReadAmount(hrp[2 + |net|..]);
    r := if amt.None? then None else Some(Parsed(net, amt.value));
  }

  lemma FirstNetStep(hrp: string, i: nat)
    requires i < |NETS|
    ensures FirstNet(hrp, i) == if Matches(hrp, NETS[i]) then Some(NETS[i]) else FirstNet(hrp, i + 1)
  {
  }

  lemma FirstNetEnd(hrp: string)
    ensures FirstNet(hrp, |NETS|) == None
  {
  }

  /** Digits, then at most one unit letter. */
  method ReadAmount(s: string) returns (r: Option<u64>)
    ensures r == ParseAmount(s)
  {
    hide Number, DigitCount;
    if s == "" { return Some(0); }
    var n: u64, i := 0, 0;
    NumberStep(s, 0);
    while i < |s| && IsDigit(s[i])
      invariant 0 <= i <= |s| && AllDigits(s[..i])
      invariant n == Number(s[..i])
    {
      NumberStep(s, i + 1);
      n := (n * 10 + (s[i] as int - 48)) % U64;
      i := i + 1;
    }
    assert i == DigitCount(s);
    if i == |s| {
      r := Some(n * 100000000000 % U64);
    } else if i == |s| - 1 {
      var c := s[i];
      assert s[i..] == [c];
      if c == 'm' { r := Some(n * 100000 % U64); }
      else if c == 'u' { r := Some(n * 100 % U64); }
      else if c == 'n' { r := Some(n / 10); }
      else if c == 'p' { r := Some(n / 10000); }
      else { r := None; }
    } else {
      r := None;
    }
  }

  lemma NumberStep(s: string, i: nat)
    requires i <= |s| && AllDigits(s[..i])
    ensures i == 0 ==> Number(s[..i]) == 0
    ensures i > 0 ==> AllDigits(s[..i - 1]) && Number(s[..i]) == (Number(s[..i - 1]) * 10 + (s[i - 1] as int - 48)) % U64
  {
    if i > 0 {
      assert s[..i][..i - 1] == s[..i - 1];
      assert forall j | 0 <= j < i - 1 :: s[..i - 1][j] == s[..i][j];
    }
  }

  // ----- how far the two agree -----

  /** The amount read back for an amount written. */
  function Back(amount: Option<u64>): (m: u64) {
    if amount.None? then 0
    else
      var m := amount.value;
      if m % 100 == 0 then m else if m % 10 == 0 then m / 100 else m * 10 % U64 / 10000
  }

  /** An amount survives exactly when it is a multiple of 100 millisatoshi. */
  lemma AmountExactly(m: u64)
    ensures Back(Some(m)) == m <==> m % 100 == 0
  {
  }

  lemma {:induction false} SplitDigits(d: string, unit: string)
    requires AllDigits(d) && (unit != "" ==> !IsDigit(unit[0]))
    ensures DigitCount(d + unit) == |d|
    ensures (d + unit)[..|d|] == d && (d + unit)[|d|..] == unit
    decreases |d|
  {
    if d == "" {
      assert d + unit == unit;
    } else {
      assert (d + unit)[1..] == d[1..] + unit;
      SplitDigits(d[1..], unit);
    }
  }

  lemma AmountBack(amount: Option<u64>)
    ensures ParseAmount(AmountText(amount)) == Some(Back(amount))
  {
    hide Decimal, Number, DigitCount;
    if amount.Some? && amount.value > 0 {
      var m := amount.value;
      var (v, unit) := Units(m);
      SplitDigits(Decimal(v), unit);
      NumberDecimal(v);
      assert AmountText(amount) == Decimal(v) + unit;
      assert Scale(v, unit) == Some(Back(amount)) by { ScaleBack(m); }
    }
  }

  lemma ScaleBack(m: u64)
    requires m > 0
    ensures Scale(Units(m).0, Units(m).1) == Some(Back(Some(m)))
  {
    if m % 100000 == 0 {
      var q := m / 100000;
      assert m == q * 100000;
      DivUnique(m, 100, q * 1000, 0);
      DivSmall(m, U64);
      assert Units(m) == (q, "m");
    } else if m % 100 == 0 {
      var q := m / 100;
      assert m == q * 100;
      DivSmall(m, U64);
      assert Units(m) == (q, "u");
    } else if m % 10 == 0 {
      var q := m / 10;
      assert m == q * 10 && q == q / 10 * 10 + q % 10;
      DivUnique(m, 100, q / 10, q % 10 * 10);
      assert Units(m) == (q, "n");
    } else {
      assert Units(m) == (m * 10 % U64, "p");
    }
  }

  lemma AmountStart(amount: Option<u64>)
    ensures AmountText(amount) == "" || IsDigit(AmountText(amount)[0])
  {
    hide Decimal;
  }

  lemma BuiltNet(net: string, amount: Option<u64>)
    requires Supported(net)
    ensures FirstNet(Build(net, amount), 0) == Some(net)
    ensures Build(net, amount)[2 + |net|..] == AmountText(amount)
  {
    hide AmountText, FirstNet;
    var s, a := Build(net, amount), AmountText(amount);
    AmountStart(amount);
    assert s[2..2 + |net|] == net && s[2 + |net|..] == a;
    assert a != "" ==> s[2 + |net|] == a[0];
    assert s[0..2] == "ln";
    assert Matches(s, net);
    NetChars(s, net);
    NotEarlier(s, net);
  }

  /** The network's characters stand at 2, 3, ... and a letter is not an amount. */
  lemma NetChars(s: string, net: string)
    requires Matches(s, net)
    ensures forall i | 0 <= i < |net| :: s[i + 2] == net[i]
  {
    var t := s[2..2 + |net|];
    assert forall i | 0 <= i < |net| :: t[i] == s[i + 2];
  }

  lemma NotMatches(s: string, net: string, other: string)
    requires Matches(s, net) && |net| >= 2 && |other| >= 2
    requires other[0] != net[0] || other[1] != net[1] || (|other| == 2 < |net| && !IsDigit(net[2]))
    ensures !Matches(s, other)
  {
    NetChars(s, net);
    if Matches(s, other) { NetChars(s, other); }
  }

  lemma NotEarlier(s: string, net: string)
    requires Supported(net) && Matches(s, net)
    ensures FirstNet(s, 0) == Some(net)
  {
    hide Matches, FirstNet;
    FirstNetStep(s, 0);
    if net == "bc" { return; }
    NotMatches(s, net, "bc");
    FirstNetStep(s, 1);
    if net == "bs" { return; }
    NotMatches(s, net, "bs");
    FirstNetStep(s, 2);
    if net == "tb" { return; }
    NotMatches(s, net, "tb");
    FirstNetStep(s, 3);
    if net == "tbs" { return; }
    NotMatches(s, net, "tbs");
    FirstNetStep(s, 4);
    NotMatches(s, net, "tb4");
    FirstNetStep(s, 5);
  }

  /** Reading back what was written: the same network, and the amount up to the loss above. */
  lemma ParseBuild(net: string, amount: Option<u64>)
    requires Supported(net)
    ensures Parse(Build(net, amount)) == Some(Parsed(net, Back(amount)))
  {
    hide AmountText, FirstNet, ParseAmount, Back;
    BuiltNet(net, amount);
    AmountBack(amount);
    assert Build(net, amount)[0] == 'l' && Build(net, amount)[1] == 'n';
  }

  /** Ten millisatoshi are written as one "n" and read as none. */
  lemma TenMsatLost()
    ensures Parse(Build("bc", Some(10))) == Some(Parsed("bc", 0))
  {
    ParseBuild("bc", Some(10));
    assert Back(Some(10)) == 0;
  }

  /** "tb4" is read as "tb" with an amount that starts with 4. */
  lemma TestnetFour(amount: Option<u64>)
    ensures FirstNet(Build("tb4", amount), 0) == Some("tb")
  {
    hide AmountText, FirstNet;
    var s := Build("tb4", amount);
    assert s[2] == 't' && s[3] == 'b' && s[4] == '4';
    assert s[2..4] == "tb";
    FirstNetStep(s, 0);
    FirstNetStep(s, 1);
    FirstNetStep(s, 2);
    assert s[2..4][0] == 't';
  }

  /** A network survives exactly when it is one of the five. */
  lemma NetworkExactly(net: string, amount: Option<u64>)
    ensures (Parse(Build(net, amount)).Some? && Parse(Build(net, amount)).value.network == net) <==> Supported(net)
  {
    hide Build, FirstNet, ParseAmount;
    if Supported(net) {
      ParseBuild(net, amount);
    } else if net == "tb4" {
      TestnetFour(amount);
    }
  }

  /** What the encoder writes is lower case and made of C characters. */
  lemma BuildLower(net: string, amount: Option<u64>)
    requires Supported(net)
    ensures 4 <= |Build(net, amount)| <= 27
    ensures forall i | 0 <= i < |Build(net, amount)| ::
              var c := Build(net, amount)[i]; 0 < c as int < 256 && Lower(c) == c
  {
    hide Decimal, Units;
    if amount.Some? && amount.value > 0 {
      var (v, unit) := Units(amount.value);
      assert |unit| == 1 && (unit == "m" || unit == "u" || unit == "n" || unit == "p") by { UnitLetter(amount.value); }
      DecimalLength(v);
    }
  }

  lemma UnitLetter(m: u64)
    ensures Units(m).1 in ["m", "u", "n", "p"]
  {
  }

  function Pow10(k: nat): (p: nat) {
    if k == 0 then 1 else 10 * Pow10(k - 1)
  }

  lemma {:induction false} DecimalShort(n: nat, k: nat)
    requires k > 0 && n < Pow10(k)
    ensures |Decimal(n)| <= k
    decreases k
  {
    if n >= 10 { DecimalShort(n / 10, k - 1); }
  }

  lemma DecimalLength(n: u64)
    ensures |Decimal(n)| <= 20
  {
    assert Pow10(4) == 10000;
    assert Pow10(8) == 100000000;
    assert Pow10(12) == 1000000000000;
    assert Pow10(16) == 10000000000000000;
    assert Pow10(20) == 100000000000000000000;
    DecimalShort(n, 20);
  }

  // ----- the units of BOLT #11 -----

  /** Millisatoshi by the multipliers of BOLT #11; one bitcoin is 10^11 of them. */
  function StandardMsat(n: nat, unit: string): (r: Option<nat>) {
    if unit == "" then Some(n * 100000000000)
    else if unit == "m" then Some(n * 100000000)
    else if unit == "u" then Some(n * 100000)
    else if unit == "n" then Some(n * 100)
    else if unit == "p" then Some(n / 10)
    else None
  }

  /** With a multiplier the code reads a thousandth of the standard's amount; without one all of it; both in 64 bits. */
  lemma UnitsExactly(n: u64, unit: string)
    ensures Scale(n, unit).Some? <==> StandardMsat(n, unit).Some?
    ensures Scale(n, unit).Some? ==>
              var msat := StandardMsat(n, unit).value;
              Scale(n, unit).value == (if unit == "" then msat else msat / 1000) % U64
  {
  }

  /** "lnbc2500u" asks for 250000 msat here; the standard's example means 250000000. */
  lemma MicroExample(hrp: string)
    requires hrp == "lnbc2500u"
    ensures Parse(hrp) == Some(Parsed("bc", 250000)) && StandardMsat(2500, "u") == Some(250000000)
  {
    hide DigitCount;
    var tail := hrp[4..];
    assert tail == "2500u";
    assert Matches(hrp, "bc") && FirstNet(hrp, 0) == Some("bc");
    var n := DigitCount(tail);
    assert IsDigit(tail[0]) && IsDigit(tail[1]) && IsDigit(tail[2]) && IsDigit(tail[3]) && !IsDigit(tail[4]);
    assert n == 4;
    assert tail[..4] == "2500" && tail[4..] == "u";
    FourDigits("2500");
  }

  lemma FourDigits(s: string)
    requires |s| == 4 && AllDigits(s)
    ensures Number(s) == (s[0] as int - 48) * 1000 + (s[1] as int - 48) * 100 + (s[2] as int - 48) * 10 + s[3] as int - 48
  {
    var s3, s2, s1 := s[..3], s[..2], s[..1];
    assert s3[..2] == s2 && s2[..1] == s1 && s1[..0] == "";
    assert Number(s1) == s[0] as int - 48;
    assert Number(s2) == (s[0] as int - 48) * 10 + s[1] as int - 48;
    assert Number(s3) == (s[0] as int - 48) * 100 + (s[1] as int - 48) * 10 + s[2] as int - 48;
  }
}
