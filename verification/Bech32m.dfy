/** bech32m strings (BIP 350): src/bech32m.c. */
module Bech32m {
  import opened Bits
  import opened Wrappers
  import opened Bech32
  import opened Regroup

  const MAX_HRP := 83
  const MAX_DATA5 := 1024
  const BUFFER := MAX_HRP * 2 + 1 + MAX_DATA5 + 6

  /** The whole string for a lower-case prefix and data symbols. */
  function Text(h: cstring, d5: seq<nat>): (r: cstring)
    requires Symbols(d5)
  {
    h + "1" + Chars(d5 + Appended(h, d5, BECH32M_CONST))
  }

  lemma SymbolsTo5(data: seq<byte>)
    ensures Symbols(To5(data))
  {
    Pow2Const();
  }

  function Encode(hrp: cstring, data: seq<byte>, outCap: nat): (r: Option<cstring>) {
    SymbolsTo5(data);
    if |hrp| == 0 || |hrp| > MAX_HRP || |To5(data)| > MAX_DATA5 then None
    else if outCap < |hrp| + 1 + |To5(data)| + 6 + 1 then None
    else Some(Text(LowerAll(hrp), To5(data)))
  }

  function SymbolsIn(s: cstring): (r: Option<seq<nat>>)
    ensures r.Some? ==> |r.value| == |s| && Symbols(r.value)
    ensures r.Some? ==> forall i | 0 <= i < |s| :: SymbolOf(Lower(s[i])) == Some(r.value[i])
    ensures r.None? ==> exists i | 0 <= i < |s| :: SymbolOf(Lower(s[i])).None?
  {
    if forall i | 0 <= i < |s| :: SymbolOf(Lower(s[i])).Some?
    then Some(seq(|s|, i requires 0 <= i < |s| => SymbolOf(Lower(s[i])).value)) else None
  }

  lemma LastOneIs(s: string, k: nat)
    requires k < |s| && s[k] == '1' && forall i | k < i < |s| :: s[i] != '1'
    ensures LastOne(s) == k
  {
    hide LastOne;
    assert LastOne(s) <= k;
  }

  lemma SymbolsInIs(s: cstring, v: seq<nat>)
    requires |v| == |s| && forall i | 0 <= i < |s| :: SymbolOf(Lower(s[i])) == Some(v[i])
    ensures SymbolsIn(s) == Some(v)
  {
    hide SymbolsIn, SymbolOf, Lower;
    assert SymbolsIn(s).Some?;
    var r := SymbolsIn(s).value;
    forall i | 0 <= i < |s|
      ensures r[i] == v[i]
    {
      assert Some(r[i]) == SymbolOf(Lower(s[i]));
    }
    assert r == v;
  }

  predicate HrpMatches(expected: Option<cstring>, h: cstring) {
    expected.Some? ==> LowerAll(expected.value) == h
  }

  function Decode(str: cstring, expected: Option<cstring>, outCap: nat): (r: Option<seq<byte>>) {
    var sep := LastOne(str);
    if |str| < 8 || sep < 1 || |str| - sep - 1 < 6 || sep > MAX_HRP || |str| - sep - 1 > MAX_DATA5 then None
    else match SymbolsIn(str[sep + 1..])
      case None => None
      case Some(v) => DecodeSymbols(LowerAll(str[..sep]), v, expected, outCap)
  }

  function DecodeSymbols(h: cstring, v: seq<nat>, expected: Option<cstring>, outCap: nat): (r: Option<seq<byte>>)
    requires |v| >= 6
  {
    if !Accepts(h, v, BECH32M_CONST) || !HrpMatches(expected, h) then None
    else match From5(v[..|v| - 6])
      case None => None
      case Some(data) => if |data| <= outCap then Some(data) else None
  }

  // ----- the code -----

  /** bech32m_encode; `out` receives the string and its terminator. */
  method EncodeTo(hrp: cstring, data: seq<byte>, out: array<char>) returns (ok: bool)
    modifies out
    ensures ok == Encode(hrp, data, out.Length).Some?
    ensures ok ==> var s := Encode(hrp, data, out.Length).value;
                   |s| < out.Length && out[..|s|] == s && out[|s|] == '\0'
  {
    hide To5, Collect, ChecksumOf, Chars, LowerAll, CharOf, Lower;
    SymbolsTo5(data);
    if |hrp| == 0 || |hrp| > MAX_HRP {
      return false;
    }
    var data5 := new nat[MAX_DATA5];
    var n := BytesTo5Bit(data, data5);
    if n == 0 && |data| > 0 {
      return false;
    }
    var d5 := data5[..n];
    if out.Length < |hrp| + 1 + n + 6 + 1 {
      return false;
    }
    var h := LowerAll(hrp);
    var chk := Checksum(h, d5, BECH32M_CONST, BUFFER);
    var tail := SplitChecksum(chk);
    WriteText(h, d5 + tail, out);
    return true;
  }

  /** Prefix, separator, characters, terminator. */
  method WriteText(h: cstring, g: seq<nat>, out: array<char>)
    requires Symbols(g) && |h| + 1 + |g| + 1 <= out.Length
    modifies out
    ensures var s := h + "1" + Chars(g); |s| < out.Length && out[..|s|] == s && out[|s|] == '\0'
  {
    hide CharOf;
    var pos := 0;
    for i := 0 to |h|
      invariant pos == i && out[..pos] == h[..i]
    {
      out[pos] := h[i];
      pos := pos + 1;
    }
    out[pos] := '1';
    pos := pos + 1;
    ghost var c := Chars(g);
    assert out[..pos] == h + "1" + c[..0];
    for i := 0 to |g|
      invariant pos == |h| + 1 + i && out[..pos] == h + "1" + c[..i]
    {
      out[pos] := CharOf(g[i]);
      pos := pos + 1;
    }
    assert c[..|g|] == c;
    out[pos] := '\0';
  }

  /** The six groups of the checksum, high group first. */
  method SplitChecksum(chk: word30) returns (k: seq<nat>)
    ensures k == Collect(chk, 5) && |k| == 6 && Symbols(k)
  {
    hide Collect, Val;
    k := [];
    Pow2Const();
    for i := 0 to 6
      invariant |k| == i && k == Collect(chk, 5)[..i]
    {
      CollectAt(chk, 5, i);
      k := k + [Val(chk[5 * i..5 * i + 5])];
    }
  }

  /** The last '1' of a string, found from its end. */
  method FindSeparator(str: cstring) returns (sep: int)
    ensures sep == LastOne(str)
  {
    hide LastOne;
    sep := |str| - 1;
    while sep >= 0 && str[sep] != '1'
      invariant -1 <= sep < |str| && forall i | sep < i < |str| :: str[i] != '1'
    {
      sep := sep - 1;
    }
    if sep >= 0 { LastOneIs(str, sep); }
  }

  /** The symbols of the characters, or nothing when one is outside the character set. */
  method ReadSymbols(s: cstring) returns (r: Option<seq<nat>>)
    ensures r == SymbolsIn(s)
  {
    hide SymbolsIn, SymbolOf, Lower;
    var vals := new nat[|s|];
    for i := 0 to |s|
      invariant forall j | 0 <= j < i :: SymbolOf(Lower(s[j])) == Some(vals[j])
    {
      var x := SymbolOf(Lower(s[i]));
      if x.None? {
        return None;
      }
      vals[i] := x.value;
    }
    SymbolsInIs(s, vals[..]);
    return Some(vals[..]);
  }

  /** bech32m_decode. */
  method DecodeTo(str: cstring, expected: Option<cstring>, out: array<byte>) returns (ok: bool, outLen: nat)
    modifies out
    ensures ok == Decode(str, expected, out.Length).Some?
    ensures ok ==> outLen <= out.Length && out[..outLen] == Decode(str, expected, out.Length).value
  {
    hide LowerAll, SymbolsIn, LastOne, DecodeSymbols, Symbols;
    ok, outLen := false, 0;
    if |str| < 8 { return; }
    var sep := FindSeparator(str);
    if sep < 1 || |str| - sep - 1 < 6 || sep > MAX_HRP { return; }
    var total := |str| - sep - 1;
    if total > MAX_DATA5 { return; }
    var symbols := ReadSymbols(str[sep + 1..]);
    if symbols.None? { return; }
    ok, outLen := CheckAndConvert(LowerAll(str[..sep]), symbols.value, expected, out);
  }

  /** The checksum, the prefix, and the bytes. */
  method CheckAndConvert(h: cstring, v: seq<nat>, expected: Option<cstring>, out: array<byte>) returns (ok: bool, outLen: nat)
    requires |h| <= MAX_HRP && 6 <= |v| <= MAX_DATA5 && Symbols(v)
    modifies out
    ensures ok == DecodeSymbols(h, v, expected, out.Length).Some?
    ensures ok ==> outLen <= out.Length && out[..outLen] == DecodeSymbols(h, v, expected, out.Length).value
  {
    hide From5, Expand, ChecksumOf, LowerAll, Symbols, Fits;
    ok, outLen := false, 0;
    var n := |v| - 6;
    var d5 := v[..n];
    SymbolsPrefix(v, n);
    var want := Checksum(h, d5, BECH32M_CONST, BUFFER);
    if want != Expand(v[n..], 5) || !HrpMatches(expected, h) { return; }
    outLen := FiveBitToBytes(d5, out);
    EmptyFrom5(d5);
    ok := outLen > 0 || n == 0;
  }

  lemma SymbolsPrefix(v: seq<nat>, n: nat)
    requires Symbols(v) && n <= |v|
    ensures Symbols(v[..n]) && Fits(v[..n], 5)
  {
    Pow2Const();
  }

  /** No nonempty symbol string stands for the empty byte string, so a count of 0 is unambiguous. */
  lemma EmptyFrom5(d5: seq<nat>)
    ensures d5 == [] ==> From5(d5) == Some([])
    ensures d5 != [] && From5(d5).Some? ==> |From5(d5).value| > 0
  {
  }

  // ----- round trips -----

  lemma ReadBack(h: cstring, v: seq<nat>)
    requires Symbols(v)
    ensures LastOne(h + "1" + Chars(v)) == |h|
    ensures SymbolsIn(Chars(v)) == Some(v)
  {
    hide SymbolOf, Lower, CharOf;
    var c := Chars(v);
    assert '1' !in c;
    NoOneAfter(h, c);
    SymbolsInIs(c, v);
  }

  lemma {:induction false} NoOneAfter(h: string, c: string)
    requires '1' !in c
    ensures LastOne(h + "1" + c) == |h|
    decreases |c|
  {
    var s := h + "1" + c;
    if c == [] {
      assert s == h + "1";
    } else {
      var d := c[..|c| - 1];
      assert s[..|s| - 1] == h + "1" + d;
      NoOneAfter(h, d);
    }
  }

  lemma LowerTwice(s: cstring)
    ensures LowerAll(LowerAll(s)) == LowerAll(s)
  {
  }

  /**
  Decoding undoes encoding for every prefix (a '1' in it included) and every payload the
  encoder accepts, exactly when payload and checksum symbols together fit the decoder's
  1024; the encoder checks only the payload.
  */
  lemma RoundTrip(hrp: cstring, data: seq<byte>, outCap: nat, cap: nat)
    requires Encode(hrp, data, outCap).Some? && |data| <= cap
    ensures var s := Encode(hrp, data, outCap).value;
            && (|To5(data)| + 6 <= MAX_DATA5 ==> Decode(s, Some(hrp), cap) == Some(data) && Decode(s, None, cap) == Some(data))
            && (|To5(data)| + 6 > MAX_DATA5 ==> Decode(s, Some(hrp), cap) == None)
    ensures |To5(data)| + 6 <= MAX_DATA5 <==> |data| <= 636
  {
    hide To5, From5, Accepts, Chars, SymbolsIn, LastOne, LowerAll, Appended;
    SymbolsTo5(data);
    var h, d5 := LowerAll(hrp), To5(data);
    var v := d5 + Appended(h, d5, BECH32M_CONST);
    ReadBack(h, v);
    AppendedAccepted(h, d5, BECH32M_CONST);
    To5From5(data);
    var s := Text(h, d5);
    assert s == h + "1" + Chars(v);
    assert s[|h| + 1..] == Chars(v) && s[..|h|] == h;
    LowerTwice(hrp);
    assert v[..|v| - 6] == d5;
  }

  /** 637 zero bytes are encoded, and not decoded. */
  lemma LongPayloadLost()
    ensures var data := seq(637, _ => 0);
            Encode("a", data, 2000).Some? && Decode(Encode("a", data, 2000).value, Some("a"), 637) == None
  {
    hide To5, LowerAll, Decode;
    RoundTrip("a", seq(637, _ => 0), 2000, 637);
  }

  /** Every accepted string is, up to letter case, the encoding of what it decodes to. */
  lemma DecodeEncode(str: cstring, expected: Option<cstring>, cap: nat)
    requires Decode(str, expected, cap).Some?
    ensures Encode(str[..LastOne(str)], Decode(str, expected, cap).value, |str| + 1) == Some(LowerAll(str))
  {
    hide *;
    var sep := LastOne(str);
    SeparatorFound(str, expected, cap);
    var hrp, tail := str[..sep], str[sep + 1..];
    DecodeParts(str, expected, cap, sep, hrp, tail);
    var v := SymbolsIn(tail).value;
    PartsForced(hrp, v, expected, cap, |str| + 1);
    CharsBack(tail, v);
    LowerParts(str, sep);
  }

  lemma SeparatorFound(str: cstring, expected: Option<cstring>, cap: nat)
    requires Decode(str, expected, cap).Some?
    ensures 1 <= LastOne(str) <= MAX_HRP
  {
    hide SymbolsIn, LowerAll, LastOne, DecodeSymbols;
  }

  lemma DecodeParts(str: cstring, expected: Option<cstring>, cap: nat, sep: nat, hrp: cstring, tail: cstring)
    requires Decode(str, expected, cap).Some? && LastOne(str) == sep && hrp == str[..sep] && tail == str[sep + 1..]
    ensures 6 <= |tail| <= MAX_DATA5 && SymbolsIn(tail).Some?
    ensures DecodeSymbols(LowerAll(hrp), SymbolsIn(tail).value, expected, cap) == Decode(str, expected, cap)
  {
    hide SymbolsIn, LowerAll, LastOne, DecodeSymbols;
  }

  lemma PartsForced(hrp: cstring, v: seq<nat>, expected: Option<cstring>, cap: nat, room: nat)
    requires 1 <= |hrp| <= MAX_HRP && 6 <= |v| <= MAX_DATA5 && Symbols(v) && room > |hrp| + 1 + |v|
    requires DecodeSymbols(LowerAll(hrp), v, expected, cap).Some?
    ensures Encode(hrp, DecodeSymbols(LowerAll(hrp), v, expected, cap).value, room) == Some(LowerAll(hrp) + "1" + Chars(v))
  {
    hide *;
    ForcedSymbols(LowerAll(hrp), v, expected, cap);
    EncodeForced(hrp, DecodeSymbols(LowerAll(hrp), v, expected, cap).value, v, room);
  }

  lemma EncodeForced(hrp: cstring, data: seq<byte>, v: seq<nat>, cap: nat)
    requires 1 <= |hrp| <= MAX_HRP && |v| <= MAX_DATA5 && cap > |hrp| + 1 + |v| && Symbols(v)
    requires v == To5(data) + Appended(LowerAll(hrp), To5(data), BECH32M_CONST)
    ensures Encode(hrp, data, cap) == Some(LowerAll(hrp) + "1" + Chars(v))
  {
    hide To5, LowerAll, Chars, Symbols;
    SymbolsTo5(data);
  }

  lemma ForcedSymbols(h: cstring, v: seq<nat>, expected: Option<cstring>, cap: nat)
    requires |v| >= 6 && Symbols(v) && DecodeSymbols(h, v, expected, cap).Some?
    ensures v == (var d5 := To5(DecodeSymbols(h, v, expected, cap).value); d5 + Appended(h, d5, BECH32M_CONST))
  {
    hide To5, From5, Accepts, Appended;
    var d5, chk := v[..|v| - 6], v[|v| - 6..];
    assert v == d5 + chk;
    assert Fits(d5, 5) && Fits(chk, 5) by { Pow2Const(); }
    From5To5(d5);
    CheckForced(h, d5, chk);
  }

  lemma LowerParts(str: cstring, sep: nat)
    requires sep < |str| && str[sep] == '1'
    ensures LowerAll(str) == LowerAll(str[..sep]) + "1" + LowerAll(str[sep + 1..])
  {
    LowerOne();
  }

  lemma LowerOne()
    ensures Lower('1') == '1'
  {
  }

  lemma CheckForced(h: cstring, d5: seq<nat>, chk: seq<nat>)
    requires |chk| == 6 && Fits(chk, 5) && Accepts(h, d5 + chk, BECH32M_CONST)
    ensures chk == Appended(h, d5, BECH32M_CONST)
  {
    hide Expand, Collect, ChecksumOf;
    var v := d5 + chk;
    assert v[..|v| - 6] == d5 && v[|v| - 6..] == chk;
    CollectExpand(chk, 5);
  }

  lemma CharsBack(s: cstring, v: seq<nat>)
    requires SymbolsIn(s) == Some(v)
    ensures Symbols(v) && Chars(v) == LowerAll(s)
  {
    hide CharOf, SymbolOf, Lower;
    forall i | 0 <= i < |s|
      ensures CharOf(v[i]) == Lower(s[i])
    {
      SymbolChar(Lower(s[i]));
    }
  }

  lemma SymbolChar(c: char)
    requires SymbolOf(c).Some?
    ensures CharOf(SymbolOf(c).value) == c
  {
  }

  /** Changing one data or checksum character to one for another symbol is always noticed. */
  lemma OneCharacterError(str: cstring, expected: Option<cstring>, cap: nat, i: nat, c: char)
    requires Decode(str, expected, cap).Some? && LastOne(str) < i < |str|
    requires c as int < 256 && SymbolOf(Lower(c)).Some? && SymbolOf(Lower(c)) != SymbolOf(Lower(str[i]))
    ensures var s: string := str[i := c];
            0 < c as int && Decode(s, expected, cap) == None
  {
    hide From5, Accepts, Lower, SymbolOf, LowerAll, SymbolsIn, LastOne;
    NotSpecial(c);
    var sep := LastOne(str);
    var s: cstring := str[i := c];
    var j := i - sep - 1;
    var v := SymbolsIn(str[sep + 1..]).value;
    var y := SymbolOf(Lower(c)).value;
    LastOneIs(s, sep);
    assert s[..sep] == str[..sep];
    assert s[sep + 1..] == str[sep + 1..][j := c];
    SymbolsInIs(s[sep + 1..], v[j := y]);
    OneErrorDetected(LowerAll(str[..sep]), v, j, y, BECH32M_CONST);
  }

  lemma NotSpecial(c: char)
    requires SymbolOf(Lower(c)).Some?
    ensures 0 < c as int && c != '1'
  {
  }
}
