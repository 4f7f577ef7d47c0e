/** ParseQdayAddress in both forms: Bech32m, and the legacy form, which spells out both public keys and four
    check bytes in hexadecimal. */
module AddressParser {
  import opened Types
  import opened AddressText
  import W = Swap

  // ---- Hexadecimal ----

  function HexChar(v: nat): char
    requires v < 16
  {
    if v < 10 then (v + '0' as int) as char else (v - 10 + 'a' as int) as char
  }

  function HexValue(ch: char): int {
    if '0' <= ch <= '9' then ch as int - '0' as int
    else if 'a' <= ch <= 'f' then ch as int - 'a' as int + 10
    else if 'A' <= ch <= 'F' then ch as int - 'A' as int + 10
    else -1
  }

  function HexText(bytes: seq<byte>): string {
    if bytes == [] then ""
    else
      var last := bytes[|bytes| - 1];
      HexText(bytes[..|bytes| - 1]) + [HexChar(last / 16), HexChar(last % 16)]
  }

  /** hex.DecodeString. */
  function HexBytes(t: string): Option<seq<byte>> {
    if t == [] then Some([])
    else if |t| == 1 then None
    else
      var front, hi, lo := HexBytes(t[..|t| - 2]), HexValue(t[|t| - 2]), HexValue(t[|t| - 1]);
      if front.None? || hi < 0 || lo < 0 then None else Some(front.value + [16 * hi + lo])
  }

  lemma {:induction false} HexDigits(b: byte)
    ensures HexValue(HexChar(b / 16)) == b / 16 && HexValue(HexChar(b % 16)) == b % 16
  {}

  lemma {:induction false} HexRoundTrip(bytes: seq<byte>)
    ensures |HexText(bytes)| == 2 * |bytes| && HexBytes(HexText(bytes)) == Some(bytes)
  {
    if bytes != [] {
      var front, last, t := bytes[..|bytes| - 1], bytes[|bytes| - 1], HexText(bytes);
      HexRoundTrip(front);
      HexDigits(last);
      assert t[..|t| - 2] == HexText(front);
      assert bytes == front + [last];
    }
  }

  lemma {:induction false} HexCharOf(ch: char)
    requires HexValue(ch) >= 0
    ensures HexValue(ch) < 16 && HexChar(HexValue(ch)) == LowerChar(ch)
  {}

  lemma {:induction false} LowerTail(t: string)
    requires |t| >= 2
    ensures Lower(t) == Lower(t[..|t| - 2]) + [LowerChar(t[|t| - 2]), LowerChar(t[|t| - 1])]
  {}

  /** What decodes is, in lower case, the text of its bytes. */
  lemma {:induction false} HexCanonical(t: string)
    requires HexBytes(t).Some?
    ensures Lower(t) == HexText(HexBytes(t).value) && |t| == 2 * |HexBytes(t).value|
  {
    if t != [] {
      HexCanonical(t[..|t| - 2]);
      HexCharOf(t[|t| - 2]);
      HexCharOf(t[|t| - 1]);
      LowerTail(t);
      var b := HexBytes(t).value;
      assert b[..|b| - 1] == HexBytes(t[..|t| - 2]).value;
    }
  }

  lemma {:induction false} HexNext(t: string, i: nat)
    requires 2 * i + 2 <= |t|
    ensures var front, hi, lo := HexBytes(t[..2 * i]), HexValue(t[2 * i]), HexValue(t[2 * i + 1]);
            HexBytes(t[..2 * i + 2]) ==
            if front.None? || hi < 0 || lo < 0 then None else Some(front.value + [16 * hi + lo])
  {
    assert t[..2 * i + 2][..2 * i] == t[..2 * i];
  }

  lemma {:induction false} HexStops(t: string, i: nat)
    requires 2 * i <= |t| && HexBytes(t[..2 * i]).None?
    ensures HexBytes(t).None?
    decreases |t|
  {
    if 2 * i < |t| && |t| >= 2 {
      if 2 * i <= |t| - 2 {
        assert t[..|t| - 2][..2 * i] == t[..2 * i];
        HexStops(t[..|t| - 2], i);
      } else {
        HexOdd(t);
      }
    } else {
      assert t[..2 * i] == t || |t| == 1;
    }
  }

  lemma {:induction false} HexOdd(t: string)
    requires |t| % 2 == 1
    ensures HexBytes(t).None?
  {
    if |t| > 1 { HexOdd(t[..|t| - 2]); }
  }

  method DecodeHex(t: string) returns (r: Option<seq<byte>>)
    ensures r == HexBytes(t)
  {
    if |t| % 2 == 1 {
      HexOdd(t);
      return None;
    }
    var bytes: seq<byte> := [];
    for i := 0 to |t| / 2
      invariant HexBytes(t[..2 * i]) == Some(bytes)
    {
      HexNext(t, i);
      var hi, lo := HexValue(t[2 * i]), HexValue(t[2 * i + 1]);
      if hi < 0 || lo < 0 {
        HexStops(t, i + 1);
        return None;
      }
      HexCharOf(t[2 * i]);
      HexCharOf(t[2 * i + 1]);
      bytes := bytes + [16 * hi + lo];
    }
    assert t[..|t|] == t;
    r := Some(bytes);
  }

  // ---- The legacy form ----

  /** The check bytes of 64 key bytes, and the address of two keys. */
  datatype Hashes = Hashes(check: seq<byte> -> seq<byte>, address: Keys -> seq<nat>)

  predicate LegacyForm(s: string) {
    |s| == 141 && "qday1" <= s
  }

  function LegacyText(h: Hashes, k: Keys): string {
    var keys := k.classical + k.reserve;
    "qday1" + HexText(keys + h.check(keys))
  }

  function LegacyParsed(h: Hashes, s: string): Result<seq<nat>>
    requires LegacyForm(s)
  {
    var b := HexBytes(s[5..]);
    if b.None? then Err
    else
      HexCanonical(s[5..]);
      var k := Keys(b.value[..32], b.value[32..64]);
      if h.check(b.value[..64]) != b.value[64..] || !W.ValidKeys(k) then Err else Ok(h.address(k))
  }

  /** Keys as they are: 32 bytes each. */
  predicate Sized(k: Keys) {
    |k.classical| == 32 && |k.reserve| == 32
  }

  /** Every legacy address of valid keys parses to the address of the keys. */
  lemma {:induction false} LegacyRoundTrip(h: Hashes, k: Keys)
    requires Sized(k) && W.ValidKeys(k) && |h.check(k.classical + k.reserve)| == 4
    ensures LegacyForm(LegacyText(h, k)) && LegacyParsed(h, LegacyText(h, k)) == Ok(h.address(k))
  {
    var keys := k.classical + k.reserve;
    var b := keys + h.check(keys);
    HexRoundTrip(b);
    assert LegacyText(h, k)[5..] == HexText(b);
    assert b[..32] == k.classical && b[32..64] == k.reserve && b[..64] == keys && b[64..] == h.check(keys);
  }

  /** Every accepted legacy string spells, in lower case, valid keys with their check bytes, and parses to
      their address. */
  lemma {:induction false} LegacyCanonical(h: Hashes, s: string) returns (k: Keys)
    requires LegacyForm(s) && LegacyParsed(h, s).Ok?
    ensures Sized(k) && W.ValidKeys(k) && LegacyParsed(h, s) == Ok(h.address(k))
    ensures s[..5] == "qday1" && Lower(s[5..]) == LegacyText(h, k)[5..]
  {
    var b := HexBytes(s[5..]).value;
    HexCanonical(s[5..]);
    k := Keys(b[..32], b[32..64]);
    assert b == b[..64] + b[64..] && b[..64] == k.classical + k.reserve;
  }

  method ParseLegacy(h: Hashes, s: string) returns (r: Result<seq<nat>>)
    requires LegacyForm(s)
    ensures r == LegacyParsed(h, s)
  {
    var d := DecodeHex(s[5..]);
    if d.None? {
      return Err;
    }
    HexCanonical(s[5..]);
    var b := d.value;
    if h.check(b[..64]) != b[64..] {
      return Err;
    }
    var k := Keys(b[..32], b[32..64]);
    if !W.ValidKeys(k) {
      return Err;
    }
    r := Ok(h.address(k));
  }

  /** ParseQdayAddress. */
  method Parse(h: Hashes, s: string) returns (r: Result<seq<nat>>)
    ensures r == if LegacyForm(s) then LegacyParsed(h, s) else Parsed(s)
  {
    if |s| == 141 && "qday1" <= s {
      r := ParseLegacy(h, s);
    } else {
      r := ParseBech32(s);
    }
  }
}
