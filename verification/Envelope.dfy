/** The fixed-width envelope carried in a transaction's arbitrary data. */
module Envelope {
  import opened Types
  import opened Swap

  const TRANSFER: byte := 1
  const COINBASE: byte := 2
  const CANARY_PROOF: byte := 3
  const MINING_WORK: byte := 4

  /** "QDAY" and the rules version. */
  const MAGIC: seq<byte> := [0x51, 0x44, 0x41, 0x59, 2]

  datatype Envelope = Envelope(kind: byte, nonce: nat, keys: seq<Keys>, secret: seq<byte>)

  const NO_SECRET: seq<byte> := [0, 0, 0, 0, 0, 0, 0, 0, 0, 0, 0, 0, 0, 0, 0, 0,
                                 0, 0, 0, 0, 0, 0, 0, 0, 0, 0, 0, 0, 0, 0, 0, 0]

  /** n in little-endian order on k bytes, and back. */
  function LittleEndian(n: nat, k: nat): (b: seq<byte>)
    ensures |b| == k
  {
    if k == 0 then [] else [n % 256] + LittleEndian(n / 256, k - 1)
  }

  function FromLittleEndian(b: seq<byte>): nat {
    if b == [] then 0 else b[0] + 256 * FromLittleEndian(b[1..])
  }

  function Pow256(k: nat): nat {
    if k == 0 then 1 else 256 * Pow256(k - 1)
  }

  lemma {:induction false} EndianRoundTrip(n: nat, k: nat)
    requires n < Pow256(k)
    ensures FromLittleEndian(LittleEndian(n, k)) == n
  {
    if k > 0 {
      EndianRoundTrip(n / 256, k - 1);
      assert LittleEndian(n, k)[1..] == LittleEndian(n / 256, k - 1);
    }
  }

  lemma {:induction false} FirstByte(d: byte, m: nat, p: nat)
    requires m < p
    ensures (d + 256 * m) % 256 == d && (d + 256 * m) / 256 == m && d + 256 * m < 256 * p
  {}

  lemma {:induction false} EndianCanonical(b: seq<byte>)
    ensures FromLittleEndian(b) < Pow256(|b|) && LittleEndian(FromLittleEndian(b), |b|) == b
  {
    if b != [] {
      EndianCanonical(b[1..]);
      FirstByte(b[0], FromLittleEndian(b[1..]), Pow256(|b| - 1));
      assert b == [b[0]] + b[1..];
    }
  }

  function KeyBytes(keys: seq<Keys>): seq<byte> {
    if keys == [] then [] else KeyBytes(keys[..|keys| - 1]) + keys[|keys| - 1].classical + keys[|keys| - 1].reserve
  }

  predicate Sized(k: Keys) {
    |k.classical| == 32 && |k.reserve| == 32
  }

  lemma {:induction false} KeyBytesLength(keys: seq<Keys>)
    requires forall i :: 0 <= i < |keys| ==> Sized(keys[i])
    ensures |KeyBytes(keys)| == 64 * |keys|
  {
    if keys != [] { KeyBytesLength(keys[..|keys| - 1]); }
  }

  /** What the envelope means: every field within its width. */
  predicate WellFormed(e: Envelope) {
    && TRANSFER <= e.kind <= MINING_WORK && e.nonce < 0x1_0000_0000_0000_0000 && |e.keys| <= 128
    && (forall i :: 0 <= i < |e.keys| ==> Sized(e.keys[i]) && ValidKeys(e.keys[i]))
    && |e.secret| == 32 && (e.kind != CANARY_PROOF ==> e.secret == NO_SECRET)
  }

  function Encoded(e: Envelope): seq<byte> {
    MAGIC + [e.kind] + LittleEndian(e.nonce, 8) + LittleEndian(|e.keys|, 2) + KeyBytes(e.keys)
    + (if e.kind == CANARY_PROOF then e.secret else [])
  }

  method Encode(e: Envelope) returns (b: seq<byte>)
    ensures b == Encoded(e)
  {
    b := MAGIC + [e.kind];
    b := b + LittleEndian(e.nonce, 8);
    b := b + LittleEndian(|e.keys|, 2);
    ghost var head := b;
    for i := 0 to |e.keys|
      invariant b == head + KeyBytes(e.keys[..i])
    {
      assert e.keys[..i + 1][..i] == e.keys[..i];
      b := b + e.keys[i].classical + e.keys[i].reserve;
    }
    assert e.keys[..|e.keys|] == e.keys;
    if e.kind == CANARY_PROOF {
      b := b + e.secret;
    }
  }

  /** The i-th key pair of an encoding. */
  function KeyAt(b: seq<byte>, i: nat): Keys
    requires |b| >= 80 + 64 * i
  {
    Keys(b[16 + 64 * i..48 + 64 * i], b[48 + 64 * i..80 + 64 * i])
  }

  function KeysOf(b: seq<byte>, n: nat): (keys: seq<Keys>)
    requires |b| >= 16 + 64 * n
    ensures |keys| == n
  {
    seq(n, i requires 0 <= i < n => KeyAt(b, i))
  }

  function Parsed(b: seq<byte>): Result<Envelope> {
    if |b| < 16 || b[..5] != MAGIC then Err
    else
      var kind, n, w := b[5], FromLittleEndian(b[14..16]), if b[5] == CANARY_PROOF then 32 else 0;
      if kind < TRANSFER || kind > MINING_WORK || n > 128 || |b| != 16 + 64 * n + w then Err
      else if exists i :: 0 <= i < n && !ValidKeys(KeyAt(b, i)) then Err
      else Ok(Envelope(kind, FromLittleEndian(b[6..14]), KeysOf(b, n), if w == 32 then b[|b| - 32..] else NO_SECRET))
  }

  method Parse(b: seq<byte>) returns (r: Result<Envelope>)
    ensures r == Parsed(b)
  {
    if |b| < 16 || b[..5] != MAGIC {
      return Err;
    }
    var kind := b[5];
    var nonce := FromLittleEndian(b[6..14]);
    var n := FromLittleEndian(b[14..16]);
    var w := 0;
    if kind == CANARY_PROOF {
      w := 32;
    }
    if kind < TRANSFER || kind > MINING_WORK || n > 128 || |b| != 16 + 64 * n + w {
      return Err;
    }
    var keys := [];
    for i := 0 to n
      invariant keys == KeysOf(b, i)
      invariant forall j :: 0 <= j < i ==> ValidKeys(KeyAt(b, j))
    {
      var k := Keys(b[16 + 64 * i..48 + 64 * i], b[48 + 64 * i..80 + 64 * i]);
      if !ValidKeys(k) {
        assert !ValidKeys(KeyAt(b, i));
        return Err;
      }
      keys := keys + [k];
    }
    var secret := if w != 0 then b[|b| - 32..] else NO_SECRET;
    r := Ok(Envelope(kind, nonce, keys, secret));
  }

  lemma {:induction false} KeySlice(b: seq<byte>, n: nat, k: Keys, tail: seq<byte>)
    requires Sized(k) && |b| >= 16 + 64 * n && b[16 + 64 * n..] == k.classical + k.reserve + tail
    ensures |b| == 16 + 64 * (n + 1) + |tail| && KeyAt(b, n) == k
  {
    var rest := b[16 + 64 * n..];
    assert rest[..32] == k.classical && rest[32..64] == k.reserve;
  }

  lemma {:induction false} Regrouped(f: seq<byte>, c: seq<byte>, r: seq<byte>, t: seq<byte>)
    ensures f + c + r + t == f + (c + r + t)
  {}

  lemma {:induction false} DropFront(b: seq<byte>, from: nat, front: seq<byte>, rest: seq<byte>)
    requires from <= |b| && b[from..] == front + rest
    ensures from + |front| <= |b| && b[from + |front|..] == rest
  {
    assert b[from + |front|..] == b[from..][|front|..];
  }

  lemma {:induction false} LastKey(b: seq<byte>, keys: seq<Keys>, tail: seq<byte>)
    requires keys != [] && |b| >= 16 && b[16..] == KeyBytes(keys) + tail
    requires |KeyBytes(keys[..|keys| - 1])| == 64 * (|keys| - 1)
    ensures var n := |keys| - 1; var rest := keys[n].classical + keys[n].reserve + tail;
            b[16..] == KeyBytes(keys[..n]) + rest && |b| >= 16 + 64 * n && b[16 + 64 * n..] == rest
  {
    var n := |keys| - 1;
    Regrouped(KeyBytes(keys[..n]), keys[n].classical, keys[n].reserve, tail);
    DropFront(b, 16, KeyBytes(keys[..n]), keys[n].classical + keys[n].reserve + tail);
  }

  lemma {:induction false} KeyBytesSlices(b: seq<byte>, keys: seq<Keys>, tail: seq<byte>)
    requires forall i :: 0 <= i < |keys| ==> Sized(keys[i])
    requires |b| >= 16 && b[16..] == KeyBytes(keys) + tail
    ensures |b| == 16 + 64 * |keys| + |tail| && KeysOf(b, |keys|) == keys
  {
    if keys != [] {
      hide KeyBytes, KeyAt;
      var n := |keys| - 1;
      KeyBytesLength(keys[..n]);
      LastKey(b, keys, tail);
      KeyBytesSlices(b, keys[..n], keys[n].classical + keys[n].reserve + tail);
      KeySlice(b, n, keys[n], tail);
      assert KeysOf(b, |keys|) == KeysOf(b, n) + [KeyAt(b, n)];
    }
  }

  function Tail(e: Envelope): seq<byte> {
    if e.kind == CANARY_PROOF then e.secret else []
  }

  lemma {:induction false} EncodedFields(e: Envelope)
    ensures var b := Encoded(e);
            && |b| >= 16 && b[..5] == MAGIC && b[5] == e.kind && b[6..14] == LittleEndian(e.nonce, 8)
            && b[14..16] == LittleEndian(|e.keys|, 2) && b[16..] == KeyBytes(e.keys) + Tail(e)
  {}

  lemma {:induction false} EncodedNumbers(e: Envelope)
    requires WellFormed(e)
    ensures FromLittleEndian(LittleEndian(e.nonce, 8)) == e.nonce
    ensures FromLittleEndian(LittleEndian(|e.keys|, 2)) == |e.keys|
  {
    assert Pow256(8) == 0x1_0000_0000_0000_0000 && Pow256(2) == 65536;
    EndianRoundTrip(e.nonce, 8);
    EndianRoundTrip(|e.keys|, 2);
  }

  lemma {:induction false} EncodedTail(e: Envelope, b: seq<byte>)
    requires WellFormed(e) && |b| >= 16 && b[16..] == KeyBytes(e.keys) + Tail(e)
    ensures |b| == 16 + 64 * |e.keys| + |Tail(e)| && KeysOf(b, |e.keys|) == e.keys && b[16 + 64 * |e.keys|..] == Tail(e)
    ensures forall i :: 0 <= i < |e.keys| ==> KeyAt(b, i) == e.keys[i]
  {
    hide KeyBytes, KeyAt, Tail;
    KeyBytesSlices(b, e.keys, Tail(e));
    assert forall i :: 0 <= i < |e.keys| ==> KeyAt(b, i) == KeysOf(b, |e.keys|)[i];
    KeyBytesLength(e.keys);
    assert b[16..][64 * |e.keys|..] == Tail(e);
    assert b[16 + 64 * |e.keys|..] == b[16..][64 * |e.keys|..];
  }

  /** Parsing undoes encoding. */
  lemma {:induction false} ParseEncode(e: Envelope)
    requires WellFormed(e)
    ensures Parsed(Encoded(e)) == Ok(e) && |Encoded(e)| == 16 + 64 * |e.keys| + if e.kind == CANARY_PROOF then 32 else 0
  {
    hide KeyBytes, KeyAt, LittleEndian, FromLittleEndian, Encoded;
    EncodedFields(e);
    EncodedNumbers(e);
    EncodedTail(e, Encoded(e));
  }

  lemma {:induction false} KeyBytesOf(b: seq<byte>, n: nat)
    requires |b| >= 16 + 64 * n
    ensures KeyBytes(KeysOf(b, n)) == b[16..16 + 64 * n]
  {
    if n > 0 {
      KeyBytesOf(b, n - 1);
      assert KeysOf(b, n)[..n - 1] == KeysOf(b, n - 1);
      assert b[16..16 + 64 * n] == b[16..16 + 64 * (n - 1)] + KeyAt(b, n - 1).classical + KeyAt(b, n - 1).reserve;
    }
  }

  lemma {:induction false} KeyAtSized(b: seq<byte>, i: nat)
    requires |b| >= 16 + 64 * (i + 1)
    ensures Sized(KeyAt(b, i))
  {}

  lemma {:induction false} ParsedWell(b: seq<byte>)
    requires Parsed(b).Ok?
    ensures WellFormed(Parsed(b).value)
  {
    hide KeyAt, FromLittleEndian;
    var e := Parsed(b).value;
    assert Pow256(8) == 0x1_0000_0000_0000_0000;
    EndianCanonical(b[6..14]);
    forall i | 0 <= i < |e.keys|
      ensures Sized(e.keys[i]) && ValidKeys(e.keys[i])
    {
      assert e.keys[i] == KeyAt(b, i);
      KeyAtSized(b, i);
    }
  }

  lemma {:induction false} Pieces(b: seq<byte>, n: nat)
    requires |b| >= 16 + n
    ensures b == b[..5] + [b[5]] + b[6..14] + b[14..16] + b[16..16 + n] + b[16 + n..]
  {}

  /** Every accepted envelope is well formed and is the only encoding of what it means. */
  lemma {:induction false} EncodeParse(b: seq<byte>)
    requires Parsed(b).Ok?
    ensures WellFormed(Parsed(b).value) && Encoded(Parsed(b).value) == b
  {
    hide KeyBytes, KeyAt, LittleEndian, FromLittleEndian, WellFormed;
    var n := |Parsed(b).value.keys|;
    ParsedWell(b);
    EndianCanonical(b[6..14]);
    EndianCanonical(b[14..16]);
    KeyBytesOf(b, n);
    Pieces(b, 64 * n);
  }
}
